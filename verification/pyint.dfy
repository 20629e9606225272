/**
 Decimal text of integers, as Python's `str(int)` writes it and as
 `int(text)` reads it back. The quiz stores the correct option as an
 integer parsed from form text and grades a submission by comparing the
 submitted text with `str` of that integer.
 */
module PyInt {
  import opened Optional

  predicate IsDigit(c: char) {
    '0' <= c <= '9'
  }

  function DigitValue(c: char): (d: nat)
    requires IsDigit(c)
    ensures d < 10
  {
    (c as int) - ('0' as int)
  }

  function DigitChar(d: nat): (c: char)
    requires d < 10
    ensures IsDigit(c) && DigitValue(c) == d
  {
    (('0' as int) + d) as char
  }

  /** `str(n)` for n >= 0: at least one digit, and no leading zero except for "0" itself. */
  function NatToText(n: nat): (s: string)
    ensures |s| >= 1
    ensures forall i :: 0 <= i < |s| ==> IsDigit(s[i])
    ensures s[0] == '0' ==> s == "0"
    ensures n == 0 <==> s == "0"
    decreases n
  {
    if n < 10 then [DigitChar(n)] else NatToText(n / 10) + [DigitChar(n % 10)]
  }

  /** `str(n)`: a minus sign exactly for negative numbers, then the digits of |n|. */
  function IntToText(n: int): (s: string)
    ensures |s| >= 1
    ensures s[0] == '-' <==> n < 0
  {
    if n < 0 then "-" + NatToText(-n) else NatToText(n)
  }

  predicate IsDigits(s: string) {
    |s| >= 1 && forall i :: 0 <= i < |s| ==> IsDigit(s[i])
  }

  /** The value of a string of decimal digits, most significant first. */
  function DigitsValue(s: string): nat
    requires forall i :: 0 <= i < |s| ==> IsDigit(s[i])
  {
    if |s| == 0 then 0 else DigitsValue(s[..|s| - 1]) * 10 + DigitValue(s[|s| - 1])
  }

  /**
   `int(text)` on form text: an optional sign followed by ASCII digits.
   None stands for the ValueError Python raises on anything else.
   */
  function ParseInt(s: string): Option<int> {
    if |s| >= 1 && (s[0] == '-' || s[0] == '+') then
      if IsDigits(s[1..]) then
        var magnitude: int := DigitsValue(s[1..]);
        Some(if s[0] == '-' then -magnitude else magnitude)
      else
        None
    else if IsDigits(s) then
      Some(DigitsValue(s))
    else
      None
  }

  lemma {:induction false} DigitsValueOfNatToText(n: nat)
    ensures DigitsValue(NatToText(n)) == n
  {
    if n >= 10 {
      var p := NatToText(n / 10);
      var s := NatToText(n);
      assert s == p + [DigitChar(n % 10)];
      assert s[..|s| - 1] == p;
      DigitsValueOfNatToText(n / 10);
    }
  }

  /** Reading back what `str` wrote gives the original integer. */
  lemma ParseIntRoundTrip(n: int)
    ensures ParseInt(IntToText(n)) == Some(n)
  {
    var s := IntToText(n);
    if n < 0 {
      assert s[1..] == NatToText(-n);
      DigitsValueOfNatToText(-n);
    } else {
      DigitsValueOfNatToText(n);
    }
  }

  /** Two integers have the same decimal text exactly when they are equal. */
  lemma IntToTextInjective(a: int, b: int)
    ensures IntToText(a) == IntToText(b) <==> a == b
  {
    ParseIntRoundTrip(a);
    ParseIntRoundTrip(b);
  }

  /** `int` accepts spellings that `str` never writes, such as a leading zero. */
  lemma ParseIntAcceptsLeadingZero()
    ensures ParseInt("07") == Some(7)
    ensures IntToText(7) != "07"
  {
    assert DigitsValue("0") == 0;
    assert "07"[..1] == "0";
    assert NatToText(7) == "7";
  }
}
