/**
 The quiz-version rule: the current version is the largest `quiz_version`
 in the question bank, read as `MAX(quiz_version) or 1`, and the quiz a
 student takes is every question carrying that version.
 */
module Versioning {
  import opened Store

  /** m is the largest version in a non-empty bank. */
  ghost predicate IsMaxVersion(qs: seq<Question>, m: int) {
    && (exists i :: 0 <= i < |qs| && qs[i].version == m)
    && (forall i :: 0 <= i < |qs| ==> qs[i].version <= m)
  }

  /** `SELECT MAX(quiz_version) FROM questions` on a non-empty table. */
  function MaxVersion(qs: seq<Question>): (m: int)
    requires |qs| > 0
    ensures IsMaxVersion(qs, m)
  {
    if |qs| == 1 then qs[0].version
    else
      var rest := MaxVersion(qs[1..]);
      assert forall i :: 1 <= i < |qs| ==> qs[i] == qs[1..][i - 1];
      if qs[0].version >= rest then qs[0].version else rest
  }

  /**
   `MAX(quiz_version) or 1`: an empty table gives NULL and a maximum of 0 is
   falsy, and both fall back to 1; every other maximum is kept, so the
   result is never 0.
   */
  function CurrentVersion(qs: seq<Question>): (v: int)
    ensures v != 0
    ensures |qs| == 0 ==> v == 1
    ensures |qs| > 0 ==> IsMaxVersion(qs, v) || (v == 1 && IsMaxVersion(qs, 0))
  {
    if |qs| == 0 then 1
    else
      var m := MaxVersion(qs);
      if m == 0 then 1 else m
  }

  function VersionIs(version: int): Question -> bool {
    (q: Question) => q.version == version
  }

  /** `SELECT * FROM questions WHERE quiz_version = ?`. */
  function QuizQuestions(qs: seq<Question>, version: int): seq<Question> {
    Where(qs, VersionIs(version))
  }

  /** The current version is fixed by the maximum version alone. */
  lemma CurrentVersionOfMax(qs: seq<Question>, m: int)
    requires IsMaxVersion(qs, m)
    ensures CurrentVersion(qs) == if m == 0 then 1 else m
  {
  }

  /** Once the bank is in use (every version at least 1), the current version bounds every version. */
  lemma CurrentVersionBoundsAll(qs: seq<Question>)
    requires VersionsPositive(qs)
    ensures forall i :: 0 <= i < |qs| ==> 1 <= qs[i].version <= CurrentVersion(qs)
    ensures |qs| > 0 ==> IsMaxVersion(qs, CurrentVersion(qs))
  {
  }

  /** Banks whose rows carry the same versions, row by row, have the same current version. */
  lemma SameVersionsSameCurrent(a: seq<Question>, b: seq<Question>)
    requires |a| == |b|
    requires forall i :: 0 <= i < |a| ==> a[i].version == b[i].version
    ensures CurrentVersion(a) == CurrentVersion(b)
  {
  }

  /** No row carries a version above the current one. */
  lemma CurrentVersionIsUpperBound(qs: seq<Question>)
    ensures forall i :: 0 <= i < |qs| ==> qs[i].version <= CurrentVersion(qs)
  {
  }

  /**
   Appending a question one above the current version raises the current
   version by exactly one, and that version's quiz is the new question alone.
   The one exception is a current version of -1, where the new version 0 is
   read back as 1; rows written by the application never lead there.
   */
  lemma AppendBumpsVersion(qs: seq<Question>, q: Question)
    requires q.version == CurrentVersion(qs) + 1
    requires CurrentVersion(qs) != -1
    ensures CurrentVersion(qs + [q]) == CurrentVersion(qs) + 1
    ensures QuizQuestions(qs + [q], CurrentVersion(qs + [q])) == [q]
  {
    var v := CurrentVersion(qs);
    var all := qs + [q];
    CurrentVersionIsUpperBound(qs);
    assert all[|qs|] == q;
    assert forall i :: 0 <= i < |qs| ==> all[i] == qs[i];
    assert IsMaxVersion(all, v + 1);
    CurrentVersionOfMax(all, v + 1);
    AppendAboveIsAlone(qs, q);
  }

  /** Appending a row one above the current version makes it the only row of its version. */
  lemma AppendAboveIsAlone(qs: seq<Question>, q: Question)
    requires q.version == CurrentVersion(qs) + 1
    ensures QuizQuestions(qs + [q], q.version) == [q]
  {
    CurrentVersionIsUpperBound(qs);
    WhereNoneKept(qs, VersionIs(q.version));
    WhereAppend(qs, q, VersionIs(q.version));
  }

  /** Two appends in a row, each one above the current version: two versions of one question each, on any bank. */
  lemma AppendTwice(qs: seq<Question>, q1: Question, q2: Question)
    requires q1.version == CurrentVersion(qs) + 1
    requires q2.version == CurrentVersion(qs + [q1]) + 1
    ensures q1.version != q2.version
    ensures QuizQuestions(qs + [q1] + [q2], q1.version) == [q1]
    ensures QuizQuestions(qs + [q1] + [q2], q2.version) == [q2]
  {
    var qs1 := qs + [q1];
    CurrentVersionIsUpperBound(qs1);
    assert qs1[|qs|] == q1;
    AppendAboveIsAlone(qs, q1);
    AppendAboveIsAlone(qs1, q2);
    assert !VersionIs(q1.version)(q2);
    WhereAppend(qs1, q2, VersionIs(q1.version));
  }

  /** The -1 exception: the current version jumps from -1 to 1, not to 0. */
  lemma AppendAfterMinusOne(q0: Question, q: Question)
    requires q0.version == -1
    requires q.version == 0
    ensures CurrentVersion([q0]) == -1
    ensures CurrentVersion([q0, q]) == 1
  {
  }
}
