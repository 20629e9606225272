/**
 Grading a submission: question i of the quiz (counting from 1) is answered
 correctly when the form's `selected_option_i` is exactly the decimal text
 of its correct option. A missing selection is wrong.
 */
module Grading {
  import opened Store
  import opened PyInt

  /** The submitted form: position i maps to the value of `selected_option_i`. */
  type Selection = map<int, string>

  /** The answer at 1-based `position` is the text of `q`'s correct option. */
  predicate Matches(q: Question, selected: Selection, position: int) {
    position in selected && selected[position] == IntToText(q.correctOption)
  }

  /** One mark per quiz question, in quiz order: true when answered correctly. */
  function Marks(quiz: seq<Question>, selected: Selection): (marks: seq<bool>)
    ensures |marks| == |quiz|
    ensures forall k :: 0 <= k < |quiz| ==> (marks[k] <==> Matches(quiz[k], selected, k + 1))
  {
    seq(|quiz|, k requires 0 <= k < |quiz| => Matches(quiz[k], selected, k + 1))
  }

  /** The number of true marks among the first n. */
  function CountTrue(marks: seq<bool>, n: nat): (c: nat)
    requires n <= |marks|
    ensures c <= n
  {
    if n == 0 then 0 else CountTrue(marks, n - 1) + (if marks[n - 1] then 1 else 0)
  }

  /** The score recorded for a submission: how many questions were answered correctly. */
  function Grade(quiz: seq<Question>, selected: Selection): (score: nat)
    ensures score <= |quiz|
  {
    var marks := Marks(quiz, selected);
    CountTrue(marks, |marks|)
  }

  /** The questions answered correctly, by 0-based index into the quiz. */
  ghost function CorrectIndices(quiz: seq<Question>, selected: Selection): set<int> {
    set k | 0 <= k < |quiz| && Matches(quiz[k], selected, k + 1)
  }

  lemma {:induction false} CountTrueIsCardinality(marks: seq<bool>, n: nat)
    requires n <= |marks|
    ensures CountTrue(marks, n) == |set k | 0 <= k < n && marks[k]|
  {
    if n > 0 {
      CountTrueIsCardinality(marks, n - 1);
      var before := set k | 0 <= k < n - 1 && marks[k];
      var now := set k | 0 <= k < n && marks[k];
      if marks[n - 1] {
        assert now == before + {n - 1};
      } else {
        assert now == before;
      }
    }
  }

  lemma {:induction false} CountTrueFullIff(marks: seq<bool>, n: nat)
    requires n <= |marks|
    ensures CountTrue(marks, n) == n <==> forall k :: 0 <= k < n ==> marks[k]
  {
    if n > 0 {
      CountTrueFullIff(marks, n - 1);
    }
  }

  lemma {:induction false} CountTrueZeroIff(marks: seq<bool>, n: nat)
    requires n <= |marks|
    ensures CountTrue(marks, n) == 0 <==> forall k :: 0 <= k < n ==> !marks[k]
  {
    if n > 0 {
      CountTrueZeroIff(marks, n - 1);
    }
  }

  /** The score is the number of questions answered correctly. */
  lemma GradeCountsCorrectAnswers(quiz: seq<Question>, selected: Selection)
    ensures Grade(quiz, selected) == |CorrectIndices(quiz, selected)|
  {
    var marks := Marks(quiz, selected);
    CountTrueIsCardinality(marks, |marks|);
    assert (set k | 0 <= k < |marks| && marks[k]) == CorrectIndices(quiz, selected);
  }

  /** Full marks exactly when every question is answered correctly. */
  lemma FullMarksIff(quiz: seq<Question>, selected: Selection)
    ensures Grade(quiz, selected) == |quiz| <==> forall k :: 0 <= k < |quiz| ==> Matches(quiz[k], selected, k + 1)
  {
    CountTrueFullIff(Marks(quiz, selected), |quiz|);
  }

  /** Zero exactly when no question is answered correctly; an empty form scores 0. */
  lemma ZeroIff(quiz: seq<Question>, selected: Selection)
    ensures Grade(quiz, selected) == 0 <==> forall k :: 0 <= k < |quiz| ==> !Matches(quiz[k], selected, k + 1)
    ensures selected == map[] ==> Grade(quiz, selected) == 0
  {
    CountTrueZeroIff(Marks(quiz, selected), |quiz|);
  }

  /**
   A browser submits option number k as the text of k; that selection is
   correct exactly when k is the question's correct option.
   */
  lemma SelectingOptionMatchesIff(q: Question, selected: Selection, position: int, k: int)
    requires position in selected && selected[position] == IntToText(k)
    ensures Matches(q, selected, position) <==> k == q.correctOption
  {
    IntToTextInjective(k, q.correctOption);
  }

  /** Only positions 1..|quiz| are read: other form entries never change the score. */
  lemma GradeIgnoresOtherPositions(quiz: seq<Question>, a: Selection, b: Selection)
    requires forall i :: 1 <= i <= |quiz| ==> (i in a <==> i in b) && (i in a ==> a[i] == b[i])
    ensures Grade(quiz, a) == Grade(quiz, b)
  {
    assert Marks(quiz, a) == Marks(quiz, b);
  }
}
