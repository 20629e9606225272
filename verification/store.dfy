/**
 The quiz database as an immutable value: the users, questions, scores and
 settings tables, and the invariant the request handlers keep.
 */
module Store {
  import opened Optional

  type Username = string

  /** Roles are free text: registration stores whatever the form sent. */
  type Role = string

  const TEACHER: Role := "teacher"
  const STUDENT: Role := "student"

  /** The quiz duration written by the schema bootstrap, in minutes. */
  const DEFAULT_DURATION: string := "5"

  /** SQLite's INTEGER range; Python's sqlite3 raises OverflowError when asked to bind anything outside it. */
  const INTEGER_MIN: int := -0x8000_0000_0000_0000
  const INTEGER_LIMIT: int := 0x8000_0000_0000_0000

  predicate Bindable(x: int) {
    INTEGER_MIN <= x < INTEGER_LIMIT
  }

  /** The four option texts of a question, option1 to option4. */
  type Options = s: seq<string> | |s| == 4 witness ["", "", "", ""]

  datatype Question = Question(id: int, text: string, options: Options, correctOption: int, version: int)

  datatype Score = Score(username: Username, score: int, total: int, version: int)

  /** The settings table holds at most the single row with id 1; its duration may be NULL. */
  datatype Settings = NoSettingsRow | SettingsRow(quizDuration: Option<string>)

  /**
   `questions` is kept in ascending id order, the order in which a table scan
   returns rows; `nextQuestionId` is the next id AUTOINCREMENT hands out, so an
   id is never reused. `scores` is in insertion order.
   */
  datatype Db = Db(
    users: map<Username, Role>,
    questions: seq<Question>,
    nextQuestionId: int,
    scores: seq<Score>,
    settings: Settings)

  /**
   The database once both setup scripts have run: init_db.py creates the
   users table, and app.py's `init_db` creates the others and inserts the
   settings row with a duration of 5.
   */
  const Init: Db := Db(map[], [], 1, [], SettingsRow(Some(DEFAULT_DURATION)))

  /** `SELECT * FROM questions WHERE <keep>`: the kept rows, in table order. */
  function Where(qs: seq<Question>, keep: Question -> bool): (r: seq<Question>)
    ensures forall q :: q in r <==> q in qs && keep(q)
    ensures |r| <= |qs|
    ensures IdsAscending(qs) ==> IdsAscending(r)
  {
    if |qs| == 0 then []
    else
      var last := qs[|qs| - 1];
      var kept := Where(qs[..|qs| - 1], keep);
      assert IdsAscending(qs) ==> forall k :: 0 <= k < |kept| ==> kept[k].id < last.id by {
        if IdsAscending(qs) {
          forall k | 0 <= k < |kept|
            ensures kept[k].id < last.id
          {
            assert kept[k] in qs[..|qs| - 1];
            var m :| 0 <= m < |qs| - 1 && qs[..|qs| - 1][m] == kept[k];
          }
        }
      }
      kept + (if keep(last) then [last] else [])
  }

  lemma WhereAppend(qs: seq<Question>, q: Question, keep: Question -> bool)
    ensures Where(qs + [q], keep) == Where(qs, keep) + (if keep(q) then [q] else [])
  {
    assert (qs + [q])[..|qs|] == qs;
  }

  lemma WhereNoneKept(qs: seq<Question>, keep: Question -> bool)
    requires forall i :: 0 <= i < |qs| ==> !keep(qs[i])
    ensures Where(qs, keep) == []
  {
    if |qs| > 0 {
      WhereNoneKept(qs[..|qs| - 1], keep);
    }
  }

  /** `SELECT 1 FROM scores WHERE username = ?` finds a row. */
  predicate HasAttempted(scores: seq<Score>, username: Username) {
    exists i :: 0 <= i < |scores| && scores[i].username == username
  }

  ghost predicate IdsAscending(qs: seq<Question>) {
    forall i, j :: 0 <= i < j < |qs| ==> qs[i].id < qs[j].id
  }

  ghost predicate IdsBelow(qs: seq<Question>, next: int) {
    forall i :: 0 <= i < |qs| ==> qs[i].id < next
  }

  /** Every version the application writes is at least 1 (the column default is 1). */
  ghost predicate VersionsPositive(qs: seq<Question>) {
    forall i :: 0 <= i < |qs| ==> qs[i].version >= 1
  }

  ghost predicate OneScorePerUser(scores: seq<Score>) {
    forall i, j :: 0 <= i < |scores| && 0 <= j < |scores| && scores[i].username == scores[j].username ==> i == j
  }

  ghost predicate ScoresInRange(scores: seq<Score>) {
    forall i :: 0 <= i < |scores| ==> 0 <= scores[i].score <= scores[i].total
  }

  ghost predicate Inv(db: Db) {
    && IdsAscending(db.questions)
    && IdsBelow(db.questions, db.nextQuestionId)
    && VersionsPositive(db.questions)
    && OneScorePerUser(db.scores)
    && ScoresInRange(db.scores)
  }

  lemma InitSatisfiesInv()
    ensures Inv(Init)
  {
  }
}
