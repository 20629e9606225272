/**
 The teacher's routes: the dashboard that lists, adds, edits and deletes
 questions, the separate delete route, the settings update and the results
 view. Only the question bank and the settings row are ever written here.
 */
module Teacher {
  import opened Optional
  import opened Store
  import opened Web
  import opened PyInt
  import opened Versioning

  /** The question fields of the add and edit forms; the correct option is still text. */
  datatype QuestionForm = QuestionForm(text: string, options: Options, correctOption: string)

  /** A dashboard request, told apart by which form keys are present. */
  datatype DashboardRequest =
    | ListQuestions
    | DeleteById(deleteId: int)
    | EditById(editId: int, form: QuestionForm)
    | AddQuestion(form: QuestionForm)

  function IdIsNot(id: int): Question -> bool {
    (q: Question) => q.id != id
  }

  /** `DELETE FROM questions WHERE id = ?`. */
  function DeleteRow(qs: seq<Question>, id: int): seq<Question> {
    Where(qs, IdIsNot(id))
  }

  /**
   `UPDATE questions SET question, option1..4, correct_option WHERE id = ?`:
   the row with that id gets the new text, options and correct option;
   every other row, and every id and version, stays as it was.
   */
  function EditRow(qs: seq<Question>, id: int, text: string, options: Options, correct: int): (r: seq<Question>)
    ensures |r| == |qs|
    ensures forall i :: 0 <= i < |qs| ==> r[i].id == qs[i].id && r[i].version == qs[i].version
    ensures forall i :: 0 <= i < |qs| && qs[i].id != id ==> r[i] == qs[i]
    ensures forall i :: 0 <= i < |qs| && qs[i].id == id ==>
              r[i].text == text && r[i].options == options && r[i].correctOption == correct
  {
    if |qs| == 0 then []
    else
      var last := qs[|qs| - 1];
      var edited := if last.id == id then last.(text := text, options := options, correctOption := correct) else last;
      EditRow(qs[..|qs| - 1], id, text, options, correct) + [edited]
  }

  /** The row an add inserts: the submitted fields, the next AUTOINCREMENT id, one version above the current one. */
  function NewQuestion(db: Db, text: string, options: Options, correct: int): (q: Question)
    ensures q.text == text && q.options == options && q.correctOption == correct
    ensures q.id == db.nextQuestionId
    ensures forall i :: 0 <= i < |db.questions| && IdsBelow(db.questions, db.nextQuestionId) ==> db.questions[i].id < q.id
    ensures q.version == CurrentVersion(db.questions) + 1
    ensures forall i :: 0 <= i < |db.questions| ==> db.questions[i].version < q.version
  {
    Question(db.nextQuestionId, text, options, correct, CurrentVersion(db.questions) + 1)
  }

  /**
   The correct option as the edit and add branches hand it to SQLite: None
   when `int()` raises ValueError on the text, or when the integer lies
   outside the 64-bit range and binding it raises OverflowError.
   */
  function BoundCorrectOption(form: QuestionForm): Option<int> {
    match ParseInt(form.correctOption)
    case None => None
    case Some(correct) => if Bindable(correct) then Some(correct) else None
  }

  /**
   The teacher dashboard. Anyone but a teacher is redirected to login. A
   delete or edit naming no row changes nothing; an add inserts one row. A
   correct option that `int()` rejects or SQLite cannot bind, or a new
   version past the 64-bit range, aborts the request before any write.
   The page then lists every question of every version.
   */
  function Dashboard(db: Db, session: Session, req: DashboardRequest): (s: Step)
    ensures s.session == session
    ensures s.db.users == db.users && s.db.scores == db.scores && s.db.settings == db.settings
    ensures !IsTeacher(session) ==> s.db == db && s.outcome == Redirect(LoginPage)
    ensures s.outcome == ServerError <==>
              && IsTeacher(session)
              && ((req.EditById? && BoundCorrectOption(req.form).None?)
                  || (req.AddQuestion? &&
                        (BoundCorrectOption(req.form).None? || !Bindable(CurrentVersion(db.questions) + 1))))
    ensures s.outcome == ServerError ==> s.db == db
    ensures IsTeacher(session) && s.outcome != ServerError ==> s.outcome == RenderTeacherDashboard(s.db.questions)
    ensures IsTeacher(session) && req.ListQuestions? ==> s.db == db
    ensures IsTeacher(session) && req.DeleteById? ==> s.db == db.(questions := DeleteRow(db.questions, req.deleteId))
    ensures IsTeacher(session) && req.EditById? && BoundCorrectOption(req.form).Some? ==>
              s.db == db.(questions := EditRow(db.questions, req.editId, req.form.text, req.form.options,
                                               BoundCorrectOption(req.form).value))
    ensures IsTeacher(session) && req.AddQuestion? && s.outcome != ServerError ==>
              && BoundCorrectOption(req.form).Some?
              && s.db.nextQuestionId == db.nextQuestionId + 1
              && |s.db.questions| == |db.questions| + 1
              && s.db.questions[..|db.questions|] == db.questions
              && s.db.questions[|db.questions|] ==
                   NewQuestion(db, req.form.text, req.form.options, BoundCorrectOption(req.form).value)
  {
    if !IsTeacher(session) then
      Step(db, session, Redirect(LoginPage), None)
    else
      var after :=
        match req
        case ListQuestions => Some(db)
        case DeleteById(id) => Some(db.(questions := DeleteRow(db.questions, id)))
        case EditById(id, form) =>
          (match BoundCorrectOption(form)
           case None => None
           case Some(correct) =>
             Some(db.(questions := EditRow(db.questions, id, form.text, form.options, correct))))
        case AddQuestion(form) =>
          (match BoundCorrectOption(form)
           case None => None
           case Some(correct) =>
             if !Bindable(CurrentVersion(db.questions) + 1) then None else
             var q := NewQuestion(db, form.text, form.options, correct);
             assert (db.questions + [q])[..|db.questions|] == db.questions;
             Some(db.(questions := db.questions + [q], nextQuestionId := db.nextQuestionId + 1)));
      match after
      case None => Step(db, session, ServerError, None)
      case Some(db') => Step(db', session, RenderTeacherDashboard(db'.questions), None)
  }

  /**
   The `/delete_question/<id>` route: a teacher's request deletes that one
   row; anyone else's is ignored without a word. Either way the response
   is a redirect to the teacher dashboard, unless a teacher's id lies
   outside the 64-bit range: binding it raises and nothing is deleted.
   */
  function DeleteQuestion(db: Db, session: Session, id: int): (s: Step)
    ensures s.session == session && s.notice == None
    ensures s.db == db.(questions := s.db.questions)
    ensures s.outcome == ServerError <==> IsTeacher(session) && !Bindable(id)
    ensures s.outcome != ServerError ==> s.outcome == Redirect(DashboardOf(TEACHER))
    ensures !IsTeacher(session) || !Bindable(id) ==> s.db == db
    ensures IsTeacher(session) && Bindable(id) ==>
              forall q :: q in s.db.questions <==> q in db.questions && q.id != id
    ensures IsTeacher(session) && Bindable(id) ==> s.db.questions == DeleteRow(db.questions, id)
  {
    if !IsTeacher(session) then
      Step(db, session, Redirect(DashboardOf(TEACHER)), None)
    else if !Bindable(id) then
      Step(db, session, ServerError, None)
    else
      Step(db.(questions := DeleteRow(db.questions, id)), session, Redirect(DashboardOf(TEACHER)), None)
  }

  /**
   The settings update: a teacher's submitted duration, or NULL when the
   field is missing, overwrites the settings row if there is one; nothing
   else is written, and anyone else's request changes nothing.
   */
  function UpdateSettings(db: Db, session: Session, quizDuration: Option<string>): (s: Step)
    ensures s.session == session && s.outcome == Redirect(DashboardOf(TEACHER))
    ensures s.db == db.(settings := s.db.settings)
    ensures !IsTeacher(session) || db.settings.NoSettingsRow? ==> s.db == db
    ensures IsTeacher(session) && db.settings.SettingsRow? ==> s.db.settings == SettingsRow(quizDuration)
  {
    if IsTeacher(session) && db.settings.SettingsRow? then
      Step(db.(settings := SettingsRow(quizDuration)), session, Redirect(DashboardOf(TEACHER)), None)
    else
      Step(db, session, Redirect(DashboardOf(TEACHER)), None)
  }

  /** Score rows newest first; rows are stored in the order they were inserted. */
  function NewestFirst(rows: seq<Score>): (r: seq<Score>)
    ensures |r| == |rows|
    ensures forall k :: 0 <= k < |rows| ==> r[k] == rows[|rows| - 1 - k]
    ensures multiset(r) == multiset(rows)
  {
    if |rows| == 0 then []
    else
      var prefix := rows[..|rows| - 1];
      assert rows == prefix + [rows[|rows| - 1]];
      [rows[|rows| - 1]] + NewestFirst(prefix)
  }

  /** The results view: every score row, newest first, for a teacher; "Access denied" for anyone else. */
  function ViewResults(db: Db, session: Session): (s: Step)
    ensures s.db == db && s.session == session
    ensures !IsTeacher(session) ==> s.outcome == Redirect(LoginPage) && s.notice == Some(AccessDenied)
    ensures IsTeacher(session) ==>
              && s.outcome.RenderResults?
              && multiset(s.outcome.rows) == multiset(db.scores)
              && |s.outcome.rows| == |db.scores|
              && (forall k :: 0 <= k < |db.scores| ==> s.outcome.rows[k] == db.scores[|db.scores| - 1 - k])
  {
    if IsTeacher(session) then
      Step(db, session, RenderResults(NewestFirst(db.scores)), None)
    else
      Step(db, session, Redirect(LoginPage), Some(AccessDenied))
  }

  /**
   Adding a question raises the current version by exactly one and creates a
   version holding only the new question; older rows are untouched.
   */
  lemma AddBumpsVersion(db: Db, session: Session, form: QuestionForm)
    requires IsTeacher(session)
    requires BoundCorrectOption(form).Some? && Bindable(CurrentVersion(db.questions) + 1)
    requires VersionsPositive(db.questions)
    ensures var s := Dashboard(db, session, AddQuestion(form));
            var v := CurrentVersion(s.db.questions);
            && v == CurrentVersion(db.questions) + 1
            && s.db.questions[..|db.questions|] == db.questions
            && QuizQuestions(s.db.questions, v) == [s.db.questions[|db.questions|]]
  {
    var s := Dashboard(db, session, AddQuestion(form));
    var q := NewQuestion(db, form.text, form.options, BoundCorrectOption(form).value);
    CurrentVersionBoundsAll(db.questions);
    assert s.db.questions == db.questions + [q];
    AppendBumpsVersion(db.questions, q);
  }

  /** On an empty bank the first question added carries version 2, which becomes current. */
  lemma FirstAddYieldsVersionTwo(db: Db, session: Session, form: QuestionForm)
    requires IsTeacher(session)
    requires BoundCorrectOption(form).Some?
    requires db.questions == []
    ensures var s := Dashboard(db, session, AddQuestion(form));
            && |s.db.questions| == 1
            && s.db.questions[0].version == 2
            && CurrentVersion(s.db.questions) == 2
  {
  }

  /** Two adds in a row produce two different versions, each holding only its own question. */
  lemma TwoAddsTwoVersions(db: Db, session: Session, form1: QuestionForm, form2: QuestionForm)
    requires IsTeacher(session)
    requires BoundCorrectOption(form1).Some? && BoundCorrectOption(form2).Some?
    requires Bindable(CurrentVersion(db.questions) + 1) && Bindable(CurrentVersion(db.questions) + 2)
    ensures var s1 := Dashboard(db, session, AddQuestion(form1));
            var s2 := Dashboard(s1.db, session, AddQuestion(form2));
            var n := |db.questions|;
            && |s2.db.questions| == n + 2
            && s2.db.questions[n].version != s2.db.questions[n + 1].version
            && QuizQuestions(s2.db.questions, s2.db.questions[n].version) == [s2.db.questions[n]]
            && QuizQuestions(s2.db.questions, s2.db.questions[n + 1].version) == [s2.db.questions[n + 1]]
  {
    var n := |db.questions|;
    var s1 := Dashboard(db, session, AddQuestion(form1));
    var s2 := Dashboard(s1.db, session, AddQuestion(form2));
    var q1 := s1.db.questions[n];
    var q2 := s2.db.questions[n + 1];
    assert s1.db.questions == db.questions + [q1];
    assert s2.db.questions == db.questions + [q1] + [q2];
    AppendTwice(db.questions, q1, q2);
  }

  /** Editing changes no row's version, so the current version and every quiz's membership by version stay put. */
  lemma EditKeepsVersions(db: Db, session: Session, id: int, form: QuestionForm)
    ensures var s := Dashboard(db, session, EditById(id, form));
            && |s.db.questions| == |db.questions|
            && (forall i :: 0 <= i < |db.questions| ==>
                  s.db.questions[i].version == db.questions[i].version && s.db.questions[i].id == db.questions[i].id)
            && CurrentVersion(s.db.questions) == CurrentVersion(db.questions)
  {
  }

  /** Deleting never raises the current version, and leaves every other table alone. */
  lemma DeleteNeverRaisesVersion(db: Db, session: Session, id: int)
    requires VersionsPositive(db.questions)
    ensures var s := DeleteQuestion(db, session, id);
            && s.db.users == db.users && s.db.scores == db.scores && s.db.settings == db.settings
            && CurrentVersion(s.db.questions) <= CurrentVersion(db.questions)
  {
  }

  /**
   Deleting the only question of the newest version lowers the current
   version: here from 3 back to 2.
   */
  lemma DeleteMayLowerVersion(db: Db, session: Session, older: Question, newer: Question)
    requires IsTeacher(session)
    requires db.questions == [older, newer]
    requires older.version == 2 && newer.version == 3 && older.id != newer.id && Bindable(newer.id)
    ensures CurrentVersion(db.questions) == 3
    ensures CurrentVersion(DeleteQuestion(db, session, newer.id).db.questions) == 2
  {
  }
}
