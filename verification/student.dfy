/**
 The student dashboard: the quiz of the current version, shown once and
 graded once. Any score row for the student, whatever its version, closes
 the quiz for good.
 */
module Student {
  import opened Optional
  import opened Store
  import opened Web
  import opened PyInt
  import opened Versioning
  import opened Grading

  datatype StudentRequest = ViewQuiz | SubmitQuiz(selected: Selection)

  /** The duration shown with the quiz: the settings row's value, or 5 when there is no row. */
  function QuizDuration(settings: Settings): (d: Option<string>)
    ensures settings.SettingsRow? ==> d == settings.quizDuration
    ensures settings.NoSettingsRow? ==> d == Some(DEFAULT_DURATION)
  {
    match settings
    case NoSettingsRow => Some(DEFAULT_DURATION)
    case SettingsRow(duration) => duration
  }

  /** The questions a student is shown: every question of the current version, in table order. */
  function CurrentQuiz(db: Db): (quiz: seq<Question>)
    ensures forall q :: q in quiz <==> q in db.questions && q.version == CurrentVersion(db.questions)
    ensures IdsAscending(db.questions) ==> IdsAscending(quiz)
  {
    QuizQuestions(db.questions, CurrentVersion(db.questions))
  }

  /** The row a submission inserts. */
  function ScoreFor(db: Db, username: Username, selected: Selection): (row: Score)
    ensures row.username == username
    ensures 0 <= row.score <= row.total == |CurrentQuiz(db)|
    ensures row.version == CurrentVersion(db.questions)
    ensures row.score == |CorrectIndices(CurrentQuiz(db), selected)|
  {
    var quiz := CurrentQuiz(db);
    GradeCountsCorrectAnswers(quiz, selected);
    Score(username, Grade(quiz, selected), |quiz|, CurrentVersion(db.questions))
  }

  /**
   The student dashboard. Anyone but a student is redirected to login. A
   student with a score row gets the empty page with `attempted` set and
   nothing is written. Otherwise viewing shows the current quiz, and
   submitting appends exactly one score row, graded against that quiz.
   */
  function Dashboard(db: Db, session: Session, req: StudentRequest): (s: Step)
    ensures s.session == session
    ensures s.db == db.(scores := s.db.scores)
    ensures !IsStudent(session) ==> s.db == db && s.outcome == Redirect(LoginPage)
    ensures IsStudent(session) && HasAttempted(db.scores, session.username) ==>
              s.db == db && s.outcome == RenderQuizAttempted && s.notice == Some(AlreadyAttempted)
    ensures s.db.scores != db.scores <==>
              IsStudent(session) && !HasAttempted(db.scores, session.username) && req.SubmitQuiz?
    ensures s.db.scores != db.scores ==>
              && |s.db.scores| == |db.scores| + 1
              && s.db.scores[..|db.scores|] == db.scores
              && s.db.scores[|db.scores|] == ScoreFor(db, session.username, req.selected)
              && s.outcome == Redirect(DashboardOf(STUDENT)) && s.notice == Some(QuizSubmitted)
    ensures IsStudent(session) && !HasAttempted(db.scores, session.username) && req.ViewQuiz? ==>
              s.outcome == RenderQuiz(CurrentQuiz(db), QuizDuration(db.settings))
  {
    if !IsStudent(session) then
      Step(db, session, Redirect(LoginPage), None)
    else if HasAttempted(db.scores, session.username) then
      Step(db, session, RenderQuizAttempted, Some(AlreadyAttempted))
    else
      match req
      case ViewQuiz => Step(db, session, RenderQuiz(CurrentQuiz(db), QuizDuration(db.settings)), None)
      case SubmitQuiz(selected) =>
        var row := ScoreFor(db, session.username, selected);
        assert (db.scores + [row])[..|db.scores|] == db.scores;
        Step(db.(scores := db.scores + [row]), session, Redirect(DashboardOf(STUDENT)), Some(QuizSubmitted))
  }

  /**
   One attempt per student: the dashboard keeps at most one score row per
   username, and after it the student has attempted exactly when they had
   before or just submitted.
   */
  lemma SingleAttempt(db: Db, session: Session, req: StudentRequest)
    requires OneScorePerUser(db.scores)
    ensures var s := Dashboard(db, session, req);
            && OneScorePerUser(s.db.scores)
            && (IsStudent(session) ==>
                  (HasAttempted(s.db.scores, session.username) <==>
                     HasAttempted(db.scores, session.username) || req.SubmitQuiz?))
  {
  }

  /** Every score row the dashboard writes lies between 0 and its total. */
  lemma ScoresStayInRange(db: Db, session: Session, req: StudentRequest)
    requires ScoresInRange(db.scores)
    ensures ScoresInRange(Dashboard(db, session, req).db.scores)
  {
  }

  /**
   A first submission that selects the correct option of every question of
   the current quiz records full marks: score == total == the quiz's size.
   */
  lemma AllCorrectFullMarks(db: Db, session: Session, selected: Selection)
    requires IsStudent(session) && !HasAttempted(db.scores, session.username)
    requires forall k :: 0 <= k < |CurrentQuiz(db)| ==>
               k + 1 in selected && selected[k + 1] == IntToText(CurrentQuiz(db)[k].correctOption)
    ensures var s := Dashboard(db, session, SubmitQuiz(selected));
            var row := s.db.scores[|db.scores|];
            && |s.db.scores| == |db.scores| + 1
            && row.username == session.username
            && row.score == row.total == |CurrentQuiz(db)|
  {
    FullMarksIff(CurrentQuiz(db), selected);
  }
}
