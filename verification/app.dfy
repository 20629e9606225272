/**
 The application as a whole: every route as one request type, one step
 function, and the invariants every sequence of requests keeps.
 */
module App {
  import opened Optional
  import opened Store
  import opened Web
  import opened Versioning
  import Accounts
  import Teacher
  import Student

  datatype Request =
    | RegisterRoute(register: Accounts.RegisterRequest)
    | LoginRoute(login: Accounts.LoginRequest)
    | LogoutRoute
    | DeleteQuestionRoute(questionId: int)
    | TeacherRoute(dashboard: Teacher.DashboardRequest)
    | UpdateSettingsRoute(quizDuration: Option<string>)
    | ResultsRoute
    | StudentRoute(quiz: Student.StudentRequest)

  /** One request, routed to its handler. */
  function Handle(db: Db, session: Session, req: Request): Step {
    match req
    case RegisterRoute(r) => Accounts.Register(db, session, r)
    case LoginRoute(r) => Accounts.Login(db, session, r)
    case LogoutRoute => Accounts.Logout(db, session)
    case DeleteQuestionRoute(id) => Teacher.DeleteQuestion(db, session, id)
    case TeacherRoute(r) => Teacher.Dashboard(db, session, r)
    case UpdateSettingsRoute(d) => Teacher.UpdateSettings(db, session, d)
    case ResultsRoute => Teacher.ViewResults(db, session)
    case StudentRoute(r) => Student.Dashboard(db, session, r)
  }

  /** The state after a sequence of requests from one browser, with each response. */
  datatype Trace = Trace(db: Db, session: Session, outcomes: seq<Outcome>)

  function Run(db: Db, session: Session, reqs: seq<Request>): (t: Trace)
    ensures |t.outcomes| == |reqs|
    decreases |reqs|
  {
    if |reqs| == 0 then Trace(db, session, [])
    else
      var s := Handle(db, session, reqs[0]);
      var rest := Run(s.db, s.session, reqs[1..]);
      Trace(rest.db, rest.session, [s.outcome] + rest.outcomes)
  }

  lemma DeleteRowKeepsInv(qs: seq<Question>, id: int, next: int)
    requires IdsAscending(qs) && IdsBelow(qs, next) && VersionsPositive(qs)
    ensures var r := Teacher.DeleteRow(qs, id);
            IdsAscending(r) && IdsBelow(r, next) && VersionsPositive(r)
  {
    var r := Teacher.DeleteRow(qs, id);
    assert forall i :: 0 <= i < |r| ==> r[i] in qs;
  }

  /** Inserting a row under the next id with a version of at least 1, and advancing the counter, keeps the invariant. */
  lemma AppendKeepsInv(db: Db, q: Question)
    requires Inv(db)
    requires q.id == db.nextQuestionId && q.version >= 1
    ensures Inv(db.(questions := db.questions + [q], nextQuestionId := db.nextQuestionId + 1))
  {
    var all := db.questions + [q];
    assert forall i :: 0 <= i < |db.questions| ==> all[i] == db.questions[i];
    assert all[|db.questions|] == q;
  }

  lemma DashboardKeepsInv(db: Db, session: Session, req: Teacher.DashboardRequest)
    requires Inv(db)
    ensures Inv(Teacher.Dashboard(db, session, req).db)
  {
    var s := Teacher.Dashboard(db, session, req);
    if IsTeacher(session) && s.outcome != ServerError {
      match req
      case ListQuestions =>
      case DeleteById(id) =>
        DeleteRowKeepsInv(db.questions, id, db.nextQuestionId);
      case EditById(id, form) =>
      case AddQuestion(form) =>
        CurrentVersionBoundsAll(db.questions);
        var q := s.db.questions[|db.questions|];
        assert s.db.questions == db.questions + [q];
        AppendKeepsInv(db, q);
        assert s.db == db.(questions := db.questions + [q], nextQuestionId := db.nextQuestionId + 1);
    }
  }

  /** Every route keeps the invariant: ascending ids below the AUTOINCREMENT counter, versions of at least 1, one score row per user, each score within 0..total. */
  lemma HandleKeepsInv(db: Db, session: Session, req: Request)
    requires Inv(db)
    ensures Inv(Handle(db, session, req).db)
  {
    match req
    case RegisterRoute(r) =>
    case LoginRoute(r) =>
    case LogoutRoute =>
    case DeleteQuestionRoute(id) =>
      DeleteRowKeepsInv(db.questions, id, db.nextQuestionId);
    case TeacherRoute(r) =>
      DashboardKeepsInv(db, session, r);
    case UpdateSettingsRoute(d) =>
    case ResultsRoute =>
    case StudentRoute(r) =>
      Student.SingleAttempt(db, session, r);
      Student.ScoresStayInRange(db, session, r);
  }

  /**
   No route updates or deletes a score row or a user: scores only grow at the
   end, and a registered user keeps their role.
   */
  lemma HandleOnlyAppends(db: Db, session: Session, req: Request)
    ensures var s := Handle(db, session, req);
            && |s.db.scores| >= |db.scores|
            && s.db.scores[..|db.scores|] == db.scores
            && (forall u :: u in db.users ==> u in s.db.users && s.db.users[u] == db.users[u])
  {
  }

  lemma {:induction false} RunKeepsInv(db: Db, session: Session, reqs: seq<Request>)
    requires Inv(db)
    ensures Inv(Run(db, session, reqs).db)
    decreases |reqs|
  {
    if |reqs| > 0 {
      var s := Handle(db, session, reqs[0]);
      HandleKeepsInv(db, session, reqs[0]);
      RunKeepsInv(s.db, s.session, reqs[1..]);
    }
  }

  /** Over any run, score rows and users are only ever added. */
  lemma {:induction false} RunOnlyAppends(db: Db, session: Session, reqs: seq<Request>)
    ensures var t := Run(db, session, reqs);
            && |t.db.scores| >= |db.scores|
            && t.db.scores[..|db.scores|] == db.scores
            && (forall u :: u in db.users ==> u in t.db.users && t.db.users[u] == db.users[u])
    decreases |reqs|
  {
    if |reqs| > 0 {
      var s := Handle(db, session, reqs[0]);
      HandleOnlyAppends(db, session, reqs[0]);
      RunOnlyAppends(s.db, s.session, reqs[1..]);
      var t := Run(s.db, s.session, reqs[1..]);
      assert t.db.scores[..|db.scores|] == t.db.scores[..|s.db.scores|][..|db.scores|];
    }
  }

  /** The teacher half: t1 registers, logs in and adds Q1, which lands under version 2. */
  lemma EndToEndTeacher(options: Options)
    ensures
      var s1 := Accounts.Register(Init, Anonymous, Accounts.SubmitRegistration("t1", TEACHER));
      var s2 := Accounts.Login(s1.db, s1.session, Accounts.SubmitLogin("t1", TEACHER));
      var s3 := Teacher.Dashboard(s2.db, s2.session, Teacher.AddQuestion(Teacher.QuestionForm("Q1", options, "3")));
      && s2.session == LoggedIn("t1", TEACHER)
      && s3.db == Init.(users := map["t1" := TEACHER], questions := [Question(1, "Q1", options, 3, 2)], nextQuestionId := 2)
      && CurrentVersion(s3.db.questions) == 2
  {
  }

  /** On a bank holding one question at a version other than 0, the quiz is that question. */
  lemma SingleQuestionQuiz(db: Db, q: Question)
    requires db.questions == [q] && q.version != 0
    ensures Student.CurrentQuiz(db) == [q]
  {
    assert [q][0].version == q.version;
    CurrentVersionOfMax([q], q.version);
  }

  /**
   The student half, on a bank holding Q1 under version 2 and no scores: s1
   sees Q1, answers it correctly and gets the row (s1, 1, 1, 2); the page
   then reports the quiz as attempted.
   */
  lemma EndToEndStudent(db: Db, options: Options)
    requires "s1" !in db.users
    requires db.questions == [Question(1, "Q1", options, 3, 2)]
    requires db.scores == [] && db.settings == SettingsRow(Some(DEFAULT_DURATION))
    ensures
      var q1 := Question(1, "Q1", options, 3, 2);
      var s5 := Accounts.Register(db, Anonymous, Accounts.SubmitRegistration("s1", STUDENT));
      var s6 := Accounts.Login(s5.db, s5.session, Accounts.SubmitLogin("s1", STUDENT));
      var s7 := Student.Dashboard(s6.db, s6.session, Student.ViewQuiz);
      var s8 := Student.Dashboard(s7.db, s7.session, Student.SubmitQuiz(map[1 := "3"]));
      var s9 := Student.Dashboard(s8.db, s8.session, Student.ViewQuiz);
      && s6.session == LoggedIn("s1", STUDENT)
      && s7.outcome == RenderQuiz([q1], Some(DEFAULT_DURATION))
      && s8.db.scores == [Score("s1", 1, 1, 2)]
      && s9.outcome == RenderQuizAttempted
      && s9.db == s8.db
  {
    var q1 := Question(1, "Q1", options, 3, 2);
    var s5 := Accounts.Register(db, Anonymous, Accounts.SubmitRegistration("s1", STUDENT));
    var s6 := Accounts.Login(s5.db, s5.session, Accounts.SubmitLogin("s1", STUDENT));
    assert s6.db.questions == [q1] && s6.db.scores == [];
    SingleQuestionQuiz(s6.db, q1);
    var s7 := Student.Dashboard(s6.db, s6.session, Student.ViewQuiz);
    assert s7.db == s6.db;
    assert Student.ScoreFor(s7.db, "s1", map[1 := "3"]) == Score("s1", 1, 1, 2);
  }

  /**
   From a fresh database, the whole exchange: the teacher adds Q1 (version 2),
   logs out, and the student takes the quiz once.
   */
  lemma EndToEnd(options: Options)
    ensures
      var s1 := Accounts.Register(Init, Anonymous, Accounts.SubmitRegistration("t1", TEACHER));
      var s2 := Accounts.Login(s1.db, s1.session, Accounts.SubmitLogin("t1", TEACHER));
      var s3 := Teacher.Dashboard(s2.db, s2.session, Teacher.AddQuestion(Teacher.QuestionForm("Q1", options, "3")));
      var s4 := Accounts.Logout(s3.db, s3.session);
      var s5 := Accounts.Register(s4.db, s4.session, Accounts.SubmitRegistration("s1", STUDENT));
      var s6 := Accounts.Login(s5.db, s5.session, Accounts.SubmitLogin("s1", STUDENT));
      var s7 := Student.Dashboard(s6.db, s6.session, Student.ViewQuiz);
      var s8 := Student.Dashboard(s7.db, s7.session, Student.SubmitQuiz(map[1 := "3"]));
      var s9 := Student.Dashboard(s8.db, s8.session, Student.ViewQuiz);
      && CurrentVersion(s3.db.questions) == 2
      && s8.db.scores == [Score("s1", 1, 1, 2)]
      && s9.outcome == RenderQuizAttempted
  {
    EndToEndTeacher(options);
    var s1 := Accounts.Register(Init, Anonymous, Accounts.SubmitRegistration("t1", TEACHER));
    var s2 := Accounts.Login(s1.db, s1.session, Accounts.SubmitLogin("t1", TEACHER));
    var s3 := Teacher.Dashboard(s2.db, s2.session, Teacher.AddQuestion(Teacher.QuestionForm("Q1", options, "3")));
    var s4 := Accounts.Logout(s3.db, s3.session);
    assert s4.session == Anonymous;
    EndToEndStudent(s4.db, options);
  }
}
