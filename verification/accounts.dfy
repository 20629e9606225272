/**
 Registration, login and logout. A user is a (username, role) pair with a
 unique username; logging in needs both to match, and puts both into the
 session.
 */
module Accounts {
  import opened Optional
  import opened Store
  import opened Web

  datatype RegisterRequest = ShowRegisterForm | SubmitRegistration(username: Username, role: Role)

  datatype LoginRequest = ShowLoginForm(roleArg: string) | SubmitLogin(username: Username, role: Role)

  /** `SELECT * FROM users WHERE username = ? AND role = ?` finds a row. */
  predicate Authenticates(db: Db, username: Username, role: Role) {
    username in db.users && db.users[username] == role
  }

  /**
   The register route. The INSERT fails on the UNIQUE username when the
   name is taken, and then nothing changes.
   */
  function Register(db: Db, session: Session, req: RegisterRequest): (s: Step)
    ensures s.session == session
    ensures s.db == db.(users := s.db.users)
    ensures forall u :: u in db.users ==> u in s.db.users && s.db.users[u] == db.users[u]
    ensures s.db.users.Keys == db.users.Keys + (if req.SubmitRegistration? then {req.username} else {})
    ensures req.ShowRegisterForm? ==> s.outcome == RenderRegisterForm
    ensures req.SubmitRegistration? && req.username in db.users ==>
              s.db == db && s.outcome == Redirect(RegisterPage) && s.notice == Some(UsernameTaken)
    ensures req.SubmitRegistration? && req.username !in db.users ==>
              && Authenticates(s.db, req.username, req.role)
              && |s.db.users| == |db.users| + 1
              && s.outcome == Redirect(LoginPage) && s.notice == Some(RegistrationSuccessful)
  {
    match req
    case ShowRegisterForm => Step(db, session, RenderRegisterForm, None)
    case SubmitRegistration(username, role) =>
      if username in db.users then
        Step(db, session, Redirect(RegisterPage), Some(UsernameTaken))
      else
        Step(db.(users := db.users[username := role]), session, Redirect(LoginPage), Some(RegistrationSuccessful))
  }

  /**
   The login route. A logged-in session is sent to its own dashboard; a
   submitted pair logs in exactly when a user with that username and that
   role exists. Login never writes to the database.
   */
  function Login(db: Db, session: Session, req: LoginRequest): (s: Step)
    ensures s.db == db
    ensures session.LoggedIn? ==> s.session == session && s.outcome == Redirect(DashboardOf(session.role))
    ensures session.Anonymous? ==>
              (s.session.LoggedIn? <==> req.SubmitLogin? && Authenticates(db, req.username, req.role))
    ensures session.Anonymous? && s.session.LoggedIn? ==>
              s.session == LoggedIn(req.username, req.role) && s.outcome == Redirect(DashboardOf(req.role))
    ensures session.Anonymous? && req.SubmitLogin? && s.session.Anonymous? ==>
              s.outcome == Redirect(RegisterPage) && s.notice == Some(InvalidLogin)
    ensures session.Anonymous? && req.ShowLoginForm? ==> s.outcome == RenderLoginForm(req.roleArg)
  {
    if session.LoggedIn? then
      Step(db, session, Redirect(DashboardOf(session.role)), None)
    else
      match req
      case ShowLoginForm(roleArg) => Step(db, session, RenderLoginForm(roleArg), None)
      case SubmitLogin(username, role) =>
        if Authenticates(db, username, role) then
          Step(db, LoggedIn(username, role), Redirect(DashboardOf(role)), None)
        else
          Step(db, session, Redirect(RegisterPage), Some(InvalidLogin))
  }

  /** The logout route: the session is emptied whatever it held, and the database is untouched. */
  function Logout(db: Db, session: Session): (s: Step)
    ensures s.db == db
    ensures s.session == Anonymous
    ensures s.outcome == Redirect(LoginPage) && s.notice == Some(LoggedOut)
  {
    Step(db, Anonymous, Redirect(LoginPage), Some(LoggedOut))
  }

  /** Registering the same username twice: the second attempt fails and changes nothing. */
  lemma RegisterTwiceFails(db: Db, username: Username, role1: Role, role2: Role)
    requires username !in db.users
    ensures var first := Register(db, Anonymous, SubmitRegistration(username, role1));
            var second := Register(first.db, Anonymous, SubmitRegistration(username, role2));
            && second.db == first.db
            && |second.db.users| == |db.users| + 1
            && second.notice == Some(UsernameTaken)
  {
  }

  /**
   After registering (u, r), logging in as (u, r) succeeds and the session
   holds u and r; logging in as u with any other role fails.
   */
  lemma LoginAfterRegister(db: Db, username: Username, role: Role, otherRole: Role)
    requires username !in db.users
    requires otherRole != role
    ensures var registered := Register(db, Anonymous, SubmitRegistration(username, role)).db;
            && Login(registered, Anonymous, SubmitLogin(username, role)).session == LoggedIn(username, role)
            && Login(registered, Anonymous, SubmitLogin(username, otherRole)).session == Anonymous
  {
  }
}
