/**
 What a request handler sees and produces besides the database: the session
 cookie, the page it redirects to or renders, and the flashed notice.
 */
module Web {
  import opened Optional
  import opened Store

  /** Login always sets username and role together, and logout clears both. */
  datatype Session = Anonymous | LoggedIn(username: Username, role: Role)

  predicate IsTeacher(session: Session) {
    session.LoggedIn? && session.role == TEACHER
  }

  predicate IsStudent(session: Session) {
    session.LoggedIn? && session.role == STUDENT
  }

  /** Redirect targets; `DashboardOf(r)` is the `<r>_dashboard` endpoint. */
  datatype Page = LoginPage | RegisterPage | DashboardOf(role: Role)

  /** The flashed messages. */
  datatype Notice =
    | RegistrationSuccessful
    | UsernameTaken
    | InvalidLogin
    | AccessDenied
    | AlreadyAttempted
    | QuizSubmitted
    | LoggedOut

  datatype Outcome =
    | Redirect(to: Page)
    | RenderRegisterForm
    | RenderLoginForm(roleArg: string)
    | RenderTeacherDashboard(questions: seq<Question>)
    | RenderResults(rows: seq<Score>)
    | RenderQuiz(quiz: seq<Question>, duration: Option<string>)
    /** The student page with no questions and `attempted = True`. */
    | RenderQuizAttempted
    /** An exception escaped the handler; nothing was committed. */
    | ServerError

  /** The state after one request, and its response. */
  datatype Step = Step(db: Db, session: Session, outcome: Outcome, notice: Option<Notice>)
}
