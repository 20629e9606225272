# Quiz administration app: a Dafny model of its request handlers

The application is a small Flask site. Teachers write multiple-choice questions
and students take the current quiz once. All of its logic sits in the route
handlers of `app.py`, which read and write four SQLite tables. This project
models that logic as pure functions over an immutable database value:

- `Store.Db` holds the tables:
  - `users`: username ↦ role;
  - `questions`: rows of text, four options, correct option and `quiz_version`, in ascending id order;
  - `nextQuestionId`: the AUTOINCREMENT counter;
  - `scores`: (username, score, total, quiz_version) rows in insertion order;
  - the single `settings` row.
- `Web` holds the session cookie (`Anonymous` or `LoggedIn(username, role)`), the response (`Outcome`: a redirect or a rendered page) and the flashed `Notice`.
- Each handler maps `Db × Session × request` to a `Step`: the new database, the new session, the response and the notice. The handlers are in `Accounts`, `Teacher` and `Student`; `App.Handle` routes a request to them.
- `Versioning` holds the current-version rule, `MAX(quiz_version) or 1`.
- `Grading` holds the score count.
- `PyInt` holds Python's `str(int)` and `int(str)`, which the grading comparison and the form parsing use.

The invariant `Store.Inv` says:
- question ids are ascending and below the counter;
- every version is at least 1;
- there is at most one score row per username;
- every score lies between 0 and its total.

Every route preserves it (`App.HandleKeepsInv`), and so does every run of routes (`App.RunKeepsInv`), for requests handled one at a time.

Three places where the code's behaviour differs from what a reader might expect. The model follows the code in each:
- Deleting a question can lower the current version. This happens when the deleted row was the only one carrying the maximum version (`Teacher.DeleteMayLowerVersion`). When every version is at least 1, as for every row the application writes, deleting never raises the version (`Teacher.DeleteNeverRaisesVersion`).
- Roles are free text. Registration stores any role string. Login then redirects to `<role>_dashboard`.
- Every add creates a new version that holds only the question just added (`Teacher.TwoAddsTwoVersions`). When every version is at least 1, as for every row the application writes, the quiz students see right after an add is that one question. Later deletes can bring an older version, and its questions, back as the current quiz. Rows that carry the same version, such as rows left at the column default of 1, make up one quiz together.

## Model

| member | source | states |
|---|---|---|
| PyInt.NatToText | app.py:246 | `str` of a natural number is a non-empty run of ASCII digits with no leading zero, and is "0" exactly for 0 |
| PyInt.IntToText | app.py:246 | `str` of an integer starts with a minus sign exactly when the integer is negative |
| PyInt.ParseIntRoundTrip | app.py:176 | `int()` reads back exactly the integer that `str()` wrote |
| PyInt.IntToTextInjective | app.py:246 | two integers have the same decimal text if and only if they are equal |
| PyInt.ParseIntAcceptsLeadingZero | app.py:188 | `int()` accepts "07" as 7, a spelling `str()` never produces |
| PyInt.DigitsValueOfNatToText | app.py:246 | the digits `str` writes for n have the value n |
| Store.Where | app.py:228 | a `WHERE` filter returns exactly the rows that satisfy it, never more rows than the table, and keeps ascending id order |
| Store.WhereAppend | app.py:189-192 | filtering a table after one insert gives the old result plus the new row exactly when that row passes the filter |
| Store.WhereNoneKept | app.py:228 | a filter no row satisfies returns nothing |
| Store.InitSatisfiesInv | app.py:37-76 | the database after both setup scripts have run (empty tables, including the users table init_db.py creates, and duration 5) satisfies the invariant |
| Versioning.MaxVersion | app.py:163 | `MAX(quiz_version)` on a non-empty table is a version some row carries, and no row carries a larger one |
| Versioning.CurrentVersion | app.py:163 | `MAX(quiz_version) or 1` is never 0; it is 1 on an empty bank; otherwise it is the maximum, or 1 when the maximum is 0 |
| Versioning.CurrentVersionOfMax | app.py:227 | the current version is determined by the maximum version alone (1 if that maximum is 0) |
| Versioning.CurrentVersionBoundsAll | app.py:163 | with every version at least 1, the current version is the maximum and bounds every row's version |
| Versioning.CurrentVersionIsUpperBound | app.py:163 | no question carries a version above the current one |
| Versioning.SameVersionsSameCurrent | app.py:171-182 | two banks with the same versions row by row have the same current version |
| Versioning.AppendBumpsVersion | app.py:184-193 | inserting a row at current+1 raises the current version by exactly one, and that version's quiz is the new row alone; the one exception is a current version of -1 |
| Versioning.AppendAboveIsAlone | app.py:184-193 | a row inserted one above the current version is the only row of its version, on any bank |
| Versioning.AppendTwice | app.py:184-193 | two inserts in a row give two different versions, each holding only its own question, on any bank |
| Versioning.AppendAfterMinusOne | app.py:185 | when the current version is -1, an add writes version 0, which `or 1` reads back as 1 rather than 0 |
| Grading.Marks | app.py:244-253 | one mark per quiz question, in quiz order; mark k is true exactly when `selected_option_{k+1}` equals `str(correct_option)` |
| Grading.CountTrue | app.py:255 | the count of true marks among the first n never exceeds n |
| Grading.Grade | app.py:243-259 | the score lies between 0 and the number of quiz questions |
| Grading.CountTrueIsCardinality | app.py:255 | the running count equals the size of the set of true marks |
| Grading.CountTrueFullIff | app.py:255 | the count of the first n marks is n exactly when all of them are true |
| Grading.CountTrueZeroIff | app.py:255 | the count is 0 exactly when none of the marks is true |
| Grading.GradeCountsCorrectAnswers | app.py:243-255 | the score is the number of quiz questions whose selection equals the text of their correct option |
| Grading.FullMarksIff | app.py:243-255 | score equals total exactly when every question is answered correctly |
| Grading.ZeroIff | app.py:243-255 | the score is 0 exactly when no answer is correct; an empty form scores 0, since a missing selection is wrong |
| Grading.SelectingOptionMatchesIff | app.py:245-246 | selecting option k (submitted as the text of k) is correct exactly when k is the correct option |
| Grading.GradeIgnoresOtherPositions | app.py:244-245 | only `selected_option_1` to `selected_option_n` affect the score |
| Accounts.Register | app.py:105-121 | only the users table can change, and no existing user is modified; a taken username fails with UsernameTaken and changes nothing; a new one adds exactly that (username, role) user |
| Accounts.Login | app.py:123-145 | login never writes; a logged-in session goes to its own dashboard; otherwise a submitted pair logs in exactly when a user with that username and role exists, and the session then holds both |
| Accounts.Logout | app.py:269-273 | the session is emptied whatever it held, the database is untouched, and the response redirects to login |
| Accounts.RegisterTwiceFails | app.py:111-119 | registering a username a second time fails and leaves the user count one above the start |
| Accounts.LoginAfterRegister | app.py:135-140 | after registering (u, r), logging in as (u, r) succeeds, and logging in as u with another role fails |
| Teacher.EditRow | app.py:177-181 | the row with the edited id gets the new text, options and correct option; other rows are unchanged; no id or version changes |
| Teacher.NewQuestion | app.py:185-192 | an added row holds the submitted text, options and correct option; its id is the next AUTOINCREMENT id, above every existing id; its version is one above the current version and above every existing version |
| Teacher.Dashboard | app.py:155-196 | non-teachers are redirected to login with nothing written; only the question bank and id counter change. The request fails with nothing written exactly when `int()` rejects the correct option, the option lies outside SQLite's 64-bit range, or an add's new version does. A delete removes by id. An edit rewrites the text, options and correct option of the row with that id only. An add appends exactly one row, holding the submitted fields at current+1, and keeps the older rows |
| Teacher.DeleteQuestion | app.py:147-153 | a teacher's request removes exactly the rows with that id, keeping the others in table order; anyone else's is silently ignored; users, scores and settings are untouched; the response is a redirect to the teacher dashboard, except that a teacher's id outside SQLite's 64-bit range fails with nothing deleted |
| Teacher.UpdateSettings | app.py:208-215 | only a teacher's request writes the duration, and only into an existing settings row; nothing else changes |
| Teacher.NewestFirst | app.py:205 | the rows are returned newest first, as a permutation of the stored rows |
| Teacher.ViewResults | app.py:198-206 | a teacher sees every score row, newest first: row k is the k-th newest, so the rows are the score table reversed; anyone else gets "Access denied" and a redirect to login; nothing is written |
| Teacher.AddBumpsVersion | app.py:184-193 | a teacher's add whose correct option and new version fit in 64 bits raises the current version by exactly one, leaves older rows untouched, and the new version holds only the new question |
| Teacher.FirstAddYieldsVersionTwo | app.py:163-185 | the first question added to an empty bank, with a correct option that fits in 64 bits, gets version 2, which becomes current |
| Teacher.TwoAddsTwoVersions | app.py:184-193 | on any bank, two adds in a row whose correct options and new versions fit in 64 bits give two different versions, each with only its own question |
| Teacher.EditKeepsVersions | app.py:171-182 | an edit changes no id or version, so the current version stays the same |
| Teacher.DeleteNeverRaisesVersion | app.py:147-153 | a delete leaves users, scores and settings alone and, when every version is at least 1, never raises the current version |
| Teacher.DeleteMayLowerVersion | app.py:147-153 | deleting, as a teacher, the only row of the newest version lowers the current version (3 to 2) |
| Student.QuizDuration | app.py:229-230 | the displayed duration is the settings row's value, or 5 when there is no row |
| Student.CurrentQuiz | app.py:227-228 | the quiz holds exactly the questions of the current version, in ascending id order, so `selected_option_i` is paired with the i-th of them |
| Student.ScoreFor | app.py:255-259 | the inserted row carries the student's name, a score equal to the number of current-quiz positions whose selected text is `str(correct_option)` (hence between 0 and total), total equal to the quiz size, and the current version |
| Student.Dashboard | app.py:219-266 | non-students are redirected to login; a student with any score row gets the empty attempted page and nothing is written; otherwise a view shows the current quiz, and a submit appends exactly one graded row |
| Student.SingleAttempt | app.py:232-261 | the dashboard keeps at most one score row per username; afterwards a student has attempted exactly when they had before or just submitted |
| Student.ScoresStayInRange | app.py:255-259 | every score row the dashboard writes lies between 0 and its total |
| Student.AllCorrectFullMarks | app.py:243-259 | a first submission that selects every correct option records score == total == the quiz size |
| App.Run | app.py:105-273 | a run yields one response per request |
| App.DeleteRowKeepsInv | app.py:151 | deleting by id keeps ids ascending and below the counter, and keeps every version at least 1 |
| App.AppendKeepsInv | app.py:185-192 | inserting a row under the next AUTOINCREMENT id with a version of at least 1 keeps ids ascending and below the counter, and versions at least 1 |
| App.DashboardKeepsInv | app.py:155-196 | every dashboard request keeps the invariant |
| App.HandleKeepsInv | app.py:105-273 | every route keeps the invariant, including one score row per username and scores within 0..total |
| App.HandleOnlyAppends | app.py:105-273 | no route updates or deletes a score row or a user; scores only grow at the end |
| App.RunKeepsInv | app.py:105-273 | any sequence of requests keeps the invariant |
| App.RunOnlyAppends | app.py:105-273 | over any sequence of requests, score rows and users are only ever added |
| App.EndToEndTeacher | app.py:111-193 | a teacher registers, logs in and adds Q1 to a fresh database; Q1 is stored with version 2 |
| App.EndToEndStudent | app.py:219-266 | a student sees Q1 under version 2, answers it correctly, gets the row (s1, 1, 1, 2), and is then shown the attempted page |
| App.EndToEnd | app.py:105-273 | the whole exchange from a fresh database: version 2, the score row (s1, 1, 1, 2), then the attempted page |

## Left out

- Flask routing, templates, `flash` texts, `redirect` and `url_for` become abstract values: `Page`, `Outcome` and `Notice`. The landing page (app.py:101-103) renders a static template and is not modelled.
- Accounts.Login: the redirect after login is modelled as `DashboardOf(role)` for any role. For a role other than teacher or student, `url_for` would fail, because no such endpoint exists. That failure is not modelled.
- Connection handling (`get_db`, `close_db`) and the schema bootstrap and migration in `init_db` are storage plumbing. That includes the ALTER TABLE fallbacks. The bootstrap's result is modelled only as `Store.Init`. From `init_db.py`, only the UNIQUE username constraint is used: registration of a taken name fails through it.
- `generate_quiz_version` is never called; it is only a SHA-256 digest.
- Timestamps are not modelled. The results view returns rows in reverse insertion order. That is one order `ORDER BY timestamp DESC` allows; how rows stamped in the same second are ordered is not modelled.
- The race between reading the maximum version and inserting is not modelled. It needs two concurrent teacher requests, and each handler here runs alone.
- The single-attempt check (app.py:232-235) and the score INSERT (app.py:257-261) are separate statements, and no UNIQUE constraint backs them. Two concurrent submissions by one student can therefore both insert a row. `Store.OneScorePerUser` holds only for requests handled one at a time, which is how the model runs them.
- `scores.quiz_version` is declared TEXT. The model stores the version as an integer.
- The quiz duration is kept as the submitted text, or NULL when the field is missing. SQLite's integer-affinity conversion is not modelled. The countdown is never enforced by the server, so nothing depends on the value.
- PyInt.ParseInt: reads only an optional sign followed by ASCII digits. Python's `int()` also accepts surrounding whitespace, underscores between digits and non-ASCII digits. The model treats such texts as rejected, which here means a server error with nothing written.
- The question-id counter is never exhausted: SQLite's failure once AUTOINCREMENT reaches the largest 64-bit id is not modelled.
- Flask's `<int:question_id>` converter only matches non-negative digits, so a negative id never reaches the delete route. The model accepts any integer id; a negative one matches no row.
- Requests are modelled as always carrying the form fields the handler reads. A missing field makes Flask answer 400 before anything is written.
- The `delete_id` and `edit_id` form values are modelled as integers. A text id that matches no row behaves like an absent id: nothing changes.
- Teacher.AddBumpsVersion: requires every version to be at least 1, as every row the application writes is. The one case where an add does not raise the version by one is a current version of -1, shown by Versioning.AppendAfterMinusOne.
- The session is either empty or holds both username and role, because login sets both at once. The KeyError a session with a username but no role would cause in the student route cannot arise.
