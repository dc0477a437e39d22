# Quora clone: sessions, ownership and error reporting

This project models the session and authorization core of a Quora-style
question-and-answer REST service written in Java with Spring and JPA, and
proves properties of the model in Dafny.

**Sessions.** Users sign up, sign in and sign out. Signing in creates a
`user_auth` row holding a signed access token that is valid for eight hours.
Every question and answer endpoint resolves that token to the signed-in user
through `getCurrentUser`.

**Refusals.** A token that matches no row is refused as "not signed in"
(ATHR-001). A row whose logout or expiry time lies strictly before the
current time is refused as "signed out" (ATHR-002).

**Permissions.** Only the owner of a question or answer may edit it. The
owner or an administrator may delete it. Only an administrator may delete a
user.

**Errors.** Failures are raised with entries of the `ErrorConditions`
catalogue. The question service re-raises a signed-out refusal with its own
operation-specific entry. `RestExceptionHandler` turns each exception kind
into an HTTP status.

Layout, one module per file:

| File | Module | What it holds |
|---|---|---|
| `common.dfy` | `Common` | `Option`, `Result`, the exception kinds, the `Error` value |
| `strings.dfy` | `Strings` | The Java string operations the core uses: `contains`, `substringAfter`, `equalsIgnoreCase`, `containsIgnoreCase` |
| `error_conditions.dfy` | `ErrorConditions` | The catalogue of codes and messages |
| `tables.dfy` | `Tables` | Generic single-result queries and row replacement and removal over `seq` tables |
| `entities.dfy` | `Entities` | The rows of the four tables as values; session liveness; the column limits; `UserAuthEntity`, a class with the entity's nullable fields and setters |
| `policy.dfy` | `Policy` | The owner and administrator rules |
| `persistence.dfy` | `Dao` | The database as a `Store` value; its integrity invariant `Valid`; the queries and writes as functions; class `Database`, whose methods are the DAO operations and each match one of those functions |
| `user_service.dfy`, `question_service.dfy`, `answer_service.dfy` | one per service | Each operation is a function from the starting store to `(result, new store)`. Where the service calls the DAO, a method on `Database` matches that function |
| `http.dfy` | `Http` | Status codes and the response value |
| `rest_exception_handler.dfy` | `RestExceptionHandler` | Exception kind to HTTP status |
| `answer_controller.dfy`, `question_controller.dfy` | one per controller | The endpoints; the list endpoints build their response lists in loops |

All sources below live under `quora-service/src/main/java/com/upgrad/quora/service/`,
`quora-api/src/main/java/com/upgrad/quora/api/` and
`quora-db/src/main/java/com/upgrad/quora/db/`.

**Easily misread behaviours.** Three behaviours of the code that are easy to
misread:

- **Closing instant.** A session is refused only when its logout or expiry
  time lies strictly before the current time (`isBefore`). At the very
  instant of expiry or logout the token still resolves (`Entities.Live`,
  `UserService.SignOutCloses`).
- **Lookup before session.** The question controller looks the question up
  before the service checks the session. An unknown question uuid is
  therefore reported as QUES-001 even with a bad token
  (`QuestionController.LookupBeforeSession`).
- **No rewrapping on answers.** Session failures on the answer endpoints
  reach the client exactly as `getCurrentUser` raised them. The
  `ANS_*_AUTH_FAILURE` entries of the catalogue are never used
  (`AnswerController.SessionCheckedFirst`).

## Model

| member | source | states |
|---|---|---|
| ErrorConditions.Code | quora-service/src/main/java/com/upgrad/quora/service/constants/ErrorConditions.java:5-59 | every "signed out … sign in first" entry carries ATHR-002 and every owner/admin refusal carries ATHR-003 |
| ErrorConditions.Raise | quora-service/src/main/java/com/upgrad/quora/service/constants/ErrorConditions.java:64-75 | the exception raised for an entry has the requested kind and exactly the entry's code and message |
| ErrorConditions.PairsDistinct | quora-service/src/main/java/com/upgrad/quora/service/constants/ErrorConditions.java:5-59 | two different entries never share a message, so the (code, message) pair identifies the entry |
| ErrorConditions.CodesShared | quora-service/src/main/java/com/upgrad/quora/service/constants/ErrorConditions.java:5-59 | codes alone are ambiguous: SGR-001, USR-001, QUES-001 and ATHR-002 are each shared by several entries |
| RestExceptionHandler.Status | quora-api/src/main/java/com/upgrad/quora/api/exception/RestExceptionHandler.java:15-55 | 403 exactly for authorization failures, 401 exactly for authentication and sign-out failures, 409 exactly for sign-up refusals, 404 exactly for missing users, questions and answers, 500 exactly for unexpected errors |
| RestExceptionHandler.Handle | quora-api/src/main/java/com/upgrad/quora/api/exception/RestExceptionHandler.java:15-55 | a service exception is answered with its own code and message under the status of its kind; a persistence exception has no handler here |
| RestExceptionHandler.ClientErrors | quora-api/src/main/java/com/upgrad/quora/api/exception/RestExceptionHandler.java:15-55 | every handled kind except the unexpected one maps to a 4xx status; the unexpected one maps to 500 |
| Http.ListStatus | quora-api/src/main/java/com/upgrad/quora/api/controller/QuestionController.java:60-65 | a list response is 204 No Content exactly when the list is empty and 200 OK exactly when it is not |
| Entities.ClosedIsNotLive | quora-service/src/main/java/com/upgrad/quora/service/business/UserService.java:61-63 | the refusal test (logout or expiry strictly before now) is exactly the negation of liveness, with both bounds inclusive |
| Entities.ClosedForever | quora-service/src/main/java/com/upgrad/quora/service/business/UserService.java:61-63 | once a session is closed it stays closed at every later time |
| Entities.UserAuthEntity.constructor | quora-db/src/main/java/com/upgrad/quora/db/entity/UserAuthEntity.java:18-49 | a new session entity has every field unset |
| Entities.UserAuthEntity.FromRow | quora-db/src/main/java/com/upgrad/quora/db/entity/UserAuthEntity.java:18-49 | an entity loaded from a row reads back as that row |
| Entities.UserAuthEntity.RowWithKey | quora-db/src/main/java/com/upgrad/quora/db/entity/UserAuthEntity.java:18-49 | the row stored for a complete entity carries every field the setters put in, under the given key |
| Entities.UserAuthEntity.Row | quora-db/src/main/java/com/upgrad/quora/db/entity/UserAuthEntity.java:51-105 | an entity is a row exactly when its key and every mandatory field are set |
| Entities.UserAuthEntity.SetId | quora-db/src/main/java/com/upgrad/quora/db/entity/UserAuthEntity.java:55-57 | sets the key and leaves every other field unchanged |
| Entities.UserAuthEntity.SetUuid | quora-db/src/main/java/com/upgrad/quora/db/entity/UserAuthEntity.java:63-65 | sets the uuid and leaves every other field unchanged |
| Entities.UserAuthEntity.SetUser | quora-db/src/main/java/com/upgrad/quora/db/entity/UserAuthEntity.java:71-73 | sets the owner and leaves every other field unchanged |
| Entities.UserAuthEntity.SetAccessToken | quora-db/src/main/java/com/upgrad/quora/db/entity/UserAuthEntity.java:79-81 | sets the token and leaves every other field unchanged |
| Entities.UserAuthEntity.SetExpiresAt | quora-db/src/main/java/com/upgrad/quora/db/entity/UserAuthEntity.java:87-89 | sets the expiry time and leaves every other field unchanged |
| Entities.UserAuthEntity.SetLoginAt | quora-db/src/main/java/com/upgrad/quora/db/entity/UserAuthEntity.java:95-97 | sets the login time and leaves every other field unchanged |
| Entities.UserAuthEntity.SetLogoutAt | quora-db/src/main/java/com/upgrad/quora/db/entity/UserAuthEntity.java:103-105 | sets the logout time and leaves every other field unchanged |
| Policy.EditAndDeleteRights | quora-service/src/main/java/com/upgrad/quora/service/business/AnswerService.java:64-90 | edit rights are ownership alone; delete rights are ownership or the admin role; an admin who does not own a row may delete it but not edit it |
| Policy.RoleCaseIgnored | quora-service/src/main/java/com/upgrad/quora/service/business/UserService.java:79 | the admin role is matched ignoring case ("ADMIN" and "Admin" qualify), and a role of another length never does |
| Dao.GetUser | quora-db/src/main/java/com/upgrad/quora/db/dao/UserDao.java:17-25 | finds the user with the uuid; no result exactly when none carries it; never ambiguous while uuids are unique |
| Dao.UserWithLogin | quora-service/src/main/java/com/upgrad/quora/service/business/UserService.java:133 | finds the user whose e-mail or user name is the login; no result exactly when none matches |
| Dao.SessionWithToken | quora-db/src/main/java/com/upgrad/quora/db/dao/UserDao.java:27-35 | a found session carries the token and is the only row that does; no result exactly when no row carries it |
| Dao.GetQuestion | quora-db/src/main/java/com/upgrad/quora/db/dao/QuestionDao.java:31-38 | finds the question with the uuid; no result exactly when none carries it; never ambiguous while uuids are unique |
| Dao.GetAnswer | quora-db/src/main/java/com/upgrad/quora/db/dao/AnswerDao.java:52-59 | finds the answer with the uuid; no result exactly when none carries it; never ambiguous while uuids are unique |
| Dao.QuestionsOf | quora-db/src/main/java/com/upgrad/quora/db/dao/QuestionDao.java:69-71 | a question is listed exactly when it is stored and owned by the user |
| Dao.AnswersOf | quora-db/src/main/java/com/upgrad/quora/db/dao/AnswerDao.java:66-68 | an answer is listed exactly when it is stored and refers to the question |
| Dao.InsertUser | quora-service/src/main/java/com/upgrad/quora/service/business/UserService.java:105-110 | a taken user name or e-mail violates a unique constraint, reported as the user-name constraint when the name is taken (an assumed order) and as the e-mail constraint otherwise; with both free the user is appended under the next key |
| Dao.DeleteUserCascade | quora-service/src/main/java/com/upgrad/quora/service/business/UserService.java:82 | removes the user, its sessions, its questions, its answers and the answers to its questions, and nothing else |
| Dao.DeleteQuestionCascade | quora-db/src/main/java/com/upgrad/quora/db/dao/QuestionDao.java:44-46 | removes the question and the answers to it, and nothing else |
| Dao.DeleteAnswerRow | quora-db/src/main/java/com/upgrad/quora/db/dao/AnswerDao.java:42-45 | removes the answer; the other tables and the key counter are unchanged |
| Dao.InsertUserKeepsValid | quora-service/src/main/java/com/upgrad/quora/service/business/UserService.java:105 | inserting a user with a fresh uuid keeps every key unique and every reference resolved |
| Dao.InsertUserAuthKeepsValid | quora-service/src/main/java/com/upgrad/quora/service/business/UserService.java:144 | inserting a session of a stored user keeps the store valid |
| Dao.MergeUserAuthKeepsValid | quora-service/src/main/java/com/upgrad/quora/service/business/UserService.java:167 | merging a session of a stored user keeps the store valid |
| Dao.DeleteUserKeepsValid | quora-service/src/main/java/com/upgrad/quora/service/business/UserService.java:82 | the cascading user deletion leaves no dangling reference |
| Dao.InsertQuestionKeepsValid | quora-db/src/main/java/com/upgrad/quora/db/dao/QuestionDao.java:21-24 | inserting a question of a stored user with a fresh uuid keeps the store valid |
| Dao.MergeQuestionKeepsValid | quora-db/src/main/java/com/upgrad/quora/db/dao/QuestionDao.java:52-54 | merging a question that keeps its uuid and a stored owner keeps the store valid |
| Dao.DeleteQuestionKeepsValid | quora-db/src/main/java/com/upgrad/quora/db/dao/QuestionDao.java:44-46 | the cascading question deletion leaves no answer without its question |
| Dao.InsertAnswerKeepsValid | quora-db/src/main/java/com/upgrad/quora/db/dao/AnswerDao.java:22-25 | inserting an answer of a stored user to a stored question with a fresh uuid keeps the store valid |
| Dao.MergeAnswerKeepsValid | quora-db/src/main/java/com/upgrad/quora/db/dao/AnswerDao.java:32-35 | merging an answer that keeps its uuid, owner and question keeps the store valid |
| Dao.DeleteAnswerKeepsValid | quora-db/src/main/java/com/upgrad/quora/db/dao/AnswerDao.java:42-45 | deleting an answer keeps the store valid |
| Dao.Database.GetUserByEmailOrUserName | quora-service/src/main/java/com/upgrad/quora/service/business/UserService.java:133 | a returned user is stored and has the name as e-mail or user name; no result exactly when no stored user has it as either; the answer is the login query on the current tables |
| Dao.Database.GetUserAuthToken | quora-db/src/main/java/com/upgrad/quora/db/dao/UserDao.java:27-35 | a returned session is stored, carries the token and is the only one that does; no result exactly when no stored session carries the token |
| Dao.Database.GetUserByUuid | quora-db/src/main/java/com/upgrad/quora/db/dao/UserDao.java:17-25 | a returned user is stored and has the uuid; no result exactly when no stored user has it; never ambiguous when user uuids are unique |
| Dao.Database.CreateUser | quora-service/src/main/java/com/upgrad/quora/service/business/UserService.java:105 | the result and new tables are those of `InsertUser`: a unique-constraint refusal changes nothing, otherwise the user is appended |
| Dao.Database.DeleteUser | quora-service/src/main/java/com/upgrad/quora/service/business/UserService.java:82 | the new tables are those of the cascading deletion |
| Dao.Database.CreateQuestion | quora-db/src/main/java/com/upgrad/quora/db/dao/QuestionDao.java:21-24 | refuses a question over the column limits, else appends it under the next key |
| Dao.Database.UpdateQuestion | quora-db/src/main/java/com/upgrad/quora/db/dao/QuestionDao.java:52-54 | refuses a question over the column limits, else replaces the row with its key |
| Dao.Database.DeleteQuestion | quora-db/src/main/java/com/upgrad/quora/db/dao/QuestionDao.java:44-46 | the new tables are those of the cascading deletion |
| Dao.Database.CreateAnswer | quora-db/src/main/java/com/upgrad/quora/db/dao/AnswerDao.java:22-25 | refuses an answer over the column limits, else appends it under the next key |
| Dao.Database.UpdateAnswer | quora-db/src/main/java/com/upgrad/quora/db/dao/AnswerDao.java:32-35 | refuses an answer over the column limits, else replaces the row with its key |
| Dao.Database.DeleteAnswer | quora-db/src/main/java/com/upgrad/quora/db/dao/AnswerDao.java:42-45 | removes exactly the answer's row |
| Dao.Database.CreateUserAuth | quora-service/src/main/java/com/upgrad/quora/service/business/UserService.java:144 | refuses an entity with an unset mandatory field; else stores it under the next key and gives the entity that key, so it reads back as the stored row |
| Dao.Database.UpdateUserAuth | quora-service/src/main/java/com/upgrad/quora/service/business/UserService.java:167 | refuses a row over the column limits, else replaces the session row with its key |
| UserService.GetCurrentUser | quora-service/src/main/java/com/upgrad/quora/service/business/UserService.java:57-67 | ATHR-001 when no session carries the token; success exactly when the single session with the token is live, returning its owner; ATHR-002 when that session is closed |
| UserService.GateFailures | quora-service/src/main/java/com/upgrad/quora/service/business/UserService.java:57-67 | with unique tokens, every failure of the gate is an authorization failure, and its code is ATHR-002 exactly when a session with the token exists |
| UserService.GetUserById | quora-service/src/main/java/com/upgrad/quora/service/business/UserService.java:40-48 | a session failure is returned unchanged; a signed-in caller asking for an unknown uuid gets USR-001; a known uuid in a valid store yields that user |
| UserService.SignUpError | quora-service/src/main/java/com/upgrad/quora/service/business/UserService.java:108-120 | a constraint violation becomes SGR-001 exactly when the constraint's name contains "userName" ignoring case, else SGR-002; every other error passes unchanged |
| UserService.ConstraintNamesClassified | quora-service/src/main/java/com/upgrad/quora/service/business/UserService.java:111 | the user-name constraint's name contains "userName" ignoring case and the e-mail constraint's name does not |
| UserService.SignUp | quora-service/src/main/java/com/upgrad/quora/service/business/UserService.java:100-122 | a created user is stored under the next key with the fresh salt and the salted hash in place of the password; the user is appended, the key counter advances and nothing else changes; a refusal changes nothing |
| UserService.CreateUser | quora-service/src/main/java/com/upgrad/quora/service/business/UserService.java:100-122 | salts and hashes the password, then inserts through the DAO and translates its error; result and new tables are those of `SignUp` |
| UserService.SignUpNameTaken | quora-service/src/main/java/com/upgrad/quora/service/business/UserService.java:108-113 | a taken user name is refused with SGR-001, under the assumed constraint order, and nothing is stored |
| UserService.SignUpEmailTaken | quora-service/src/main/java/com/upgrad/quora/service/business/UserService.java:114-116 | with a free user name, a taken e-mail is refused with SGR-002 and nothing is stored |
| UserService.SignUpFree | quora-service/src/main/java/com/upgrad/quora/service/business/UserService.java:100-107 | a user name and e-mail that are both free always sign up |
| UserService.SignIn | quora-service/src/main/java/com/upgrad/quora/service/business/UserService.java:132-153 | ATH-001 for an unknown login; ATH-002 when the salted hash differs; a unique login whose salted hash matches always gets a session (given the column limits); on success a new session for that user under the next key, logged in now, expiring eight hours later, not logged out, is appended and nothing else changes |
| UserService.AuthenticateUser | quora-service/src/main/java/com/upgrad/quora/service/business/UserService.java:132-153 | fills a fresh session entity through its setters and stores it; result and new tables are those of `SignIn` |
| UserService.SignInThenResolve | quora-service/src/main/java/com/upgrad/quora/service/business/UserService.java:140-144 | a fresh token from a sign-in resolves to the signed-in user up to and including eight hours later, and is refused with ATHR-002 after that |
| UserService.SignUpThenSignIn | quora-service/src/main/java/com/upgrad/quora/service/business/UserService.java:100-153 | a user who has just signed up can sign in with the user name and the plain password, and the session belongs to that user |
| UserService.SignOut | quora-service/src/main/java/com/upgrad/quora/service/business/UserService.java:162-172 | SGR-001 when no session carries the token; otherwise the session's owner is returned; only the sessions table changes, and it keeps its length |
| UserService.InvalidateAuthorization | quora-service/src/main/java/com/upgrad/quora/service/business/UserService.java:162-172 | sets expiry and logout to now through the entity's setters and merges it; result and new tables are those of `SignOut` |
| UserService.SignOutRewritesOne | quora-service/src/main/java/com/upgrad/quora/service/business/UserService.java:165-167 | sign-out rewrites exactly the session with the token, setting both its expiry and logout time to now, and leaves every other session row as it was |
| UserService.SignOutCloses | quora-service/src/main/java/com/upgrad/quora/service/business/UserService.java:162-172 | after sign-out the token is refused with ATHR-002 at every later time, and still resolves at the sign-out instant; other sessions survive |
| UserService.DeleteUserOutcome | quora-service/src/main/java/com/upgrad/quora/service/business/UserService.java:78-92 | ATHR-003 for a non-admin; USR-001 for an unknown uuid; on success the uuid is returned and the user is deleted with its cascade |
| UserService.DeleteUser | quora-service/src/main/java/com/upgrad/quora/service/business/UserService.java:78-92 | result and new tables are those of `DeleteUserOutcome` |
| UserService.DeleteUserRemovesAll | quora-service/src/main/java/com/upgrad/quora/service/business/UserService.java:78-92 | an admin deleting a stored user succeeds, and afterwards no user, session, question or answer of that user is left and the store is still valid |
| UserService.SignUpKeepsValid | quora-service/src/main/java/com/upgrad/quora/service/business/UserService.java:100-122 | sign-up with a fresh uuid keeps the store valid |
| UserService.SignInKeepsValid | quora-service/src/main/java/com/upgrad/quora/service/business/UserService.java:132-153 | sign-in keeps the store valid |
| UserService.SignOutKeepsValid | quora-service/src/main/java/com/upgrad/quora/service/business/UserService.java:162-172 | sign-out keeps the store valid |
| QuestionService.Rewrap | quora-service/src/main/java/com/upgrad/quora/service/business/QuestionService.java:41-47 | an authorization failure with code ATHR-002 is replaced by the operation's own entry; every other error passes unchanged |
| QuestionService.RewrapGate | quora-service/src/main/java/com/upgrad/quora/service/business/QuestionService.java:41-47 | a closed session surfaces as the operation's entry, a missing one still as ATHR-001, and an ATHR-003 refusal is never rewrapped |
| QuestionService.CreateQuestionOutcome | quora-service/src/main/java/com/upgrad/quora/service/business/QuestionService.java:35-49 | gate failures are rewrapped with QUES_CREATE_AUTH_FAILURE; it succeeds exactly when the caller is signed in and the question fits its columns; a created question is owned by the signed-in user, stored under the next key and appended |
| QuestionService.CreateQuestion | quora-service/src/main/java/com/upgrad/quora/service/business/QuestionService.java:35-49 | result and new tables are those of `CreateQuestionOutcome` |
| QuestionService.GetQuestionByUuid | quora-service/src/main/java/com/upgrad/quora/service/business/QuestionService.java:57-65 | QUES-001 exactly when no question carries the uuid; in a valid store a carried uuid yields that question |
| QuestionService.CreateThenGet | quora-service/src/main/java/com/upgrad/quora/service/business/QuestionService.java:35-65 | a question created with a fresh uuid is fetched back by that uuid |
| QuestionService.EditQuestionOutcome | quora-service/src/main/java/com/upgrad/quora/service/business/QuestionService.java:75-93 | gate failures are rewrapped with QUES_EDIT_AUTH_FAILURE; a non-owner gets ATHR-003; it succeeds exactly when the caller owns the question and the question fits its columns, and then the question is merged and its uuid returned |
| QuestionService.EditQuestion | quora-service/src/main/java/com/upgrad/quora/service/business/QuestionService.java:75-93 | result and new tables are those of `EditQuestionOutcome` |
| QuestionService.DeleteQuestionOutcome | quora-service/src/main/java/com/upgrad/quora/service/business/QuestionService.java:103-121 | gate failures are rewrapped with QUES_DELETE_AUTH_FAILURE; a caller who is neither owner nor admin gets ATHR-003; otherwise the question and its answers are deleted |
| QuestionService.DeleteQuestion | quora-service/src/main/java/com/upgrad/quora/service/business/QuestionService.java:103-121 | result and new tables are those of `DeleteQuestionOutcome` |
| QuestionService.GetAllQuestions | quora-service/src/main/java/com/upgrad/quora/service/business/QuestionService.java:128-141 | gate failures are rewrapped with QUES_GET_ALL_AUTH_FAILURE; a signed-in caller gets every question |
| QuestionService.UserQuestionsError | quora-service/src/main/java/com/upgrad/quora/service/business/QuestionService.java:154-164 | a missing user becomes QUES_GET_FAILURE; an ATHR-002 failure becomes QUES_GET_AUTH_FAILURE; others pass unchanged |
| QuestionService.GetUserQuestionsAsWritten | quora-service/src/main/java/com/upgrad/quora/service/business/QuestionService.java:149-165 | with the arguments swapped as written, success requires a session whose token is the requested user's uuid and a user whose uuid is the caller's token |
| QuestionService.GetUserQuestions | quora-service/src/main/java/com/upgrad/quora/service/business/QuestionService.java:149-165 | gate failures are rewrapped with QUES_GET_AUTH_FAILURE; an unknown user gives QUES_GET_FAILURE; a known user in a valid store yields exactly that user's questions |
| QuestionService.ArgumentSwapShows | quora-service/src/main/java/com/upgrad/quora/service/business/QuestionService.java:151 | in a concrete store, a live owner asking for their own questions is told ATHR-001 by the code as written, while the corrected operation returns the question |
| QuestionService.CreateQuestionKeepsValid | quora-service/src/main/java/com/upgrad/quora/service/business/QuestionService.java:35-49 | creating a question with a fresh uuid keeps the store valid |
| QuestionService.EditQuestionKeepsValid | quora-service/src/main/java/com/upgrad/quora/service/business/QuestionService.java:75-93 | editing a fetched question keeps the store valid |
| QuestionService.DeleteQuestionOutcomeKeepsValid | quora-service/src/main/java/com/upgrad/quora/service/business/QuestionService.java:103-121 | deleting a question keeps the store valid |
| AnswerService.CreateAnswer | quora-service/src/main/java/com/upgrad/quora/service/business/AnswerService.java:36-38 | stores the answer as given under the next key exactly when it fits the columns; a refusal changes nothing |
| AnswerService.GetAnswerByUuid | quora-service/src/main/java/com/upgrad/quora/service/business/AnswerService.java:46-54 | ANS-001 exactly when no answer carries the uuid; in a valid store a carried uuid yields that answer |
| AnswerService.EditAnswerOutcome | quora-service/src/main/java/com/upgrad/quora/service/business/AnswerService.java:64-72 | a non-owner gets ATHR-003 and nothing changes; an owner's fitting answer is merged and its uuid returned |
| AnswerService.EditAnswer | quora-service/src/main/java/com/upgrad/quora/service/business/AnswerService.java:64-72 | result and new tables are those of `EditAnswerOutcome` |
| AnswerService.DeleteAnswerOutcome | quora-service/src/main/java/com/upgrad/quora/service/business/AnswerService.java:82-90 | a caller who is neither owner nor admin gets ATHR-003 and nothing changes; otherwise the answer is deleted and its uuid returned |
| AnswerService.DeleteAnswer | quora-service/src/main/java/com/upgrad/quora/service/business/AnswerService.java:82-90 | result and new tables are those of `DeleteAnswerOutcome` |
| AnswerService.GetAnswersForQuestion | quora-service/src/main/java/com/upgrad/quora/service/business/AnswerService.java:97-104 | a missing question is reported with ANS_GET_FAILURE; in a valid store an existing question always succeeds; on success an answer is listed exactly when it refers to the found question |
| AnswerService.MissingQuestionReports | quora-service/src/main/java/com/upgrad/quora/service/business/AnswerService.java:101-103 | the rewrapped missing-question error keeps code QUES-001 but changes the message |
| AnswerService.AnswerPolicy | quora-service/src/main/java/com/upgrad/quora/service/business/AnswerService.java:64-90 | only the owner edits, whatever the role; deletion succeeds exactly for the owner or an admin |
| AnswerService.CreateThenGetAnswer | quora-service/src/main/java/com/upgrad/quora/service/business/AnswerService.java:36-54 | an answer stored with a fresh uuid is fetched back by that uuid |
| AnswerService.DeleteAnswerRemoves | quora-service/src/main/java/com/upgrad/quora/service/business/AnswerService.java:82-86 | a successful deletion removes exactly the rows with the answer's key |
| AnswerService.EditAnswerKeepsValid | quora-service/src/main/java/com/upgrad/quora/service/business/AnswerService.java:64-72 | editing a fetched answer keeps the store valid |
| AnswerService.DeleteAnswerOutcomeKeepsValid | quora-service/src/main/java/com/upgrad/quora/service/business/AnswerService.java:82-90 | deleting an answer keeps the store valid |
| AnswerController.BearerToken | quora-api/src/main/java/com/upgrad/quora/api/controller/AnswerController.java:49 | without "Bearer " the header is the token; with it, the header is the text before the first "Bearer ", the prefix, and then the token |
| AnswerController.BearerTokenOfPrefixed | quora-api/src/main/java/com/upgrad/quora/api/controller/AnswerController.java:49 | "Bearer " followed by a token yields that token, even when the token contains the prefix again |
| AnswerController.BearerTokenOfBare | quora-api/src/main/java/com/upgrad/quora/api/controller/AnswerController.java:49 | a header without the prefix is used whole |
| AnswerController.CreateAnswerError | quora-api/src/main/java/com/upgrad/quora/api/controller/AnswerController.java:62-64 | a missing question becomes ANS_CREATE_FAILURE; every other error passes unchanged |
| AnswerController.CreateAnswerOutcome | quora-api/src/main/java/com/upgrad/quora/api/controller/AnswerController.java:47-65 | gate failures pass unchanged; a signed-in caller naming an unknown question gets ANS_CREATE_FAILURE; it succeeds exactly when the caller is signed in, the question exists and the answer fits its columns; on success 201 with the new uuid, and the answer owned by the caller, dated today and referring to the question is appended |
| AnswerController.CreateAnswer | quora-api/src/main/java/com/upgrad/quora/api/controller/AnswerController.java:47-65 | fills the answer through its setters and stores it; result and new tables are those of `CreateAnswerOutcome` |
| AnswerController.EditAnswerOutcome | quora-api/src/main/java/com/upgrad/quora/api/controller/AnswerController.java:77-85 | gate failures pass unchanged; an unknown answer gives ANS-001; the owner's fitting edit of an existing answer succeeds; on success 200 with the uuid, the caller owns the answer and it is merged with the new content |
| AnswerController.EditAnswer | quora-api/src/main/java/com/upgrad/quora/api/controller/AnswerController.java:77-85 | result and new tables are those of `EditAnswerOutcome` |
| AnswerController.DeleteAnswerOutcome | quora-api/src/main/java/com/upgrad/quora/api/controller/AnswerController.java:97-104 | gate failures pass unchanged; an unknown answer gives ANS-001; an owner or admin deletion of an existing answer succeeds; on success 200 with the uuid, the caller may delete the answer and it is deleted |
| AnswerController.DeleteAnswer | quora-api/src/main/java/com/upgrad/quora/api/controller/AnswerController.java:97-104 | result and new tables are those of `DeleteAnswerOutcome` |
| AnswerController.SessionCheckedFirst | quora-api/src/main/java/com/upgrad/quora/api/controller/AnswerController.java:78-80 | with a closed session, editing or deleting any answer, known or not, gives the profile entry's ATHR-002 and not an answer-specific entry |
| AnswerController.DetailsOf | quora-api/src/main/java/com/upgrad/quora/api/controller/AnswerController.java:119 | one item per answer in the same order, with the answer's uuid and content and the question's content |
| AnswerController.GetAllAnswersToQuestion | quora-api/src/main/java/com/upgrad/quora/api/controller/AnswerController.java:115-126 | gate failures first, then the question lookup's failure, pass unchanged; it succeeds exactly when both pass, and then it gives the list of the question's answers, as items in order, with 204 when empty and 200 otherwise |
| QuestionController.MapListResponseItems | quora-api/src/main/java/com/upgrad/quora/api/controller/QuestionController.java:129-133 | one item per question in the same order, carrying its uuid and content |
| QuestionController.CreateQuestionOutcome | quora-api/src/main/java/com/upgrad/quora/api/controller/QuestionController.java:37-48 | gate failures are rewrapped as the service does; it succeeds exactly when the caller is signed in and the question fits its columns; on success 201 with the new uuid, and the caller's question with the given content and date is appended |
| QuestionController.CreateQuestion | quora-api/src/main/java/com/upgrad/quora/api/controller/QuestionController.java:37-48 | result and new tables are those of `CreateQuestionOutcome` |
| QuestionController.GetAllQuestions | quora-api/src/main/java/com/upgrad/quora/api/controller/QuestionController.java:57-66 | succeeds exactly for a live session; then every question as an item, in order, with 204 when there are none and 200 otherwise |
| QuestionController.GetUserQuestions | quora-api/src/main/java/com/upgrad/quora/api/controller/QuestionController.java:118-127 | the service's failure passes unchanged; it succeeds exactly when the service does, and then gives its questions as items, in order, with 204 when there are none and 200 otherwise |
| QuestionController.EditQuestionOutcome | quora-api/src/main/java/com/upgrad/quora/api/controller/QuestionController.java:78-87 | an unknown question gives QUES-001 before any session check; the owner's fitting edit of an existing question succeeds; on success 200 with the uuid, the caller owns the question and it is merged with the new content |
| QuestionController.EditQuestion | quora-api/src/main/java/com/upgrad/quora/api/controller/QuestionController.java:78-87 | result and new tables are those of `EditQuestionOutcome` |
| QuestionController.DeleteQuestionOutcome | quora-api/src/main/java/com/upgrad/quora/api/controller/QuestionController.java:99-107 | an unknown question gives QUES-001 before any session check; an owner or admin deletion of an existing question succeeds; on success 200 with the uuid, the caller may delete the question and it is deleted with its answers |
| QuestionController.DeleteQuestion | quora-api/src/main/java/com/upgrad/quora/api/controller/QuestionController.java:99-107 | result and new tables are those of `DeleteQuestionOutcome` |
| QuestionController.LookupBeforeSession | quora-api/src/main/java/com/upgrad/quora/api/controller/QuestionController.java:79-82 | with a token no session carries, an unknown question gives QUES-001, while a known one gives ATHR-001 |

## Left out

- **Clock.** `LocalDateTime.now()` and `LocalDate.now()` become parameters (`now`, `today`). Each operation reads the clock once, so the two reads at sign-in and at sign-out give the same instant. Time zones are not modelled.
- **Random values.** `UUID.randomUUID()` becomes a parameter.
- **Cryptography.** `PasswordCryptographyProvider` and `JwtTokenProvider` are not part of this model. They become the functions `hash` and `token` of `UserService.Crypto`.
- **Password salt.** The fresh salt of `encrypt(password)` is a parameter of sign-up. This assumes `encrypt(password)` returns that salt together with `hash(password, salt)`, the value `encrypt(password, salt)` computes at sign-in.
- **AppUtils.** `AppUtils.getBearerAuthToken` is not part of this model. The question endpoints take the extracted token.
- **Admin role.** `UserRole` is not part of this model. The admin role string is taken to be `"admin"`.
- **Status strings.** `UserStatus`, `QuestionStatus` and `AnswerStatus` are the status strings of response bodies. They are left out, and the responses carry only the uuid and the HTTP status.
- **Missing UserDao methods.** `UserDao.createUser`, `getUserByEmailOrUserName`, `createUserAuth`, `updateUserAuth` and `deleteUser` are called by the service but do not appear in `UserDao.java`. They are modelled as plain JPA persist, query, merge and remove.
- **Constraint names.** The names of the two unique constraints on the users table are taken to be `users_username_key` and `users_email_key`.
- Dao.InsertUser: constraint order assumed. When both the user name and the e-mail are taken, the model reports the user-name constraint, so sign-up answers SGR-001. The code only classifies the constraint name the database reports, and the schema and `UserEntity.java` are not part of this model, so which constraint the database reports first is not fixed. `UserService.SignUpNameTaken` inherits this assumption.
- **User deletion cascade.** Deleting a user also deletes that user's sessions, questions and answers, and the answers to those questions. The cascade comes from the `@OnDelete(action = OnDeleteAction.CASCADE)` foreign keys: sessions to users at quora-db/src/main/java/com/upgrad/quora/db/entity/UserAuthEntity.java:31, questions to users at quora-db/src/main/java/com/upgrad/quora/db/entity/QuestionEntity.java:45, and answers to users and to questions at quora-db/src/main/java/com/upgrad/quora/db/entity/AnswerEntity.java:37 and :46. The database schema itself is not part of this model.
- **Other controllers.** `UserController`, `AdminController` and `CommonController` are not modelled. That covers HTTP Basic decoding at sign-in, sign-up request mapping and the profile endpoint. The service operations they call are modelled.
- **Entities as values.** `QuestionEntity`, `AnswerEntity` and `UserEntity` are values. The source changes them only through setters immediately before handing them to the DAO, and the controllers' record updates express those setters. `UserAuthEntity` is a class.
- **Transactions and the persistence context.** Transactions, concurrency and the persistence context's dirty checking are not modelled. Every operation is atomic, and a failed one leaves the store as it was.
- **Key generation.** One counter generates the keys of all four tables.
- **Case folding.** Case is folded for ASCII letters only.
- **Ambiguous queries.** A single-result query that matches several rows raises JPA's `NonUniqueResultException`. This is modelled as the persistence error `NonUniqueResult`. Under `Valid` the lookups by uuid and by token cannot match several rows.
- **Vanished rows.** Merging an entity whose row no longer exists inserts it in JPA. The model leaves the table unchanged instead.
- **Undeclared named queries.** Only `QuestionEntity.java:17-21` declares named queries (`Questions.editById`, `Questions.deleteById`, `Questions.fetchAll` and `Questions.fetchByUserId`). The DAOs also use five queries declared in no entity file that is part of this model. `UserEntity.java` is not part of this model. Each is modelled by what its name and parameter say:
  - `Questions.getById` (`QuestionDao.java:33`): the question with the uuid.
  - `Answers.getById` (`AnswerDao.java:54`): the answer with the uuid.
  - `Answers.getByQuestion` (`AnswerDao.java:67`): the answers to the question, in stored order.
  - `Users.getById` (`UserDao.java:19`): the user with the uuid.
  - `UserAuths.getByAccessToken` (`UserDao.java:29`): the session with the access token.
- **Persistence errors in the handler.** `RestExceptionHandler.Handle` does not model Spring's default response for exceptions without a handler.
- QuestionController.GetUserQuestions: built on the corrected `QuestionService.GetUserQuestions`, not on the argument swap described under "## Findings". On the input given there, the model lists the user's questions where the program refuses the call with ATHR-001. `QuestionService.GetUserQuestionsAsWritten` models what the program does.
- **UserService.SignOut: partial contract.** Its contract does not state the rewritten session row. `UserService.SignOutRewritesOne` states it as a separate lemma.

## Findings

| source | as written | input that shows it | evidently intended | confidence | as-written member | corrected member |
|---|---|---|---|---|---|---|
| quora-service/src/main/java/com/upgrad/quora/service/business/QuestionService.java:151 | `getUserQuestions(token, userId)` calls `userService.getUserById(token, userId)`, but `getUserById` takes the user's uuid first and the token second, so the token is looked up as a user uuid and the user uuid as an access token | a user with uuid "u" whose live session has token "t" asks at time 5 for the questions of "u": the call resolves token "u", finds no session and raises ATHR-001 | resolve the caller's token, then fetch the user with the requested uuid and list that user's questions | not executed | QuestionService.GetUserQuestionsAsWritten, QuestionService.ArgumentSwapShows | QuestionService.GetUserQuestions |
