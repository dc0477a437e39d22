/** The question service: posting, fetching, editing and deleting a question
    and listing questions. Every operation that needs a signed-in user runs
    the gate of the user service first and translates a closed-session
    failure into its own ATHR-002 entry. */
module QuestionService {
  import opened Common
  import opened Tables
  import opened Entities
  import opened Dao
  import opened ErrorConditions
  import opened Policy
  import opened UserService

  /** The catch clause of the question operations: an authorization failure
      carrying the code of USER_SIGNED_OUT becomes the entry `c`; any other
      error passes unchanged. */
  function Rewrap(e: Error, c: Condition): (r: Error)
    ensures e.Raised? && e.kind == AuthorizationFailedException && e.code == Code(UserSignedOut) ==>
      r == Raise(AuthorizationFailedException, c)
    ensures !(e.Raised? && e.kind == AuthorizationFailedException && e.code == Code(UserSignedOut)) ==> r == e
  {
    if e.Raised? && e.kind == AuthorizationFailedException && e.code == Code(UserSignedOut) then
      Raise(AuthorizationFailedException, c)
    else e
  }

  /** Through the translation, a token whose session has closed is refused
      with the operation's own message, and an unknown token still with
      ATHR-001. An ATHR-003 refusal is never translated. */
  lemma RewrapGate(st: Store, token: string, now: Time, c: Condition)
    ensures SessionWithToken(st, token).One? && !Live(SessionWithToken(st, token).row, now) ==>
      Rewrap(GetCurrentUser(st, token, now).error, c) == Raise(AuthorizationFailedException, c)
    ensures SessionWithToken(st, token).NoResult? ==>
      Rewrap(GetCurrentUser(st, token, now).error, c) == Raise(AuthorizationFailedException, UserNotSignedIn)
    ensures IsUnauthorizedEntry(c) ==> Rewrap(Raise(AuthorizationFailedException, c), c) == Raise(AuthorizationFailedException, c)
  {
  }

  /** `createQuestion`: the question is stored with the signed-in user as its
      owner. */
  function CreateQuestionOutcome(st: Store, token: string, q: Question, now: Time): (out: (Result<Question>, Store))
    ensures GetCurrentUser(st, token, now).Err? ==>
      out == (Err(Rewrap(GetCurrentUser(st, token, now).error, QuesCreateAuthFailure)), st)
    ensures out.0.Ok? <==> GetCurrentUser(st, token, now).Ok? && FitsQuestion(q)
    ensures out.0.Ok? ==> out.0.value == q.(id := st.nextId, user := GetCurrentUser(st, token, now).value)
    ensures out.0.Ok? ==> out.1 == st.(questions := st.questions + [out.0.value], nextId := st.nextId + 1)
    ensures out.0.Err? ==> out.1 == st
  {
    match GetCurrentUser(st, token, now)
    case Err(e) => (Err(Rewrap(e, QuesCreateAuthFailure)), st)
    case Ok(u) => InsertQuestion(st, q.(user := u))
  }

  /** `createQuestion` as the service runs it: the owner is set on the
      question, which the DAO then persists. */
  method CreateQuestion(db: Database, token: string, q: Question, now: Time) returns (r: Result<Question>)
    modifies db
    ensures (r, db.State()) == CreateQuestionOutcome(old(db.State()), token, q, now)
  {
    var user := GetCurrentUser(db.State(), token, now);
    if user.Err? {
      return Err(Rewrap(user.error, QuesCreateAuthFailure));
    }
    var question := q.(user := user.value);
    r := db.CreateQuestion(question);
  }

  /** `getQuestion`: the question with uuid `uuid`. */
  function GetQuestionByUuid(st: Store, uuid: string): (r: Result<Question>)
    ensures (forall q :: q in st.questions ==> q.uuid != uuid) <==>
      r == Err(Raise(InvalidQuestionException, QuesNotFound))
    ensures Valid(st) && (exists q :: q in st.questions && q.uuid == uuid) ==> r.Ok?
    ensures r.Ok? ==> r.value in st.questions && r.value.uuid == uuid
  {
    match GetQuestion(st, uuid)
    case NoResult => Err(Raise(InvalidQuestionException, QuesNotFound))
    case NonUnique => Err(Persistence(NonUniqueResult))
    case One(q) => Ok(q)
  }

  /** A question posted with a fresh uuid can be fetched back by that uuid,
      as stored. */
  lemma CreateThenGet(st: Store, token: string, q: Question, now: Time)
    requires CreateQuestionOutcome(st, token, q, now).0.Ok?
    requires forall p :: p in st.questions ==> p.uuid != q.uuid
    ensures GetQuestionByUuid(CreateQuestionOutcome(st, token, q, now).1, q.uuid) == CreateQuestionOutcome(st, token, q, now).0
  {
    var (r, st') := CreateQuestionOutcome(st, token, q, now);
    var p := (x: Question) => x.uuid == q.uuid;
    forall i | 0 <= i < |st'.questions| && i != |st.questions| ensures !p(st'.questions[i]) {
      assert st.questions[i] in st.questions;
    }
    SingleAt(st'.questions, p, |st.questions|);
  }

  /** `editQuestion`: only the owner may merge the changed question. The
      refusal is thrown inside the translating block and comes out as it
      was raised. */
  function EditQuestionOutcome(st: Store, token: string, q: Question, now: Time): (out: (Result<string>, Store))
    ensures GetCurrentUser(st, token, now).Err? ==>
      out == (Err(Rewrap(GetCurrentUser(st, token, now).error, QuesEditAuthFailure)), st)
    ensures GetCurrentUser(st, token, now).Ok? && !MayEdit(GetCurrentUser(st, token, now).value, q.user) ==>
      out == (Err(Raise(AuthorizationFailedException, QuesEditUnauthorized)), st)
    ensures out.0.Ok? ==> GetCurrentUser(st, token, now).Ok? && GetCurrentUser(st, token, now).value.id == q.user.id
    ensures out.0.Ok? ==> out.0.value == q.uuid && out.1 == MergeQuestion(st, q).1
    ensures GetCurrentUser(st, token, now).Ok? && MayEdit(GetCurrentUser(st, token, now).value, q.user) && FitsQuestion(q) ==>
      out == (Ok(q.uuid), MergeQuestion(st, q).1)
    ensures out.0.Err? ==> out.1 == st
  {
    match GetCurrentUser(st, token, now)
    case Err(e) => (Err(Rewrap(e, QuesEditAuthFailure)), st)
    case Ok(u) =>
      if u.id == q.user.id then
        var (m, st') := MergeQuestion(st, q);
        if m.Ok? then (Ok(q.uuid), st') else (Err(m.error), st)
      else
        (Err(Rewrap(Raise(AuthorizationFailedException, QuesEditUnauthorized), QuesEditAuthFailure)), st)
  }

  /** `editQuestion` as the service runs it against the DAO. */
  method EditQuestion(db: Database, token: string, q: Question, now: Time) returns (r: Result<string>)
    modifies db
    ensures (r, db.State()) == EditQuestionOutcome(old(db.State()), token, q, now)
  {
    var user := GetCurrentUser(db.State(), token, now);
    if user.Err? {
      return Err(Rewrap(user.error, QuesEditAuthFailure));
    }
    if user.value.id != q.user.id {
      return Err(Rewrap(Raise(AuthorizationFailedException, QuesEditUnauthorized), QuesEditAuthFailure));
    }
    var merged := db.UpdateQuestion(q);
    r := if merged.Ok? then Ok(q.uuid) else Err(merged.error);
  }

  /** `deleteQuestion`: the owner or an administrator may delete the
      question; its answers go with it. */
  function DeleteQuestionOutcome(st: Store, token: string, q: Question, now: Time): (out: (Result<string>, Store))
    ensures GetCurrentUser(st, token, now).Err? ==>
      out == (Err(Rewrap(GetCurrentUser(st, token, now).error, QuesDeleteAuthFailure)), st)
    ensures GetCurrentUser(st, token, now).Ok? && !MayDelete(GetCurrentUser(st, token, now).value, q.user) ==>
      out == (Err(Raise(AuthorizationFailedException, QuesDeleteUnauthorized)), st)
    ensures GetCurrentUser(st, token, now).Ok? && MayDelete(GetCurrentUser(st, token, now).value, q.user) ==>
      out == (Ok(q.uuid), DeleteQuestionCascade(st, q))
  {
    match GetCurrentUser(st, token, now)
    case Err(e) => (Err(Rewrap(e, QuesDeleteAuthFailure)), st)
    case Ok(u) =>
      if u.id == q.user.id || IsAdmin(u) then (Ok(q.uuid), DeleteQuestionCascade(st, q))
      else (Err(Rewrap(Raise(AuthorizationFailedException, QuesDeleteUnauthorized), QuesDeleteAuthFailure)), st)
  }

  /** `deleteQuestion` as the service runs it against the DAO. */
  method DeleteQuestion(db: Database, token: string, q: Question, now: Time) returns (r: Result<string>)
    modifies db
    ensures (r, db.State()) == DeleteQuestionOutcome(old(db.State()), token, q, now)
  {
    var user := GetCurrentUser(db.State(), token, now);
    if user.Err? {
      return Err(Rewrap(user.error, QuesDeleteAuthFailure));
    }
    if !(user.value.id == q.user.id || IsAdmin(user.value)) {
      return Err(Rewrap(Raise(AuthorizationFailedException, QuesDeleteUnauthorized), QuesDeleteAuthFailure));
    }
    db.DeleteQuestion(q);
    r := Ok(q.uuid);
  }

  /** `getAllQuestions`: every question, for any signed-in user. */
  function GetAllQuestions(st: Store, token: string, now: Time): (r: Result<seq<Question>>)
    ensures GetCurrentUser(st, token, now).Err? ==> r == Err(Rewrap(GetCurrentUser(st, token, now).error, QuesGetAllAuthFailure))
    ensures GetCurrentUser(st, token, now).Ok? ==> r == Ok(st.questions)
  {
    match GetCurrentUser(st, token, now)
    case Err(e) => Err(Rewrap(e, QuesGetAllAuthFailure))
    case Ok(_) => Ok(st.questions)
  }

  /** The catch clauses of `getUserQuestions`: a missing user becomes
      QUES_GET_FAILURE, an authorization failure is translated as above. */
  function UserQuestionsError(e: Error): (r: Error)
    ensures e.Raised? && e.kind == UserNotFoundException ==> r == Raise(UserNotFoundException, QuesGetFailure)
    ensures !(e.Raised? && e.kind == UserNotFoundException) ==> r == Rewrap(e, QuesGetAuthFailure)
  {
    if e.Raised? && e.kind == UserNotFoundException then Raise(UserNotFoundException, QuesGetFailure)
    else Rewrap(e, QuesGetAuthFailure)
  }

  /** `getUserQuestions` as written: it passes the token and the user uuid to
      `getUserById(userId, authorizationToken)` in the opposite order, so
      the user uuid is looked up as a token and the token as a user uuid. */
  function GetUserQuestionsAsWritten(st: Store, token: string, userUuid: string, now: Time): (r: Result<seq<Question>>)
    ensures r.Ok? ==> (exists a :: a in st.sessions && a.accessToken == userUuid) && (exists u :: u in st.users && u.uuid == token)
    ensures (forall a :: a in st.sessions ==> a.accessToken != userUuid) ==>
      r == Err(Raise(AuthorizationFailedException, UserNotSignedIn))
  {
    match GetUserById(st, token, userUuid, now)
    case Err(e) => Err(UserQuestionsError(e))
    case Ok(u) => Ok(QuestionsOf(st, u))
  }

  /** `getUserQuestions` with the arguments in the declared order: the
      questions owned by the user with uuid `userUuid`, for a signed-in
      caller. */
  function GetUserQuestions(st: Store, token: string, userUuid: string, now: Time): (r: Result<seq<Question>>)
    ensures GetCurrentUser(st, token, now).Err? ==> r == Err(Rewrap(GetCurrentUser(st, token, now).error, QuesGetAuthFailure))
    ensures GetCurrentUser(st, token, now).Ok? && (forall u :: u in st.users ==> u.uuid != userUuid) ==>
      r == Err(Raise(UserNotFoundException, QuesGetFailure))
    ensures Valid(st) && GetCurrentUser(st, token, now).Ok? && (exists u :: u in st.users && u.uuid == userUuid) ==> r.Ok?
    ensures r.Ok? ==> exists u :: u in st.users && u.uuid == userUuid && (forall q :: q in r.value <==> q in st.questions && q.user.id == u.id)
  {
    match GetUserById(st, userUuid, token, now)
    case Err(e) => Err(UserQuestionsError(e))
    case Ok(u) => Ok(QuestionsOf(st, u))
  }

  /** The store in which the argument swap shows: user `u` is signed in with
      token "t", and owns question "q". */
  function SwapWitness(): Store {
    var u := User(1, "u", "name", "mail", "hash", "salt", "nonadmin");
    Store([u], [UserAuth(2, "u", u, "t", 10, 0, None)], [Question(3, "q", "text", 0, u)], [], 4)
  }

  /** In that store, at time 5, the signed-in owner asking for their own
      questions is told they have not signed in; the corrected operation
      returns their question. */
  lemma {:induction false} ArgumentSwapShows()
    ensures GetUserQuestionsAsWritten(SwapWitness(), "t", "u", 5) == Err(Raise(AuthorizationFailedException, UserNotSignedIn))
    ensures GetUserQuestions(SwapWitness(), "t", "u", 5).Ok?
    ensures GetUserQuestions(SwapWitness(), "t", "u", 5).value == SwapWitness().questions
  {
    var st := SwapWitness();
    assert st.sessions[0].accessToken != "u";
    SingleAt(st.sessions, TokenIs("t"), 0);
    SingleAt(st.users, (x: User) => x.uuid == "u", 0);
    var qs := GetUserQuestions(st, "t", "u", 5).value;
    assert st.questions[0] in qs;
    assert |qs| <= 1;
    assert qs == st.questions;
  }

  // ---- the operations keep the store valid ----

  lemma CreateQuestionKeepsValid(st: Store, token: string, q: Question, now: Time)
    requires Valid(st)
    requires forall p :: p in st.questions ==> p.uuid != q.uuid
    ensures Valid(CreateQuestionOutcome(st, token, q, now).1)
  {
    var g := GetCurrentUser(st, token, now);
    if g.Ok? {
      InsertQuestionKeepsValid(st, q.(user := g.value));
    }
  }

  /** Editing a question keeps the store valid when the owner is a stored
      user and the key still belongs to the same uuid, as it does for a
      question fetched and then changed. */
  lemma EditQuestionKeepsValid(st: Store, token: string, q: Question, now: Time)
    requires Valid(st) && q.user in st.users
    requires forall p :: p in st.questions && p.id == q.id ==> p.uuid == q.uuid
    ensures Valid(EditQuestionOutcome(st, token, q, now).1)
  {
    MergeQuestionKeepsValid(st, q);
  }

  lemma DeleteQuestionOutcomeKeepsValid(st: Store, token: string, q: Question, now: Time)
    requires Valid(st)
    ensures Valid(DeleteQuestionOutcome(st, token, q, now).1)
  {
    DeleteQuestionKeepsValid(st, q);
  }
}
