/** The database as the core sees it: four tables and a key generator, the
    queries and writes the services issue, the integrity rules the schema
    enforces (unique user names and e-mail addresses, and deletion that
    cascades along every foreign key), and the session DAO as an object
    whose tables change in place. */
module Dao {
  import opened Common
  import opened Tables
  import opened Entities

  datatype Store = Store(
    users: seq<User>,
    sessions: seq<UserAuth>,
    questions: seq<Question>,
    answers: seq<Answer>,
    nextId: int)  // the next generated primary key

  // Names of the unique constraints on the users table.
  const UserNameConstraint: string := "users_username_key"
  const EmailConstraint: string := "users_email_key"

  // Keys of the rows, as function values for the table helpers.
  function UserId(u: User): int { u.id }
  function UserUuid(u: User): string { u.uuid }
  function UserName(u: User): string { u.userName }
  function UserEmail(u: User): string { u.email }
  function SessionId(a: UserAuth): int { a.id }
  function QuestionId(q: Question): int { q.id }
  function QuestionUuid(q: Question): string { q.uuid }
  function AnswerId(a: Answer): int { a.id }
  function AnswerUuid(a: Answer): string { a.uuid }

  /** Every key is unique in its table and below the next generated key. */
  predicate KeysValid(st: Store) {
    && UniqueBy(st.users, UserId) && UniqueBy(st.users, UserUuid)
    && UniqueBy(st.users, UserName) && UniqueBy(st.users, UserEmail)
    && UniqueBy(st.sessions, SessionId)
    && UniqueBy(st.questions, QuestionId) && UniqueBy(st.questions, QuestionUuid)
    && UniqueBy(st.answers, AnswerId) && UniqueBy(st.answers, AnswerUuid)
    && (forall u :: u in st.users ==> u.id < st.nextId)
    && (forall a :: a in st.sessions ==> a.id < st.nextId)
    && (forall q :: q in st.questions ==> q.id < st.nextId)
    && (forall a :: a in st.answers ==> a.id < st.nextId)
  }

  /** Every foreign key refers to a stored row. */
  predicate RefsValid(st: Store) {
    && (forall a :: a in st.sessions ==> a.user in st.users)
    && (forall q :: q in st.questions ==> q.user in st.users)
    && (forall a :: a in st.answers ==> a.user in st.users)
    && (forall a :: a in st.answers ==> exists q :: q in st.questions && q.id == a.questionId)
  }

  predicate Valid(st: Store) {
    KeysValid(st) && RefsValid(st)
  }

  // ---- queries ----

  /** `Users.getById`: the user with this uuid. */
  function GetUser(st: Store, uuid: string): (r: Single<User>)
    ensures r.One? ==> r.row.uuid == uuid && r.row in st.users
    ensures r.NoResult? <==> forall u :: u in st.users ==> u.uuid != uuid
    ensures UniqueBy(st.users, UserUuid) ==> !r.NonUnique?
  {
    var p := (u: User) => u.uuid == uuid;
    assert UniqueBy(st.users, UserUuid) ==> AtMostOne(st.users, p);
    SingleResult(st.users, p)
  }

  /** The condition of the sign-in lookup: the e-mail address or the user
      name is `name`. */
  function LoginIs(name: string): User -> bool {
    (u: User) => u.email == name || u.userName == name
  }

  /** The user whose e-mail address or user name is `name`. */
  function UserWithLogin(st: Store, name: string): (r: Single<User>)
    ensures r.One? ==> (r.row.email == name || r.row.userName == name) && r.row in st.users
    ensures r.NoResult? <==> forall u :: u in st.users ==> u.email != name && u.userName != name
  {
    SingleResult(st.users, LoginIs(name))
  }

  /** The condition of the session lookup: the session carries `token`. */
  function TokenIs(token: string): UserAuth -> bool {
    (a: UserAuth) => a.accessToken == token
  }

  /** `UserAuths.getByAccessToken`: the session carrying this token. */
  function SessionWithToken(st: Store, token: string): (r: Single<UserAuth>)
    ensures r.One? ==> r.row.accessToken == token && r.row in st.sessions
    ensures r.One? ==> forall a :: a in st.sessions && a.accessToken == token ==> a == r.row
    ensures r.NoResult? <==> forall a :: a in st.sessions ==> a.accessToken != token
  {
    SingleResult(st.sessions, TokenIs(token))
  }

  /** `Questions.getById`: the question with this uuid. */
  function GetQuestion(st: Store, uuid: string): (r: Single<Question>)
    ensures r.One? ==> r.row.uuid == uuid && r.row in st.questions
    ensures r.NoResult? <==> forall q :: q in st.questions ==> q.uuid != uuid
    ensures UniqueBy(st.questions, QuestionUuid) ==> !r.NonUnique?
  {
    var p := (q: Question) => q.uuid == uuid;
    assert UniqueBy(st.questions, QuestionUuid) ==> AtMostOne(st.questions, p);
    SingleResult(st.questions, p)
  }

  /** `Answers.getById`: the answer with this uuid. */
  function GetAnswer(st: Store, uuid: string): (r: Single<Answer>)
    ensures r.One? ==> r.row.uuid == uuid && r.row in st.answers
    ensures r.NoResult? <==> forall a :: a in st.answers ==> a.uuid != uuid
    ensures UniqueBy(st.answers, AnswerUuid) ==> !r.NonUnique?
  {
    var p := (a: Answer) => a.uuid == uuid;
    assert UniqueBy(st.answers, AnswerUuid) ==> AtMostOne(st.answers, p);
    SingleResult(st.answers, p)
  }

  /** `Questions.fetchByUserId`: the questions whose owner has the key of `u`. */
  function QuestionsOf(st: Store, u: User): (r: seq<Question>)
    ensures forall q :: q in r <==> q in st.questions && q.user.id == u.id
  {
    Select(st.questions, (q: Question) => q.user.id == u.id)
  }

  /** `Answers.getByQuestion`: the answers whose question has the key of `q`. */
  function AnswersOf(st: Store, q: Question): (r: seq<Answer>)
    ensures forall a :: a in r <==> a in st.answers && a.questionId == q.id
  {
    Select(st.answers, (a: Answer) => a.questionId == q.id)
  }

  // ---- writes ----
  // Each returns the outcome and the new store; on failure the store is
  // unchanged (the transaction rolls back).

  /** Insert a user under the next key. The unique constraint on the user
      name is checked before the one on the e-mail address. */
  function InsertUser(st: Store, u: User): (out: (Result<User>, Store))
    ensures (exists v :: v in st.users && v.userName == u.userName) ==>
      out == (Err(Persistence(ConstraintViolation(UserNameConstraint))), st)
    ensures (forall v :: v in st.users ==> v.userName != u.userName) && (exists v :: v in st.users && v.email == u.email) ==>
      out == (Err(Persistence(ConstraintViolation(EmailConstraint))), st)
    ensures out.0.Ok? ==> (out.0.value == u.(id := st.nextId)
      && out.1 == st.(users := st.users + [out.0.value], nextId := st.nextId + 1))
  {
    if exists v :: v in st.users && v.userName == u.userName then
      (Err(Persistence(ConstraintViolation(UserNameConstraint))), st)
    else if exists v :: v in st.users && v.email == u.email then
      (Err(Persistence(ConstraintViolation(EmailConstraint))), st)
    else
      var row := u.(id := st.nextId);
      (Ok(row), st.(users := st.users + [row], nextId := st.nextId + 1))
  }

  /** Insert a session under the next key, unless a field exceeds its
      declared bound. */
  function InsertUserAuth(st: Store, a: UserAuth): (Result<UserAuth>, Store)
  {
    if !FitsUserAuth(a) then (Err(Persistence(ValidationFailure)), st)
    else
      var row := a.(id := st.nextId);
      (Ok(row), st.(sessions := st.sessions + [row], nextId := st.nextId + 1))
  }

  /** Merge a session: the stored row with the same key takes its values. */
  function MergeUserAuth(st: Store, a: UserAuth): (Result<UserAuth>, Store)
  {
    if !FitsUserAuth(a) then (Err(Persistence(ValidationFailure)), st)
    else (Ok(a), st.(sessions := Replace(st.sessions, (b: UserAuth) => b.id == a.id, a)))
  }

  /** The keys of the questions owned by `u`. */
  function QuestionKeysOf(st: Store, u: User): set<int> {
    set q | q in st.questions && q.user.id == u.id :: q.id
  }

  /** Delete a user. The database cascades the deletion to the user's
      sessions, questions and answers, and to the answers of those
      questions. */
  function DeleteUserCascade(st: Store, u: User): (st': Store)
    ensures forall v :: v in st'.users <==> v in st.users && v.id != u.id
    ensures forall a :: a in st'.sessions <==> a in st.sessions && a.user.id != u.id
    ensures forall q :: q in st'.questions <==> q in st.questions && q.user.id != u.id
    ensures forall a :: a in st'.answers <==>
      a in st.answers && a.user.id != u.id && a.questionId !in QuestionKeysOf(st, u)
    ensures st'.nextId == st.nextId
  {
    var gone := QuestionKeysOf(st, u);
    Store(
      Remove(st.users, (v: User) => v.id == u.id),
      Remove(st.sessions, (a: UserAuth) => a.user.id == u.id),
      Remove(st.questions, (q: Question) => q.user.id == u.id),
      Remove(st.answers, (a: Answer) => a.user.id == u.id || a.questionId in gone),
      st.nextId)
  }

  /** Insert a question under the next key, unless a field exceeds its bound. */
  function InsertQuestion(st: Store, q: Question): (Result<Question>, Store)
  {
    if !FitsQuestion(q) then (Err(Persistence(ValidationFailure)), st)
    else
      var row := q.(id := st.nextId);
      (Ok(row), st.(questions := st.questions + [row], nextId := st.nextId + 1))
  }

  /** Merge a question: the stored row with the same key takes its values. */
  function MergeQuestion(st: Store, q: Question): (Result<Question>, Store)
  {
    if !FitsQuestion(q) then (Err(Persistence(ValidationFailure)), st)
    else (Ok(q), st.(questions := Replace(st.questions, (p: Question) => p.id == q.id, q)))
  }

  /** Delete a question; the database cascades to its answers. */
  function DeleteQuestionCascade(st: Store, q: Question): (st': Store)
    ensures forall p :: p in st'.questions <==> p in st.questions && p.id != q.id
    ensures forall a :: a in st'.answers <==> a in st.answers && a.questionId != q.id
    ensures st'.users == st.users && st'.sessions == st.sessions && st'.nextId == st.nextId
  {
    st.(questions := Remove(st.questions, (p: Question) => p.id == q.id),
        answers := Remove(st.answers, (a: Answer) => a.questionId == q.id))
  }

  /** Insert an answer under the next key, unless a field exceeds its bound. */
  function InsertAnswer(st: Store, a: Answer): (Result<Answer>, Store)
  {
    if !FitsAnswer(a) then (Err(Persistence(ValidationFailure)), st)
    else
      var row := a.(id := st.nextId);
      (Ok(row), st.(answers := st.answers + [row], nextId := st.nextId + 1))
  }

  /** Merge an answer: the stored row with the same key takes its values. */
  function MergeAnswer(st: Store, a: Answer): (Result<Answer>, Store)
  {
    if !FitsAnswer(a) then (Err(Persistence(ValidationFailure)), st)
    else (Ok(a), st.(answers := Replace(st.answers, (b: Answer) => b.id == a.id, a)))
  }

  /** Delete an answer. */
  function DeleteAnswerRow(st: Store, a: Answer): (st': Store)
    ensures forall b :: b in st'.answers <==> b in st.answers && b.id != a.id
    ensures st'.users == st.users && st'.sessions == st.sessions && st'.questions == st.questions && st'.nextId == st.nextId
  {
    st.(answers := Remove(st.answers, (b: Answer) => b.id == a.id))
  }

  // ---- the writes keep the store valid ----

  lemma InsertUserKeepsValid(st: Store, u: User)
    requires Valid(st)
    requires forall v :: v in st.users ==> v.uuid != u.uuid
    ensures Valid(InsertUser(st, u).1)
  {
    var (r, st') := InsertUser(st, u);
    if r.Ok? {
      var row := r.value;
      AppendKeepsUnique(st.users, row, UserId);
      AppendKeepsUnique(st.users, row, UserUuid);
      AppendKeepsUnique(st.users, row, UserName);
      AppendKeepsUnique(st.users, row, UserEmail);
    }
  }

  lemma InsertUserAuthKeepsValid(st: Store, a: UserAuth)
    requires Valid(st) && a.user in st.users
    ensures Valid(InsertUserAuth(st, a).1)
  {
    if FitsUserAuth(a) {
      AppendKeepsUnique(st.sessions, a.(id := st.nextId), SessionId);
    }
  }

  lemma MergeUserAuthKeepsValid(st: Store, a: UserAuth)
    requires Valid(st) && a.user in st.users
    ensures Valid(MergeUserAuth(st, a).1)
  {
    if FitsUserAuth(a) {
      var p := (b: UserAuth) => b.id == a.id;
      ReplaceKeepsUnique(st.sessions, p, a, SessionId);
      ReplaceMembers(st.sessions, p, a);
    }
  }

  lemma DeleteUserKeepsValid(st: Store, u: User)
    requires Valid(st)
    ensures Valid(DeleteUserCascade(st, u))
  {
    var st' := DeleteUserCascade(st, u);
    var gone := QuestionKeysOf(st, u);
    RemoveKeepsUnique(st.users, (v: User) => v.id == u.id, UserId);
    RemoveKeepsUnique(st.users, (v: User) => v.id == u.id, UserUuid);
    RemoveKeepsUnique(st.users, (v: User) => v.id == u.id, UserName);
    RemoveKeepsUnique(st.users, (v: User) => v.id == u.id, UserEmail);
    RemoveKeepsUnique(st.sessions, (a: UserAuth) => a.user.id == u.id, SessionId);
    RemoveKeepsUnique(st.questions, (q: Question) => q.user.id == u.id, QuestionId);
    RemoveKeepsUnique(st.questions, (q: Question) => q.user.id == u.id, QuestionUuid);
    RemoveKeepsUnique(st.answers, (a: Answer) => a.user.id == u.id || a.questionId in gone, AnswerId);
    RemoveKeepsUnique(st.answers, (a: Answer) => a.user.id == u.id || a.questionId in gone, AnswerUuid);
    forall a | a in st'.answers ensures exists q :: q in st'.questions && q.id == a.questionId {
      var q :| q in st.questions && q.id == a.questionId;
      assert q in st'.questions;
    }
  }

  lemma InsertQuestionKeepsValid(st: Store, q: Question)
    requires Valid(st) && q.user in st.users
    requires forall p :: p in st.questions ==> p.uuid != q.uuid
    ensures Valid(InsertQuestion(st, q).1)
  {
    if FitsQuestion(q) {
      AppendKeepsUnique(st.questions, q.(id := st.nextId), QuestionId);
      AppendKeepsUnique(st.questions, q.(id := st.nextId), QuestionUuid);
    }
  }

  lemma MergeQuestionKeepsValid(st: Store, q: Question)
    requires Valid(st) && q.user in st.users
    requires forall p :: p in st.questions && p.id == q.id ==> p.uuid == q.uuid
    ensures Valid(MergeQuestion(st, q).1)
  {
    if FitsQuestion(q) {
      var st' := MergeQuestion(st, q).1;
      var p := (p: Question) => p.id == q.id;
      ReplaceKeepsUnique(st.questions, p, q, QuestionId);
      ReplaceKeepsUnique(st.questions, p, q, QuestionUuid);
      ReplaceMembers(st.questions, p, q);
      forall a | a in st'.answers ensures exists o :: o in st'.questions && o.id == a.questionId {
        var o :| o in st.questions && o.id == a.questionId;
        if o.id == q.id {
          assert q in st'.questions;
        } else {
          assert o in st'.questions;
        }
      }
    }
  }

  lemma DeleteQuestionKeepsValid(st: Store, q: Question)
    requires Valid(st)
    ensures Valid(DeleteQuestionCascade(st, q))
  {
    RemoveKeepsUnique(st.questions, (p: Question) => p.id == q.id, QuestionId);
    RemoveKeepsUnique(st.questions, (p: Question) => p.id == q.id, QuestionUuid);
    RemoveKeepsUnique(st.answers, (a: Answer) => a.questionId == q.id, AnswerId);
    RemoveKeepsUnique(st.answers, (a: Answer) => a.questionId == q.id, AnswerUuid);
    var st' := DeleteQuestionCascade(st, q);
    forall a | a in st'.answers ensures exists o :: o in st'.questions && o.id == a.questionId {
      var o :| o in st.questions && o.id == a.questionId;
      assert o in st'.questions;
    }
  }

  lemma InsertAnswerKeepsValid(st: Store, a: Answer)
    requires Valid(st) && a.user in st.users
    requires exists q :: q in st.questions && q.id == a.questionId
    requires forall b :: b in st.answers ==> b.uuid != a.uuid
    ensures Valid(InsertAnswer(st, a).1)
  {
    if FitsAnswer(a) {
      AppendKeepsUnique(st.answers, a.(id := st.nextId), AnswerId);
      AppendKeepsUnique(st.answers, a.(id := st.nextId), AnswerUuid);
    }
  }

  lemma MergeAnswerKeepsValid(st: Store, a: Answer)
    requires Valid(st) && a.user in st.users
    requires exists q :: q in st.questions && q.id == a.questionId
    requires forall b :: b in st.answers && b.id == a.id ==> b.uuid == a.uuid
    ensures Valid(MergeAnswer(st, a).1)
  {
    if FitsAnswer(a) {
      var p := (b: Answer) => b.id == a.id;
      ReplaceKeepsUnique(st.answers, p, a, AnswerId);
      ReplaceKeepsUnique(st.answers, p, a, AnswerUuid);
      ReplaceMembers(st.answers, p, a);
    }
  }

  lemma DeleteAnswerKeepsValid(st: Store, a: Answer)
    requires Valid(st)
    ensures Valid(DeleteAnswerRow(st, a))
  {
    RemoveKeepsUnique(st.answers, (b: Answer) => b.id == a.id, AnswerId);
    RemoveKeepsUnique(st.answers, (b: Answer) => b.id == a.id, AnswerUuid);
  }

  /** The session DAO: the tables as fields that its writes update in place. */
  class Database {
    var users: seq<User>
    var sessions: seq<UserAuth>
    var questions: seq<Question>
    var answers: seq<Answer>
    var nextId: int

    function State(): Store
      reads this
    {
      Store(users, sessions, questions, answers, nextId)
    }

    constructor (st: Store)
      ensures State() == st
    {
      users, sessions, questions, answers, nextId := st.users, st.sessions, st.questions, st.answers, st.nextId;
    }

    method GetUserByEmailOrUserName(name: string) returns (r: Single<User>)
      ensures r.One? ==> (r.row.email == name || r.row.userName == name) && r.row in users
      ensures r.NoResult? <==> forall u :: u in users ==> u.email != name && u.userName != name
      ensures r == UserWithLogin(State(), name)
    {
      r := UserWithLogin(State(), name);
    }

    method GetUserAuthToken(token: string) returns (r: Single<UserAuth>)
      ensures r.One? ==> r.row.accessToken == token && r.row in sessions
      ensures r.One? ==> forall a :: a in sessions && a.accessToken == token ==> a == r.row
      ensures r.NoResult? <==> forall a :: a in sessions ==> a.accessToken != token
      ensures r == SessionWithToken(State(), token)
    {
      r := SessionWithToken(State(), token);
    }

    method GetUserByUuid(uuid: string) returns (r: Single<User>)
      ensures r.One? ==> r.row.uuid == uuid && r.row in users
      ensures r.NoResult? <==> forall u :: u in users ==> u.uuid != uuid
      ensures UniqueBy(users, UserUuid) ==> !r.NonUnique?
      ensures r == GetUser(State(), uuid)
    {
      r := GetUser(State(), uuid);
    }

    method CreateUser(u: User) returns (r: Result<User>)
      modifies this
      ensures (r, State()) == InsertUser(old(State()), u)
    {
      if exists v :: v in users && v.userName == u.userName {
        return Err(Persistence(ConstraintViolation(UserNameConstraint)));
      }
      if exists v :: v in users && v.email == u.email {
        return Err(Persistence(ConstraintViolation(EmailConstraint)));
      }
      var row := u.(id := nextId);
      users := users + [row];
      nextId := nextId + 1;
      r := Ok(row);
    }

    method DeleteUser(u: User)
      modifies this
      ensures State() == DeleteUserCascade(old(State()), u)
    {
      var gone := QuestionKeysOf(State(), u);
      users := Remove(users, (v: User) => v.id == u.id);
      sessions := Remove(sessions, (a: UserAuth) => a.user.id == u.id);
      questions := Remove(questions, (q: Question) => q.user.id == u.id);
      answers := Remove(answers, (a: Answer) => a.user.id == u.id || a.questionId in gone);
    }

    method CreateQuestion(q: Question) returns (r: Result<Question>)
      modifies this
      ensures (r, State()) == InsertQuestion(old(State()), q)
    {
      if !FitsQuestion(q) {
        return Err(Persistence(ValidationFailure));
      }
      var row := q.(id := nextId);
      questions := questions + [row];
      nextId := nextId + 1;
      r := Ok(row);
    }

    method UpdateQuestion(q: Question) returns (r: Result<Question>)
      modifies this
      ensures (r, State()) == MergeQuestion(old(State()), q)
    {
      if !FitsQuestion(q) {
        return Err(Persistence(ValidationFailure));
      }
      questions := Replace(questions, (p: Question) => p.id == q.id, q);
      r := Ok(q);
    }

    method DeleteQuestion(q: Question)
      modifies this
      ensures State() == DeleteQuestionCascade(old(State()), q)
    {
      questions := Remove(questions, (p: Question) => p.id == q.id);
      answers := Remove(answers, (a: Answer) => a.questionId == q.id);
    }

    method CreateAnswer(a: Answer) returns (r: Result<Answer>)
      modifies this
      ensures (r, State()) == InsertAnswer(old(State()), a)
    {
      if !FitsAnswer(a) {
        return Err(Persistence(ValidationFailure));
      }
      var row := a.(id := nextId);
      answers := answers + [row];
      nextId := nextId + 1;
      r := Ok(row);
    }

    method UpdateAnswer(a: Answer) returns (r: Result<Answer>)
      modifies this
      ensures (r, State()) == MergeAnswer(old(State()), a)
    {
      if !FitsAnswer(a) {
        return Err(Persistence(ValidationFailure));
      }
      answers := Replace(answers, (b: Answer) => b.id == a.id, a);
      r := Ok(a);
    }

    method DeleteAnswer(a: Answer)
      modifies this
      ensures State() == DeleteAnswerRow(old(State()), a)
    {
      answers := Remove(answers, (b: Answer) => b.id == a.id);
    }

    /** Persist a new session entity: the not-null fields must be set, and
        the entity receives the generated key. */
    method CreateUserAuth(e: UserAuthEntity) returns (r: Result<UserAuth>)
      modifies this, e
      ensures !old(e.Complete()) ==> r == Err(Persistence(ValidationFailure)) && State() == old(State())
      ensures old(e.Complete()) ==> (r, State()) == InsertUserAuth(old(State()), old(e.RowWithKey(nextId)))
      ensures r.Ok? ==> e.Row() == Some(r.value)
    {
      if !e.Complete() {
        return Err(Persistence(ValidationFailure));
      }
      var row := e.RowWithKey(nextId);
      if !FitsUserAuth(row) {
        return Err(Persistence(ValidationFailure));
      }
      e.SetId(nextId);
      sessions := sessions + [row];
      nextId := nextId + 1;
      r := Ok(row);
    }

    /** Merge a session row into the table. */
    method UpdateUserAuth(a: UserAuth) returns (r: Result<UserAuth>)
      modifies this
      ensures (r, State()) == MergeUserAuth(old(State()), a)
    {
      if !FitsUserAuth(a) {
        return Err(Persistence(ValidationFailure));
      }
      sessions := Replace(sessions, (b: UserAuth) => b.id == a.id, a);
      r := Ok(a);
    }
  }
}
