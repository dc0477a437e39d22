/** The rows of the four tables the core works on, the rules the database
    enforces on them, and the session entity that the services fill in
    through setters. */
module Entities {
  import opened Common

  /** A row of the users table. `id` is the generated primary key, `uuid`
      the identifier shown to clients. */
  datatype User = User(
    id: int, uuid: string, userName: string, email: string,
    password: string, salt: string, role: string)

  /** A row of the user_auth table: one sign-in. `uuid` is the uuid of the
      signed-in user. */
  datatype UserAuth = UserAuth(
    id: int, uuid: string, user: User, accessToken: string,
    expiresAt: Time, loginAt: Time, logoutAt: Option<Time>)

  /** The owner reference of an entity whose owner has not been set yet. */
  const NoUser: User := User(0, "", "", "", "", "", "")

  /** A calendar day (`LocalDate`), counted in days. */
  type Day = int

  /** A row of the question table. */
  datatype Question = Question(id: int, uuid: string, content: string, date: Day, user: User)

  /** A row of the answer table; `questionId` is the key of its question. */
  datatype Answer = Answer(id: int, uuid: string, answer: string, date: Day, user: User, questionId: int)

  /** A session has closed at `now` when its logout time or its expiry time
      lies strictly before `now`. */
  predicate Closed(a: UserAuth, now: Time) {
    (a.logoutAt.Some? && a.logoutAt.value < now) || a.expiresAt < now
  }

  /** A session is live at `now` when `now` is within both its expiry time
      and its logout time, bounds included. */
  predicate Live(a: UserAuth, now: Time) {
    now <= a.expiresAt && (a.logoutAt.None? || now <= a.logoutAt.value)
  }

  lemma ClosedIsNotLive(a: UserAuth, now: Time)
    ensures Closed(a, now) <==> !Live(a, now)
  {
  }

  /** Once closed, a session stays closed. */
  lemma ClosedForever(a: UserAuth, t: Time, t': Time)
    requires Closed(a, t) && t <= t'
    ensures Closed(a, t') && !Live(a, t')
  {
  }

  // Declared column bounds (`@Size(max = ...)`).
  const UuidMax: int := 200
  const AccessTokenMax: int := 500
  const ContentMax: int := 500

  predicate FitsUserAuth(a: UserAuth) {
    |a.uuid| <= UuidMax && |a.accessToken| <= AccessTokenMax
  }

  predicate FitsQuestion(q: Question) {
    |q.uuid| <= UuidMax && |q.content| <= ContentMax
  }

  predicate FitsAnswer(a: Answer) {
    |a.uuid| <= UuidMax && |a.answer| <= ContentMax
  }

  /** The session entity. Every field may be unset (`null`) until a setter
      fills it; the database refuses an entity whose mandatory fields are
      unset or too long. */
  class UserAuthEntity {
    var id: Option<int>
    var uuid: Option<string>
    var user: Option<User>
    var accessToken: Option<string>
    var expiresAt: Option<Time>
    var loginAt: Option<Time>
    var logoutAt: Option<Time>

    constructor ()
      ensures id.None? && uuid.None? && user.None? && accessToken.None?
      ensures expiresAt.None? && loginAt.None? && logoutAt.None?
    {
      id, uuid, user, accessToken := None, None, None, None;
      expiresAt, loginAt, logoutAt := None, None, None;
    }

    /** The entity the persistence layer hands back for a stored row. */
    constructor FromRow(a: UserAuth)
      ensures Row() == Some(a)
    {
      id, uuid, user, accessToken := Some(a.id), Some(a.uuid), Some(a.user), Some(a.accessToken);
      expiresAt, loginAt, logoutAt := Some(a.expiresAt), Some(a.loginAt), a.logoutAt;
    }

    /** The fields marked not-null are all set. */
    predicate Complete()
      reads this
    {
      uuid.Some? && user.Some? && accessToken.Some? && expiresAt.Some? && loginAt.Some?
    }

    /** The row this entity would be stored as under the key `key`. */
    function RowWithKey(key: int): (r: UserAuth)
      reads this
      requires Complete()
      ensures Some(r.uuid) == uuid && Some(r.user) == user && Some(r.accessToken) == accessToken
      ensures Some(r.expiresAt) == expiresAt && Some(r.loginAt) == loginAt && r.logoutAt == logoutAt
      ensures r.id == key
    {
      UserAuth(key, uuid.value, user.value, accessToken.value, expiresAt.value, loginAt.value, logoutAt)
    }

    /** The row this entity stands for, once it has a key and is complete. */
    function Row(): (r: Option<UserAuth>)
      reads this
      ensures r.Some? <==> id.Some? && Complete()
      ensures r.Some? ==> r.value == RowWithKey(id.value)
    {
      if id.Some? && Complete() then Some(RowWithKey(id.value)) else None
    }

    method SetId(v: int)
      modifies this
      ensures id == Some(v)
      ensures uuid == old(uuid) && user == old(user) && accessToken == old(accessToken)
      ensures expiresAt == old(expiresAt) && loginAt == old(loginAt) && logoutAt == old(logoutAt)
    {
      id := Some(v);
    }

    method SetUuid(v: string)
      modifies this
      ensures uuid == Some(v)
      ensures id == old(id) && user == old(user) && accessToken == old(accessToken)
      ensures expiresAt == old(expiresAt) && loginAt == old(loginAt) && logoutAt == old(logoutAt)
    {
      uuid := Some(v);
    }

    method SetUser(v: User)
      modifies this
      ensures user == Some(v)
      ensures id == old(id) && uuid == old(uuid) && accessToken == old(accessToken)
      ensures expiresAt == old(expiresAt) && loginAt == old(loginAt) && logoutAt == old(logoutAt)
    {
      user := Some(v);
    }

    method SetAccessToken(v: string)
      modifies this
      ensures accessToken == Some(v)
      ensures id == old(id) && uuid == old(uuid) && user == old(user)
      ensures expiresAt == old(expiresAt) && loginAt == old(loginAt) && logoutAt == old(logoutAt)
    {
      accessToken := Some(v);
    }

    method SetExpiresAt(v: Time)
      modifies this
      ensures expiresAt == Some(v)
      ensures id == old(id) && uuid == old(uuid) && user == old(user) && accessToken == old(accessToken)
      ensures loginAt == old(loginAt) && logoutAt == old(logoutAt)
    {
      expiresAt := Some(v);
    }

    method SetLoginAt(v: Time)
      modifies this
      ensures loginAt == Some(v)
      ensures id == old(id) && uuid == old(uuid) && user == old(user) && accessToken == old(accessToken)
      ensures expiresAt == old(expiresAt) && logoutAt == old(logoutAt)
    {
      loginAt := Some(v);
    }

    /** The logout time may be cleared again, as `setLogoutAt(null)` would. */
    method SetLogoutAt(v: Option<Time>)
      modifies this
      ensures logoutAt == v
      ensures id == old(id) && uuid == old(uuid) && user == old(user) && accessToken == old(accessToken)
      ensures expiresAt == old(expiresAt) && loginAt == old(loginAt)
    {
      logoutAt := v;
    }
  }
}
