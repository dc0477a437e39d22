/** The user service: resolving an access token to the signed-in user,
    fetching a user profile, signing up, signing in, signing out and deleting
    a user. Each operation is a function of the store it starts from; sign-in
    and sign-out are also written as methods that fill the session entity
    through its setters and hand it to the session DAO. */
module UserService {
  import opened Common
  import opened Tables
  import opened Strings
  import opened Entities
  import opened Dao
  import opened ErrorConditions
  import opened Policy

  /** A session expires eight hours after sign-in. */
  const SessionLength: int := 8 * SecondsPerHour

  /** The text whose presence in a violated constraint's name marks a taken
      user name. */
  const UserNameMarker: string := "userName"

  /** The cryptography the service relies on. `hash(password, salt)` is the
      salted password hash; `token(secret, uuid, loginAt, expiresAt)` is the
      signed access token. Encrypting a new password draws a fresh salt and
      hashes the password with it: the salt is a parameter of `SignUp`. */
  datatype Crypto = Crypto(
    hash: (string, string) -> string,
    token: (string, string, Time, Time) -> string)

  // ---- the authorization gate ----

  /** `getCurrentUser`: the user owning the session that carries `token`,
      provided that session is still live at `now`. */
  function GetCurrentUser(st: Store, token: string, now: Time): (r: Result<User>)
    ensures (forall a :: a in st.sessions ==> a.accessToken != token) ==>
      r == Err(Raise(AuthorizationFailedException, UserNotSignedIn))
    ensures r.Ok? <==> SessionWithToken(st, token).One? && Live(SessionWithToken(st, token).row, now)
    ensures r.Ok? ==> r.value == SessionWithToken(st, token).row.user
    ensures SessionWithToken(st, token).One? && !Live(SessionWithToken(st, token).row, now) ==>
      r == Err(Raise(AuthorizationFailedException, UserGetAuthFailure))
  {
    match SessionWithToken(st, token)
    case NoResult => Err(Raise(AuthorizationFailedException, UserNotSignedIn))
    case NonUnique => Err(Persistence(NonUniqueResult))
    case One(a) =>
      ClosedIsNotLive(a, now);
      if Closed(a, now) then Err(Raise(AuthorizationFailedException, UserGetAuthFailure))
      else Ok(a.user)
  }

  /** With distinct tokens, every failure of the gate is an authorization
      failure, and it carries the code the other services translate exactly
      when the token's session exists but has closed. */
  lemma GateFailures(st: Store, token: string, now: Time)
    requires UniqueBy(st.sessions, (a: UserAuth) => a.accessToken)
    requires GetCurrentUser(st, token, now).Err?
    ensures GetCurrentUser(st, token, now).error.Raised?
    ensures GetCurrentUser(st, token, now).error.kind == AuthorizationFailedException
    ensures GetCurrentUser(st, token, now).error.code == Code(UserSignedOut) <==> SessionWithToken(st, token).One?
  {
    assert AtMostOne(st.sessions, TokenIs(token));
  }

  /** `getUserById(userId, authorizationToken)`: the gate first, then the
      user with uuid `userUuid`. */
  function GetUserById(st: Store, userUuid: string, token: string, now: Time): (r: Result<User>)
    ensures GetCurrentUser(st, token, now).Err? ==> r == GetCurrentUser(st, token, now)
    ensures GetCurrentUser(st, token, now).Ok? && (forall u :: u in st.users ==> u.uuid != userUuid) ==>
      r == Err(Raise(UserNotFoundException, UserNotFound))
    ensures GetCurrentUser(st, token, now).Ok? && Valid(st) && (exists u :: u in st.users && u.uuid == userUuid) ==>
      r.Ok?
    ensures r.Ok? ==> r.value in st.users && r.value.uuid == userUuid
  {
    match GetCurrentUser(st, token, now)
    case Err(e) => Err(e)
    case Ok(_) =>
      match GetUser(st, userUuid)
      case NoResult => Err(Raise(UserNotFoundException, UserNotFound))
      case NonUnique => Err(Persistence(NonUniqueResult))
      case One(u) => Ok(u)
  }

  // ---- sign-up ----

  /** The exception a refused sign-up becomes: a violated constraint whose
      name mentions the user name, ignoring case, means the user name is
      taken; any other violated constraint means the e-mail address is; any
      other failure propagates unchanged. */
  function SignUpError(e: Error): (r: Error)
    ensures e.Persistence? && e.cause.ConstraintViolation? ==>
      r.Raised? && r.kind == SignUpRestrictedException
    ensures e.Persistence? && e.cause.ConstraintViolation? ==>
      (r == Raise(SignUpRestrictedException, UsernameAlreadyExists) <==> ContainsIgnoreCase(e.cause.constraintName, UserNameMarker))
    ensures !(e.Persistence? && e.cause.ConstraintViolation?) ==> r == e
  {
    if e.Persistence? && e.cause.ConstraintViolation? then
      if ContainsIgnoreCase(e.cause.constraintName, UserNameMarker) then
        Raise(SignUpRestrictedException, UsernameAlreadyExists)
      else
        PairsDistinct(EmailAlreadyExists, UsernameAlreadyExists);
        Raise(SignUpRestrictedException, EmailAlreadyExists)
    else e
  }

  /** The user-name constraint is recognised by its name; the e-mail
      constraint is not. */
  lemma {:induction false} ConstraintNamesClassified()
    ensures ContainsIgnoreCase(UserNameConstraint, UserNameMarker)
    ensures !ContainsIgnoreCase(EmailConstraint, UserNameMarker)
  {
    var s, t := UserNameConstraint, UserNameMarker;
    assert s[6..14] == "username";
    assert Lower(t[4]) == 'n';
    assert OccursIgnoreCaseAt(s, t, 6);
    var e := EmailConstraint;
    forall i ensures !OccursIgnoreCaseAt(e, t, i) {
      if i == 0 {
        assert Lower(e[4]) != Lower(t[4]);
      } else if 0 < i <= |e| - |t| {
        assert e[i..i + |t|][0] == e[i];
        assert Lower(e[i]) != Lower(t[0]);
      }
    }
  }

  /** `createUser`: the password is replaced by its hash under the fresh
      `salt`, and the user is inserted; a refused insert is translated by
      `SignUpError` and leaves the store as it was. */
  function SignUp(st: Store, c: Crypto, u: User, salt: string): (out: (Result<User>, Store))
    ensures out.0.Ok? ==> out.0.value == u.(id := st.nextId, salt := salt, password := c.hash(u.password, salt))
    ensures out.0.Ok? ==> out.1 == st.(users := st.users + [out.0.value], nextId := st.nextId + 1)
    ensures out.0.Err? ==> out.1 == st
  {
    var stored := u.(salt := salt, password := c.hash(u.password, salt));
    var (r, st') := InsertUser(st, stored);
    if r.Ok? then (r, st') else (Err(SignUpError(r.error)), st)
  }

  /** `createUser` as the service runs it: the hashed password and the salt
      overwrite the entity's, and the DAO inserts it. */
  method CreateUser(db: Database, c: Crypto, u: User, salt: string) returns (r: Result<User>)
    modifies db
    ensures (r, db.State()) == SignUp(old(db.State()), c, u, salt)
  {
    var user := u;
    user := user.(salt := salt);
    user := user.(password := c.hash(u.password, salt));
    var created := db.CreateUser(user);
    if created.Err? {
      return Err(SignUpError(created.error));
    }
    r := created;
  }

  /** A taken user name refuses the sign-up with SGR-001, whatever the
      e-mail address. */
  lemma SignUpNameTaken(st: Store, c: Crypto, u: User, salt: string)
    requires exists v :: v in st.users && v.userName == u.userName
    ensures SignUp(st, c, u, salt) == (Err(Raise(SignUpRestrictedException, UsernameAlreadyExists)), st)
  {
    var stored := u.(salt := salt, password := c.hash(u.password, salt));
    var v :| v in st.users && v.userName == u.userName;
    assert v.userName == stored.userName;
    var e := Persistence(ConstraintViolation(UserNameConstraint));
    assert InsertUser(st, stored) == (Err(e), st);
    ConstraintNamesClassified();
    assert SignUpError(e) == Raise(SignUpRestrictedException, UsernameAlreadyExists);
  }

  /** A free user name with a taken e-mail address refuses the sign-up with
      SGR-002. */
  lemma SignUpEmailTaken(st: Store, c: Crypto, u: User, salt: string)
    requires forall v :: v in st.users ==> v.userName != u.userName
    requires exists v :: v in st.users && v.email == u.email
    ensures SignUp(st, c, u, salt) == (Err(Raise(SignUpRestrictedException, EmailAlreadyExists)), st)
  {
    var stored := u.(salt := salt, password := c.hash(u.password, salt));
    var v :| v in st.users && v.email == u.email;
    assert v.email == stored.email;
    var e := Persistence(ConstraintViolation(EmailConstraint));
    assert InsertUser(st, stored) == (Err(e), st);
    ConstraintNamesClassified();
    assert SignUpError(e) == Raise(SignUpRestrictedException, EmailAlreadyExists);
  }

  /** A user name and an e-mail address that are both free always sign up. */
  lemma SignUpFree(st: Store, c: Crypto, u: User, salt: string)
    requires forall v :: v in st.users ==> v.userName != u.userName && v.email != u.email
    ensures SignUp(st, c, u, salt).0.Ok?
  {
  }

  // ---- sign-in ----

  /** The session a successful sign-in of `u` at `now` stores, before the
      database assigns its key. */
  function NewSession(c: Crypto, u: User, now: Time): UserAuth {
    var expiresAt := now + SessionLength;
    UserAuth(0, u.uuid, u, c.token(u.password, u.uuid, now, expiresAt), expiresAt, now, None)
  }

  /** `authenticateUser`: the user whose e-mail address or user name is
      `login`, if the password hashes to the stored hash under the stored
      salt, gets a new session valid for eight hours. */
  function SignIn(st: Store, c: Crypto, login: string, password: string, now: Time): (out: (Result<UserAuth>, Store))
    ensures (forall u :: u in st.users ==> u.email != login && u.userName != login) ==>
      out == (Err(Raise(AuthenticationFailedException, UsernameNotFound)), st)
    ensures UserWithLogin(st, login).One? && c.hash(password, UserWithLogin(st, login).row.salt) != UserWithLogin(st, login).row.password ==>
      out == (Err(Raise(AuthenticationFailedException, UserWrongPassword)), st)
    ensures UserWithLogin(st, login).One? && c.hash(password, UserWithLogin(st, login).row.salt) == UserWithLogin(st, login).row.password ==>
      (FitsUserAuth(NewSession(c, UserWithLogin(st, login).row, now)) ==> out.0.Ok?)
    ensures out.0.Ok? ==> UserWithLogin(st, login).One? && out.0.value.user == UserWithLogin(st, login).row
    ensures out.0.Ok? ==> c.hash(password, out.0.value.user.salt) == out.0.value.user.password
    ensures out.0.Ok? ==> out.0.value.id == st.nextId && out.0.value.uuid == out.0.value.user.uuid
    ensures out.0.Ok? ==> out.0.value.loginAt == now && out.0.value.expiresAt == now + SessionLength && out.0.value.logoutAt.None?
    ensures out.0.Ok? ==> out.1 == st.(sessions := st.sessions + [out.0.value], nextId := st.nextId + 1)
    ensures out.0.Err? ==> out.1 == st
  {
    match UserWithLogin(st, login)
    case NoResult => (Err(Raise(AuthenticationFailedException, UsernameNotFound)), st)
    case NonUnique => (Err(Persistence(NonUniqueResult)), st)
    case One(u) =>
      if u.password == c.hash(password, u.salt) then InsertUserAuth(st, NewSession(c, u, now))
      else (Err(Raise(AuthenticationFailedException, UserWrongPassword)), st)
  }

  /** `authenticateUser` as the service runs it: the session entity is
      filled in through its setters and handed to the session DAO. */
  method AuthenticateUser(db: Database, c: Crypto, login: string, password: string, now: Time)
    returns (r: Result<UserAuth>)
    modifies db
    ensures (r, db.State()) == SignIn(old(db.State()), c, login, password, now)
  {
    var user := db.GetUserByEmailOrUserName(login);
    if user.NoResult? {
      return Err(Raise(AuthenticationFailedException, UsernameNotFound));
    }
    if user.NonUnique? {
      return Err(Persistence(NonUniqueResult));
    }
    if user.row.password != c.hash(password, user.row.salt) {
      return Err(Raise(AuthenticationFailedException, UserWrongPassword));
    }
    var userAuth := new UserAuthEntity();
    userAuth.SetUser(user.row);
    userAuth.SetUuid(user.row.uuid);
    userAuth.SetLoginAt(now);
    userAuth.SetExpiresAt(now + SessionLength);
    var accessToken := c.token(user.row.password, userAuth.uuid.value, userAuth.loginAt.value, userAuth.expiresAt.value);
    userAuth.SetAccessToken(accessToken);
    ghost var st := db.State();
    assert userAuth.Complete();
    assert userAuth.RowWithKey(db.nextId) == NewSession(c, user.row, now).(id := db.nextId);
    assert InsertUserAuth(st, userAuth.RowWithKey(db.nextId)) == InsertUserAuth(st, NewSession(c, user.row, now));
    r := db.CreateUserAuth(userAuth);
  }

  /** A session issued with a token no other session carries resolves to
      the signed-in user up to and including its expiry time, and is
      refused with ATHR-002 afterwards. */
  lemma SignInThenResolve(st: Store, c: Crypto, login: string, password: string, now: Time, t: Time)
    requires SignIn(st, c, login, password, now).0.Ok?
    requires forall a :: a in st.sessions ==> a.accessToken != SignIn(st, c, login, password, now).0.value.accessToken
    ensures t <= now + SessionLength ==>
      GetCurrentUser(SignIn(st, c, login, password, now).1, SignIn(st, c, login, password, now).0.value.accessToken, t)
      == Ok(SignIn(st, c, login, password, now).0.value.user)
    ensures t > now + SessionLength ==>
      GetCurrentUser(SignIn(st, c, login, password, now).1, SignIn(st, c, login, password, now).0.value.accessToken, t)
      == Err(Raise(AuthorizationFailedException, UserGetAuthFailure))
  {
    var (r, st') := SignIn(st, c, login, password, now);
    var p := TokenIs(r.value.accessToken);
    forall i | 0 <= i < |st'.sessions| && i != |st.sessions| ensures !p(st'.sessions[i]) {
      assert st'.sessions[i] == st.sessions[i];
      assert st.sessions[i] in st.sessions;
    }
    SingleAt(st'.sessions, p, |st.sessions|);
  }

  /** A user who has just signed up can sign in with the same user name and
      password, when no other user has that name as e-mail address and the
      new session fits its columns. */
  lemma SignUpThenSignIn(st: Store, c: Crypto, u: User, salt: string, now: Time)
    requires SignUp(st, c, u, salt).0.Ok?
    requires forall v :: v in st.users ==> v.email != u.userName
    requires FitsUserAuth(NewSession(c, SignUp(st, c, u, salt).0.value, now))
    ensures SignIn(SignUp(st, c, u, salt).1, c, u.userName, u.password, now).0.Ok?
    ensures SignIn(SignUp(st, c, u, salt).1, c, u.userName, u.password, now).0.value.user == SignUp(st, c, u, salt).0.value
  {
    var (r, st') := SignUp(st, c, u, salt);
    var p := LoginIs(u.userName);
    forall i | 0 <= i < |st'.users| && i != |st.users| ensures !p(st'.users[i]) {
      assert st'.users[i] == st.users[i];
      assert st.users[i] in st.users;
    }
    SingleAt(st'.users, p, |st.users|);
  }

  // ---- sign-out ----

  /** `invalidateAuthorization`: the session carrying `token` has both its
      expiry and its logout time set to `now`, whether or not it was still
      live; the user it belonged to is returned. */
  function SignOut(st: Store, token: string, now: Time): (out: (Result<User>, Store))
    ensures (forall a :: a in st.sessions ==> a.accessToken != token) ==>
      out == (Err(Raise(SignOutRestrictedException, UserSignoutError)), st)
    ensures SessionWithToken(st, token).One? && FitsUserAuth(SessionWithToken(st, token).row) ==>
      out.0 == Ok(SessionWithToken(st, token).row.user)
    ensures out.0.Ok? ==> SessionWithToken(st, token).One? && out.0.value == SessionWithToken(st, token).row.user
    ensures out.0.Ok? ==> out.1 == st.(sessions := out.1.sessions) && |out.1.sessions| == |st.sessions|
    ensures out.0.Err? ==> out.1 == st
  {
    match SessionWithToken(st, token)
    case NoResult => (Err(Raise(SignOutRestrictedException, UserSignoutError)), st)
    case NonUnique => (Err(Persistence(NonUniqueResult)), st)
    case One(a) =>
      var (m, st') := MergeUserAuth(st, a.(expiresAt := now, logoutAt := Some(now)));
      if m.Ok? then (Ok(m.value.user), st') else (Err(m.error), st)
  }

  /** `invalidateAuthorization` as the service runs it: the stored session
      comes back as an entity, its setters close it, and the DAO merges it. */
  method InvalidateAuthorization(db: Database, token: string, now: Time) returns (r: Result<User>)
    modifies db
    ensures (r, db.State()) == SignOut(old(db.State()), token, now)
  {
    var found := db.GetUserAuthToken(token);
    if found.NoResult? {
      return Err(Raise(SignOutRestrictedException, UserSignoutError));
    }
    if found.NonUnique? {
      return Err(Persistence(NonUniqueResult));
    }
    var userAuth := new UserAuthEntity.FromRow(found.row);
    userAuth.SetExpiresAt(now);
    userAuth.SetLogoutAt(Some(now));
    var merged := db.UpdateUserAuth(userAuth.Row().value);
    r := if merged.Ok? then Ok(merged.value.user) else Err(merged.error);
  }

  /** A sign-out rewrites, in place, the one session carrying the token, and
      no other row. */
  lemma SignOutRewritesOne(st: Store, token: string, now: Time) returns (k: int)
    requires Valid(st)
    requires SignOut(st, token, now).0.Ok?
    ensures 0 <= k < |st.sessions| && st.sessions[k] == SessionWithToken(st, token).row
    ensures SignOut(st, token, now).1.sessions[k] == st.sessions[k].(expiresAt := now, logoutAt := Some(now))
    ensures forall i :: 0 <= i < |st.sessions| && i != k ==>
      SignOut(st, token, now).1.sessions[i] == st.sessions[i] && st.sessions[i].accessToken != token
  {
    var st' := SignOut(st, token, now).1;
    var a := SessionWithToken(st, token).row;
    k :| 0 <= k < |st.sessions| && st.sessions[k] == a;
    forall i | 0 <= i < |st.sessions| && i != k
      ensures st'.sessions[i] == st.sessions[i] && st.sessions[i].accessToken != token
    {
      assert SessionId(st.sessions[i]) != SessionId(st.sessions[k]);
      assert st.sessions[i] in st.sessions;
    }
  }

  /** After a sign-out at `now` the token is refused with ATHR-002 at every
      later time, but still resolves at `now` itself, both bounds being
      inclusive; the sessions carrying other tokens stay as they were. */
  lemma SignOutCloses(st: Store, token: string, now: Time, t: Time)
    requires Valid(st)
    requires SignOut(st, token, now).0.Ok?
    ensures t > now ==> GetCurrentUser(SignOut(st, token, now).1, token, t) == Err(Raise(AuthorizationFailedException, UserGetAuthFailure))
    ensures t <= now ==> GetCurrentUser(SignOut(st, token, now).1, token, t) == SignOut(st, token, now).0
    ensures forall b :: b in st.sessions && b.accessToken != token ==> b in SignOut(st, token, now).1.sessions
  {
    var st' := SignOut(st, token, now).1;
    var k := SignOutRewritesOne(st, token, now);
    SingleAt(st'.sessions, TokenIs(token), k);
    forall b | b in st.sessions && b.accessToken != token ensures b in st'.sessions {
      var i :| 0 <= i < |st.sessions| && st.sessions[i] == b;
      assert st'.sessions[i] == b;
    }
  }

  // ---- deleting a user ----

  /** `deleteUser`: only an administrator may delete a user; the user with
      uuid `userUuid` is then deleted together with everything that refers
      to it, and its uuid is returned. */
  function DeleteUserOutcome(st: Store, acting: User, userUuid: string): (out: (Result<string>, Store))
    ensures !IsAdmin(acting) ==> out == (Err(Raise(AuthorizationFailedException, UserDeleteUnauthorized)), st)
    ensures IsAdmin(acting) && (forall u :: u in st.users ==> u.uuid != userUuid) ==>
      out == (Err(Raise(UserNotFoundException, UserDeleteFailure)), st)
    ensures out.0.Ok? ==> IsAdmin(acting) && out.0.value == userUuid
    ensures out.0.Ok? ==> GetUser(st, userUuid).One? && out.1 == DeleteUserCascade(st, GetUser(st, userUuid).row)
    ensures out.0.Err? ==> out.1 == st
  {
    if IsAdmin(acting) then
      match GetUser(st, userUuid)
      case NoResult => (Err(Raise(UserNotFoundException, UserDeleteFailure)), st)
      case NonUnique => (Err(Persistence(NonUniqueResult)), st)
      case One(v) => (Ok(v.uuid), DeleteUserCascade(st, v))
    else
      (Err(Raise(AuthorizationFailedException, UserDeleteUnauthorized)), st)
  }

  /** `deleteUser` as the service runs it against the DAO. */
  method DeleteUser(db: Database, acting: User, userUuid: string) returns (r: Result<string>)
    modifies db
    ensures (r, db.State()) == DeleteUserOutcome(old(db.State()), acting, userUuid)
  {
    if !IsAdmin(acting) {
      return Err(Raise(AuthorizationFailedException, UserDeleteUnauthorized));
    }
    var removeUser := db.GetUserByUuid(userUuid);
    match removeUser
    case NoResult =>
      r := Err(Raise(UserNotFoundException, UserDeleteFailure));
    case NonUnique =>
      r := Err(Persistence(NonUniqueResult));
    case One(v) =>
      db.DeleteUser(v);
      r := Ok(v.uuid);
  }

  /** An administrator deleting an existing user from a valid store
      succeeds; afterwards no user has that uuid and nothing the user owned
      remains, and the store is still valid. */
  lemma DeleteUserRemovesAll(st: Store, acting: User, userUuid: string)
    requires Valid(st) && IsAdmin(acting)
    requires exists u :: u in st.users && u.uuid == userUuid
    ensures DeleteUserOutcome(st, acting, userUuid).0 == Ok(userUuid)
    ensures forall u :: u in DeleteUserOutcome(st, acting, userUuid).1.users ==> u.uuid != userUuid
    ensures forall a :: a in DeleteUserOutcome(st, acting, userUuid).1.sessions ==> a.user.uuid != userUuid
    ensures forall q :: q in DeleteUserOutcome(st, acting, userUuid).1.questions ==> q.user.uuid != userUuid
    ensures forall a :: a in DeleteUserOutcome(st, acting, userUuid).1.answers ==> a.user.uuid != userUuid
    ensures Valid(DeleteUserOutcome(st, acting, userUuid).1)
  {
    var v := GetUser(st, userUuid).row;
    var st' := DeleteUserOutcome(st, acting, userUuid).1;
    DeleteUserKeepsValid(st, v);
    forall u | u in st.users && u.uuid == userUuid ensures u.id == v.id {
      var i :| 0 <= i < |st.users| && st.users[i] == u;
      var j :| 0 <= j < |st.users| && st.users[j] == v;
      assert UserUuid(st.users[i]) == UserUuid(st.users[j]);
    }
  }

  // ---- the operations keep the store valid ----

  lemma SignUpKeepsValid(st: Store, c: Crypto, u: User, salt: string)
    requires Valid(st)
    requires forall v :: v in st.users ==> v.uuid != u.uuid
    ensures Valid(SignUp(st, c, u, salt).1)
  {
    InsertUserKeepsValid(st, u.(salt := salt, password := c.hash(u.password, salt)));
  }

  lemma SignInKeepsValid(st: Store, c: Crypto, login: string, password: string, now: Time)
    requires Valid(st)
    ensures Valid(SignIn(st, c, login, password, now).1)
  {
    var found := UserWithLogin(st, login);
    if found.One? {
      InsertUserAuthKeepsValid(st, NewSession(c, found.row, now));
    }
  }

  lemma SignOutKeepsValid(st: Store, token: string, now: Time)
    requires Valid(st)
    ensures Valid(SignOut(st, token, now).1)
  {
    var found := SessionWithToken(st, token);
    if found.One? {
      MergeUserAuthKeepsValid(st, found.row.(expiresAt := now, logoutAt := Some(now)));
    }
  }
}
