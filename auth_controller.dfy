/** The handlers of auth.controller.ts: register, login with provisioning from a
    student profile, e-mail verification, refresh of the access token and logout.
    A handler receives the parsed body it needs and answers with a `Reply` and the
    cookies it sets. */
module AuthController {
  import opened Base
  import opened Entities
  import opened Tokens
  import opened Services

  /** `MESSAGES.INVALID_CREDENTIALS` of utils/constants, which is not part of this
      model; the text is kept symbolic. */
  const InvalidCredentials: string := "INVALID_CREDENTIALS"

  /** `STATUS_CODES.NOT_FOUND` of utils/constants, taken to be 404. */
  const NotFoundStatus: nat := 404

  const RegisterConflict: string := "User with that email already exist"
  const RegisterDone: string := "User successfully created"
  const RefreshFailed: string := "Could not refresh access token"
  const VerifyFailed: string := "Could not verify email"
  const VerifyDone: string := "Email verified successfully"

  /** What a cookie holds, and how long it lives: the access or refresh token
      lifetime of the configuration, or `maxAge: 1`. */
  datatype CookieValue = TokenCookie(token: Token) | LoggedIn | Cleared
  datatype Lifetime = AccessLifetime | RefreshLifetime | ExpireNow
  datatype Cookie = Cookie(value: CookieValue, lifetime: Lifetime)

  /** The cookies a response sets, by name. */
  type Cookies = map<string, Cookie>

  /** The three cookies of a successful login. */
  function LoginCookies(access: Token, refresh: Token): (c: Cookies)
    ensures c.Keys == {"access_token", "refresh_token", "logged_in"}
    ensures c["access_token"].value == TokenCookie(access) && c["refresh_token"].value == TokenCookie(refresh)
  {
    map["access_token" := Cookie(TokenCookie(access), AccessLifetime),
        "refresh_token" := Cookie(TokenCookie(refresh), RefreshLifetime),
        "logged_in" := Cookie(LoggedIn, AccessLifetime)]
  }

  /** The two cookies of a refresh: the refresh-token cookie is not touched. */
  function RefreshCookies(access: Token): (c: Cookies)
    ensures c.Keys == {"access_token", "logged_in"}
    ensures c["access_token"].value == TokenCookie(access)
  {
    map["access_token" := Cookie(TokenCookie(access), AccessLifetime),
        "logged_in" := Cookie(LoggedIn, AccessLifetime)]
  }

  /** `logout`: all three cookies emptied with `maxAge: 1`. */
  const LogoutCookies: Cookies :=
    map["access_token" := Cookie(Cleared, ExpireNow),
        "refresh_token" := Cookie(Cleared, ExpireNow),
        "logged_in" := Cookie(Cleared, ExpireNow)]

  /** `registerUserHandler`: only the username and password reach `createUser`, so
      the user gets the default roles; a taken username answers 409. */
  method Register(b: Backend, username: string, password: string) returns (reply: Reply<string>)
    requires b.Valid()
    modifies b`users, b`nextId
    ensures b.Valid()
    ensures old(b.UsernameTaken(username)) ==>
              reply == Fail(409, RegisterConflict) && b.users == old(b.users) && b.nextId == old(b.nextId)
    ensures !old(b.UsernameTaken(username)) ==>
              reply == Ok(201, RegisterDone) && b.nextId == old(b.nextId) + 1 &&
              b.users == old(b.users)[old(b.nextId) := InsertedUser(old(b.nextId), username, password, DefaultRoles)]
  {
    var created := b.CreateUser(username, password);
    if created.Failure? {
      return Fail(409, RegisterConflict);
    }
    reply := Ok(201, RegisterDone);
  }

  /** Some student profile lets `username` and `password` provision a user. */
  ghost predicate CanProvision(b: Backend, username: string, password: string)
    reads b
  {
    exists k :: k in b.students && b.students[k].identifier == username && ToUpperCase(b.students[k].passportNumber) == password
  }

  /** The kinds of profile `handleNewUser` may provision a user from. */
  datatype ProfileKind = StudentProfile

  const UserTypes: seq<ProfileKind> := [StudentProfile]

  /** `handleNewUser`: for each kind of profile, look it up by the username and,
      when the upper-cased passport number equals the password as typed, create the
      user for it; otherwise there is no user. */
  method HandleNewUser(b: Backend, username: string, password: string) returns (r: Result<Option<User>>)
    requires b.Valid()
    modifies b`users, b`students, b`nextId
    ensures b.Valid()
    ensures !old(CanProvision(b, username, password)) ==>
              r == Success(None) && b.users == old(b.users) && b.students == old(b.students) && b.nextId == old(b.nextId)
    // a live user of that name is linked to the profile, unless another student holds it
    ensures old(CanProvision(b, username, password)) && old(b.HasLiveUserNamed(username)) ==> b.nextId == old(b.nextId)
    ensures old(CanProvision(b, username, password)) && old(b.HasLiveUserNamed(username)) && r.Success? ==>
              r.value.Some? &&
              var u := r.value.value;
              u.id in old(b.users) && Live(old(b.users[u.id])) && old(b.users[u.id]).username == username &&
              u.id in b.users && u == b.users[u.id] &&
              exists k :: k in old(b.students) && old(b.students[k]).identifier == username &&
                          Linked(old(b.users), b.users, old(b.students), b.students, k, u.id)
    ensures old(CanProvision(b, username, password)) && old(b.HasLiveUserNamed(username)) && r.Failure? ==>
              r.error == UniqueViolation && b.users == old(b.users) && b.students == old(b.students)
    // a soft-deleted row holding the name makes the insert fail
    ensures old(CanProvision(b, username, password)) && !old(b.HasLiveUserNamed(username)) && old(b.UsernameTaken(username)) ==>
              r == Failure(UniqueViolation) && b.users == old(b.users) && b.students == old(b.students) && b.nextId == old(b.nextId)
    // otherwise a user is inserted with the passport number as given as its password
    ensures old(CanProvision(b, username, password)) && !old(b.UsernameTaken(username)) ==>
              b.nextId == old(b.nextId) + 1 &&
              exists k :: k in old(b.students) && old(b.students[k]).identifier == username &&
                          ToUpperCase(old(b.students[k]).passportNumber) == password &&
                          r == Success(Some(InsertedUser(old(b.nextId), username, old(b.students[k]).passportNumber, [StudentRole]))) &&
                          b.users == old(b.users)[old(b.nextId) := r.value.value] &&
                          b.students == old(b.students)[k := old(b.students[k]).(user := Some(old(b.nextId)))]
  {
    var i := 0;
    while i < |UserTypes|
      invariant 0 <= i <= |UserTypes|
      invariant b.Valid()
      invariant b.users == old(b.users) && b.students == old(b.students) && b.nextId == old(b.nextId)
      invariant i > 0 ==> !CanProvision(b, username, password)
    {
      match UserTypes[i]
      case StudentProfile =>
        var entity := b.FindStudentByIdentifier(username);
        if entity.Some? && ToUpperCase(entity.value.passportNumber) == password {
          var created := b.CreateUserForStudent(entity.value);
          return if created.Success? then Success(Some(created.value)) else Failure(created.error);
        }
      i := i + 1;
    }
    r := Success(None);
  }

  /** `loginUserHandler`. A live user of that name must give the password whose
      hash is stored (otherwise NOT_FOUND, without provisioning); with no such user,
      a provisioned one takes its place (otherwise 400). On success the session of
      the user is written, three cookies are set and the access token is returned. */
  method Login(b: Backend, username: string, password: string) returns (reply: Reply<Token>, cookies: Cookies)
    requires b.Valid()
    modifies b`users, b`students, b`nextId, b`sessions
    ensures b.Valid()
    ensures !reply.Ok? ==> cookies == map[] && b.sessions == old(b.sessions)
    ensures reply.Ok? ==>
              exists u: User :: reply == Ok(200, SignJwt(u.id, AccessKeys)) &&
                                cookies == LoginCookies(SignJwt(u.id, AccessKeys), SignJwt(u.id, RefreshKeys)) &&
                                u.id in b.users && b.users[u.id] == u && u.username == username &&
                                b.sessions == old(b.sessions)[u.id := UserJson(u)]
    // a found user: the password decides, nothing is provisioned
    ensures old(b.HasLiveUserNamed(username)) ==> b.users == old(b.users) && b.students == old(b.students) && b.nextId == old(b.nextId)
    ensures old(b.HasLiveUserNamed(username)) ==>
              exists k :: k in old(b.users) && Live(old(b.users[k])) && old(b.users[k]).username == username &&
                          if ComparePasswords(password, old(b.users[k]).password) then
                            reply == Ok(200, SignJwt(k, AccessKeys)) && b.sessions == old(b.sessions)[k := UserJson(old(b.users[k]))]
                          else reply == Fail(NotFoundStatus, InvalidCredentials)
    // no user: provisioning decides
    ensures !old(b.HasLiveUserNamed(username)) && !old(CanProvision(b, username, password)) ==>
              reply == Fail(400, InvalidCredentials) && b.users == old(b.users) && b.students == old(b.students)
    ensures !old(b.HasLiveUserNamed(username)) && old(CanProvision(b, username, password)) && old(b.UsernameTaken(username)) ==>
              reply == Thrown(UniqueViolation) && b.users == old(b.users) && b.students == old(b.students)
    ensures !old(b.HasLiveUserNamed(username)) && old(CanProvision(b, username, password)) && !old(b.UsernameTaken(username)) ==>
              reply == Ok(200, SignJwt(old(b.nextId), AccessKeys)) &&
              exists k :: k in old(b.students) && old(b.students[k]).identifier == username &&
                          ToUpperCase(old(b.students[k]).passportNumber) == password &&
                          b.users == old(b.users)[old(b.nextId) := InsertedUser(old(b.nextId), username, old(b.students[k]).passportNumber, [StudentRole])] &&
                          b.students == old(b.students)[k := old(b.students[k]).(user := Some(old(b.nextId)))]
  {
    var found := b.FindUserByName(username);
    if found.Some? {
      reply, cookies := LoginKnownUser(b, found.value, password);
      return;
    }
    reply, cookies := LoginNewUser(b, username, password);
  }

  /** The login of a name no live user holds: `handleNewUser` decides. */
  method LoginNewUser(b: Backend, username: string, password: string) returns (reply: Reply<Token>, cookies: Cookies)
    requires b.Valid() && !b.HasLiveUserNamed(username)
    modifies b`users, b`students, b`nextId, b`sessions
    ensures b.Valid()
    ensures !reply.Ok? ==> cookies == map[] && b.sessions == old(b.sessions)
    ensures reply.Ok? ==>
              exists u: User :: reply == Ok(200, SignJwt(u.id, AccessKeys)) &&
                                cookies == LoginCookies(SignJwt(u.id, AccessKeys), SignJwt(u.id, RefreshKeys)) &&
                                u.id in b.users && b.users[u.id] == u && u.username == username &&
                                b.sessions == old(b.sessions)[u.id := UserJson(u)]
    ensures !old(CanProvision(b, username, password)) ==>
              reply == Fail(400, InvalidCredentials) && b.users == old(b.users) && b.students == old(b.students)
    ensures old(CanProvision(b, username, password)) && old(b.UsernameTaken(username)) ==>
              reply == Thrown(UniqueViolation) && b.users == old(b.users) && b.students == old(b.students)
    ensures old(CanProvision(b, username, password)) && !old(b.UsernameTaken(username)) ==>
              reply == Ok(200, SignJwt(old(b.nextId), AccessKeys)) &&
              exists k :: k in old(b.students) && old(b.students[k]).identifier == username &&
                          ToUpperCase(old(b.students[k]).passportNumber) == password &&
                          b.users == old(b.users)[old(b.nextId) := InsertedUser(old(b.nextId), username, old(b.students[k]).passportNumber, [StudentRole])] &&
                          b.students == old(b.students)[k := old(b.students[k]).(user := Some(old(b.nextId)))]
  {
    var provisioned := HandleNewUser(b, username, password);
    if provisioned.Failure? {
      return Thrown(provisioned.error), map[];
    }
    if provisioned.value.None? {
      return Fail(400, InvalidCredentials), map[];
    }
    var u := provisioned.value.value;
    reply, cookies := OpenSession(b, u);
    assert u.id in b.users && b.users[u.id] == u && u.username == username;
  }

  /** The password check against a found user, and the session on a match. */
  method LoginKnownUser(b: Backend, u: User, password: string) returns (reply: Reply<Token>, cookies: Cookies)
    modifies b`sessions
    ensures ComparePasswords(password, u.password) ==>
              reply == Ok(200, SignJwt(u.id, AccessKeys)) &&
              cookies == LoginCookies(SignJwt(u.id, AccessKeys), SignJwt(u.id, RefreshKeys)) &&
              b.sessions == old(b.sessions)[u.id := UserJson(u)]
    ensures !ComparePasswords(password, u.password) ==>
              reply == Fail(NotFoundStatus, InvalidCredentials) && cookies == map[] && b.sessions == old(b.sessions)
  {
    if !ComparePasswords(password, u.password) {
      return Fail(NotFoundStatus, InvalidCredentials), map[];
    }
    reply, cookies := OpenSession(b, u);
  }

  /** `signTokens`, the three cookies and the access token in the body. */
  method OpenSession(b: Backend, u: User) returns (reply: Reply<Token>, cookies: Cookies)
    modifies b`sessions
    ensures reply == Ok(200, SignJwt(u.id, AccessKeys))
    ensures cookies == LoginCookies(SignJwt(u.id, AccessKeys), SignJwt(u.id, RefreshKeys))
    ensures b.sessions == old(b.sessions)[u.id := UserJson(u)]
  {
    var access, refresh := b.SignTokens(u);
    cookies := LoginCookies(access, refresh);
    reply := Ok(200, access);
  }

  /** `verifyEmailHandler` against a user entity declaring the properties
      `declared`: the code is hashed and looked up; a found user is marked verified
      and its code cleared. */
  method VerifyEmail(b: Backend, code: string, declared: set<string>) returns (reply: Reply<string>)
    requires b.Valid()
    modifies b`users
    ensures b.Valid()
    ensures "verificationCode" !in declared ==> reply == Thrown(UnknownProperty("verificationCode")) && b.users == old(b.users)
    ensures "verificationCode" in declared && !old(exists k :: k in b.users && Live(b.users[k]) && b.users[k].verificationCode == Some(Sha256(code))) ==>
              reply == Fail(401, VerifyFailed) && b.users == old(b.users)
    ensures "verificationCode" in declared && old(exists k :: k in b.users && Live(b.users[k]) && b.users[k].verificationCode == Some(Sha256(code))) ==>
              reply == Ok(200, VerifyDone) &&
              exists k :: k in old(b.users) && Live(old(b.users[k])) && old(b.users[k]).verificationCode == Some(Sha256(code)) &&
                          b.users == old(b.users)[k := old(b.users[k]).(verified := true, verificationCode := None)]
  {
    var found := b.FindUserByVerificationCode(Sha256(code), declared);
    if found.Failure? {
      return Thrown(found.error);
    }
    if found.value.None? {
      return Fail(401, VerifyFailed);
    }
    var u := found.value.value;
    b.users := b.users[u.id := u.(verified := true, verificationCode := None)];
    reply := Ok(200, VerifyDone);
  }

  /** The handler as written: user.entity.ts declares no `verificationCode`, so the
      lookup by it always fails and nothing is ever verified. */
  method VerifyEmailAsWritten(b: Backend, code: string) returns (reply: Reply<string>)
    requires b.Valid()
    modifies b`users
    ensures b.Valid()
    ensures reply == Thrown(UnknownProperty("verificationCode")) && b.users == old(b.users)
  {
    assert "verificationCode" !in DeclaredUserColumns;
    reply := VerifyEmail(b, code, DeclaredUserColumns);
  }

  /** The handler with the column the code relies on declared. */
  method VerifyEmailHandler(b: Backend, code: string) returns (reply: Reply<string>)
    requires b.Valid()
    modifies b`users
    ensures b.Valid()
    ensures !old(exists k :: k in b.users && Live(b.users[k]) && b.users[k].verificationCode == Some(Sha256(code))) ==>
              reply == Fail(401, VerifyFailed) && b.users == old(b.users)
    ensures old(exists k :: k in b.users && Live(b.users[k]) && b.users[k].verificationCode == Some(Sha256(code))) ==>
              reply == Ok(200, VerifyDone) &&
              exists k :: k in old(b.users) && Live(old(b.users[k])) && old(b.users[k]).verificationCode == Some(Sha256(code)) &&
                          b.users == old(b.users)[k := old(b.users[k]).(verified := true, verificationCode := None)]
  {
    reply := VerifyEmail(b, code, UserColumns);
  }

  /** A provisioned user's password is the passport number as stored, while the
      login that provisioned it typed the upper-cased one: for an ASCII passport
      number, typing it again is accepted exactly when it has no lower-case letter. */
  lemma ProvisionedPasswordRetyped(id: Id, username: string, passport: string)
    requires IsAscii(passport)
    ensures ComparePasswords(ToUpperCase(passport), InsertedUser(id, username, passport, [StudentRole]).password)
            <==> !HasLowerAscii(passport)
  {
    ToUpperCaseFixes(passport);
  }

  /** The chain of checks of a refresh, each failing closed: a non-empty cookie, a
      refresh token that verifies, a session for its subject, a live user for the
      session's stored id. */
  predicate RefreshAllowed(b: Backend, cookie: Option<Token>)
    reads b
  {
    cookie.Some? && cookie.value != Opaque("") &&
    VerifyJwt(cookie.value, RefreshKeys).Some? &&
    VerifyJwt(cookie.value, RefreshKeys).value in b.sessions &&
    b.FindUserById(b.sessions[VerifyJwt(cookie.value, RefreshKeys).value].id).Some?
  }

  /** Only a refresh token the service signed can refresh, and only while there is
      a session for its subject naming a live user. */
  lemma RefreshNeedsRefreshToken(b: Backend, uid: Id)
    ensures !RefreshAllowed(b, Some(SignJwt(uid, AccessKeys)))
    ensures RefreshAllowed(b, Some(SignJwt(uid, RefreshKeys))) <==>
              uid in b.sessions && b.FindUserById(b.sessions[uid].id).Some?
  {
  }

  /** `refreshAccessTokenHandler`: 403 with one message at every failed check;
      otherwise a new access token for the session's user, and only the access
      and logged-in cookies. Nothing is written. */
  method RefreshAccessToken(b: Backend, cookie: Option<Token>) returns (reply: Reply<Token>, cookies: Cookies)
    requires b.Valid()
    ensures !RefreshAllowed(b, cookie) ==> reply == Fail(403, RefreshFailed) && cookies == map[]
    ensures RefreshAllowed(b, cookie) ==>
              var uid := b.sessions[VerifyJwt(cookie.value, RefreshKeys).value].id;
              reply == Ok(200, SignJwt(uid, AccessKeys)) && cookies == RefreshCookies(SignJwt(uid, AccessKeys)) &&
              uid in b.users && Live(b.users[uid])
  {
    cookies := map[];
    if cookie.None? || cookie.value == Opaque("") {
      return Fail(403, RefreshFailed), cookies;
    }
    var decoded := VerifyJwt(cookie.value, RefreshKeys);
    if decoded.None? {
      return Fail(403, RefreshFailed), cookies;
    }
    if decoded.value !in b.sessions {
      return Fail(403, RefreshFailed), cookies;
    }
    var session := b.sessions[decoded.value];
    var user := b.FindUserById(session.id);
    if user.None? {
      return Fail(403, RefreshFailed), cookies;
    }
    var access := SignJwt(user.value.id, AccessKeys);
    cookies := RefreshCookies(access);
    reply := Ok(200, access);
  }

  /** `logoutHandler`: the session of the current user is deleted and the three
      cookies are emptied. */
  method Logout(b: Backend, current: Id) returns (reply: Reply<string>, cookies: Cookies)
    modifies b`sessions
    ensures b.sessions == old(b.sessions) - {current}
    ensures cookies == LogoutCookies && reply.Ok? && reply.status == 200
  {
    b.sessions := b.sessions - {current};
    cookies := LogoutCookies;
    reply := Ok(200, "");
  }
}
