/** Journeys through several handlers, as a client would make them, and what the
    handlers' contracts promise about them together. */
module Scenarios {
  import opened Base
  import opened Entities
  import opened Tokens
  import opened Services
  import opened AuthController
  import ApplicationController
  import StudentController

  /** Registering the same username twice: the second attempt answers 409 and
      leaves the users table as the first left it. */
  method RegisterTwice(b: Backend, username: string, password: string) returns (first: Reply<string>, second: Reply<string>)
    requires b.Valid() && !b.UsernameTaken(username)
    modifies b`users, b`nextId
    ensures first == Ok(201, RegisterDone) && second == Fail(409, RegisterConflict)
    ensures b.users == old(b.users)[old(b.nextId) := InsertedUser(old(b.nextId), username, password, DefaultRoles)]
  {
    first := Register(b, username, password);
    assert b.users[old(b.nextId)].username == username;
    second := Register(b, username, password);
  }

  /** A session opened for a live user lets its refresh token refresh; after
      logout the same token is refused. */
  method LogoutEndsRefresh(b: Backend, u: User) returns (before: Reply<Token>, after: Reply<Token>)
    requires b.Valid() && u.id in b.users && b.users[u.id] == u && Live(u)
    modifies b`sessions
    ensures before == Ok(200, SignJwt(u.id, AccessKeys))
    ensures after == Fail(403, RefreshFailed)
    ensures u.id !in b.sessions
  {
    var login, cookies := OpenSession(b, u);
    var refresh := SignJwt(u.id, RefreshKeys);
    assert b.sessions[u.id].id == u.id;
    RefreshNeedsRefreshToken(b, u.id);
    assert RefreshAllowed(b, Some(refresh));
    var newCookies;
    before, newCookies := RefreshAccessToken(b, Some(refresh));
    var bye;
    bye, cookies := Logout(b, u.id);
    RefreshNeedsRefreshToken(b, u.id);
    assert !RefreshAllowed(b, Some(refresh));
    after, newCookies := RefreshAccessToken(b, Some(refresh));
  }

  /** A student without a user logs in with its identifier and upper-cased passport
      number, which provisions a user; for an ASCII passport number, logging in again
      with the same password is accepted exactly when it has no lower-case letter. */
  method ProvisionThenRelogin(b: Backend, sid: Id) returns (first: Reply<Token>, second: Reply<Token>)
    requires b.Valid() && sid in b.students && !b.UsernameTaken(b.students[sid].identifier)
    requires IsAscii(b.students[sid].passportNumber)
    modifies b`users, b`students, b`nextId, b`sessions
    ensures first == Ok(200, SignJwt(old(b.nextId), AccessKeys))
    ensures second.Ok? <==> !HasLowerAscii(old(b.students[sid]).passportNumber)
  {
    var st := b.students[sid];
    var password := ToUpperCase(st.passportNumber);
    assert CanProvision(b, st.identifier, password);
    var uid := b.nextId;
    var cookies;
    first, cookies := Login(b, st.identifier, password);
    assert sid in old(b.students) && old(b.students[sid]).identifier == st.identifier;
    assert forall k :: k in old(b.students) && old(b.students[k]).identifier == st.identifier ==> k == sid;
    assert b.users[uid] == InsertedUser(uid, st.identifier, st.passportNumber, [StudentRole]);
    assert b.HasLiveUserNamed(st.identifier);
    ghost var usersBefore := b.users;
    second, cookies := Login(b, st.identifier, password);
    assert forall k :: k in usersBefore && Live(usersBefore[k]) && usersBefore[k].username == st.identifier ==> k == uid;
    ProvisionedPasswordRetyped(uid, st.identifier, st.passportNumber);
  }

  /** Answering an application and then sending an empty response: it stays
      answered, and the second response is stored as sent. */
  method AnswerThenClear(b: Backend, id: Id, response: string) returns (first: Reply<Option<Application>>, second: Reply<Option<Application>>)
    requires b.Valid() && id in b.applications && LiveApplication(b.applications[id]) && response != ""
    modifies b`applications
    ensures first.Ok? && first.data.Some? && first.data.value.status == Answered
    ensures second.Ok? && second.data.Some? && second.data.value.status == Answered && second.data.value.response == Some("")
  {
    first := ApplicationController.UpdateApplication(b, id, Given(response));
    second := ApplicationController.UpdateApplication(b, id, Given(""));
  }

  /** A user registered under a name, then a student inserted with that name as its
      identifier: the insert hook links the two and gives the user the STUDENT role. */
  method RegisterThenCreateStudent(b: Backend, input: Schemas.CreateStudentInput, password: string)
    returns (registered: Reply<string>, created: Reply<Student>)
    requires b.Valid() && !b.UsernameTaken(input.identifier)
    requires !b.IdentifierHeld(input.identifier, None) && !b.PassportHeld(input.passportNumber, None)
    requires !b.ClashesWithOthers(PreparedStudent(b.nextId + 1, input), None)
    modifies b`users, b`students, b`nextId
    ensures registered == Ok(201, RegisterDone)
    ensures created.Ok? && created.data.id in b.students
    ensures var uid := old(b.nextId);
            uid in b.users && b.users[uid].roles == DefaultRoles + [StudentRole] &&
            b.students[created.data.id].user == Some(uid)
  {
    var uid := b.nextId;
    registered := Register(b, input.identifier, password);
    assert b.users[uid] == InsertedUser(uid, input.identifier, password, DefaultRoles);
    assert b.HasLiveUserNamed(input.identifier);
    ghost var usersBefore := b.users;
    created := StudentController.CreateStudent(b, input);
    assert forall k :: k in usersBefore && Live(usersBefore[k]) && usersBefore[k].username == input.identifier ==> k == uid;
  }
}
