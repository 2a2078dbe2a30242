/** The services over the stores: user.service.ts, student.service.ts,
    application.service.ts and the insert hook of student.subscriber.ts. The
    relational tables and the Redis sessions are the fields of one `Backend`. */
module Services {
  import opened Base
  import opened Entities
  import opened Schemas
  import opened Query
  import opened Tokens

  /** The messages of the uniqueness pre-checks of the student services. */
  const IdentifierTaken: string := "Студент с таким идентификатором уже существует"
  const PassportTaken: string := "Студент с таким паспортом уже существует"

  /** The issues the pre-checks collect: one per clash, each under its own path. */
  function UniquenessIssues(identifierHeld: bool, passportHeld: bool): (issues: seq<Issue>)
    ensures Issue("identifier", IdentifierTaken) in issues <==> identifierHeld
    ensures Issue("passport_number", PassportTaken) in issues <==> passportHeld
    ensures issues == [] <==> !identifierHeld && !passportHeld
    ensures |issues| <= 2
  {
    (if identifierHeld then [Issue("identifier", IdentifierTaken)] else []) +
    (if passportHeld then [Issue("passport_number", PassportTaken)] else [])
  }

  /** The `errors` array of the student services, pushed to clash by clash. */
  method CollectIssues(identifierHeld: bool, passportHeld: bool) returns (errors: seq<Issue>)
    ensures errors == UniquenessIssues(identifierHeld, passportHeld)
  {
    errors := [];
    if identifierHeld {
      errors := errors + [Issue("identifier", IdentifierTaken)];
    }
    if passportHeld {
      errors := errors + [Issue("passport_number", PassportTaken)];
    }
  }

  /** What a student write comes to. */
  datatype Outcome =
    | Saved(student: Student)
    | StudentMissing                 // AppError(404)
    | Rejected(issues: seq<Issue>)   // ZodError of the pre-checks
    | Violation(error: StoreError)   // raised by the store on save

  /** The row `createStudentService` saves: the input with an empty or missing
      pinfl, email and birth date left unset (`|| undefined`). The `created_by` it
      passes is not a column of Student, so the store drops it. */
  function PreparedStudent(id: Id, input: CreateStudentInput): (st: Student)
    ensures st.id == id && st.identifier == input.identifier && st.passportNumber == input.passportNumber
    ensures st.lastName == input.lastName && st.firstName == input.firstName && st.middleName == input.middleName
    ensures st.gender == input.gender && st.group == input.group && st.faculty == input.faculty
    ensures st.pinfl.Some? <==> Truthy(input.pinfl)
    ensures st.email.Some? <==> Truthy(input.email)
    ensures st.birthDate.Some? <==> Truthy(input.birthDate)
    ensures Truthy(input.pinfl) ==> st.pinfl == Some(input.pinfl.value)
    ensures Truthy(input.email) ==> st.email == Some(input.email.value)
    ensures Truthy(input.birthDate) ==> st.birthDate == Some(input.birthDate.value)
    ensures st.user.None?
  {
    Student(id, input.identifier, input.lastName, input.firstName, input.middleName,
            OrAbsent(input.pinfl), OrAbsent(input.email), input.passportNumber, OrAbsent(input.birthDate),
            input.gender, input.group, input.faculty, None)
  }

  function Overwrite<T>(stored: T, given: Option<T>): T {
    if given.Some? then given.value else stored
  }

  /** `Object.assign(student, preparedInput)` of `updateStudentService`: a given field
      overwrites; pinfl and email become null unless a non-empty value is given
      (`|| null`); the birth date is kept unless a non-empty one is given
      (`|| undefined`, which the store skips). */
  function MergePatch(s: Student, p: UpdateStudentInput): (r: Student)
    ensures r.id == s.id && r.group == s.group && r.faculty == s.faculty && r.user == s.user
    ensures p.identifier.Some? ==> r.identifier == p.identifier.value
    ensures p.identifier.None? ==> r.identifier == s.identifier
    ensures p.lastName.Some? ==> r.lastName == p.lastName.value
    ensures p.lastName.None? ==> r.lastName == s.lastName
    ensures p.firstName.Some? ==> r.firstName == p.firstName.value
    ensures p.firstName.None? ==> r.firstName == s.firstName
    ensures p.passportNumber.Some? ==> r.passportNumber == p.passportNumber.value
    ensures p.passportNumber.None? ==> r.passportNumber == s.passportNumber
    ensures p.middleName.Some? ==> r.middleName == p.middleName
    ensures p.middleName.None? ==> r.middleName == s.middleName
    ensures p.gender.Some? ==> r.gender == p.gender
    ensures p.gender.None? ==> r.gender == s.gender
    ensures r.pinfl.Some? <==> Truthy(p.pinfl)
    ensures r.email.Some? <==> Truthy(p.email)
    ensures Truthy(p.pinfl) ==> r.pinfl == Some(p.pinfl.value)
    ensures Truthy(p.email) ==> r.email == Some(p.email.value)
    ensures r.birthDate == if Truthy(p.birthDate) then Some(p.birthDate.value) else s.birthDate
  {
    Student(s.id, Overwrite(s.identifier, p.identifier), Overwrite(s.lastName, p.lastName),
            Overwrite(s.firstName, p.firstName), if p.middleName.Some? then p.middleName else s.middleName,
            OrAbsent(p.pinfl), OrAbsent(p.email), Overwrite(s.passportNumber, p.passportNumber),
            if Truthy(p.birthDate) then Some(p.birthDate.value) else s.birthDate,
            if p.gender.Some? then p.gender else s.gender, s.group, s.faculty, s.user)
  }

  const EmptyPatch: UpdateStudentInput := UpdateStudentInput(None, None, None, None, Missing, None, Missing, Missing, None)

  /** An update that names no field still clears pinfl and email and keeps the rest. */
  lemma EmptyPatchClearsPinflAndEmail(s: Student)
    ensures MergePatch(s, EmptyPatch) == s.(pinfl := None, email := None)
  {
  }

  /** Applying the same update twice is applying it once. */
  lemma MergePatchIdempotent(s: Student, p: UpdateStudentInput)
    ensures MergePatch(MergePatch(s, p), p) == MergePatch(s, p)
  {
  }

  /** Every field a valid create body sets survives an update that re-sends it. */
  lemma MergePatchOfOwnValues(s: Student)
    ensures MergePatch(s, UpdateStudentInput(Some(s.identifier), Some(s.lastName), Some(s.firstName), s.middleName,
                                             if s.pinfl.Some? then Given(s.pinfl.value) else Null,
                                             Some(s.passportNumber),
                                             if s.email.Some? then Given(s.email.value) else Null,
                                             Missing, s.gender)) ==
            s.(pinfl := if s.pinfl == Some("") then None else s.pinfl, email := if s.email == Some("") then None else s.email)
  {
  }

  /** The user after `user.roles.push(STUDENT)`: nothing else changes. */
  function AddStudentRole(u: User): (v: User)
    ensures v.roles == u.roles + [StudentRole]
    ensures v == u.(roles := v.roles)
  {
    u.(roles := u.roles + [StudentRole])
  }

  /** The tables after a user `uid` was linked to student `sid`: STUDENT appended to
      the user's roles, `user_id` set on the student, nothing else changed. */
  ghost predicate Linked(u0: map<Id, User>, u1: map<Id, User>, s0: map<Id, Student>, s1: map<Id, Student>, sid: Id, uid: Id) {
    uid in u0 && sid in s0 &&
    u1 == u0[uid := AddStudentRole(u0[uid])] &&
    s1 == s0[sid := s0[sid].(user := Some(uid))]
  }

  /** `updateApplicationService` on a found application: `response` is overwritten
      (a missing one is skipped by the store) and a non-empty response marks the
      application answered. */
  function Respond(a: Application, response: Field<string>): (b: Application)
    ensures b.id == a.id && b.message == a.message && b.student == a.student && b.deletedAt == a.deletedAt
    ensures b.response == match response { case Missing => a.response case Null => None case Given(s) => Some(s) }
    ensures b.status == Answered <==> a.status == Answered || Truthy(response)
  {
    var withResponse := match response {
      case Missing => a
      case Null => a.(response := None)
      case Given(s) => a.(response := Some(s))
    };
    if Truthy(response) then withResponse.(status := Answered) else withResponse
  }

  /** The transition is one-way: no response returns an answered application to pending. */
  lemma RespondNeverReopens(a: Application, response: Field<string>)
    requires a.status == Answered
    ensures Respond(a, response).status == Answered
  {
  }

  class Backend {
    /** The `users` table; soft-deleted rows stay, with `deletedAt` set. */
    var users: map<Id, User>
    /** The `students` table. */
    var students: map<Id, Student>
    /** The `applications` table. */
    var applications: map<Id, Application>
    /** The Redis sessions: user id to the stored JSON of the user. */
    var sessions: map<Id, UserView>
    /** The next primary key; the store's uuids are fresh, and so is this. */
    var nextId: Id

    /** The keys of every table are the rows' ids, below `nextId`; the unique indexes
        hold over every row, soft-deleted ones included; links point at rows. */
    ghost predicate Valid()
      reads this`users, this`students, this`applications, this`nextId
    {
      (forall k :: k in users ==> users[k].id == k && k < nextId) &&
      (forall k :: k in students ==> students[k].id == k && k < nextId) &&
      (forall k :: k in applications ==> applications[k].id == k && k < nextId) &&
      (forall a, b :: a in users && b in users && a != b ==> users[a].username != users[b].username) &&
      (forall a, b :: a in users && b in users && a != b && users[a].phone.Some? ==> users[a].phone != users[b].phone) &&
      (forall a, b :: a in students && b in students && a != b ==> !KeysClash(students[a], students[b])) &&
      (forall k :: k in students && students[k].user.Some? ==> students[k].user.value in users) &&
      (forall a, b :: a in students && b in students && a != b && students[a].user.Some? ==> students[a].user != students[b].user) &&
      (forall k :: k in applications && applications[k].student.Some? ==> applications[k].student.value in students)
    }

    constructor ()
      ensures Valid()
      ensures users == map[] && students == map[] && applications == map[] && sessions == map[]
    {
      users := map[];
      students := map[];
      applications := map[];
      sessions := map[];
      nextId := 0;
    }

    // ------------------------------------------------------------ Users

    /** Some row, deleted or not, has this username: the unique index refuses another. */
    predicate UsernameTaken(name: string)
      reads this
    {
      exists k :: k in users && users[k].username == name
    }

    predicate HasLiveUserNamed(name: string)
      reads this
    {
      exists k :: k in users && Live(users[k]) && users[k].username == name
    }

    /** `findUser({username})` and `findOneBy({username})`: the live user of that name. */
    method FindUserByName(name: string) returns (r: Option<User>)
      requires Valid()
      ensures r.Some? <==> HasLiveUserNamed(name)
      ensures r.Some? ==> r.value.id in users && users[r.value.id] == r.value && Live(r.value) && r.value.username == name
    {
      if HasLiveUserNamed(name) {
        var k :| k in users && Live(users[k]) && users[k].username == name;
        r := Some(users[k]);
      } else {
        r := None;
      }
    }

    /** `findUserById`. */
    function FindUserById(id: Id): (r: Option<User>)
      reads this
      ensures r.Some? <==> id in users && Live(users[id])
      ensures r.Some? ==> r.value == users[id]
    {
      if id in users && Live(users[id]) then Some(users[id]) else None
    }

    /** `findUserByEmail`: a live user with that e-mail. */
    method FindUserByEmail(email: string) returns (r: Option<User>)
      requires Valid()
      ensures r.Some? <==> exists k :: k in users && Live(users[k]) && users[k].email == Some(email)
      ensures r.Some? ==> r.value.id in users && users[r.value.id] == r.value && Live(r.value) && r.value.email == Some(email)
    {
      if k :| k in users && Live(users[k]) && users[k].email == Some(email) {
        r := Some(users[k]);
      } else {
        r := None;
      }
    }

    /** `findUser({verificationCode})`, where `declared` are the properties the user
        entity declares: the store refuses a property it does not know. */
    method FindUserByVerificationCode(code: Sha256Digest, declared: set<string>) returns (r: Result<Option<User>>)
      requires Valid()
      ensures "verificationCode" !in declared ==> r == Failure(UnknownProperty("verificationCode"))
      ensures "verificationCode" in declared ==> r.Success?
      ensures r.Success? ==> (r.value.Some? <==> exists k :: k in users && Live(users[k]) && users[k].verificationCode == Some(code))
      ensures r.Success? && r.value.Some? ==>
                r.value.value.id in users && users[r.value.value.id] == r.value.value &&
                Live(r.value.value) && r.value.value.verificationCode == Some(code)
    {
      if "verificationCode" !in declared {
        return Failure(UnknownProperty("verificationCode"));
      }
      if k :| k in users && Live(users[k]) && users[k].verificationCode == Some(code) {
        r := Success(Some(users[k]));
      } else {
        r := Success(None);
      }
    }

    /** `signTokens`: the session of the user is (re)written with the user's JSON,
        and an access and a refresh token are signed for its id. */
    method SignTokens(u: User) returns (access: Token, refresh: Token)
      modifies this`sessions
      ensures sessions == old(sessions)[u.id := UserJson(u)]
      ensures VerifyJwt(access, AccessKeys) == Some(u.id) && VerifyJwt(refresh, RefreshKeys) == Some(u.id)
      ensures VerifyJwt(access, RefreshKeys).None? && VerifyJwt(refresh, AccessKeys).None?
    {
      sessions := sessions[u.id := UserJson(u)];
      access := SignJwt(u.id, AccessKeys);
      refresh := SignJwt(u.id, RefreshKeys);
    }

    /** `createUser({username, password})`: insert with the column defaults, unless
        the unique index on `username` refuses it. */
    method CreateUser(username: string, password: string) returns (r: Result<User>)
      requires Valid()
      modifies this`users, this`nextId
      ensures Valid()
      ensures old(UsernameTaken(username)) ==>
                r == Failure(UniqueViolation) && users == old(users) && nextId == old(nextId)
      ensures !old(UsernameTaken(username)) ==>
                r == Success(InsertedUser(old(nextId), username, password, DefaultRoles)) &&
                users == old(users)[old(nextId) := r.value] && nextId == old(nextId) + 1
    {
      if UsernameTaken(username) {
        return Failure(UniqueViolation);
      }
      var u := InsertedUser(nextId, username, password, DefaultRoles);
      InsertUser(u);
      r := Success(u);
    }

    /** Inserts a new user row under the next key. */
    method InsertUser(u: User)
      requires Valid() && u.id == nextId && !UsernameTaken(u.username) && u.phone.None?
      modifies this`users, this`nextId
      ensures Valid()
      ensures users == old(users)[u.id := u] && nextId == old(nextId) + 1
    {
      users := users[u.id := u];
      nextId := nextId + 1;
    }

    /** A student other than `sid` is linked to user `uid`: the unique `user_id`
        column of the one-to-one relation refuses a second link. */
    predicate HeldByOther(uid: Id, sid: Id)
      reads this`students
    {
      exists k :: k in students && k != sid && students[k].user == Some(uid)
    }

    /** Sets `user_id` of student `sid` to `uid`. */
    method SetStudentUser(sid: Id, uid: Id)
      requires Valid() && sid in students && uid in users && !HeldByOther(uid, sid)
      modifies this`students
      ensures Valid()
      ensures students == old(students)[sid := old(students[sid]).(user := Some(uid))]
    {
      var st := students[sid].(user := Some(uid));
      assert forall k :: k in students && k != sid ==> !KeysClash(st, students[k]) && !KeysClash(students[k], st) by {
        forall k | k in students && k != sid ensures !KeysClash(st, students[k]) && !KeysClash(students[k], st) {
          assert !KeysClash(students[sid], students[k]) && !KeysClash(students[k], students[sid]);
        }
      }
      students := students[sid := st];
    }

    /** `verifyUserService`: sets `verified` and stamps `verified_at` with `now`. */
    method VerifyUser(id: Id, now: Time)
      requires Valid() && id in users
      modifies this`users
      ensures Valid()
      ensures users == old(users)[id := old(users[id]).(verified := true, verifiedAt := Some(now))]
    {
      users := users[id := users[id].(verified := true, verifiedAt := Some(now))];
    }

    /** The save that links user `uid` to student `sid` and appends STUDENT to the
        user's roles. When another student already holds the user, the unique
        `user_id` column refuses it and the save changes nothing. */
    method Link(uid: Id, sid: Id) returns (r: Result<User>)
      requires Valid() && uid in users && sid in students
      modifies this`users, this`students
      ensures Valid()
      ensures old(HeldByOther(uid, sid)) ==> r == Failure(UniqueViolation) && users == old(users) && students == old(students)
      ensures !old(HeldByOther(uid, sid)) ==>
                r.Success? && Linked(old(users), users, old(students), students, sid, uid) &&
                r.value == users[uid] && r.value == AddStudentRole(old(users[uid]))
    {
      if HeldByOther(uid, sid) {
        return Failure(UniqueViolation);
      }
      var u := AddStudentRole(users[uid]);
      users := users[uid := u];
      SetStudentUser(sid, uid);
      r := Success(u);
    }

    /** `connectNewInstanceToUser`: link the inserted student to the live user whose
        username is its identifier, if there is one (`null` otherwise, with nothing
        changed); the save fails when another student already holds that user. */
    method ConnectNewInstanceToUser(instance: Student) returns (r: Result<Option<User>>)
      requires Valid() && instance.id in students
      modifies this`users, this`students
      ensures Valid()
      ensures r == Success(None) <==> !old(HasLiveUserNamed(instance.identifier))
      ensures r == Success(None) ==> users == old(users) && students == old(students)
      ensures r.Success? && r.value.Some? ==>
                var u := r.value.value;
                u.id in old(users) && Live(old(users[u.id])) && old(users[u.id]).username == instance.identifier &&
                !old(HeldByOther(u.id, instance.id)) &&
                Linked(old(users), users, old(students), students, instance.id, u.id) && u == users[u.id]
      ensures r.Failure? ==>
                r.error == UniqueViolation && users == old(users) && students == old(students) &&
                exists uid :: uid in old(users) && Live(old(users[uid])) && old(users[uid]).username == instance.identifier &&
                              old(HeldByOther(uid, instance.id))
    {
      var found := FindUserByName(instance.identifier);
      if found.None? {
        return Success(None);
      }
      var linked := Link(found.value.id, instance.id);
      r := if linked.Success? then Success(Some(linked.value)) else Failure(linked.error);
    }

    /** `createUserForStudent`: link the live user named after the student, or
        insert one with the identifier as username, the passport number as
        password and the STUDENT role. A soft-deleted row holding the name makes
        the insert fail and changes nothing. */
    method CreateUserForStudent(st: Student) returns (r: Result<User>)
      requires Valid() && st.id in students
      modifies this`users, this`students, this`nextId
      ensures Valid()
      ensures old(HasLiveUserNamed(st.identifier)) ==> nextId == old(nextId)
      ensures old(HasLiveUserNamed(st.identifier)) && r.Success? ==>
                r.value.id in old(users) && old(users[r.value.id]).username == st.identifier &&
                Live(old(users[r.value.id])) && !old(HeldByOther(r.value.id, st.id)) &&
                Linked(old(users), users, old(students), students, st.id, r.value.id) &&
                r.value == users[r.value.id]
      ensures old(HasLiveUserNamed(st.identifier)) && r.Failure? ==>
                r.error == UniqueViolation && users == old(users) && students == old(students) &&
                exists uid :: uid in old(users) && Live(old(users[uid])) && old(users[uid]).username == st.identifier &&
                              old(HeldByOther(uid, st.id))
      ensures !old(HasLiveUserNamed(st.identifier)) && old(UsernameTaken(st.identifier)) ==>
                r == Failure(UniqueViolation) && users == old(users) && students == old(students) && nextId == old(nextId)
      ensures !old(UsernameTaken(st.identifier)) ==>
                r == Success(InsertedUser(old(nextId), st.identifier, st.passportNumber, [StudentRole])) &&
                users == old(users)[old(nextId) := r.value] &&
                students == old(students)[st.id := old(students[st.id]).(user := Some(old(nextId)))] &&
                nextId == old(nextId) + 1
    {
      var found := FindUserByName(st.identifier);
      if found.Some? {
        r := Link(found.value.id, st.id);
        return;
      }
      if UsernameTaken(st.identifier) {
        return Failure(UniqueViolation);
      }
      var u := InsertUserForStudent(st);
      r := Success(u);
    }

    /** The insert branch of `createUserForStudent`: a new STUDENT user whose
        password is the passport number, linked to the student. */
    method InsertUserForStudent(st: Student) returns (u: User)
      requires Valid() && st.id in students && !UsernameTaken(st.identifier)
      modifies this`users, this`students, this`nextId
      ensures Valid()
      ensures u == InsertedUser(old(nextId), st.identifier, st.passportNumber, [StudentRole])
      ensures users == old(users)[old(nextId) := u]
      ensures students == old(students)[st.id := old(students[st.id]).(user := Some(old(nextId)))]
      ensures nextId == old(nextId) + 1
    {
      assert !HeldByOther(nextId, st.id);
      u := InsertedUser(nextId, st.identifier, st.passportNumber, [StudentRole]);
      InsertUser(u);
      SetStudentUser(st.id, u.id);
    }

    /** `deleteUserService`: soft delete, then record who deleted. */
    method DeleteUser(id: Id, actor: Id, now: Time)
      requires Valid()
      modifies this`users
      ensures Valid()
      ensures id in old(users) ==> users == old(users)[id := old(users[id]).(deletedAt := Some(now), deletedBy := Some(actor))]
      ensures id !in old(users) ==> users == old(users)
    {
      if id in users {
        users := users[id := users[id].(deletedAt := Some(now), deletedBy := Some(actor))];
      }
    }

    // ------------------------------------------------------------ Students

    /** A student other than `exclude` has this identifier. */
    predicate IdentifierHeld(identifier: string, exclude: Option<Id>)
      reads this`students
    {
      exists k :: k in students && students[k].identifier == identifier && exclude != Some(k)
    }

    predicate PassportHeld(passport: string, exclude: Option<Id>)
      reads this`students
    {
      exists k :: k in students && students[k].passportNumber == passport && exclude != Some(k)
    }

    /** A student other than `exclude` that the unique indexes forbid beside `st`. */
    predicate ClashesWithOthers(st: Student, exclude: Option<Id>)
      reads this`students
    {
      exists k :: k in students && exclude != Some(k) && KeysClash(st, students[k])
    }

    /** `isUniqueIdentifierService`: a student with that identifier, other than
        `exclude` when one is given. */
    method IsUniqueIdentifier(identifier: string, exclude: Option<Id>) returns (r: Option<Student>)
      requires Valid()
      ensures r.Some? <==> IdentifierHeld(identifier, exclude)
      ensures r.Some? ==> r.value.id in students && students[r.value.id] == r.value &&
                          r.value.identifier == identifier && exclude != Some(r.value.id)
    {
      if k :| k in students && students[k].identifier == identifier && exclude != Some(k) {
        r := Some(students[k]);
      } else {
        r := None;
      }
    }

    /** `isUniquePassportService`. */
    method IsUniquePassport(passport: string, exclude: Option<Id>) returns (r: Option<Student>)
      requires Valid()
      ensures r.Some? <==> PassportHeld(passport, exclude)
      ensures r.Some? ==> r.value.id in students && students[r.value.id] == r.value &&
                          r.value.passportNumber == passport && exclude != Some(r.value.id)
    {
      if k :| k in students && students[k].passportNumber == passport && exclude != Some(k) {
        r := Some(students[k]);
      } else {
        r := None;
      }
    }

    /** `findStudentByIdentifierService`: the one student with exactly this identifier. */
    method FindStudentByIdentifier(identifier: string) returns (r: Option<Student>)
      requires Valid()
      ensures r.Some? <==> exists k :: k in students && students[k].identifier == identifier
      ensures r.Some? ==> r.value.id in students && students[r.value.id] == r.value && r.value.identifier == identifier
      ensures r.Some? ==> forall k :: k in students && students[k].identifier == identifier ==> k == r.value.id
    {
      r := IsUniqueIdentifier(identifier, None);
    }

    /** `findStudentService({id})`. */
    function FindStudentById(id: Id): (r: Option<Student>)
      reads this
      ensures r.Some? <==> id in students
      ensures r.Some? ==> r.value == students[id]
    {
      if id in students then Some(students[id]) else None
    }

    /** `findStudentService({user: {id}})`: the student linked to the user. */
    method FindStudentByUser(uid: Id) returns (r: Option<Student>)
      requires Valid()
      ensures r.Some? <==> exists k :: k in students && students[k].user == Some(uid)
      ensures r.Some? ==> r.value.id in students && students[r.value.id] == r.value && r.value.user == Some(uid)
    {
      if k :| k in students && students[k].user == Some(uid) {
        r := Some(students[k]);
      } else {
        r := None;
      }
    }

    /** `findStudentsService` with a where dictionary: the store raises for an entry
        it cannot run; otherwise the ids of the rows meeting every entry, whose number
        is the total `findAndCount` reports. */
    method FindStudents(where: map<string, Condition>,
                        nestedError: (string, map<string, string>) -> Option<StoreError>,
                        nestedSelects: (Student, string, map<string, string>) -> bool) returns (r: Result<set<Id>>)
      ensures r.Failure? <==> exists key :: key in where && KeyError(key, where[key], nestedError).Some?
      ensures r.Failure? ==> exists key :: key in where && KeyError(key, where[key], nestedError) == Some(r.error)
      ensures r.Success? ==> forall k :: k in r.value <==> k in students && Selects(students[k], where, nestedSelects)
    {
      if key :| key in where && KeyError(key, where[key], nestedError).Some? {
        return Failure(KeyError(key, where[key], nestedError).value);
      }
      r := Success(set k | k in students && Selects(students[k], where, nestedSelects));
    }

    /** Inserts a new student row under the next key. */
    method InsertStudent(st: Student)
      requires Valid() && st.id == nextId && st.user.None? && !ClashesWithOthers(st, None)
      modifies this`students, this`nextId
      ensures Valid()
      ensures students == old(students)[st.id := st] && nextId == old(nextId) + 1
    {
      forall k | k in students ensures !KeysClash(students[k], st) {
        KeysClashSymmetric(students[k], st);
      }
      students := students[st.id := st];
      nextId := nextId + 1;
    }

    /** Replaces the row of student `st.id`, keeping its link. */
    method ReplaceStudent(st: Student)
      requires Valid() && st.id in students && st.user == students[st.id].user && !ClashesWithOthers(st, Some(st.id))
      modifies this`students
      ensures Valid()
      ensures students == old(students)[st.id := st]
    {
      forall k | k in students && k != st.id ensures !KeysClash(students[k], st) {
        KeysClashSymmetric(students[k], st);
      }
      students := students[st.id := st];
    }

    /** `createStudentService`: collect both uniqueness clashes before writing;
        otherwise insert the prepared row, which the store refuses when it clashes
        on pinfl (not pre-checked), and run the insert hook. */
    method CreateStudent(input: CreateStudentInput) returns (r: Outcome)
      requires Valid()
      modifies this`students, this`users, this`nextId
      ensures Valid()
      ensures old(IdentifierHeld(input.identifier, None) || PassportHeld(input.passportNumber, None)) ==>
                r == Rejected(UniquenessIssues(old(IdentifierHeld(input.identifier, None)), old(PassportHeld(input.passportNumber, None))))
      ensures (!old(IdentifierHeld(input.identifier, None) || PassportHeld(input.passportNumber, None)) &&
               old(ClashesWithOthers(PreparedStudent(nextId, input), None))) ==> r == Violation(UniqueViolation)
      ensures !r.StudentMissing?
      ensures (!old(IdentifierHeld(input.identifier, None) || PassportHeld(input.passportNumber, None)) &&
               !old(ClashesWithOthers(PreparedStudent(nextId, input), None))) ==> r.Saved?
      ensures !r.Saved? ==> users == old(users) && students == old(students) && nextId == old(nextId)
      ensures r.Saved? ==>
                r.student == PreparedStudent(old(nextId), input) && nextId == old(nextId) + 1 &&
                (!old(HasLiveUserNamed(input.identifier)) ==>
                   users == old(users) && students == old(students)[r.student.id := r.student]) &&
                (old(HasLiveUserNamed(input.identifier)) ==>
                   exists uid :: uid in old(users) && Live(old(users[uid])) && old(users[uid]).username == input.identifier &&
                                 if old(HeldByOther(uid, r.student.id)) then
                                   users == old(users) && students == old(students)[r.student.id := r.student]
                                 else Linked(old(users), users, old(students)[r.student.id := r.student], students, r.student.id, uid))
    {
      var byIdentifier := IsUniqueIdentifier(input.identifier, None);
      var byPassport := IsUniquePassport(input.passportNumber, None);
      var errors := CollectIssues(byIdentifier.Some?, byPassport.Some?);
      if |errors| > 0 {
        return Rejected(errors);
      }
      var st := PreparedStudent(nextId, input);
      if ClashesWithOthers(st, None) {
        return Violation(UniqueViolation);
      }
      InsertAndLink(st);
      r := Saved(st);
    }

    /** The insert of a new student row followed by the `afterInsert` hook. */
    method InsertAndLink(st: Student)
      requires Valid() && st.id == nextId && st.user.None? && !ClashesWithOthers(st, None)
      modifies this`users, this`students, this`nextId
      ensures Valid()
      ensures nextId == old(nextId) + 1
      ensures !old(HasLiveUserNamed(st.identifier)) ==> users == old(users) && students == old(students)[st.id := st]
      ensures old(HasLiveUserNamed(st.identifier)) ==>
                exists uid :: uid in old(users) && Live(old(users[uid])) && old(users[uid]).username == st.identifier &&
                              if old(HeldByOther(uid, st.id)) then users == old(users) && students == old(students)[st.id := st]
                              else Linked(old(users), users, old(students)[st.id := st], students, st.id, uid)
    {
      InsertStudent(st);
      forall uid: Id ensures HeldByOther(uid, st.id) <==> old(HeldByOther(uid, st.id)) {
        if HeldByOther(uid, st.id) {
          var k :| k in students && k != st.id && students[k].user == Some(uid);
          assert k in old(students);
        }
        if old(HeldByOther(uid, st.id)) {
          var k :| k in old(students) && k != st.id && old(students[k]).user == Some(uid);
          assert k in students && students[k] == old(students[k]);
        }
      }
      AfterInsert(st);
    }

    /** The issues the update pre-checks find for student `id`: a clash is looked
        for only when the identifier or passport number is given and not empty. */
    function UpdateIssues(id: Id, input: UpdateStudentInput): seq<Issue>
      reads this`students
    {
      UniquenessIssues(NonEmpty(input.identifier) && IdentifierHeld(input.identifier.value, Some(id)),
                       NonEmpty(input.passportNumber) && PassportHeld(input.passportNumber.value, Some(id)))
    }

    /** The pre-checks of an update, run against the other students. */
    method CheckUpdate(id: Id, input: UpdateStudentInput) returns (errors: seq<Issue>)
      requires Valid()
      ensures errors == UpdateIssues(id, input)
    {
      var identifierHeld := false;
      if NonEmpty(input.identifier) {
        var other := IsUniqueIdentifier(input.identifier.value, Some(id));
        identifierHeld := other.Some?;
      }
      var passportHeld := false;
      if NonEmpty(input.passportNumber) {
        var other := IsUniquePassport(input.passportNumber.value, Some(id));
        passportHeld := other.Some?;
      }
      errors := CollectIssues(identifierHeld, passportHeld);
    }

    /** `updateStudentService`: 404 before anything else; clash issues next, which
        ignore the student's own row; then the merged row is saved unless the store
        refuses it. */
    method UpdateStudent(id: Id, input: UpdateStudentInput) returns (r: Outcome)
      requires Valid()
      modifies this`students
      ensures Valid()
      ensures id !in old(students) ==> r == StudentMissing
      ensures !r.Saved? ==> students == old(students)
      ensures id in old(students) && old(UpdateIssues(id, input)) != [] ==> r == Rejected(old(UpdateIssues(id, input)))
      ensures (id in old(students) && old(UpdateIssues(id, input)) == [] &&
               old(ClashesWithOthers(MergePatch(students[id], input), Some(id)))) ==> r == Violation(UniqueViolation)
      ensures (id in old(students) && old(UpdateIssues(id, input)) == [] &&
               !old(ClashesWithOthers(MergePatch(students[id], input), Some(id)))) ==>
                r == Saved(MergePatch(old(students[id]), input)) && students == old(students)[id := r.student]
    {
      var found := FindStudentById(id);
      if found.None? {
        return StudentMissing;
      }
      var errors := CheckUpdate(id, input);
      if |errors| > 0 {
        return Rejected(errors);
      }
      r := SaveMerged(MergePatch(found.value, input));
    }

    /** The save of a merged row, which the store refuses when it clashes with
        another student on a unique key. */
    method SaveMerged(merged: Student) returns (r: Outcome)
      requires Valid() && merged.id in students && merged.user == students[merged.id].user
      modifies this`students
      ensures Valid()
      ensures old(ClashesWithOthers(merged, Some(merged.id))) ==> r == Violation(UniqueViolation) && students == old(students)
      ensures !old(ClashesWithOthers(merged, Some(merged.id))) ==> r == Saved(merged) && students == old(students)[merged.id := merged]
    {
      if ClashesWithOthers(merged, Some(merged.id)) {
        return Violation(UniqueViolation);
      }
      ReplaceStudent(merged);
      r := Saved(merged);
    }

    /** `deleteStudentService`: a hard delete; the applications of the student are
        detached, not deleted. */
    method DeleteStudent(id: Id)
      requires Valid()
      modifies this`students, this`applications
      ensures Valid()
      ensures students == old(students) - {id}
      ensures applications == DetachFrom(old(applications), id)
    {
      students := students - {id};
      applications := DetachFrom(applications, id);
    }

    /** The `afterInsert` hook of the student subscriber. */
    method AfterInsert(st: Student)
      requires Valid() && st.id in students
      modifies this`users, this`students
      ensures Valid()
      ensures !old(HasLiveUserNamed(st.identifier)) ==> users == old(users) && students == old(students)
      ensures old(HasLiveUserNamed(st.identifier)) ==>
                exists uid :: uid in old(users) && Live(old(users[uid])) && old(users[uid]).username == st.identifier &&
                              if old(HeldByOther(uid, st.id)) then users == old(users) && students == old(students)
                              else Linked(old(users), users, old(students), students, st.id, uid)
    {
      var linked := ConnectNewInstanceToUser(st);
    }

    // ------------------------------------------------------------ Applications

    /** `createApplicationService`: a new pending application of the student. */
    method CreateApplication(message: string, sid: Id) returns (a: Application)
      requires Valid() && sid in students
      modifies this`applications, this`nextId
      ensures Valid()
      ensures a == NewApplication(old(nextId), message, sid)
      ensures applications == old(applications)[a.id := a] && nextId == old(nextId) + 1
    {
      a := NewApplication(nextId, message, sid);
      applications := applications[nextId := a];
      nextId := nextId + 1;
    }

    /** `getApplicationsService`: the live applications, only the student's when a
        student id is given. */
    function GetApplications(studentId: Option<Id>): (r: map<Id, Application>)
      reads this
      ensures forall k :: k in r <==> k in applications && LiveApplication(applications[k]) &&
                                      (studentId.None? || applications[k].student == studentId)
      ensures forall k :: k in r ==> r[k] == applications[k]
    {
      map k | k in applications && LiveApplication(applications[k]) && (studentId.None? || applications[k].student == studentId) :: applications[k]
    }

    /** `updateApplicationService`: nothing for an unknown id; otherwise the response
        is applied and saved. */
    method UpdateApplication(id: Id, response: Field<string>) returns (r: Option<Application>)
      requires Valid()
      modifies this`applications
      ensures Valid()
      ensures !(id in old(applications) && LiveApplication(old(applications[id]))) ==> r.None? && applications == old(applications)
      ensures id in old(applications) && LiveApplication(old(applications[id])) ==>
                r == Some(Respond(old(applications[id]), response)) && applications == old(applications)[id := r.value]
    {
      if !(id in applications && LiveApplication(applications[id])) {
        return None;
      }
      var a := Respond(applications[id], response);
      applications := applications[id := a];
      r := Some(a);
    }
  }

  /** An application shows in a listing scoped to a student only if it is in the
      unscoped listing. */
  lemma ScopedListingIsSubset(b: Backend, sid: Id)
    ensures forall k :: k in b.GetApplications(Some(sid)) ==> k in b.GetApplications(None)
  {
  }

  /** When neither pre-check of `createStudentService` finds a clash, the store
      refuses the new row only for its pinfl, which no pre-check looks at. */
  lemma UncheckedPinflClash(b: Backend, input: CreateStudentInput)
    requires !b.IdentifierHeld(input.identifier, None) && !b.PassportHeld(input.passportNumber, None)
    ensures b.ClashesWithOthers(PreparedStudent(b.nextId, input), None) <==>
              Truthy(input.pinfl) && exists k :: k in b.students && b.students[k].pinfl == Some(input.pinfl.value)
  {
  }
}
