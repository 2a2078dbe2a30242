/** The stored entities: users (user.entity.ts), students (student.entity.ts on top of
    human.entity.ts and model.entity.ts) and applications (application.entity.ts),
    with their enumerations, column defaults, unique keys and JSON views. */
module Entities {
  import opened Base

  /** `UserRole`. */
  datatype Role = AdminRole | UserRole | StudentRole

  function RoleValue(r: Role): string {
    match r
    case AdminRole => "admin"
    case UserRole => "user"
    case StudentRole => "student"
  }

  /** The enum column accepts exactly the three role values. */
  function ParseRole(s: string): (r: Option<Role>)
    ensures forall x :: r == Some(x) <==> RoleValue(x) == s
  {
    if s == "admin" then Some(AdminRole)
    else if s == "user" then Some(UserRole)
    else if s == "student" then Some(StudentRole)
    else None
  }

  /** Column default of `roles`. */
  const DefaultRoles: seq<Role> := [AdminRole]

  /** `GENDER`. */
  datatype Gender = Male | Female

  function GenderValue(g: Gender): string {
    match g
    case Male => "m"
    case Female => "f"
  }

  function ParseGender(s: string): (r: Option<Gender>)
    ensures forall x :: r == Some(x) <==> GenderValue(x) == s
  {
    if s == "m" then Some(Male) else if s == "f" then Some(Female) else None
  }

  /** The `status` enum of an application. */
  datatype Status = Pending | Answered

  function StatusValue(s: Status): string {
    match s
    case Pending => "pending"
    case Answered => "answered"
  }

  function ParseStatus(s: string): (r: Option<Status>)
    ensures forall x :: r == Some(x) <==> StatusValue(x) == s
  {
    if s == "pending" then Some(Pending) else if s == "answered" then Some(Answered) else None
  }

  const DefaultStatus: Status := Pending

  /** A bcrypt hash, kept abstract: hashing is injective and is not computed. */
  datatype PasswordHash = Bcrypt(secret: string)

  function HashPassword(plain: string): PasswordHash {
    Bcrypt(plain)
  }

  /** `User.comparePasswords`: accepts exactly the candidate whose hash is the stored one. */
  function ComparePasswords(candidate: string, hashed: PasswordHash): (ok: bool)
    ensures ok <==> HashPassword(candidate) == hashed
  {
    candidate == hashed.secret
  }

  /** A SHA-256 hex digest, kept abstract like the password hash. */
  datatype Sha256Digest = Sha256(preimage: string)

  /** A row of `users`. `verificationCode` is the column the e-mail verification
      handler reads and clears; user.entity.ts does not declare it (see
      DeclaredUserColumns). */
  datatype User = User(
    id: Id,
    username: string,
    password: PasswordHash,
    phone: Option<string>,
    email: Option<string>,
    roles: seq<Role>,
    isActive: bool,
    verified: bool,
    verificationCode: Option<Sha256Digest>,
    verifiedAt: Option<Time>,
    deletedAt: Option<Time>,
    deletedBy: Option<Id>)

  /** The properties user.entity.ts declares, as TypeORM knows them. */
  const DeclaredUserColumns: set<string> := {
    "id", "username", "password", "phone", "email", "roles", "isActive", "verified",
    "student", "created_at", "updated_at", "deleted_at", "verified_at",
    "created_by", "updated_by", "deleted_by"
  }

  /** The properties the handlers expect a user to have: the declared ones and the
      verification code. */
  const UserColumns: set<string> := DeclaredUserColumns + {"verificationCode"}

  /** The model's view of `@DeleteDateColumn`: a soft-deleted row stays in the table
      and every `find` skips it. */
  predicate Live(u: User) {
    u.deletedAt.None?
  }

  /** The row produced by `userRepository.create(input)` and its insert: the column
      defaults fill what the input leaves out and the `@BeforeInsert` hook replaces
      the password with its hash. */
  function InsertedUser(id: Id, username: string, password: string, roles: seq<Role>): (u: User)
    ensures u.id == id && u.username == username && u.roles == roles
    ensures forall c :: ComparePasswords(c, u.password) <==> c == password
    ensures Live(u) && !u.isActive && !u.verified
    ensures u.phone.None? && u.email.None? && u.verificationCode.None? && u.verifiedAt.None?
  {
    User(id, username, HashPassword(password), None, None, roles, false, false, None, None, None, None)
  }

  /** `toJSON`: everything but the password. */
  datatype UserView = UserView(
    id: Id,
    username: string,
    phone: Option<string>,
    email: Option<string>,
    roles: seq<Role>,
    isActive: bool,
    verified: bool,
    verificationCode: Option<Sha256Digest>,
    verifiedAt: Option<Time>,
    deletedAt: Option<Time>,
    deletedBy: Option<Id>)

  function WithPassword(v: UserView, password: PasswordHash): User {
    User(v.id, v.username, password, v.phone, v.email, v.roles, v.isActive, v.verified,
         v.verificationCode, v.verifiedAt, v.deletedAt, v.deletedBy)
  }

  /** The view keeps every field except the password: putting the password back
      gives the user again. */
  function UserJson(u: User): (v: UserView)
    ensures WithPassword(v, u.password) == u
  {
    UserView(u.id, u.username, u.phone, u.email, u.roles, u.isActive, u.verified,
             u.verificationCode, u.verifiedAt, u.deletedAt, u.deletedBy)
  }

  /** The view does not depend on the password. */
  lemma UserJsonHidesPassword(u: User, p: PasswordHash)
    ensures UserJson(u.(password := p)) == UserJson(u)
  {
  }

  /** A row of `students`: the columns of Human, Student's own, and the owning side
      of the one-to-one link to a user (`user_id`). */
  datatype Student = Student(
    id: Id,
    identifier: string,
    lastName: string,
    firstName: string,
    middleName: Option<string>,
    pinfl: Option<string>,
    email: Option<string>,
    passportNumber: string,
    birthDate: Option<string>,
    gender: Option<Gender>,
    group: string,
    faculty: string,
    user: Option<Id>)

  /** Two students that the unique indexes of human.entity.ts forbid side by side:
      the same identifier, the same passport number, or the same non-null pinfl. */
  predicate KeysClash(a: Student, b: Student) {
    a.identifier == b.identifier || a.passportNumber == b.passportNumber ||
    (a.pinfl.Some? && a.pinfl == b.pinfl)
  }

  lemma KeysClashSymmetric(a: Student, b: Student)
    ensures KeysClash(a, b) <==> KeysClash(b, a)
  {
  }

  /** A row of `applications`. */
  datatype Application = Application(
    id: Id,
    status: Status,
    message: string,
    response: Option<string>,
    student: Option<Id>,
    deletedAt: Option<Time>)

  predicate LiveApplication(a: Application) {
    a.deletedAt.None?
  }

  /** A new application: status takes its column default, response is null. */
  function NewApplication(id: Id, message: string, student: Id): (a: Application)
    ensures a.id == id && a.message == message && a.student == Some(student)
    ensures a.status == DefaultStatus && a.response.None? && a.deletedAt.None?
  {
    Application(id, DefaultStatus, message, None, Some(student), None)
  }

  /** `toJSON` of an application: everything but `deleted_at`. */
  datatype ApplicationView = ApplicationView(
    id: Id,
    status: Status,
    message: string,
    response: Option<string>,
    student: Option<Id>)

  function WithDeletedAt(v: ApplicationView, deletedAt: Option<Time>): Application {
    Application(v.id, v.status, v.message, v.response, v.student, deletedAt)
  }

  function ApplicationJson(a: Application): (v: ApplicationView)
    ensures WithDeletedAt(v, a.deletedAt) == a
  {
    ApplicationView(a.id, a.status, a.message, a.response, a.student)
  }

  /** When a student row is deleted, `onDelete: "SET NULL"` detaches its applications
      instead of deleting them. */
  function DetachFrom(apps: map<Id, Application>, sid: Id): (r: map<Id, Application>)
    ensures r.Keys == apps.Keys
    ensures forall k :: k in r ==> r[k].student != Some(sid) && r[k].(student := apps[k].student) == apps[k]
    ensures forall k :: k in r && apps[k].student != Some(sid) ==> r[k] == apps[k]
  {
    map k | k in apps :: if apps[k].student == Some(sid) then apps[k].(student := None) else apps[k]
  }
}
