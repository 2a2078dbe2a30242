# register-backend, modelled in Dafny

This project models the decision logic of the student-registration backend. It is an
Express + TypeORM + Redis service with users, student profiles and applications
(support tickets). The relational tables and the Redis sessions become the map
fields of one class, `Services.Backend`. Each service operation and each HTTP
handler is a method on that state (or on a `Backend` argument), proved against
contracts that state its replies, the new state and the invariant `Valid()`.
`Valid()` covers the unique indexes, that keys match row ids, and that links point
at existing rows. The request validators are predicates over a small JSON value type.

Modules, one per file:

- `Base`: optional values, request fields (`Missing | Null | Given`), handler
  replies, store errors, and the JavaScript string operations the handlers rely
  on. These are UTF-16 `length`, ASCII-only `toUpperCase`, and the case folding of
  ILIKE.
- `Tokens`: signed tokens kept opaque, as (key pair, subject, still valid).
  `verifyJwt` fails closed.
- `Entities`: users, students and applications with their enumerations, column
  defaults, hashing on insert, JSON views, and the `SET NULL` link from
  applications to students.
- `Schemas`: the Zod validators of `human`, `student`, `user` and `pagination`.
  This includes the birth-date pattern, proved equal to a reading of the regular
  expression, and `parseInt` with its range checks. It also has the typed inputs
  a valid body parses to.
- `Query`: `split(".")`, PostgreSQL ILIKE, and the order and where dictionaries
  of the student listing. It also says how the store reads a where dictionary over
  a student row.
- `Services`: the user, student and application services and the student
  insert hook, as methods of `Backend`.
- `AuthController`, `StudentController`, `ApplicationController`,
  `UserController`: the handlers, with the status codes and messages they answer.
- `Scenarios`: journeys through several handlers. These are: registering twice,
  logging out and then refreshing, first login by provisioning followed by a
  second login, answering an application twice, and registering a user before
  creating its student.

In these places the model follows the code where a reader might expect otherwise:

- Students have no `created_by`/`updated_by` columns (model.entity.ts declares
  none), so the store drops what the services pass there.
- The pagination schema wraps its `order` default (`DESC`) in `.partial()`, so
  the default never applies. The handler's own `ASC` default is what takes effect.
- An update sets `pinfl` and `email` to null also when they are left out, not only
  when they are empty.
- An update keeps the stored birth date when none is given.
- An update with no `response` key keeps the stored response, because the store
  skips `undefined`.
- All cookies are set with `httpOnly: false`.
- user.entity.ts declares no `verificationCode`, so e-mail verification cannot
  work as written (see Findings).

## Model

| member | source | states |
|---|---|---|
| Base.ParseOrder | src/schemas/pagination.schema.ts:14 | a text is accepted as a direction exactly when it is that direction's enum value |
| Base.OrAbsent | src/services/student.service.ts:82-84 | `value \|\| undefined` keeps the value exactly when it is given and non-empty |
| Base.Utf16Length | src/schemas/human.schema.ts:15-24 | the JavaScript length of a string lies between its character count and twice that, and is zero only for the empty string |
| Base.Utf16LengthOfBmp | src/schemas/human.schema.ts:15-24 | for text inside the Basic Multilingual Plane, the length bounds count characters |
| Base.UpperChar | src/controllers/auth.controller.ts:259 | `toUpperCase` on one character keeps its UTF-16 width |
| Base.ToUpperCase | src/controllers/auth.controller.ts:259 | upper-casing maps each character in place and keeps the character count |
| Base.ToUpperCaseKeepsLength | src/controllers/auth.controller.ts:259 | the upper-cased passport number has the JavaScript length of the original |
| Base.ToUpperCaseFixes | src/controllers/auth.controller.ts:259 | upper-casing leaves a string unchanged exactly when it has no lower-case ASCII letter |
| Tokens.SignJwt | src/services/user.service.ts:33-39 | a signed token carries the subject and its key pair and is valid |
| Tokens.VerifyJwt | src/controllers/auth.controller.ts:182-189 | verification gives a subject exactly for a valid token of the matching key pair, and nothing otherwise |
| Tokens.SignedVerifies | src/services/user.service.ts:33-39 | a token verifies under the key pair it was signed with and under no other |
| Entities.ParseRole | src/entities/user.entity.ts:14-18 | the role column accepts exactly `admin`, `user` and `student` |
| Entities.ParseGender | src/entities/human.entity.ts:4-7 | the gender column accepts exactly `m` and `f` |
| Entities.ParseStatus | src/entities/application.entity.ts:7-12 | the status column accepts exactly `pending` and `answered` |
| Entities.ComparePasswords | src/entities/user.entity.ts:89-96 | a candidate is accepted exactly when its hash is the stored hash |
| Entities.InsertedUser | src/entities/user.entity.ts:39-87 | an inserted user has the given roles, is live, not active, not verified, and has no phone, e-mail or code; its stored password accepts exactly the password given at insert |
| Entities.UserJson | src/entities/user.entity.ts:75-77 | the JSON view keeps every field but the password: putting the password back gives the user |
| Entities.UserJsonHidesPassword | src/entities/user.entity.ts:75-77 | the JSON view does not depend on the password |
| Entities.KeysClashSymmetric | src/entities/human.entity.ts:10-32 | two students clash on a unique key in either order or in neither |
| Entities.NewApplication | src/entities/application.entity.ts:7-22 | a new application is pending, has no response, is owned by the student and keeps the message |
| Entities.ApplicationJson | src/entities/application.entity.ts:24-29 | the JSON view hides only `deleted_at` |
| Entities.DetachFrom | src/entities/application.entity.ts:20-22 | deleting a student keeps every application; none is left pointing at that student, a detached one differs only in its owner, and the others are untouched |
| Schemas.HumanValid | src/schemas/human.schema.ts:4-31 | `humanSchema`: required string identifier and names, optional middle name, pinfl absent, null, `""` or 14 units, a passport of 7 to 14 units, e-mail absent, null, `""` or an e-mail, birth date absent, null or matching the pattern, gender absent or an enum value |
| Schemas.MatchesDateTime | src/schemas/human.schema.ts:26-29 | the refine's test: the fixed `YYYY-MM-DDTHH:MM:SS` part, an optional fraction, then an optional `-HH:MM` or `Z` to the end; what it accepts has the shape the pattern describes |
| Schemas.MatchesDateTimeIffShape | src/schemas/human.schema.ts:26-29 | the scan accepts exactly the strings the birth-date pattern describes |
| Schemas.MatchingAlphabet | src/schemas/human.schema.ts:28 | an accepted birth date holds only digits and `- T : . Z` |
| Schemas.PlusOffsetAndEmptyRejected | src/schemas/human.schema.ts:26-29 | a `+` offset and the empty string are rejected |
| Schemas.IsoStringAccepted | src/schemas/human.schema.ts:26-29 | a date in `toISOString` form is accepted |
| Schemas.CreateStudentValid | src/schemas/student.schema.ts:4-13 | `createStudentSchema`: the human schema plus a required string group and faculty |
| Schemas.UpdateStudentValid | src/schemas/student.schema.ts:26-31 | `updateStudentSchema`: every human field optional, each checked as in the human schema when present; no group or faculty |
| Schemas.RegisterValid | src/schemas/user.schema.ts:5-21 | `createUserSchema`: string username and password, a list of role values, an optional e-mail that must be one, optional string permissions |
| Schemas.LoginValid | src/schemas/user.schema.ts:23-32 | `loginUserSchema`: a string username and a password of at least 8 units |
| Schemas.PaginateQueryValid | src/schemas/pagination.schema.ts:4-19 | `paginateQuerySchema`: every field optional; `take` parses into 10..100, `skip` into a non-negative number, `order` is an enum value, `search` has at least 3 units |
| Schemas.CreateBodyIsUpdateBody | src/schemas/student.schema.ts:4-31 | the human part of every valid create body is a valid update body |
| Schemas.ParseCreateStudent | src/schemas/student.schema.ts:4-13 | a create body parses exactly when valid; the input carries every string of the body, keeps `null` apart from `""` and from a left-out field, has a passport of 7 to 14 units and a 14-unit pinfl when a non-empty one is given |
| Schemas.ParseUpdateStudent | src/schemas/student.schema.ts:26-31 | an update body parses exactly when valid; each field is carried as the body has it: left out stays left out, `null` stays null, a string is given |
| Schemas.ShortPassportCannotLogin | src/schemas/user.schema.ts:23-32 | a seven-character ASCII passport number, valid for a student, never passes the login schema as a password once upper-cased |
| Schemas.ParseInt | src/schemas/pagination.schema.ts:7 | `parseInt(val, 10)` gives a number exactly when a digit follows the leading white space and one optional sign; the number is negative only after a minus sign |
| Schemas.ParseIntOfDecimal | src/schemas/pagination.schema.ts:6-13 | `parseInt` reads the numeral of a safe integer (up to 2^53 - 1) back as that number, whatever non-digit follows |
| Schemas.ParseIntOfNegated | src/schemas/pagination.schema.ts:10-13 | `parseInt` reads a minus sign followed by the numeral of a safe integer as the negated number |
| Schemas.ParsePageQuery | src/schemas/pagination.schema.ts:4-19 | a query parses exactly when valid; `take` and `skip` are `parseInt` of their text, `take` in 10..100 and `skip` not negative; `order` is the parsed enum value, left unset when left out; the strings are carried, `search` with at least 3 units |
| Schemas.PageBounds | src/schemas/pagination.schema.ts:6-13 | a page size written as a numeral is accepted exactly when its value is in 10..100; a numeral offset is always accepted, and a negated one exactly when its value is zero |
| Query.SplitDot | src/controllers/student.controller.ts:97-99 | the pieces hold no dot and join back to the key; a key has a dot exactly when it splits in two or more |
| Query.SplitJoin | src/controllers/student.controller.ts:107-108 | splitting a joined key gives its dot-free pieces back |
| Query.LikeMatch | src/controllers/student.controller.ts:112-114 | PostgreSQL ILIKE: `%` any run, `_` one character, `\` escapes, letters compared after case folding; a pattern without wildcards matches exactly the texts equal to it up to case |
| Query.SearchPatternIsSubstring | src/controllers/student.controller.ts:112-114 | `%search%` matches a text exactly when the text contains the search, ignoring case, for a search without wildcards |
| Query.EmptySearchSelectsAll | src/controllers/student.controller.ts:86-114 | the pattern of the default empty search matches every text |
| Query.OrderOfSortableField | src/controllers/student.controller.ts:90-102 | the order dictionary of an allowed sort field has that one key, mapped to the direction |
| Query.WhereShape | src/controllers/student.controller.ts:104-116 | the where dictionary is empty exactly for an empty `search_by`; a plain key maps to one pattern; `a.b` maps `a` to `{b: pattern}` |
| Query.SearchSelectsContaining | src/controllers/student.controller.ts:112-125 | a search on a text column selects a student exactly when the column is set and contains the search, ignoring case |
| Query.KeyError | src/controllers/student.controller.ts:106-125 | the store's error for one where entry: none for a text column, an unknown property for a name Student lacks, a rejected query for ILIKE on a non-text property |
| Query.Selects | src/controllers/student.controller.ts:106-125 | a row meets the where dictionary when it meets every entry; a row meeting a plain ILIKE entry has that text column set |
| Services.Backend.Valid | src/entities/human.entity.ts:10-32 | the invariant of the tables: keys are row ids below `nextId`; usernames unique and set phones unique among all users (user.entity.ts:25-34); no two students clash on identifier, passport or set pinfl; at most one student per user (student.entity.ts:8-9); links point at rows |
| Services.UniquenessIssues | src/services/student.service.ts:66-78 | one issue per clash, each under its own path; none exactly when nothing clashes |
| Services.CollectIssues | src/services/student.service.ts:66-74 | the pushed `errors` array is the list of clash issues |
| Services.PreparedStudent | src/services/student.service.ts:80-90 | the saved row carries the input's identifier, names, passport number, gender, group and faculty; pinfl, email and birth date are kept exactly when given non-empty and unset otherwise; the row has no user |
| Services.MergePatch | src/services/student.service.ts:121-128 | a given identifier, name, passport number or gender overwrites the stored one and a left-out one keeps it; id, group, faculty and link are kept; pinfl and email become the given non-empty value, or null otherwise; the birth date changes only to a given non-empty one |
| Services.EmptyPatchClearsPinflAndEmail | src/services/student.service.ts:121-128 | an update that names no field clears pinfl and email and keeps the rest |
| Services.MergePatchIdempotent | src/services/student.service.ts:121-128 | applying an update twice is applying it once |
| Services.MergePatchOfOwnValues | src/services/student.service.ts:121-128 | re-sending a student's own values changes only an empty pinfl or email into null |
| Services.AddStudentRole | src/services/user.service.ts:57-60 | STUDENT is appended to the roles, so it may appear twice, and every other field of the user is kept |
| Services.Respond | src/services/application.service.ts:33-34 | the response is overwritten (a left-out one is kept), nothing else but the status changes, and the result is answered exactly when it was answered or the response is non-empty |
| Services.RespondNeverReopens | src/services/application.service.ts:34 | no response returns an answered application to pending |
| Services.Backend.FindUserByName | src/services/user.service.ts:23-25 | finds a user exactly when a live user of that name exists, and returns that row |
| Services.Backend.FindUserById | src/services/user.service.ts:19-21 | finds exactly a live user of that id |
| Services.Backend.FindUserByEmail | src/services/user.service.ts:15-17 | finds a user exactly when a live user has that e-mail |
| Services.Backend.FindUserByVerificationCode | src/controllers/auth.controller.ts:148 | the lookup fails when the entity does not declare the property; otherwise it finds exactly a live user holding the code |
| Services.Backend.SignTokens | src/services/user.service.ts:26-42 | the session under the user's id is written with the user's JSON, and both tokens carry the user's id under their own key pairs |
| Services.Backend.CreateUser | src/services/user.service.ts:11-13 | a taken username, deleted rows included, is refused with nothing written; otherwise exactly the inserted user is added |
| Services.Backend.Link | src/services/user.service.ts:57-62 | when another student already holds the user, the unique `user_id` column refuses the save and nothing changes; otherwise STUDENT is appended to the user, the student's link is set, and nothing else changes |
| Services.Backend.VerifyUser | src/services/user.service.ts:44-48 | the user is marked verified and stamped with the time |
| Services.Backend.ConnectNewInstanceToUser | src/services/user.service.ts:50-63 | with no live user named after the student it gives null and nothing changes; when another student holds that user the save fails and nothing changes; otherwise exactly that user is linked |
| Services.Backend.CreateUserForStudent | src/services/user.service.ts:65-81 | links a live user of that name, or fails and writes nothing when another student holds it; fails and writes nothing when a deleted row holds the name; otherwise inserts a STUDENT user whose password is the passport number, linked to the student |
| Services.Backend.DeleteUser | src/services/user.service.ts:83-87 | the row stays, with its deletion time and deleting user set |
| Services.Backend.IsUniqueIdentifier | src/services/student.service.ts:45-53 | finds a student exactly when one other than the excluded id has the identifier |
| Services.Backend.IsUniquePassport | src/services/student.service.ts:55-62 | finds a student exactly when one other than the excluded id has the passport number |
| Services.Backend.FindStudentByIdentifier | src/services/student.service.ts:139-141 | finds the one student with exactly that identifier, when there is one |
| Services.Backend.FindStudentById | src/services/student.service.ts:38-43 | finds exactly the student of that id |
| Services.Backend.FindStudentByUser | src/services/student.service.ts:38-43 | finds a student exactly when one is linked to the user |
| Services.Backend.FindStudents | src/services/student.service.ts:20-36 | the store raises exactly when an entry of the where dictionary cannot run; otherwise it returns exactly the students meeting every entry |
| Services.Backend.CreateStudent | src/services/student.service.ts:64-95 | both clashes are reported together and nothing is written; a pinfl clash is refused by the store; otherwise the prepared row is inserted, and linked to a live user of the same name unless another student holds that user |
| Services.Backend.UpdateStudent | src/services/student.service.ts:97-133 | an unknown id fails before any check; clashes with other students are reported; otherwise the merged row replaces the stored one unless the store refuses it |
| Services.Backend.CheckUpdate | src/services/student.service.ts:108-120 | the update pre-checks find exactly the clashes of a given, non-empty identifier or passport number with other students |
| Services.Backend.SaveMerged | src/services/student.service.ts:128-130 | the merged row is stored unless it clashes with another student on a unique key, in which case nothing changes |
| Services.Backend.DeleteStudent | src/services/student.service.ts:135-137 | the row is removed and its applications are detached |
| Services.Backend.AfterInsert | src/subscribers/student.subscriber.ts:16-19 | every inserted student is linked to the live user named after it, when there is one and no other student holds it; otherwise nothing changes |
| Services.Backend.CreateApplication | src/services/application.service.ts:8-13 | exactly one new pending application of the student is added |
| Services.Backend.GetApplications | src/services/application.service.ts:15-22 | the live applications, and only the student's ones when a student is given |
| Services.Backend.UpdateApplication | src/services/application.service.ts:24-37 | an unknown id gives null and writes nothing; otherwise the answered application is stored and returned |
| Services.ScopedListingIsSubset | src/services/application.service.ts:15-22 | a listing scoped to a student is part of the unscoped listing |
| Services.UncheckedPinflClash | src/services/student.service.ts:66-78 | when neither pre-check finds a clash, the store refuses the new row exactly when its given pinfl is held by another student |
| AuthController.LoginCookies | src/controllers/auth.controller.ts:120-125 | the three login cookies, with the access and refresh tokens |
| AuthController.RefreshCookies | src/controllers/auth.controller.ts:211-215 | a refresh sets only the access-token and logged-in cookies |
| AuthController.Register | src/controllers/auth.controller.ts:48-78 | a taken username answers 409 with nothing written; otherwise 201, and the user gets the default roles |
| AuthController.HandleNewUser | src/controllers/auth.controller.ts:252-265 | without a student of that identifier whose upper-cased passport is the password, there is no user and nothing changes; otherwise the student's user is created or linked |
| AuthController.Login | src/controllers/auth.controller.ts:80-135 | a live user: a wrong password answers NOT_FOUND, a right one opens a session; an unknown user: 400 unless provisioning succeeds, in which case the stored password is the raw passport; only success writes a session and sets cookies |
| AuthController.LoginNewUser | src/controllers/auth.controller.ts:88-96 | with no live user of the name: 400 without a profile to provision from, the store's error when a deleted row holds the name, otherwise a session for the new user |
| AuthController.LoginKnownUser | src/controllers/auth.controller.ts:97-99 | a wrong password answers NOT_FOUND with no session; a matching one opens the session |
| AuthController.OpenSession | src/controllers/auth.controller.ts:116-131 | the session under the user's id, the three cookies, and the access token in the body |
| AuthController.VerifyEmail | src/controllers/auth.controller.ts:137-165 | an undeclared property is thrown; no live user with the hashed code answers 401 and changes nothing; otherwise that user is verified and its code cleared |
| AuthController.VerifyEmailAsWritten | src/controllers/auth.controller.ts:148 | as written, every verification is thrown and nothing changes |
| AuthController.VerifyEmailHandler | src/controllers/auth.controller.ts:143-161 | with the column declared: 401 with nothing changed, or the user holding the hashed code verified and its code cleared |
| AuthController.ProvisionedPasswordRetyped | src/controllers/auth.controller.ts:259 | for an ASCII passport number, a provisioned user accepts the upper-cased passport again exactly when the passport has no lower-case letter |
| AuthController.RefreshNeedsRefreshToken | src/controllers/auth.controller.ts:182-203 | an access token never refreshes; a refresh token refreshes exactly while its subject has a session naming a live user |
| AuthController.RefreshAccessToken | src/controllers/auth.controller.ts:167-225 | 403 with one message at each failed check; otherwise a new access token for the session's user and only two cookies; nothing is written |
| AuthController.Logout | src/controllers/auth.controller.ts:227-250 | the current user's session is deleted and all three cookies are emptied to expire |
| StudentController.BuildOrder | src/controllers/student.controller.ts:96-102 | the order dictionary built in place is the one the sort key and direction define |
| StudentController.BuildWhere | src/controllers/student.controller.ts:104-116 | the where dictionary built in place is the one the search key and text define |
| StudentController.GetStudents | src/controllers/student.controller.ts:74-133 | a sort key outside the allow-list answers 400 before any query, and only it answers a failure; a where entry the store cannot run is thrown; otherwise 200 with exactly the matching students, their total, and one sort key |
| StudentController.GetStudent | src/controllers/student.controller.ts:135-157 | an unknown id answers 404; otherwise 200 with the student |
| StudentController.GetMeAsStudent | src/controllers/student.controller.ts:28-49 | 404 unless a student is linked to the current user; otherwise 200 with that student |
| StudentController.CreateStudent | src/controllers/student.controller.ts:51-72 | clashes are handed on as issues; a unique violation answers 409; otherwise 201 with the prepared row, which is stored and linked as the hook does; a link the store refuses leaves the row unlinked and still answers 201 |
| StudentController.UpdateStudent | src/controllers/student.controller.ts:159-185 | an unknown id answers 404; clashes are handed on; a unique violation answers 409; otherwise 200 with the merged row |
| StudentController.DeleteStudent | src/controllers/student.controller.ts:187-212 | an unknown id answers 404 and changes nothing; otherwise 204, the student is deleted, and its linked live user, if any, is soft-deleted by the current user |
| ApplicationController.Owned | src/controllers/application.controller.ts:40 | exactly the applications still owned by a student, unchanged |
| ApplicationController.OwnedIdempotent | src/controllers/application.controller.ts:40 | filtering twice is filtering once |
| ApplicationController.CreateApplication | src/controllers/application.controller.ts:10-28 | 404 and nothing created without a student of the current username; otherwise 201 with a new pending application of that student |
| ApplicationController.GetApplications | src/controllers/application.controller.ts:30-48 | a student-role user with a student sees exactly that student's live owned applications; anyone else sees every live owned one |
| ApplicationController.UpdateApplication | src/controllers/application.controller.ts:50-61 | always 200, with null for an unknown id, otherwise with the answered application |
| UserController.GetMe | src/controllers/user.controller.ts:4-27 | always 200 with the user's JSON; a student-role user gets the student of its username attached, possibly null; others get nothing attached |
| Scenarios.RegisterTwice | src/controllers/auth.controller.ts:56-73 | the second registration of a name answers 409 and leaves the first user alone |
| Scenarios.LogoutEndsRefresh | src/controllers/auth.controller.ts:191-196 | a refresh token that worked before logout is refused after it |
| Scenarios.ProvisionThenRelogin | src/services/user.service.ts:69-74 | the first login provisions a user; for an ASCII passport number, the same password logs in again exactly when the passport has no lower-case letter |
| Scenarios.AnswerThenClear | src/services/application.service.ts:33-34 | an answered application stays answered when an empty response follows, and stores it |
| Scenarios.RegisterThenCreateStudent | src/subscribers/student.subscriber.ts:16-19 | a student created for a registered username is linked to that user, who gains the STUDENT role |

## Left out

- Express, the routes and the middlewares (`validate`, `deserializeUser`, `requireUser`) are not part of this model. A handler receives the parsed fields of its schema and the current user.
- The routes decide which validator runs before which handler; the handlers are not tied to their validators.
- JWT signing and verification, bcrypt and SHA-256 are abstract: tokens are opaque values, and the hashes are injective constructors.
- Token expiry, the Redis TTL, cookie `expires`/`maxAge` dates and the configuration are time and configuration. A session is present or absent, and a token is valid or not.
- The clock is a parameter: `VerifyUser` and `DeleteUser` take the current time.
- `MESSAGES.INVALID_CREDENTIALS`, `STATUS_CODES.NOT_FOUND` and the `Order` enum come from utils, which is not part of this model. The message is symbolic, and the status and the directions are taken as 404 and ASC/DESC.
- The generic error handler is not part of this model. A ZodError of the pre-checks is `Invalid(issues)`, an AppError is `Fail(status, message)`, and anything else is `Thrown`.
- Concurrency is not modelled. The `afterInsert` hook's link is not awaited, and the session write is not awaited either. The model runs both in order, so `createStudentService` returning before the link is made is not captured.
- The race between the uniqueness pre-checks and the insert is not modelled.
- The `afterUpdate` and `afterSoftRemove` hooks only log, so they have no member.
- Rows are found by the model's own uuid stand-in. The store's uuid generation is replaced by the counter `nextId`.
- `created_by` and `updated_by` are not columns of Student, so the actor passed to the student create and update services is dropped.
- The UUID-typed `id` column refusing a malformed path id is not modelled. Path ids are already ids.
- `Services.Backend.FindStudents`: a where entry on a relation (`a.b`) is judged by the parameters `nestedError` and `nestedSelects`, because joins are not modelled.
- `StudentController.GetStudents`: which page of the matching rows `take`, `skip` and the sort order cut out is left to the store. The model returns every matching row and passes those options through.
- Case folding covers the ASCII and basic Cyrillic letters only. There is no Unicode normalisation and no locale.
- `toUpperCase` maps only the ASCII letters. Non-ASCII upper-casing is not modelled.
- bcrypt's 72-byte truncation of passwords is not modelled.
- Schemas.ParseInt: `parseInt` returns a double; the model returns the exact integer. Beyond 2^53 the double is rounded, and a very long numeral gives `Infinity`. Which `take` and `skip` texts are accepted is the same either way.
- Schemas.ParsePageQuery: the parsed `skip` is the exact integer, where the source carries the double `parseInt` returns (rounded beyond 2^53, or `Infinity`).
- Services.Backend.Valid: the unique index on `phone` is kept, but no modelled operation sets a phone.
- The `varchar(255)` limits are not modelled.
- The truncation of `birth_date` to a PostgreSQL `date` is not modelled: a stored birth date is the text that was sent.
- Services.Backend.AfterInsert: the hook's link is not awaited, so a link the store refuses (another student already holds the user) is a promise rejection no handler catches. The model drops it: the student stays inserted and unlinked, and the create answers 201. What the Node runtime does with an unhandled rejection (a warning, or ending the process from Node 15 on) is not modelled.
- The session stores the user's JSON without its `student` property.
- `createApplicationHandler` spreads an unvalidated body into the row, so a client could also set `status` or `response` at creation. A missing or non-string `message` makes the save fail outside any `try`. The model takes the message only.
- `DeleteStudent` relies on the relation loading only a live linked user; a soft-deleted one is not deleted again.
- `restoreStudentService` is incomplete dead code.
- ApplicationController.UpdateApplication: `PATCH /applications/:id` runs no validator, so `req.body.response` may be any JSON value. The model takes a string, `null` or nothing. A number or boolean, whose JavaScript truthiness (`0`, `true`) decides the status, is not modelled.
- Services.Backend.UpdateApplication: takes the response as a string field; a non-string response from the unvalidated route is not modelled.
- ApplicationController.UpdateApplication: the reply carries the application as stored. When the body has no `response`, the handler's object has the property unset, so its JSON has no `response` key. The model returns the stored response there instead, because the reply's JSON shape is not modelled.
- Services.Backend.UpdateApplication: returns the stored application. The echoed object that lacks `response` when none is sent is not modelled.
- StudentController.UpdateStudent: the reply carries the student as stored. The handler's object has `birth_date` unset when no non-empty date was sent, and it also carries `updated_by`. The model's reply keeps the stored birth date and has no `updated_by`.
- Services.Backend.UpdateStudent: returns the merged row as stored. The echoed object, with `birth_date` unset when no non-empty date was sent and with `updated_by` set, is not modelled.
- post.routes.ts and its upload pipeline are not part of this model.

## Findings

| source | as written | input that shows it | evidently intended | confidence | as-written member | corrected member |
|---|---|---|---|---|---|---|
| src/controllers/auth.controller.ts:148 | `findUser({ verificationCode })` filters users by a property that user.entity.ts does not declare, so the store rejects the query and no e-mail is ever verified | any verification request, e.g. code `abc` | a `verificationCode` column on User, which lines 154-156 also write | not executed; TypeORM rejects a where clause on an undeclared property, and the table has no such column | AuthController.VerifyEmailAsWritten | AuthController.VerifyEmailHandler |
