/** The request validators of the schemas directory, written as predicates over the JSON a
    request carries, and the typed inputs the services receive once a body passed
    its schema. The e-mail check of Zod is a library regular expression and is a
    parameter `isEmail` here. */
module Schemas {
  import opened Base
  import opened Entities

  /** A JSON value of a request: a missing key, null, a string, an array, or
      anything else (a number, a boolean, an object). */
  datatype Value = Absent | JsonNull | Text(s: string) | List(items: seq<Value>) | Other

  predicate IsString(v: Value) {
    v.Text?
  }

  /** `string().optional()`. */
  predicate OptionalString(v: Value) {
    v.Absent? || v.Text?
  }

  // ---------------------------------------------------------------- human.schema.ts

  /** `string().length(14).nullable().optional().or(literal(""))`. */
  predicate PinflOk(v: Value) {
    v.Absent? || v.JsonNull? || (v.Text? && (Utf16Length(v.s) == 14 || v.s == ""))
  }

  /** `string().min(7).max(14)`, required. */
  predicate PassportOk(v: Value) {
    v.Text? && 7 <= Utf16Length(v.s) <= 14
  }

  /** `string().email().nullable().optional().or(literal(''))`. */
  predicate EmailOk(v: Value, isEmail: string -> bool) {
    v.Absent? || v.JsonNull? || (v.Text? && (v.s == "" || isEmail(v.s)))
  }

  /** `string().refine(matches the date pattern).nullable().optional()`. */
  predicate BirthDateOk(v: Value) {
    v.Absent? || v.JsonNull? || (v.Text? && MatchesDateTime(v.s))
  }

  /** `nativeEnum(GENDER).optional()`. */
  predicate GenderOk(v: Value) {
    v.Absent? || (v.Text? && ParseGender(v.s).Some?)
  }

  datatype HumanBody = HumanBody(
    identifier: Value,
    lastName: Value,
    firstName: Value,
    middleName: Value,
    pinfl: Value,
    passportNumber: Value,
    email: Value,
    birthDate: Value,
    gender: Value)

  /** `humanSchema`. */
  predicate HumanValid(h: HumanBody, isEmail: string -> bool) {
    IsString(h.identifier) && IsString(h.lastName) && IsString(h.firstName) &&
    OptionalString(h.middleName) && PinflOk(h.pinfl) && PassportOk(h.passportNumber) &&
    EmailOk(h.email, isEmail) && BirthDateOk(h.birthDate) && GenderOk(h.gender)
  }

  // ---- The birth_date pattern
  //   ^(\d{4})-(\d{2})-(\d{2})T(\d{2}):(\d{2}):(\d{2}(?:\.\d*)?)((-(\d{2}):(\d{2})|Z)?)$

  /** The fixed part `YYYY-MM-DDTHH:MM:SS` at the start of `s`. */
  predicate DatePrefix(s: string) {
    |s| >= 19 &&
    IsDigit(s[0]) && IsDigit(s[1]) && IsDigit(s[2]) && IsDigit(s[3]) && s[4] == '-' &&
    IsDigit(s[5]) && IsDigit(s[6]) && s[7] == '-' &&
    IsDigit(s[8]) && IsDigit(s[9]) && s[10] == 'T' &&
    IsDigit(s[11]) && IsDigit(s[12]) && s[13] == ':' &&
    IsDigit(s[14]) && IsDigit(s[15]) && s[16] == ':' &&
    IsDigit(s[17]) && IsDigit(s[18])
  }

  /** `(?:\.\d*)?`. */
  predicate FractionPart(f: string) {
    f == [] || (f[0] == '.' && AllDigits(f[1..]))
  }

  /** `(-\d{2}:\d{2}|Z)?`. */
  predicate ZonePart(z: string) {
    z == [] || z == "Z" ||
    (|z| == 6 && z[0] == '-' && IsDigit(z[1]) && IsDigit(z[2]) && z[3] == ':' &&
     IsDigit(z[4]) && IsDigit(z[5]))
  }

  /** What the pattern accepts, read off the pattern: the fixed part, then some
      split of the rest into a fraction and a zone. */
  ghost predicate DateTimeShape(s: string) {
    DatePrefix(s) && exists k :: 19 <= k <= |s| && FractionPart(s[19..k]) && ZonePart(s[k..])
  }

  /** The number of digits `s` starts with. */
  function DigitRun(s: string): (k: nat)
    ensures k <= |s| && AllDigits(s[..k])
    ensures k < |s| ==> !IsDigit(s[k])
  {
    if s != [] && IsDigit(s[0]) then
      var k := 1 + DigitRun(s[1..]);
      assert s[..k] == [s[0]] + s[1..][..k - 1];
      k
    else 0
  }

  lemma {:induction false} DigitRunExact(s: string, j: nat)
    requires j <= |s| && AllDigits(s[..j])
    requires j < |s| ==> !IsDigit(s[j])
    ensures DigitRun(s) == j
  {
    if j > 0 {
      assert IsDigit(s[..j][0]);
      assert s[1..][..j - 1] == s[..j][1..];
      DigitRunExact(s[1..], j - 1);
    }
  }

  /** Where the fraction of the time ends, scanning the rest `r` after the seconds. */
  function FractionEnd(r: string): (k: nat)
    ensures k <= |r|
    ensures FractionPart(r[..k])
  {
    if r != [] && r[0] == '.' then
      var k := 1 + DigitRun(r[1..]);
      assert r[..k][1..] == r[1..][..k - 1];
      k
    else 0
  }

  /** The test the schema runs: scan the fixed part, the fraction, then the zone. */
  predicate MatchesDateTime(s: string)
    ensures MatchesDateTime(s) ==> DateTimeShape(s)
  {
    DatePrefix(s) &&
    var k := 19 + FractionEnd(s[19..]);
    assert s[19..k] == s[19..][..k - 19];
    ZonePart(s[k..])
  }

  /** The scan accepts exactly what the pattern describes. */
  lemma MatchesDateTimeIffShape(s: string)
    ensures MatchesDateTime(s) <==> DateTimeShape(s)
  {
    if DateTimeShape(s) {
      var k :| 19 <= k <= |s| && FractionPart(s[19..k]) && ZonePart(s[k..]);
      var r := s[19..];
      if k == 19 {
        assert r == s[k..];
        assert FractionEnd(r) == 0;
      } else {
        assert r[0] == '.';
        var f := r[1..];
        assert f[..k - 20] == s[19..k][1..];
        assert k - 20 < |f| ==> f[k - 20] == s[k..][0];
        DigitRunExact(f, k - 20);
        assert FractionEnd(r) == k - 19;
      }
    }
  }

  predicate DateTimeChar(c: char) {
    IsDigit(c) || c == '-' || c == 'T' || c == ':' || c == '.' || c == 'Z'
  }

  /** A string the pattern accepts holds only digits and `- T : . Z`. */
  lemma MatchingAlphabet(s: string)
    requires MatchesDateTime(s)
    ensures forall i :: 0 <= i < |s| ==> DateTimeChar(s[i])
  {
    var r := s[19..];
    var k := FractionEnd(r);
    forall i | 0 <= i < |s| ensures DateTimeChar(s[i]) {
      if i >= 19 && i < 19 + k {
        assert s[i] == r[..k][i - 19];
        if i > 19 {
          assert s[i] == r[..k][1..][i - 20];
        }
      } else if i >= 19 + k {
        assert s[i] == s[19 + k..][i - 19 - k];
      }
    }
  }

  /** A `+hh:mm` offset and the empty string are both rejected. */
  lemma PlusOffsetAndEmptyRejected(s: string)
    requires exists i :: 0 <= i < |s| && s[i] == '+'
    ensures !MatchesDateTime(s) && !MatchesDateTime("")
  {
    if MatchesDateTime(s) {
      MatchingAlphabet(s);
    }
  }

  /** What `Date.prototype.toISOString` produces (`YYYY-MM-DDTHH:MM:SS.sssZ`) is accepted. */
  lemma IsoStringAccepted(date: string, millis: string)
    requires |date| == 19 && DatePrefix(date) && AllDigits(millis)
    ensures MatchesDateTime(date + "." + millis + "Z")
  {
    var s := date + "." + millis + "Z";
    var k := 20 + |millis|;
    assert s[19..k] == "." + millis;
    assert ("." + millis)[1..] == millis;
    assert s[k..] == "Z";
    assert DatePrefix(s);
    MatchesDateTimeIffShape(s);
  }

  // ---------------------------------------------------------------- student.schema.ts

  datatype CreateStudentBody = CreateStudentBody(human: HumanBody, group: Value, faculty: Value)

  /** `createStudentSchema`: the human schema extended by a required group and faculty. */
  predicate CreateStudentValid(b: CreateStudentBody, isEmail: string -> bool) {
    HumanValid(b.human, isEmail) && IsString(b.group) && IsString(b.faculty)
  }

  /** `updateStudentSchema`: the human schema made partial (`humanSchema.extend({}).partial()`);
      it has no group or faculty, and Zod drops unknown keys. */
  predicate UpdateStudentValid(h: HumanBody, isEmail: string -> bool) {
    OptionalString(h.identifier) && OptionalString(h.lastName) && OptionalString(h.firstName) &&
    OptionalString(h.middleName) && PinflOk(h.pinfl) &&
    (h.passportNumber.Absent? || PassportOk(h.passportNumber)) &&
    EmailOk(h.email, isEmail) && BirthDateOk(h.birthDate) && GenderOk(h.gender)
  }

  /** The `params` of the get, update and delete schemas. */
  predicate StudentParamsValid(id: Value) {
    IsString(id)
  }

  /** The human part of every valid create body is a valid update body. */
  lemma CreateBodyIsUpdateBody(b: CreateStudentBody, isEmail: string -> bool)
    requires CreateStudentValid(b, isEmail)
    ensures UpdateStudentValid(b.human, isEmail)
  {
  }

  /** `CreateStudentInput`: what the create schema hands on. */
  datatype CreateStudentInput = CreateStudentInput(
    identifier: string,
    lastName: string,
    firstName: string,
    middleName: Option<string>,
    pinfl: Field<string>,
    passportNumber: string,
    email: Field<string>,
    birthDate: Field<string>,
    gender: Option<Gender>,
    group: string,
    faculty: string)

  /** `UpdateStudentInput`: every field may be left out. */
  datatype UpdateStudentInput = UpdateStudentInput(
    identifier: Option<string>,
    lastName: Option<string>,
    firstName: Option<string>,
    middleName: Option<string>,
    pinfl: Field<string>,
    passportNumber: Option<string>,
    email: Field<string>,
    birthDate: Field<string>,
    gender: Option<Gender>)

  function AsField(v: Value): Field<string> {
    match v
    case Text(s) => Given(s)
    case JsonNull => Null
    case _ => Missing
  }

  function AsOption(v: Value): Option<string> {
    if v.Text? then Some(v.s) else None
  }

  function AsGender(v: Value): Option<Gender> {
    if v.Text? then ParseGender(v.s) else None
  }

  /** A nullable, optional body value as the input holds it: left out stays left
      out, `null` stays null, a string is given. */
  predicate NullableCarried(v: Value, f: Field<string>) {
    (v.Absent? ==> f.Missing?) && (v.JsonNull? ==> f.Null?) && (v.Text? ==> f == Given(v.s))
  }

  /** An optional body string as the input holds it. */
  predicate OptionalCarried(v: Value, o: Option<string>) {
    (v.Absent? ==> o.None?) && (v.Text? ==> o == Some(v.s))
  }

  /** An optional gender as the input holds it. */
  predicate GenderCarried(v: Value, g: Option<Gender>) {
    (v.Absent? ==> g.None?) && (v.Text? ==> g == ParseGender(v.s))
  }

  /** Parsing a create body: an input exactly when the body is valid, carrying the
      body's strings. */
  function ParseCreateStudent(b: CreateStudentBody, isEmail: string -> bool): (r: Option<CreateStudentInput>)
    ensures r.Some? <==> CreateStudentValid(b, isEmail)
    ensures r.Some? ==> r.value.identifier == b.human.identifier.s &&
                        r.value.passportNumber == b.human.passportNumber.s &&
                        7 <= Utf16Length(r.value.passportNumber) <= 14 &&
                        (Truthy(r.value.pinfl) ==> Utf16Length(r.value.pinfl.value) == 14)
    ensures r.Some? ==> r.value.lastName == b.human.lastName.s && r.value.firstName == b.human.firstName.s &&
                        r.value.group == b.group.s && r.value.faculty == b.faculty.s
    ensures r.Some? ==> OptionalCarried(b.human.middleName, r.value.middleName) &&
                        NullableCarried(b.human.pinfl, r.value.pinfl) &&
                        NullableCarried(b.human.email, r.value.email) &&
                        NullableCarried(b.human.birthDate, r.value.birthDate) &&
                        GenderCarried(b.human.gender, r.value.gender)
  {
    if !CreateStudentValid(b, isEmail) then None
    else
      var h := b.human;
      Some(CreateStudentInput(h.identifier.s, h.lastName.s, h.firstName.s, AsOption(h.middleName),
                              AsField(h.pinfl), h.passportNumber.s, AsField(h.email), AsField(h.birthDate),
                              AsGender(h.gender), b.group.s, b.faculty.s))
  }

  /** Parsing an update body: an input exactly when the body is valid; every field
      is carried as the body has it, a left-out one left out. */
  function ParseUpdateStudent(h: HumanBody, isEmail: string -> bool): (r: Option<UpdateStudentInput>)
    ensures r.Some? <==> UpdateStudentValid(h, isEmail)
    ensures r.Some? ==> (r.value.identifier.None? <==> h.identifier.Absent?) &&
                        (r.value.passportNumber.None? <==> h.passportNumber.Absent?) &&
                        (r.value.pinfl.Missing? <==> h.pinfl.Absent?) &&
                        (r.value.email.Missing? <==> h.email.Absent?) &&
                        (r.value.birthDate.Missing? <==> h.birthDate.Absent?) &&
                        (r.value.gender.None? <==> h.gender.Absent?)
    ensures r.Some? ==> OptionalCarried(h.identifier, r.value.identifier) &&
                        OptionalCarried(h.lastName, r.value.lastName) &&
                        OptionalCarried(h.firstName, r.value.firstName) &&
                        OptionalCarried(h.middleName, r.value.middleName) &&
                        OptionalCarried(h.passportNumber, r.value.passportNumber) &&
                        NullableCarried(h.pinfl, r.value.pinfl) &&
                        NullableCarried(h.email, r.value.email) &&
                        NullableCarried(h.birthDate, r.value.birthDate) &&
                        GenderCarried(h.gender, r.value.gender)
  {
    if !UpdateStudentValid(h, isEmail) then None
    else
      Some(UpdateStudentInput(AsOption(h.identifier), AsOption(h.lastName), AsOption(h.firstName),
                              AsOption(h.middleName), AsField(h.pinfl), AsOption(h.passportNumber),
                              AsField(h.email), AsField(h.birthDate), AsGender(h.gender)))
  }

  // ---------------------------------------------------------------- user.schema.ts

  datatype RegisterBody = RegisterBody(username: Value, password: Value, roles: Value, email: Value, permissions: Value)

  predicate RoleListOk(v: Value) {
    v.List? && forall i :: 0 <= i < |v.items| ==> v.items[i].Text? && ParseRole(v.items[i].s).Some?
  }

  predicate StringListOk(v: Value) {
    v.List? && forall i :: 0 <= i < |v.items| ==> v.items[i].Text?
  }

  /** `createUserSchema`. */
  predicate RegisterValid(b: RegisterBody, isEmail: string -> bool) {
    IsString(b.username) && IsString(b.password) && RoleListOk(b.roles) &&
    (b.email.Absent? || (b.email.Text? && isEmail(b.email.s))) &&
    (b.permissions.Absent? || StringListOk(b.permissions))
  }

  datatype LoginBody = LoginBody(username: Value, password: Value)

  /** `loginUserSchema`: a password of at least eight characters. */
  predicate LoginValid(b: LoginBody) {
    IsString(b.username) && b.password.Text? && Utf16Length(b.password.s) >= 8
  }

  /** `verifyEmailSchema`. */
  predicate VerifyEmailParamsValid(code: Value) {
    IsString(code)
  }

  /** An ASCII passport of seven characters passes the student schema, but the
      password a first login needs for it (the upper-cased passport) never passes
      the login schema. */
  lemma ShortPassportCannotLogin(passport: string, username: Value)
    requires IsAscii(passport)
    requires PassportOk(Text(passport)) && Utf16Length(passport) == 7
    ensures !LoginValid(LoginBody(username, Text(ToUpperCase(passport))))
  {
    ToUpperCaseKeepsLength(passport);
  }

  // ---------------------------------------------------------------- pagination.schema.ts

  /** `StrWhiteSpaceChar` of ECMAScript: what `parseInt` skips first. */
  predicate IsJsWhiteSpace(c: char) {
    c == '\t' || c == '\n' || c == '\U{000B}' || c == '\U{000C}' || c == '\r' || c == ' ' ||
    c == '\U{00A0}' || c == '\U{1680}' || ('\U{2000}' <= c <= '\U{200A}') ||
    c == '\U{2028}' || c == '\U{2029}' || c == '\U{202F}' || c == '\U{205F}' ||
    c == '\U{3000}' || c == '\U{FEFF}'
  }

  function TrimStart(s: string): (t: string)
    ensures t == [] || !IsJsWhiteSpace(t[0])
    ensures |t| <= |s|
  {
    if s != [] && IsJsWhiteSpace(s[0]) then TrimStart(s[1..]) else s
  }

  /** The value of a string of decimal digits. */
  function DigitsValue(s: string): nat
    requires AllDigits(s)
  {
    if s == [] then 0 else DigitsValue(s[..|s| - 1]) * 10 + (s[|s| - 1] as int - '0' as int)
  }

  /** `t` without the one sign character it may start with. */
  function Unsigned(t: string): string {
    if t != [] && (t[0] == '-' || t[0] == '+') then t[1..] else t
  }

  /** The value of the digits `u` starts with, if it starts with one. */
  function LeadingNumber(u: string): (r: Option<nat>)
    ensures r.Some? <==> u != [] && IsDigit(u[0])
  {
    var k := DigitRun(u);
    if k == 0 then None else Some(DigitsValue(u[..k]))
  }

  /** `parseInt(s, 10)`: skip white space, read an optional sign and then as many
      digits as there are; no digit at all gives NaN (here `None`). The sign of
      zero is not kept: `-0` compares like `0`. */
  function ParseInt(s: string): (r: Option<int>)
    ensures r.Some? <==> var u := Unsigned(TrimStart(s)); u != [] && IsDigit(u[0])
    ensures r.Some? && r.value < 0 ==> TrimStart(s)[0] == '-'
    ensures r.Some? && TrimStart(s)[0] != '-' ==> r.value >= 0
  {
    var t := TrimStart(s);
    match LeadingNumber(Unsigned(t))
    case None => None
    case Some(magnitude) => Some(if t != [] && t[0] == '-' then -(magnitude as int) else magnitude)
  }

  function DigitChar(d: nat): (c: char)
    requires d < 10
    ensures IsDigit(c) && c as int - '0' as int == d
  {
    ('0' as int + d) as char
  }

  /** The decimal numeral of `n`, without leading zeros. */
  function DecimalString(n: nat): (s: string)
    ensures |s| >= 1 && AllDigits(s)
  {
    if n < 10 then [DigitChar(n)] else DecimalString(n / 10) + [DigitChar(n % 10)]
  }

  lemma {:induction false} DigitsValueOfDecimal(n: nat)
    ensures DigitsValue(DecimalString(n)) == n
  {
    if n >= 10 {
      var s := DecimalString(n);
      assert s[..|s| - 1] == DecimalString(n / 10);
      DigitsValueOfDecimal(n / 10);
    }
  }

  /** A numeral followed by a non-digit is read up to its end. */
  lemma ReadNumeral(d: string, rest: string)
    requires AllDigits(d) && (rest == [] || !IsDigit(rest[0]))
    ensures DigitRun(d + rest) == |d| && (d + rest)[..|d|] == d
  {
    var s := d + rest;
    assert s[..|d|] == d;
    assert |d| < |s| ==> s[|d|] == rest[0];
    DigitRunExact(s, |d|);
  }

  /** A numeral followed by a non-digit leads with the numeral's value. */
  lemma LeadingNumberOfDigits(d: string, rest: string)
    requires |d| >= 1 && AllDigits(d) && (rest == [] || !IsDigit(rest[0]))
    ensures LeadingNumber(d + rest) == Some(DigitsValue(d))
  {
    var u := d + rest;
    ReadNumeral(d, rest);
    assert u[..DigitRun(u)] == d;
  }

  /** A text that starts with a digit is read as its leading number. */
  lemma ParseIntOfPlain(u: string)
    requires u != [] && IsDigit(u[0])
    ensures LeadingNumber(u).Some? && ParseInt(u) == Some(LeadingNumber(u).value as int)
  {
    assert !IsJsWhiteSpace(u[0]) && u[0] != '-' && u[0] != '+';
    assert TrimStart(u) == u;
  }

  /** A text that starts with a minus sign is read as the negated leading number
      of the rest. */
  lemma ParseIntOfMinus(u: string)
    ensures ParseInt("-" + u) == match LeadingNumber(u) { case None => None case Some(v) => Some(-(v as int)) }
  {
    var m := "-" + u;
    assert m[0] == '-' && !IsJsWhiteSpace(m[0]);
    assert TrimStart(m) == m;
    assert m[1..] == u;
  }

  /** The largest integer up to which every integer is a double: below it, the
      number `parseInt` returns is the numeral's exact value. */
  const MaxSafeInteger: nat := 9007199254740991

  /** `parseInt` reads back the numeral of a safe integer, whatever non-digit follows it. */
  lemma ParseIntOfDecimal(n: nat, rest: string)
    requires n <= MaxSafeInteger
    requires rest == [] || !IsDigit(rest[0])
    ensures ParseInt(DecimalString(n) + rest) == Some(n)
  {
    var d := DecimalString(n);
    LeadingNumberOfDigits(d, rest);
    ParseIntOfPlain(d + rest);
    DigitsValueOfDecimal(n);
  }

  /** ... and the numeral with a minus sign in front as the negated number. */
  lemma ParseIntOfNegated(n: nat, rest: string)
    requires n <= MaxSafeInteger
    requires rest == [] || !IsDigit(rest[0])
    ensures ParseInt("-" + (DecimalString(n) + rest)) == Some(-(n as int))
  {
    var d := DecimalString(n);
    LeadingNumberOfDigits(d, rest);
    ParseIntOfMinus(d + rest);
    DigitsValueOfDecimal(n);
  }

  predicate TakeOk(v: Value) {
    v.Absent? || (v.Text? && var n := ParseInt(v.s); n.Some? && 10 <= n.value <= 100)
  }

  predicate SkipOk(v: Value) {
    v.Absent? || (v.Text? && var n := ParseInt(v.s); n.Some? && n.value >= 0)
  }

  predicate OrderOk(v: Value) {
    v.Absent? || (v.Text? && ParseOrder(v.s).Some?)
  }

  predicate SearchOk(v: Value) {
    v.Absent? || (v.Text? && Utf16Length(v.s) >= 3)
  }

  datatype PageQuery = PageQuery(take: Value, skip: Value, order: Value, sortBy: Value, search: Value, searchBy: Value)

  /** `paginateQuerySchema`: every field is optional (`.partial()`). */
  predicate PaginateQueryValid(q: PageQuery) {
    TakeOk(q.take) && SkipOk(q.skip) && OrderOk(q.order) && OptionalString(q.sortBy) &&
    SearchOk(q.search) && OptionalString(q.searchBy)
  }

  /** `PaginateQueryInput`: the query once parsed. */
  datatype PageInput = PageInput(
    take: Option<int>,
    skip: Option<int>,
    order: Option<Order>,
    sortBy: Option<string>,
    search: Option<string>,
    searchBy: Option<string>)

  /** Parsing the listing query: an input exactly when the query is valid, with the
      page bounds in range. `order` stays unset when the query leaves it out: under
      `.partial()` the field is optional, so its `DESC` default is never applied. */
  function ParsePageQuery(q: PageQuery): (r: Option<PageInput>)
    ensures r.Some? <==> PaginateQueryValid(q)
    ensures r.Some? ==> (r.value.take.Some? <==> q.take.Text?) && (r.value.skip.Some? <==> q.skip.Text?)
    ensures r.Some? && r.value.take.Some? ==> 10 <= r.value.take.value <= 100
    ensures r.Some? && r.value.skip.Some? ==> r.value.skip.value >= 0
    ensures r.Some? ==> (r.value.order.None? <==> q.order.Absent?)
    ensures r.Some? && r.value.search.Some? ==> Utf16Length(r.value.search.value) >= 3
    ensures r.Some? && q.take.Text? ==> r.value.take == ParseInt(q.take.s)
    ensures r.Some? && q.skip.Text? ==> r.value.skip == ParseInt(q.skip.s)
    ensures r.Some? && q.order.Text? ==> r.value.order == ParseOrder(q.order.s)
    ensures r.Some? ==> OptionalCarried(q.sortBy, r.value.sortBy) &&
                        OptionalCarried(q.search, r.value.search) &&
                        OptionalCarried(q.searchBy, r.value.searchBy)
  {
    if !PaginateQueryValid(q) then None
    else
      Some(PageInput(
        if q.take.Text? then ParseInt(q.take.s) else None,
        if q.skip.Text? then ParseInt(q.skip.s) else None,
        if q.order.Text? then ParseOrder(q.order.s) else None,
        AsOption(q.sortBy), AsOption(q.search), AsOption(q.searchBy)))
  }

  /** A page size written as a numeral (leading zeros allowed), possibly followed by
      other text, is accepted exactly when its value lies in 10..100; an offset
      exactly when it is not negative, where `-0` counts as zero. */
  lemma PageBounds(d: string, rest: string)
    requires |d| >= 1 && AllDigits(d) && (rest == [] || !IsDigit(rest[0]))
    ensures TakeOk(Text(d + rest)) <==> 10 <= DigitsValue(d) <= 100
    ensures SkipOk(Text(d + rest))
    ensures SkipOk(Text("-" + (d + rest))) <==> DigitsValue(d) == 0
  {
    LeadingNumberOfDigits(d, rest);
    ParseIntOfPlain(d + rest);
    NegatedSkip(d, rest);
  }

  lemma NegatedSkip(d: string, rest: string)
    requires |d| >= 1 && AllDigits(d) && (rest == [] || !IsDigit(rest[0]))
    ensures SkipOk(Text("-" + (d + rest))) <==> DigitsValue(d) == 0
  {
    LeadingNumberOfDigits(d, rest);
    ParseIntOfMinus(d + rest);
  }
}
