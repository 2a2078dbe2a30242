/** Shared vocabulary of the model: optional values, request fields, the replies a
    handler sends, and the few JavaScript string operations the handlers rely on. */
module Base {

  datatype Option<T> = None | Some(value: T)

  /** A field of a request body as a service receives it: left out, explicitly
      `null`, or given. */
  datatype Field<T> = Missing | Null | Given(value: T)

  /** Primary keys. The store generates uuids; the model draws them from a counter. */
  type Id = nat

  /** Timestamps. The clock is not modelled: callers pass the current time. */
  type Time = nat

  /** One entry of a ZodError: the field it concerns and its message. */
  datatype Issue = Issue(path: string, message: string)

  /** Errors raised by the relational store that the handlers distinguish. */
  datatype StoreError =
    | UniqueViolation              // PostgreSQL error code 23505
    | UnknownProperty(name: string) // a query names a property the entity does not declare
    | QueryRejected(name: string)   // PostgreSQL rejects the query, e.g. ILIKE on a non-text column

  /** What a handler answers: `res.status(s).json(data)`, an AppError or `fail` body,
      a ZodError's issues, or an error handed on to the generic error handler. */
  datatype Reply<T> =
    | Ok(status: nat, data: T)
    | Fail(status: nat, message: string)
    | Invalid(issues: seq<Issue>)
    | Thrown(error: StoreError)

  /** The outcome of a store operation that may raise. */
  datatype Result<T> = Success(value: T) | Failure(error: StoreError)

  /** The sort direction enum `Order` of utils/enums, which is not part of this
      model; its values are taken to be "ASC" and "DESC". */
  datatype Order = Asc | Desc

  function OrderValue(o: Order): string {
    match o
    case Asc => "ASC"
    case Desc => "DESC"
  }

  function ParseOrder(s: string): (r: Option<Order>)
    ensures forall x :: r == Some(x) <==> OrderValue(x) == s
  {
    if s == "ASC" then Some(Asc) else if s == "DESC" then Some(Desc) else None
  }

  /** JavaScript truthiness of a string field: given and not empty. `NonEmpty` below
      is the same test on a field that cannot be `null`. */
  predicate Truthy(f: Field<string>) {
    f.Given? && f.value != ""
  }

  /** JavaScript truthiness of an optional string, as `Truthy` above: present and not empty. */
  predicate NonEmpty(o: Option<string>) {
    o.Some? && o.value != ""
  }

  /** `value || undefined` (and `value || null`): the given text if it is truthy. */
  function OrAbsent(f: Field<string>): (r: Option<string>)
    ensures r.Some? <==> Truthy(f)
    ensures r.Some? ==> r.value == f.value && r.value != ""
  {
    if Truthy(f) then Some(f.value) else None
  }

  predicate IsDigit(c: char) {
    '0' <= c <= '9'
  }

  predicate AllDigits(s: string) {
    forall i :: 0 <= i < |s| ==> IsDigit(s[i])
  }

  /** Number of UTF-16 code units of one character. */
  function Utf16Units(c: char): nat {
    if c as int > 0xFFFF then 2 else 1
  }

  predicate InBmp(s: string) {
    forall i :: 0 <= i < |s| ==> s[i] as int <= 0xFFFF
  }

  /** `String.prototype.length`: JavaScript counts UTF-16 code units, so a character
      outside the Basic Multilingual Plane counts twice. */
  function Utf16Length(s: string): (n: nat)
    ensures |s| <= n <= 2 * |s|
    ensures n == 0 <==> s == []
  {
    if s == [] then 0 else Utf16Units(s[0]) + Utf16Length(s[1..])
  }

  lemma {:induction false} Utf16LengthOfBmp(s: string)
    requires InBmp(s)
    ensures Utf16Length(s) == |s|
  {
    if s != [] {
      assert InBmp(s[1..]) by {
        forall i | 0 <= i < |s[1..]| ensures s[1..][i] as int <= 0xFFFF {
          assert s[1..][i] == s[i + 1];
        }
      }
      Utf16LengthOfBmp(s[1..]);
    }
  }

  /** Two strings whose characters have the same widths have the same JavaScript length. */
  lemma {:induction false} Utf16LengthOfSameWidths(s: string, t: string)
    requires |s| == |t|
    requires forall i :: 0 <= i < |s| ==> Utf16Units(s[i]) == Utf16Units(t[i])
    ensures Utf16Length(s) == Utf16Length(t)
  {
    if s != [] {
      Utf16LengthOfSameWidths(s[1..], t[1..]);
    }
  }

  /** `toUpperCase` on one character. Only the ASCII letters are mapped. */
  function UpperChar(c: char): (d: char)
    ensures Utf16Units(d) == Utf16Units(c)
  {
    if 'a' <= c <= 'z' then (c as int - 32) as char else c
  }

  function ToUpperCase(s: string): (r: string)
    ensures |r| == |s|
    ensures forall i :: 0 <= i < |s| ==> r[i] == UpperChar(s[i])
  {
    seq(|s|, i requires 0 <= i < |s| => UpperChar(s[i]))
  }

  lemma ToUpperCaseKeepsLength(s: string)
    ensures Utf16Length(ToUpperCase(s)) == Utf16Length(s)
  {
    Utf16LengthOfSameWidths(ToUpperCase(s), s);
  }

  /** Every character is ASCII: there, `toUpperCase` maps exactly the letters `a`-`z`. */
  predicate IsAscii(s: string) {
    forall i :: 0 <= i < |s| ==> s[i] as int < 128
  }

  predicate HasLowerAscii(s: string) {
    exists i :: 0 <= i < |s| && 'a' <= s[i] <= 'z'
  }

  /** Upper-casing changes a string exactly when it holds a lower-case ASCII letter. */
  lemma ToUpperCaseFixes(s: string)
    ensures ToUpperCase(s) == s <==> !HasLowerAscii(s)
  {
    if HasLowerAscii(s) {
      var i :| 0 <= i < |s| && 'a' <= s[i] <= 'z';
      assert ToUpperCase(s)[i] != s[i];
    }
  }

  /** The case folding PostgreSQL's ILIKE applies, restricted to the ASCII and the
      basic Cyrillic letters. */
  function Fold(c: char): char {
    if 'A' <= c <= 'Z' then (c as int + 32) as char
    else if '\U{0410}' <= c <= '\U{042F}' then (c as int + 32) as char
    else if c == '\U{0401}' then '\U{0451}'
    else c
  }

  function FoldAll(s: string): (r: string)
    ensures |r| == |s|
    ensures forall i :: 0 <= i < |s| ==> r[i] == Fold(s[i])
  {
    seq(|s|, i requires 0 <= i < |s| => Fold(s[i]))
  }
}
