/** The pieces of a student listing query: the dotted `relation.field` keys, the
    PostgreSQL ILIKE test behind TypeORM's `ILike`, the order and where dictionaries
    the listing handler builds, and how the store reads a where dictionary over a
    student row. */
module Query {
  import opened Base
  import opened Entities

  // ---------------------------------------------------------------- String.prototype.split(".")

  /** The first position of `c` in `s`. */
  function IndexOf(s: string, c: char): (i: nat)
    requires c in s
    ensures i < |s| && s[i] == c && c !in s[..i]
  {
    if s[0] == c then 0
    else
      var i := 1 + IndexOf(s[1..], c);
      assert s[..i] == [s[0]] + s[1..][..i - 1];
      i
  }

  /** `parts.join(".")`. */
  function JoinDot(parts: seq<string>): string
    requires |parts| >= 1
  {
    if |parts| == 1 then parts[0] else parts[0] + "." + JoinDot(parts[1..])
  }

  /** `s.split(".")`: the pieces between the dots; joining them gives `s` back. */
  function SplitDot(s: string): (parts: seq<string>)
    ensures |parts| >= 1
    ensures forall i :: 0 <= i < |parts| ==> '.' !in parts[i]
    ensures JoinDot(parts) == s
    ensures '.' in s <==> |parts| >= 2
    decreases |s|
  {
    if '.' !in s then [s]
    else
      var i := IndexOf(s, '.');
      var rest := SplitDot(s[i + 1..]);
      assert s == s[..i] + "." + s[i + 1..];
      assert ([s[..i]] + rest)[1..] == rest;
      [s[..i]] + rest
  }

  /** Splitting undoes joining for pieces without dots. */
  lemma {:induction false} SplitJoin(parts: seq<string>)
    requires |parts| >= 1
    requires forall i :: 0 <= i < |parts| ==> '.' !in parts[i]
    ensures SplitDot(JoinDot(parts)) == parts
  {
    if |parts| > 1 {
      var s := JoinDot(parts);
      var head := parts[0];
      var tail := JoinDot(parts[1..]);
      assert s == head + "." + tail;
      assert s[|head|] == '.';
      assert s[..|head|] == head;
      assert '.' in s;
      var i := IndexOf(s, '.');
      assert i == |head|;
      assert s[i + 1..] == tail;
      SplitJoin(parts[1..]);
      assert SplitDot(s) == [head] + SplitDot(tail);
    }
  }

  // ---------------------------------------------------------------- ILIKE

  /** `text ILIKE pattern` with the default escape `\`: `%` matches any run, `_` any
      one character, `\` makes the next character literal, and letters compare
      after case folding. */
  function LikeMatch(p: string, t: string): (r: bool)
    ensures NoWildcards(p) ==> (r <==> FoldAll(t) == FoldAll(p))
    decreases |p| + |t|
  {
    if p == [] then t == []
    else if p[0] == '%' then LikeMatch(p[1..], t) || (t != [] && LikeMatch(p, t[1..]))
    else if p[0] == '_' then t != [] && LikeMatch(p[1..], t[1..])
    else if p[0] == '\\' && |p| >= 2 then t != [] && Fold(t[0]) == Fold(p[1]) && LikeMatch(p[2..], t[1..])
    else
      LiteralStep(p, t);
      t != [] && Fold(t[0]) == Fold(p[0]) && LikeMatch(p[1..], t[1..])
  }

  /** Peeling the first character off a literal pattern and off the text. */
  lemma LiteralStep(p: string, t: string)
    requires p != []
    ensures NoWildcards(p) ==> NoWildcards(p[1..])
    ensures FoldAll(t) == FoldAll(p) <==>
              t != [] && Fold(t[0]) == Fold(p[0]) && FoldAll(t[1..]) == FoldAll(p[1..])
  {
    if NoWildcards(p) {
      forall i | 0 <= i < |p[1..]| ensures !IsWildcard(p[1..][i]) {
        assert p[1..][i] == p[i + 1];
      }
    }
    if FoldAll(t) == FoldAll(p) {
      assert |t| == |p|;
      assert forall i :: 0 <= i < |t| - 1 ==> FoldAll(t[1..])[i] == FoldAll(t)[i + 1];
      assert forall i :: 0 <= i < |p| - 1 ==> FoldAll(p[1..])[i] == FoldAll(p)[i + 1];
      assert FoldAll(t[1..]) == FoldAll(p[1..]);
    }
    if t != [] && Fold(t[0]) == Fold(p[0]) && FoldAll(t[1..]) == FoldAll(p[1..]) {
      forall i | 0 <= i < |t| ensures FoldAll(t)[i] == FoldAll(p)[i] {
        if i > 0 {
          assert FoldAll(t[1..])[i - 1] == FoldAll(p[1..])[i - 1];
        }
      }
    }
  }

  predicate IsWildcard(c: char) {
    c == '%' || c == '_' || c == '\\'
  }

  predicate NoWildcards(s: string) {
    forall i :: 0 <= i < |s| ==> !IsWildcard(s[i])
  }

  /** `t` contains `s`, ignoring case. */
  predicate ContainsFolded(t: string, s: string) {
    exists i :: 0 <= i <= |t| - |s| && FoldedAt(t, s, i)
  }

  /** `t` holds `s` at position `i`, ignoring case. */
  predicate FoldedAt(t: string, s: string, i: int) {
    0 <= i <= |t| - |s| && FoldAll(t[i..i + |s|]) == FoldAll(s)
  }

  lemma {:induction false} LikeAnyTail(t: string)
    ensures LikeMatch("%", t)
  {
    if t != [] {
      LikeAnyTail(t[1..]);
    }
  }

  /** A literal pattern followed by `%` matches the texts that start with it. */
  lemma {:induction false} LikeLiteralThenAny(s: string, t: string)
    requires NoWildcards(s)
    ensures LikeMatch(s + "%", t) <==> |t| >= |s| && FoldAll(t[..|s|]) == FoldAll(s)
  {
    if s == [] {
      assert s + "%" == "%";
      LikeAnyTail(t);
      assert FoldAll(t[..0]) == FoldAll(s);
    } else {
      var p := s + "%";
      assert p[0] == s[0] && p[1..] == s[1..] + "%";
      assert NoWildcards(s[1..]) by {
        forall i | 0 <= i < |s[1..]| ensures !IsWildcard(s[1..][i]) {
          assert s[1..][i] == s[i + 1];
        }
      }
      assert !IsWildcard(s[0]);
      if t != [] {
        LikeLiteralThenAny(s[1..], t[1..]);
        if |t| >= |s| {
          var a := FoldAll(t[..|s|]);
          var b := FoldAll(s);
          var a' := FoldAll(t[1..][..|s| - 1]);
          var b' := FoldAll(s[1..]);
          assert a == [Fold(t[0])] + a' by {
            assert t[..|s|] == [t[0]] + t[1..][..|s| - 1];
          }
          assert b == [Fold(s[0])] + b';
          assert a == b <==> Fold(t[0]) == Fold(s[0]) && a' == b' by {
            if a == b {
              assert a[0] == b[0];
              assert a[1..] == a' && b[1..] == b';
            }
          }
        }
      }
    }
  }

  /** A leading `%` lets the rest of the pattern match any suffix of the text. */
  lemma {:induction false} LikeLeadingAny(q: string, t: string)
    ensures LikeMatch("%" + q, t) <==> exists i :: 0 <= i <= |t| && LikeMatch(q, t[i..])
  {
    var p := "%" + q;
    assert p[0] == '%' && p[1..] == q;
    assert t[0..] == t;
    if t != [] {
      LikeLeadingAny(q, t[1..]);
      if exists i :: 0 <= i <= |t| && LikeMatch(q, t[i..]) {
        var i :| 0 <= i <= |t| && LikeMatch(q, t[i..]);
        if i > 0 {
          assert t[1..][i - 1..] == t[i..];
        }
      }
      if exists j :: 0 <= j <= |t[1..]| && LikeMatch(q, t[1..][j..]) {
        var j :| 0 <= j <= |t[1..]| && LikeMatch(q, t[1..][j..]);
        assert t[1..][j..] == t[j + 1..];
      }
    }
  }

  /** The pattern `%s%` the listing builds from a search text without wildcards
      selects exactly the texts that contain it, ignoring case. */
  lemma SearchPatternIsSubstring(s: string, t: string)
    requires NoWildcards(s)
    ensures LikeMatch("%" + s + "%", t) <==> ContainsFolded(t, s)
  {
    assert "%" + s + "%" == "%" + (s + "%");
    LikeLeadingAny(s + "%", t);
    if ContainsFolded(t, s) {
      var i :| 0 <= i <= |t| - |s| && FoldedAt(t, s, i);
      LikeLiteralThenAny(s, t[i..]);
      assert t[i..][..|s|] == t[i..i + |s|];
    }
    if exists i :: 0 <= i <= |t| && LikeMatch(s + "%", t[i..]) {
      var i :| 0 <= i <= |t| && LikeMatch(s + "%", t[i..]);
      LikeLiteralThenAny(s, t[i..]);
      assert t[i..][..|s|] == t[i..i + |s|];
      assert FoldedAt(t, s, i);
    }
  }

  /** An empty search text selects every non-null text. */
  lemma EmptySearchSelectsAll(t: string)
    ensures LikeMatch("%" + "" + "%", t)
  {
    assert "%" + "" + "%" == "%" + "%";
    LikeLeadingAny("%", t);
    LikeAnyTail(t);
    assert t[0..] == t;
  }

  // ---------------------------------------------------------------- The listing dictionaries

  /** The fields the listing may sort by. */
  const SortableFields: seq<string> := ["identifier", "first_name", "last_name", "middle_name", "group", "passport_number"]

  /** A value of the order dictionary: a direction, or `{field: direction}` for a relation. */
  datatype SortEntry = Direction(order: Order) | NestedDirection(field: string, order: Order)

  /** A value of the where dictionary: `ILike(pattern)`, or `{field: ILike(pattern)}` for a relation. */
  datatype Condition = ILike(pattern: string) | NestedILike(fields: map<string, string>)

  /** The order dictionary for `sort_by` and `order`. */
  function OrderFor(sortBy: string, order: Order): map<string, SortEntry> {
    if '.' in sortBy then
      var parts := SplitDot(sortBy);
      map[parts[0] := NestedDirection(parts[1], order)]
    else map[sortBy := Direction(order)]
  }

  /** The where dictionary for `search_by` and `search`. */
  function WhereFor(searchBy: string, search: string): map<string, Condition> {
    if searchBy == "" then map[]
    else if '.' in searchBy then
      var parts := SplitDot(searchBy);
      map[parts[0] := NestedILike(map[parts[1] := "%" + search + "%"])]
    else map[searchBy := ILike("%" + search + "%")]
  }

  /** No field of the allow-list has a dot, so the order dictionary of an accepted
      `sort_by` has exactly that one key, mapped to the direction. */
  lemma OrderOfSortableField(sortBy: string, order: Order)
    requires sortBy in SortableFields
    ensures OrderFor(sortBy, order) == map[sortBy := Direction(order)]
    ensures OrderFor(sortBy, order).Keys == {sortBy}
  {
    assert '.' !in sortBy by {
      assert '.' !in "identifier" && '.' !in "first_name" && '.' !in "last_name";
      assert '.' !in "middle_name" && '.' !in "group" && '.' !in "passport_number";
    }
  }

  /** The where dictionary is empty exactly when `search_by` is empty; a plain key
      holds one pattern, a dotted key `a.b` holds `{b: pattern}` under `a`. */
  lemma WhereShape(searchBy: string, search: string)
    ensures WhereFor(searchBy, search) == map[] <==> searchBy == ""
    ensures searchBy != "" && '.' !in searchBy ==>
              WhereFor(searchBy, search) == map[searchBy := ILike("%" + search + "%")]
    ensures forall a, b :: '.' !in a && '.' !in b && searchBy == a + "." + b ==>
              WhereFor(searchBy, search) == map[a := NestedILike(map[b := "%" + search + "%"])]
  {
    if searchBy != "" {
      if '.' in searchBy {
        assert SplitDot(searchBy)[0] in WhereFor(searchBy, search);
      } else {
        assert searchBy in WhereFor(searchBy, search);
      }
    }
    forall a, b | '.' !in a && '.' !in b && searchBy == a + "." + b
      ensures WhereFor(searchBy, search) == map[a := NestedILike(map[b := "%" + search + "%"])]
    {
      var parts := [a, b];
      assert JoinDot(parts[1..]) == b;
      assert JoinDot(parts) == searchBy;
      SplitJoin(parts);
      assert searchBy[|a|] == '.';
    }
  }

  // ---------------------------------------------------------------- Reading a where dictionary

  /** What a property name of Student is to a text search: a text column, a
      property of another type (a uuid, a date, an enum or a relation) on which
      ILIKE is a type error, or no property at all. */
  datatype PropertyKind = TextProperty | OtherProperty | NoProperty

  const StudentTextColumns: set<string> :=
    {"identifier", "last_name", "first_name", "middle_name", "pinfl", "email", "passport_number", "group", "faculty"}

  const StudentOtherProperties: set<string> :=
    {"id", "created_at", "updated_at", "deleted_at", "deleted_by", "birth_date", "gender", "user", "applications"}

  function StudentProperty(name: string): PropertyKind {
    if name in StudentTextColumns then TextProperty
    else if name in StudentOtherProperties then OtherProperty
    else NoProperty
  }

  /** The value of a text column of a student, `NULL` as `None`. */
  function StudentText(st: Student, name: string): Option<string>
    requires StudentProperty(name) == TextProperty
  {
    if name == "identifier" then Some(st.identifier)
    else if name == "last_name" then Some(st.lastName)
    else if name == "first_name" then Some(st.firstName)
    else if name == "middle_name" then st.middleName
    else if name == "pinfl" then st.pinfl
    else if name == "email" then st.email
    else if name == "passport_number" then Some(st.passportNumber)
    else if name == "group" then Some(st.group)
    else Some(st.faculty)
  }

  /** The error the store raises for one entry of a where dictionary, if any. An
      entry on a related record is judged by `nestedError`, since joins are not
      part of this model. */
  function KeyError(key: string, c: Condition, nestedError: (string, map<string, string>) -> Option<StoreError>): (r: Option<StoreError>)
    ensures c.ILike? ==> (r.None? <==> StudentProperty(key) == TextProperty)
    ensures c.ILike? ==> (r == Some(UnknownProperty(key)) <==> StudentProperty(key) == NoProperty)
  {
    match c
    case ILike(_) =>
      (match StudentProperty(key)
       case NoProperty => Some(UnknownProperty(key))
       case OtherProperty => Some(QueryRejected(key))
       case TextProperty => None)
    case NestedILike(fields) => nestedError(key, fields)
  }

  /** A student row meets every entry of the where dictionary. A text column that is
      `NULL` meets no pattern. */
  predicate Selects(st: Student, where: map<string, Condition>, nestedSelects: (Student, string, map<string, string>) -> bool)
    ensures Selects(st, where, nestedSelects) ==>
              forall key :: key in where && where[key].ILike? ==>
                StudentProperty(key) == TextProperty && StudentText(st, key).Some?
  {
    forall key :: key in where ==> EntrySelects(st, key, where[key], nestedSelects)
  }

  predicate EntrySelects(st: Student, key: string, c: Condition, nestedSelects: (Student, string, map<string, string>) -> bool) {
    match c
    case ILike(p) =>
      StudentProperty(key) == TextProperty && var v := StudentText(st, key); v.Some? && LikeMatch(p, v.value)
    case NestedILike(fields) => nestedSelects(st, key, fields)
  }

  /** Searching a text column of a student with a search text that has no wildcards
      selects the student exactly when the column is set and contains the text,
      ignoring case. */
  lemma SearchSelectsContaining(st: Student, column: string, search: string,
                                nestedSelects: (Student, string, map<string, string>) -> bool)
    requires StudentProperty(column) == TextProperty
    requires NoWildcards(search)
    ensures Selects(st, WhereFor(column, search), nestedSelects) <==>
              StudentText(st, column).Some? && ContainsFolded(StudentText(st, column).value, search)
  {
    assert '.' !in column && column != "";
    var where := WhereFor(column, search);
    assert where == map[column := ILike("%" + search + "%")];
    assert column in where && forall key :: key in where ==> key == column;
    assert Selects(st, where, nestedSelects) <==> EntrySelects(st, column, ILike("%" + search + "%"), nestedSelects);
    if StudentText(st, column).Some? {
      SearchPatternIsSubstring(search, StudentText(st, column).value);
    }
  }
}
