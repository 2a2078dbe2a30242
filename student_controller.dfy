/** The handlers of student.controller.ts: the listing with its sort allow-list and
    its dotted sort and search keys, and the mapping of the student services'
    outcomes to replies. */
module StudentController {
  import opened Base
  import opened Entities
  import opened Schemas
  import opened Query
  import opened Services

  const StudentNotFoundShort: string := "Студент не найден"
  const StudentNotFoundFull: string := "Студент не найден(а)"
  const StudentExists: string := "Студент уже существует"
  const BadParameter: string := "Неверный параметр: "

  /** A destructuring default: the given value, or `d` when it is undefined. */
  function OrDefault<T>(o: Option<T>, d: T): (r: T)
    ensures o.Some? ==> r == o.value
    ensures o.None? ==> r == d
  {
    if o.Some? then o.value else d
  }

  /** `query_order`, built in place: a dotted `relation.field` key becomes
      `{relation: {field: order}}`, any other key `{key: order}`. */
  method BuildOrder(sortBy: string, order: Order) returns (queryOrder: map<string, SortEntry>)
    ensures queryOrder == OrderFor(sortBy, order)
  {
    queryOrder := map[];
    if '.' in sortBy {
      var parts := SplitDot(sortBy);
      var relation, field := parts[0], parts[1];
      queryOrder := queryOrder[relation := NestedDirection(field, order)];
    } else {
      queryOrder := queryOrder[sortBy := Direction(order)];
    }
  }

  /** `where`, built in place: nothing for an empty `search_by`; for a dotted key the
      relation's dictionary is created when missing and the field added to it. */
  method BuildWhere(searchBy: string, search: string) returns (where: map<string, Condition>)
    ensures where == WhereFor(searchBy, search)
  {
    where := map[];
    if searchBy != "" {
      var pattern := "%" + search + "%";
      if '.' in searchBy {
        var parts := SplitDot(searchBy);
        var relation, field := parts[0], parts[1];
        if relation !in where {
          where := where[relation := NestedILike(map[])];
        }
        var nested := if where[relation].NestedILike? then where[relation].fields else map[];
        where := where[relation := NestedILike(nested[field := pattern])];
      } else {
        where := where[searchBy := ILike(pattern)];
      }
    }
  }

  /** The body of a listing: the matching students and their number. The page that
      `take`, `skip` and the order cut out of them is the store's, kept here as the
      options it receives. */
  datatype StudentPage = StudentPage(students: set<Id>, total: nat, order: map<string, SortEntry>,
                                     take: Option<int>, skip: Option<int>)

  /** `getStudentsHandler`. */
  method GetStudents(b: Backend, q: PageInput,
                     nestedError: (string, map<string, string>) -> Option<StoreError>,
                     nestedSelects: (Student, string, map<string, string>) -> bool) returns (reply: Reply<StudentPage>)
    ensures OrDefault(q.sortBy, "identifier") !in SortableFields ==>
              reply == Fail(400, BadParameter + OrDefault(q.sortBy, "identifier"))
    ensures reply.Thrown? <==>
              OrDefault(q.sortBy, "identifier") in SortableFields &&
              var where := WhereFor(OrDefault(q.searchBy, ""), OrDefault(q.search, ""));
              exists key :: key in where && KeyError(key, where[key], nestedError).Some?
    ensures reply.Ok? ==>
              reply.status == 200 &&
              reply.data.order == map[OrDefault(q.sortBy, "identifier") := Direction(OrDefault(q.order, Asc))] &&
              reply.data.take == q.take && reply.data.skip == q.skip &&
              reply.data.total == |reply.data.students| &&
              forall k :: k in reply.data.students <==>
                            k in b.students &&
                            Selects(b.students[k], WhereFor(OrDefault(q.searchBy, ""), OrDefault(q.search, "")), nestedSelects)
    ensures reply.Ok? || reply.Fail? || reply.Thrown?
    ensures reply.Fail? ==> OrDefault(q.sortBy, "identifier") !in SortableFields
  {
    var order := OrDefault(q.order, Asc);
    var sortBy := OrDefault(q.sortBy, "identifier");
    var search := OrDefault(q.search, "");
    var searchBy := OrDefault(q.searchBy, "");
    if sortBy !in SortableFields {
      return Fail(400, BadParameter + sortBy);
    }
    var queryOrder := BuildOrder(sortBy, order);
    OrderOfSortableField(sortBy, order);
    var where := BuildWhere(searchBy, search);
    var found := b.FindStudents(where, nestedError, nestedSelects);
    if found.Failure? {
      return Thrown(found.error);
    }
    reply := Ok(200, StudentPage(found.value, |found.value|, queryOrder, q.take, q.skip));
  }

  /** `getStudentHandler`. */
  method GetStudent(b: Backend, id: Id) returns (reply: Reply<Student>)
    ensures id !in b.students ==> reply == Fail(404, StudentNotFoundFull)
    ensures id in b.students ==> reply == Ok(200, b.students[id])
  {
    var found := b.FindStudentById(id);
    if found.None? {
      return Fail(404, StudentNotFoundFull);
    }
    reply := Ok(200, found.value);
  }

  /** `getMeAsStudentHandler`: the student linked to the current user. */
  method GetMeAsStudent(b: Backend, current: Id) returns (reply: Reply<Student>)
    requires b.Valid()
    ensures !(exists k :: k in b.students && b.students[k].user == Some(current)) ==> reply == Fail(404, StudentNotFoundShort)
    ensures (exists k :: k in b.students && b.students[k].user == Some(current)) ==>
              reply.Ok? && reply.status == 200 && reply.data.id in b.students &&
              b.students[reply.data.id] == reply.data && reply.data.user == Some(current)
  {
    var found := b.FindStudentByUser(current);
    if found.None? {
      return Fail(404, StudentNotFoundShort);
    }
    reply := Ok(200, found.value);
  }

  /** `createStudentHandler`: 201 with the saved student; a unique violation of the
      store answers 409; the pre-checks' ZodError and any other error are handed on. */
  method CreateStudent(b: Backend, input: CreateStudentInput) returns (reply: Reply<Student>)
    requires b.Valid()
    modifies b`students, b`users, b`nextId
    ensures b.Valid()
    ensures old(b.IdentifierHeld(input.identifier, None) || b.PassportHeld(input.passportNumber, None)) ==>
              reply == Invalid(UniquenessIssues(old(b.IdentifierHeld(input.identifier, None)), old(b.PassportHeld(input.passportNumber, None))))
    ensures (!old(b.IdentifierHeld(input.identifier, None) || b.PassportHeld(input.passportNumber, None)) &&
             old(b.ClashesWithOthers(PreparedStudent(b.nextId, input), None))) ==> reply == Fail(409, StudentExists)
    ensures !reply.Ok? ==> b.users == old(b.users) && b.students == old(b.students) && b.nextId == old(b.nextId)
    ensures (!old(b.IdentifierHeld(input.identifier, None) || b.PassportHeld(input.passportNumber, None)) &&
             !old(b.ClashesWithOthers(PreparedStudent(b.nextId, input), None))) ==> reply.Ok?
    ensures reply.Ok? ==> reply == Ok(201, PreparedStudent(old(b.nextId), input)) && b.nextId == old(b.nextId) + 1
    ensures reply.Ok? && !old(b.HasLiveUserNamed(input.identifier)) ==>
              b.users == old(b.users) && b.students == old(b.students)[reply.data.id := reply.data]
    ensures reply.Ok? && old(b.HasLiveUserNamed(input.identifier)) ==>
              exists uid :: uid in old(b.users) && Live(old(b.users[uid])) && old(b.users[uid]).username == input.identifier &&
                            if old(b.HeldByOther(uid, reply.data.id)) then
                              b.users == old(b.users) && b.students == old(b.students)[reply.data.id := reply.data]
                            else Linked(old(b.users), b.users, old(b.students)[reply.data.id := reply.data], b.students, reply.data.id, uid)
  {
    var outcome := b.CreateStudent(input);
    if outcome.Saved? {
      reply := Ok(201, outcome.student);
    } else if outcome.Rejected? {
      reply := Invalid(outcome.issues);
    } else {
      var e := outcome.error;
      reply := if e == UniqueViolation then Fail(409, StudentExists) else Thrown(e);
    }
  }

  /** `updateStudentHandler`: 200 with the merged student; an unknown id answers the
      service's 404 and a unique violation 409. */
  method UpdateStudent(b: Backend, id: Id, input: UpdateStudentInput) returns (reply: Reply<Student>)
    requires b.Valid()
    modifies b`students
    ensures b.Valid()
    ensures id !in old(b.students) ==> reply == Fail(404, StudentNotFoundShort)
    ensures !reply.Ok? ==> b.students == old(b.students)
    ensures id in old(b.students) && old(b.UpdateIssues(id, input)) != [] ==> reply == Invalid(old(b.UpdateIssues(id, input)))
    ensures (id in old(b.students) && old(b.UpdateIssues(id, input)) == [] &&
             old(b.ClashesWithOthers(MergePatch(b.students[id], input), Some(id)))) ==> reply == Fail(409, StudentExists)
    ensures (id in old(b.students) && old(b.UpdateIssues(id, input)) == [] &&
             !old(b.ClashesWithOthers(MergePatch(b.students[id], input), Some(id)))) ==>
              reply == Ok(200, MergePatch(old(b.students[id]), input)) && b.students == old(b.students)[id := reply.data]
  {
    var outcome := b.UpdateStudent(id, input);
    match outcome
    case Saved(st) => reply := Ok(200, st);
    case StudentMissing => reply := Fail(404, StudentNotFoundShort);
    case Rejected(issues) => reply := Invalid(issues);
    case Violation(e) => reply := if e == UniqueViolation then Fail(409, StudentExists) else Thrown(e);
  }

  /** `deleteStudentHandler`: 404 for an unknown id; otherwise the student is
      deleted, its applications detached, and the linked user, when the relation
      loads one, soft-deleted by the current user. */
  method DeleteStudent(b: Backend, id: Id, actor: Id, now: Time) returns (reply: Reply<()>)
    requires b.Valid()
    modifies b`students, b`applications, b`users
    ensures b.Valid()
    ensures id !in old(b.students) ==>
              reply == Fail(404, StudentNotFoundShort) &&
              b.students == old(b.students) && b.applications == old(b.applications) && b.users == old(b.users)
    ensures id in old(b.students) ==>
              reply == Ok(204, ()) && b.students == old(b.students) - {id} &&
              b.applications == DetachFrom(old(b.applications), id)
    ensures (id in old(b.students) && old(b.students[id]).user.Some? && Live(old(b.users[b.students[id].user.value]))) ==>
              var uid := old(b.students[id]).user.value;
              b.users == old(b.users)[uid := old(b.users[uid]).(deletedAt := Some(now), deletedBy := Some(actor))]
    ensures !(id in old(b.students) && old(b.students[id]).user.Some? && Live(old(b.users[b.students[id].user.value]))) ==>
              b.users == old(b.users)
  {
    var found := b.FindStudentById(id);
    if found.None? {
      return Fail(404, StudentNotFoundShort);
    }
    var student := found.value;
    var linked := if student.user.Some? then b.FindUserById(student.user.value) else None;
    b.DeleteStudent(student.id);
    if linked.Some? {
      b.DeleteUser(linked.value.id, actor, now);
    }
    reply := Ok(204, ());
  }
}
