/** The handlers of application.controller.ts: an application is filed by the
    student whose identifier is the current user's username, listed with a visibility
    filter, and answered. */
module ApplicationController {
  import opened Base
  import opened Entities
  import opened Services

  const StudentNotFoundFull: string := "Студент не найден(а)"

  /** `applications.filter(i => i.student)`: only applications still owned by a student. */
  function Owned(apps: map<Id, Application>): (r: map<Id, Application>)
    ensures forall k :: k in r <==> k in apps && apps[k].student.Some?
    ensures forall k :: k in r ==> r[k] == apps[k]
  {
    map k | k in apps && apps[k].student.Some? :: apps[k]
  }

  /** Filtering twice is filtering once. */
  lemma OwnedIdempotent(apps: map<Id, Application>)
    ensures Owned(Owned(apps)) == Owned(apps)
  {
    assert Owned(Owned(apps)).Keys == Owned(apps).Keys;
  }

  /** `createApplicationHandler`: 404 without a student of the current username;
      otherwise a new pending application of that student. */
  method CreateApplication(b: Backend, current: User, message: string) returns (reply: Reply<Application>)
    requires b.Valid()
    modifies b`applications, b`nextId
    ensures b.Valid()
    ensures !old(exists k :: k in b.students && b.students[k].identifier == current.username) ==>
              reply == Fail(404, StudentNotFoundFull) && b.applications == old(b.applications) && b.nextId == old(b.nextId)
    ensures old(exists k :: k in b.students && b.students[k].identifier == current.username) ==>
              exists k :: k in b.students && b.students[k].identifier == current.username &&
                          reply == Ok(201, NewApplication(old(b.nextId), message, k)) &&
                          b.applications == old(b.applications)[old(b.nextId) := reply.data]
  {
    var student := b.FindStudentByIdentifier(current.username);
    if student.None? {
      return Fail(404, StudentNotFoundFull);
    }
    var a := b.CreateApplication(message, student.value.id);
    reply := Ok(201, a);
  }

  /** `getApplicationsHandler`: a user with the student role whose student is found
      sees only that student's applications; anyone else sees all of them; an
      application no student owns any more is never shown. */
  method GetApplications(b: Backend, current: User) returns (reply: Reply<map<Id, Application>>)
    requires b.Valid()
    ensures reply.Ok? && reply.status == 200
    ensures forall k :: k in reply.data ==>
              k in b.applications && reply.data[k] == b.applications[k] &&
              LiveApplication(b.applications[k]) && b.applications[k].student.Some?
    ensures (StudentRole in current.roles && exists s :: s in b.students && b.students[s].identifier == current.username) ==>
              forall k :: k in reply.data <==>
                            k in b.applications && LiveApplication(b.applications[k]) && b.applications[k].student.Some? &&
                            b.students[b.applications[k].student.value].identifier == current.username
    ensures !(StudentRole in current.roles && exists s :: s in b.students && b.students[s].identifier == current.username) ==>
              forall k :: k in reply.data <==>
                            k in b.applications && LiveApplication(b.applications[k]) && b.applications[k].student.Some?
  {
    var student: Option<Student> := None;
    if StudentRole in current.roles {
      student := b.FindStudentByIdentifier(current.username);
    }
    var applications := b.GetApplications(if student.Some? then Some(student.value.id) else None);
    reply := Ok(200, Owned(applications));
  }

  /** `updateApplicationHandler`: the service's result, `null` for an unknown id,
      always with status 200. */
  method UpdateApplication(b: Backend, id: Id, response: Field<string>) returns (reply: Reply<Option<Application>>)
    requires b.Valid()
    modifies b`applications
    ensures b.Valid()
    ensures reply.Ok? && reply.status == 200
    ensures !(id in old(b.applications) && LiveApplication(old(b.applications[id]))) ==>
              reply.data.None? && b.applications == old(b.applications)
    ensures id in old(b.applications) && LiveApplication(old(b.applications[id])) ==>
              reply.data == Some(Respond(old(b.applications[id]), response)) &&
              b.applications == old(b.applications)[id := reply.data.value]
  {
    var application := b.UpdateApplication(id, response);
    reply := Ok(200, application);
  }
}
