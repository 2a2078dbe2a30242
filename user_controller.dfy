/** `getMeHandler` of user.controller.ts: the current user, with its student profile
    attached when it has the student role. */
module UserController {
  import opened Base
  import opened Entities
  import opened Services

  /** The `student` property of the returned user: not set, or set to what the
      lookup found, `null` included. */
  datatype Attached = NotLoaded | Loaded(student: Option<Student>)

  /** The body of the reply: the user's JSON and the attached profile. */
  datatype Me = Me(user: UserView, student: Attached)

  method GetMe(b: Backend, current: User) returns (reply: Reply<Me>)
    requires b.Valid()
    ensures reply.Ok? && reply.status == 200 && reply.data.user == UserJson(current)
    ensures StudentRole !in current.roles ==> reply.data.student == NotLoaded
    ensures StudentRole in current.roles ==>
              reply.data.student.Loaded? &&
              (reply.data.student.student.None? <==> !exists k :: k in b.students && b.students[k].identifier == current.username)
    ensures StudentRole in current.roles && reply.data.student.student.Some? ==>
              var st := reply.data.student.student.value;
              st.id in b.students && b.students[st.id] == st && st.identifier == current.username
  {
    var attached := NotLoaded;
    if StudentRole in current.roles {
      var found := b.FindStudentByIdentifier(current.username);
      attached := Loaded(found);
    }
    reply := Ok(200, Me(UserJson(current), attached));
  }
}
