/** The `requireRole(role)` middleware (middleware/roleAuth.js:1-19): exact
    equality between the required role and the authenticated user's role,
    with no hierarchy between the two roles. */
module RoleAuth {
  import opened Wrappers
  import opened UserModel

  /** The three things the gate can do. A refusal carries both roles for the
      diagnostic message. */
  datatype GateOutcome = Proceed | AuthenticationRequired | AccessDenied(required: Role, actual: Role)

  /** The HTTP status of a refusal. */
  function GateStatus(g: GateOutcome): (code: Option<int>)
    ensures g.Proceed? <==> code.None?
    ensures g.AuthenticationRequired? ==> code == Some(401)
    ensures g.AccessDenied? ==> code == Some(403)
  {
    match g
    case Proceed => None
    case AuthenticationRequired => Some(401)
    case AccessDenied(_, _) => Some(403)
  }

  /** `requireRole(required)` applied to `req.user`. It reads the request and
      changes nothing. */
  function RequireRole(required: Role, user: Option<User>): (g: GateOutcome)
    ensures user.None? <==> g == AuthenticationRequired
    ensures g == Proceed <==> user.Some? && user.value.role == required
    ensures g.AccessDenied? <==> user.Some? && user.value.role != required
    ensures g.AccessDenied? ==> g.required == required && g.actual == user.value.role
  {
    match user
    case None => AuthenticationRequired
    case Some(u) => if u.role != required then AccessDenied(required, u.role) else Proceed
  }

  /** No hierarchy: a teacher is refused by a student-only gate, and a
      student by a teacher-only one. */
  lemma NoRoleHierarchy(u: User)
    ensures u.role == Teacher ==> RequireRole(Student, Some(u)) == AccessDenied(Student, Teacher)
    ensures u.role == Student ==> RequireRole(Teacher, Some(u)) == AccessDenied(Teacher, Student)
  {
  }
}
