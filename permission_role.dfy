/** `permissionRoleMiddleware(roles)` of `src/middleware/permission_role.ts`:
    the gate a route puts in front of its handler. */
module PermissionRole {
  import opened Base

  /** What the middleware does to the request: answer it with a status and
      an `{ error }` body, or hand it on with `next()`. */
  datatype Effect = Send(status: int, error: string) | Next

  /** The part of `res.locals.user` the gate reads. */
  datatype SessionUser = SessionUser(id: int, role: string)

  /** The gate built from `roles`, applied to the user the authentication
      step left (`None` when there is none): exactly one effect, and
      `next()` only for a user whose role is listed. */
  function RoleGate(roles: seq<string>, user: Option<SessionUser>): (effects: seq<Effect>)
    ensures |effects| == 1
    ensures Next in effects <==> user.Some? && user.value.role in roles
    ensures user.None? ==> effects == [Send(401, "Unauthorized")]
    ensures user.Some? && user.value.role !in roles ==> effects == [Send(403, "Forbidden")]
  {
    if user.None? then [Send(401, "Unauthorized")]
    else if user.value.role !in roles then [Send(403, "Forbidden")]
    else [Next]
  }

  /** With no roles listed every signed-in user is forbidden. */
  lemma EmptyRolesForbidEveryone(u: SessionUser)
    ensures RoleGate([], Some(u)) == [Send(403, "Forbidden")]
  {
  }

  /** Only the set of listed roles matters: their order and repetitions
      do not, and listing more roles never turns a pass into a refusal. */
  lemma MoreRolesNeverRefuseMore(roles: seq<string>, more: seq<string>, user: Option<SessionUser>)
    requires forall r :: r in roles ==> r in more
    ensures Next in RoleGate(roles, user) ==> RoleGate(more, user) == [Next]
  {
  }

  /** Without a user the answer is 401 whatever roles the route lists. */
  lemma NoUserIsUnauthorized(roles: seq<string>)
    ensures RoleGate(roles, None) == [Send(401, "Unauthorized")]
    ensures Next !in RoleGate(roles, None)
  {
  }
}
