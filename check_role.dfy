// backend/src/middlewares/checkRole.ts: the gate in front of a route that
// admits the authenticated users whose role is in a list.
module CheckRole {
  import opened Common

  /** The authenticated user; only the role is read. */
  datatype AuthUser = AuthUser(roleUser: string)

  const NotAuthorized := "Not authorized."
  const AccessDenied := "Access denied. Insufficient permissions."

  /** `checkRole(roles)` on a request whose user is `user` (absent when no
      user was authenticated): 401 first, then 403, then `next`. */
  function CheckRole(roles: seq<string>, user: Option<AuthUser>): (g: Gate)
    ensures g == Next <==> user.Some? && user.value.roleUser in roles
    ensures user.None? ==> g == Deny(401, NotAuthorized)
    ensures user.Some? && user.value.roleUser !in roles ==> g == Deny(403, AccessDenied)
  {
    match user
    case None => Deny(401, NotAuthorized)
    case Some(u) => if u.roleUser !in roles then Deny(403, AccessDenied) else Next
  }

  /** The 401 does not depend on the roles: an unauthenticated request is
      refused the same way by every list, the empty one included. */
  lemma UnauthenticatedBeforeRoles(roles1: seq<string>, roles2: seq<string>)
    ensures CheckRole(roles1, None) == CheckRole(roles2, None) == Deny(401, NotAuthorized)
  {
  }

  /** An empty list denies every authenticated user with 403. */
  lemma EmptyRolesDenyAll(u: AuthUser)
    ensures CheckRole([], Some(u)) == Deny(403, AccessDenied)
  {
  }

  /** Adding roles to the list never locks a user out, and removing roles
      never lets one in. */
  lemma RolesMonotone(roles: seq<string>, more: seq<string>, user: Option<AuthUser>)
    requires forall r :: r in roles ==> r in more
    ensures CheckRole(roles, user) == Next ==> CheckRole(more, user) == Next
    ensures CheckRole(more, user).Deny? ==> CheckRole(roles, user).Deny?
  {
  }

  /** Only the set of roles in the list matters, not its order or repeats. */
  lemma OnlyMembershipMatters(roles1: seq<string>, roles2: seq<string>, user: Option<AuthUser>)
    requires forall r :: r in roles1 <==> r in roles2
    ensures CheckRole(roles1, user) == CheckRole(roles2, user)
  {
  }
}
