// backend/src/middlewares/checkOwnership.ts: the gate that lets a caller
// reach a user's resource only when the caller is that user or an Admin.
module CheckOwnership {
  import opened Common

  /** The claims of the decoded token that verifyToken puts in
      req.body.user; a claim the token lacks is undefined. */
  datatype Claims = Claims(userId: Option<string>, roleUser: Option<string>)

  /** What the middleware reads: the userId route parameter (undefined on a
      route without one), and the request body, absent when no body was
      parsed, in which case reading req.body.user throws. Within the body,
      the user is undefined when no token was decoded into it. */
  datatype Request = Request(paramUserId: Option<string>, body: Option<Option<Claims>>)

  const Forbidden := "You do not have permission to access this resource"
  const VerifyError := "Error verifying resource ownership"

  /** `req.body.user?.user_id` */
  function ActiveUserId(user: Option<Claims>): (id: Option<string>)
    ensures id.Some? ==> user.Some? && user.value.userId == id
  {
    match user
    case None => None
    case Some(c) => c.userId
  }

  /** `req.body.user?.role_user === 'Admin'` */
  predicate IsAdmin(user: Option<Claims>)
  {
    user.Some? && user.value.roleUser == Some("Admin")
  }

  /** checkOwnership: exactly one of `next`, 403 or 500. Two undefined ids
      compare equal, so they pass. */
  function CheckOwnership(req: Request): (g: Gate)
    ensures req.body.None? <==> g == Deny(500, VerifyError)
    ensures g == Next <==> req.body.Some? && (IsAdmin(req.body.value) || req.paramUserId == ActiveUserId(req.body.value))
    ensures g == Deny(403, Forbidden) <==>
      req.body.Some? && !IsAdmin(req.body.value) && req.paramUserId != ActiveUserId(req.body.value)
    ensures g == Next || g == Deny(403, Forbidden) || g == Deny(500, VerifyError)
  {
    match req.body
    case None => Deny(500, VerifyError)
    case Some(user) =>
      if IsAdmin(user) then Next
      else if req.paramUserId != ActiveUserId(user) then Deny(403, Forbidden)
      else Next
  }

  /** An Admin passes whatever the ids. */
  lemma AdminAlwaysPasses(paramUserId: Option<string>, claims: Claims)
    requires claims.roleUser == Some("Admin")
    ensures CheckOwnership(Request(paramUserId, Some(Some(claims)))) == Next
  {
  }

  /** A caller other than an Admin reaches only their own id: the gate passes
      exactly when the route's id is the token's. */
  lemma NonAdminOnlyOwnId(paramUserId: Option<string>, claims: Claims)
    requires claims.roleUser != Some("Admin")
    ensures CheckOwnership(Request(paramUserId, Some(Some(claims)))) == Next <==> paramUserId == claims.userId
    ensures paramUserId != claims.userId ==>
      CheckOwnership(Request(paramUserId, Some(Some(claims)))) == Deny(403, Forbidden)
  {
  }

  /** The routes that use the gate have no userId parameter, so there a
      caller other than an Admin passes only with a token that has no user
      id; a Customer token with an id is refused. */
  lemma RouteWithoutUserIdAdminsOnly(claims: Claims)
    ensures CheckOwnership(Request(None, Some(Some(claims)))) == Next <==>
      claims.roleUser == Some("Admin") || claims.userId.None?
    ensures CheckOwnership(Request(None, Some(Some(Claims(Some("u-1"), Some("Customer")))))) == Deny(403, Forbidden)
  {
  }

  /** Without a decoded token, every request without a userId parameter
      passes, since both ids are undefined. */
  lemma NoTokenNoParamPasses()
    ensures CheckOwnership(Request(None, Some(None))) == Next
    ensures CheckOwnership(Request(Some("u-1"), Some(None))) == Deny(403, Forbidden)
  {
  }
}
