/** The bearer-token guard of the SQLite variant: `authRequired` and
    `requireRole`. Token verification (`jwt.verify` with the server secret)
    is a parameter `verify` that yields the token's payload, or `None` where
    the library throws. */
module AccessGuard {
  import opened Rows
  import opened Js

  /** The payload the server signs into a token (`{ id, mobile, role }`). */
  datatype Claims = Claims(id: Value, mobile: Value, role: Value)

  /** What a middleware does: call `next` with `req.user` set to `user`, or
      answer with an error status. */
  datatype Gate = Next(user: Claims) | Deny(status: int, message: string)

  const BearerPrefix := "Bearer "

  /** The token in an `Authorization` header: the header with its first
      seven characters removed, when it starts with `Bearer `. */
  function BearerToken(authorization: Option<string>): (token: Option<string>)
    ensures token.Some? <==> authorization.Some? && StartsWith(authorization.value, BearerPrefix)
    ensures token.Some? ==> authorization.value == BearerPrefix + token.value
  {
    var header := if authorization.Some? then authorization.value else "";
    if StartsWith(header, BearerPrefix) then Some(header[|BearerPrefix|..]) else None
  }

  function AuthRequired(authorization: Option<string>, verify: string -> Option<Claims>): Gate
  {
    var token := BearerToken(authorization);
    if token.None? || token.value == "" then Deny(401, "Unauthorized")
    else match verify(token.value)
      case None => Deny(401, "Invalid token")
      case Some(payload) => Next(payload)
  }

  /** `requireRole(role)`: exact comparison of the caller's role claim. */
  function RequireRole(user: Option<Claims>, role: string): Gate
  {
    if user.None? then Deny(401, "Unauthorized")
    else if user.value.role != Text(role) then Deny(403, "Forbidden")
    else Next(user.value)
  }

  /** The chain in front of every admin route: `authRequired`, then `requireRole('ADMIN')`. */
  function AdminGate(authorization: Option<string>, verify: string -> Option<Claims>): Gate
  {
    match AuthRequired(authorization, verify)
    case Deny(status, message) => Deny(status, message)
    case Next(user) => RequireRole(Some(user), "ADMIN")
  }

  /** `authRequired` lets a request through exactly when the header is
      `Bearer ` followed by a non-empty token that verifies, and then
      `req.user` is that token's payload; every refusal is a 401, "Invalid
      token" when a non-empty bearer token fails verification and
      "Unauthorized" when there is no such token. */
  lemma AuthRequiredPasses(authorization: Option<string>, verify: string -> Option<Claims>)
    ensures AuthRequired(authorization, verify).Next? <==>
      authorization.Some? && |authorization.value| > |BearerPrefix|
      && authorization.value[..|BearerPrefix|] == BearerPrefix
      && verify(authorization.value[|BearerPrefix|..]).Some?
    ensures AuthRequired(authorization, verify).Next? ==>
      AuthRequired(authorization, verify).user == verify(authorization.value[|BearerPrefix|..]).value
    ensures AuthRequired(authorization, verify).Deny? ==> AuthRequired(authorization, verify).status == 401
    ensures (authorization.Some? && |authorization.value| > |BearerPrefix|
             && authorization.value[..|BearerPrefix|] == BearerPrefix
             && verify(authorization.value[|BearerPrefix|..]).None?) ==>
      AuthRequired(authorization, verify) == Deny(401, "Invalid token")
    ensures !(authorization.Some? && |authorization.value| > |BearerPrefix|
              && authorization.value[..|BearerPrefix|] == BearerPrefix) ==>
      AuthRequired(authorization, verify) == Deny(401, "Unauthorized")
  {
    if authorization.Some? && StartsWith(authorization.value, BearerPrefix) {
      var token := BearerToken(authorization).value;
      assert authorization.value == BearerPrefix + token;
      assert |authorization.value| > |BearerPrefix| <==> token != "";
      assert authorization.value[|BearerPrefix|..] == token;
    }
  }

  /** A header that is exactly `Bearer ` carries the empty token: 401 without verifying. */
  lemma EmptyBearerRejected(verify: string -> Option<Claims>)
    ensures AuthRequired(Some(BearerPrefix), verify) == Deny(401, "Unauthorized")
  {
    assert BearerPrefix[|BearerPrefix|..] == "";
  }

  /** Any header not starting with `Bearer ` (a missing one included) is a 401. */
  lemma NonBearerRejected(authorization: Option<string>, verify: string -> Option<Claims>)
    requires authorization.None? || !StartsWith(authorization.value, BearerPrefix)
    ensures AuthRequired(authorization, verify) == Deny(401, "Unauthorized")
  {
  }

  /** `requireRole` passes exactly the callers whose role equals the required one. */
  lemma RequireRoleExact(user: Option<Claims>, role: string)
    ensures RequireRole(user, role).Next? <==> user.Some? && user.value.role == Text(role)
    ensures user.None? ==> RequireRole(user, role) == Deny(401, "Unauthorized")
    ensures user.Some? && user.value.role != Text(role) ==> RequireRole(user, role) == Deny(403, "Forbidden")
  {
  }

  /** No role hierarchy: a USER token is refused by the admin chain with 403,
      and an ADMIN token is not a USER token. */
  lemma UserTokenForbiddenOnAdminRoutes(token: string, verify: string -> Option<Claims>, id: Value, mobile: Value)
    requires token != ""
    requires verify(token) == Some(Claims(id, mobile, Text("USER")))
    ensures AdminGate(Some(BearerPrefix + token), verify) == Deny(403, "Forbidden")
    ensures RequireRole(Some(Claims(id, mobile, Text("ADMIN"))), "USER") == Deny(403, "Forbidden")
  {
    assert (BearerPrefix + token)[..|BearerPrefix|] == BearerPrefix;
    assert (BearerPrefix + token)[|BearerPrefix|..] == token;
  }

  /** The admin chain admits exactly the verified tokens whose role claim is
      `ADMIN`, and hands the handler that token's payload. */
  lemma AdminGateAdmitsOnlyAdmins(authorization: Option<string>, verify: string -> Option<Claims>)
    ensures AdminGate(authorization, verify).Next? <==>
      AuthRequired(authorization, verify).Next? && AuthRequired(authorization, verify).user.role == Text("ADMIN")
    ensures AdminGate(authorization, verify).Next? ==>
      AdminGate(authorization, verify).user == AuthRequired(authorization, verify).user
  {
  }
}
