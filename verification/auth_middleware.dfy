/** The request guards of the backend: reading the access token from the
    `Authorization` header, and the role and estate checks that routes put
    in front of their handlers. Signature checking is the caller's `verify`
    parameter. */
module AuthMiddleware {
  import opened Common
  import opened Types
  import opened BackendStore
  import opened ErrorHandler

  /** The claims of an access token, as login signs them. */
  datatype AccessClaims = AccessClaims(userId: string, role: string, estateId: Option<string>)

  /** The claims login puts in the token of `u`. */
  function IssuedClaims(u: User): (c: AccessClaims)
    ensures c.userId == u.id && ParseRole(c.role) == Some(u.role) && c.estateId == u.estateId
  {
    AccessClaims(u.id, RoleName(u.role), u.estateId)
  }

  /** A claim read by its name: only the three claims the token carries
      exist. */
  function Claim(c: AccessClaims, name: string): (v: Option<string>)
    ensures name == "userId" ==> v == Some(c.userId)
    ensures name == "role" ==> v == Some(c.role)
    ensures name == "estateId" ==> v == c.estateId
    ensures name != "userId" && name != "role" && name != "estateId" ==> v.None?
  {
    if name == "userId" then Some(c.userId)
    else if name == "role" then Some(c.role)
    else if name == "estateId" then c.estateId
    else None
  }

  /** What checking a token's signature and expiry gives. */
  datatype VerifyOutcome = Verified(claims: AccessClaims) | Expired | Rejected

  const AccessTokenRequired := "Access token required"
  const AuthenticationRequired := "Authentication required"

  /** `authHeader && authHeader.split(' ')[1]`: the second space-separated
      word of the header, if there is a non-empty one. */
  function BearerToken(header: Option<string>): (t: Option<string>)
    ensures t.Some? ==> Truthy(header) && t.value != "" && ' ' !in t.value
    ensures t.Some? ==> |Split(header.value, ' ')| >= 2 && t.value == Split(header.value, ' ')[1]
  {
    if !Truthy(header) then None
    else
      var words := Split(header.value, ' ');
      if |words| >= 2 && words[1] != "" then Some(words[1]) else None
  }

  /** The usual header gives the token back. */
  lemma BearerTokenReadsBack(scheme: string, token: string)
    requires ' ' !in scheme && ' ' !in token && token != ""
    ensures BearerToken(Some(scheme + " " + token)) == Some(token)
  {
    SplitAfterWord(scheme, token, ' ');
    SplitWord(token, ' ');
  }

  /** `authenticateToken`: a missing token is 401, an expired one 401, any
      other verification failure 403; otherwise the claims become the
      request's user. */
  function AuthenticateToken(header: Option<string>, verify: string -> VerifyOutcome): (r: (Next, Option<AccessClaims>))
    ensures BearerToken(header).None? ==> r == (Fail(Unauthorized(Some(AccessTokenRequired))), None)
    ensures BearerToken(header).Some? ==>
              match verify(BearerToken(header).value)
              case Expired => r == (Fail(Unauthorized(Some("Token has expired"))), None)
              case Rejected => r == (Fail(Forbidden(Some("Invalid token"))), None)
              case Verified(c) => r == (Continue, Some(c))
    ensures r.0.Continue? <==> r.1.Some?
  {
    match BearerToken(header)
    case None => (Fail(Unauthorized(Some(AccessTokenRequired))), None)
    case Some(token) =>
      match verify(token)
      case Expired => (Fail(Unauthorized(Some("Token has expired"))), None)
      case Rejected => (Fail(Forbidden(Some("Invalid token"))), None)
      case Verified(c) => (Continue, Some(c))
  }

  /** `requireRole(...allowed)`. */
  function RequireRole(allowed: seq<string>, user: Option<AccessClaims>): (r: Next)
    ensures user.None? ==> r == Fail(Unauthorized(Some(AuthenticationRequired)))
    ensures user.Some? && user.value.role !in allowed
            ==> r == Fail(Forbidden(Some("Access denied. Required role: " + Join(allowed, " or "))))
    ensures r.Continue? <==> user.Some? && user.value.role in allowed
  {
    if user.None? then Fail(Unauthorized(Some(AuthenticationRequired)))
    else if user.value.role !in allowed then
      Fail(Forbidden(Some("Access denied. Required role: " + Join(allowed, " or "))))
    else Continue
  }

  predicate IsSuperAdmin(c: AccessClaims) {
    c.role == RoleName(SuperAdmin)
  }

  /** `requireSameEstate`: the super administrator passes, anyone else
      only for their own estate. The estate asked for is compared with
      `!==`, so a user without an estate (`null` in the token) passes a
      request whose body names the estate as `null`, and nothing passes a
      request that names no estate at all (`undefined`). */
  function RequireSameEstate(user: Option<AccessClaims>, param: Option<string>, body: Body): (r: Next)
    ensures user.None? ==> r == Fail(Unauthorized(Some(AuthenticationRequired)))
    ensures user.Some? ==> (r.Continue? <==> IsSuperAdmin(user.value) || SameEstate(user.value, param, body))
    ensures r.Fail? && user.Some? ==> r == Fail(Forbidden(Some(OwnEstateOnly)))
  {
    if user.None? then Fail(Unauthorized(Some(AuthenticationRequired)))
    else if IsSuperAdmin(user.value) || SameEstate(user.value, param, body) then Continue
    else Fail(Forbidden(Some(OwnEstateOnly)))
  }

  const OwnEstateOnly := "Access denied. You can only access your own estate."

  /** `req.params.estateId || req.body.estateId`: the route parameter when
      it is a non-empty string, else whatever the body holds under
      `estateId`, `None` standing for `undefined`. */
  function AskedEstate(param: Option<string>, body: Body): (a: Option<JsonValue>)
    ensures Truthy(param) ==> a == Some(JStr(param.value))
    ensures !Truthy(param) && "estateId" !in body ==> a.None?
    ensures !Truthy(param) && "estateId" in body ==> a == Some(body["estateId"])
  {
    if Truthy(param) then Some(JStr(param.value))
    else if "estateId" in body then Some(body["estateId"])
    else None
  }

  /** `req.user.estateId !== estateId` is false: the token's estate, a
      string or `null`, is strictly equal to the estate asked for. */
  predicate SameEstate(c: AccessClaims, param: Option<string>, body: Body) {
    match AskedEstate(param, body)
    case None => false
    case Some(v) =>
      match v
      case JStr(e) => c.estateId == Some(e)
      case JNull => c.estateId.None?
      case JOther => false
  }

  /** The route parameter wins over the body. A user without an estate
      passes only a request with no route estate whose body sends
      `estateId: null`; a request that names no estate is refused unless
      the user is the super administrator. */
  lemma SameEstateCases(c: AccessClaims, param: Option<string>, body: Body)
    ensures !IsSuperAdmin(c) && Truthy(param) ==> (RequireSameEstate(Some(c), param, body).Continue? <==> c.estateId == param)
    ensures !IsSuperAdmin(c) && !Truthy(param) && c.estateId.Some? ==>
              (RequireSameEstate(Some(c), param, body).Continue? <==>
                 "estateId" in body && body["estateId"] == JStr(c.estateId.value))
    ensures !IsSuperAdmin(c) && c.estateId.None? ==>
              (RequireSameEstate(Some(c), param, body).Continue? <==>
                 !Truthy(param) && "estateId" in body && body["estateId"] == JNull)
    ensures !IsSuperAdmin(c) && !Truthy(param) && "estateId" !in body ==> RequireSameEstate(Some(c), param, body).Fail?
    ensures IsSuperAdmin(c) ==> RequireSameEstate(Some(c), param, body).Continue?
  {
  }

  /** `requireApproved` checks nothing and always hands on. */
  function RequireApproved(user: Option<AccessClaims>): (r: Next)
    ensures r.Continue?
  {
    Continue
  }

  function RequireAdmin(user: Option<AccessClaims>): Next {
    RequireRole([RoleName(SuperAdmin), RoleName(EstateAdmin)], user)
  }

  function RequireSuperAdmin(user: Option<AccessClaims>): Next {
    RequireRole([RoleName(SuperAdmin)], user)
  }

  function RequireEstateAdmin(user: Option<AccessClaims>): Next {
    RequireRole([RoleName(EstateAdmin)], user)
  }

  function RequireSecurity(user: Option<AccessClaims>): Next {
    RequireRole([RoleName(Security)], user)
  }

  function RequireResident(user: Option<AccessClaims>): Next {
    RequireRole([RoleName(Resident)], user)
  }

  /** For a token issued at login, the shorthands admit exactly the roles
      they name: both administrators for `requireAdmin`, one role for each
      of the others. */
  lemma ShorthandsAdmit(u: User)
    ensures RequireAdmin(Some(IssuedClaims(u))).Continue? <==> u.role == SuperAdmin || u.role == EstateAdmin
    ensures RequireSuperAdmin(Some(IssuedClaims(u))).Continue? <==> u.role == SuperAdmin
    ensures RequireEstateAdmin(Some(IssuedClaims(u))).Continue? <==> u.role == EstateAdmin
    ensures RequireSecurity(Some(IssuedClaims(u))).Continue? <==> u.role == Security
    ensures RequireResident(Some(IssuedClaims(u))).Continue? <==> u.role == Resident
  {
  }

  /** A request carrying a valid token of a user passes `requireRole`
      exactly when the user's role is among those allowed. */
  lemma ValidTokenPassesRoleCheck(scheme: string, token: string, verify: string -> VerifyOutcome, u: User,
                                  roles: seq<UserRole>)
    requires ' ' !in scheme && ' ' !in token && token != ""
    requires verify(token) == Verified(IssuedClaims(u))
    ensures var (next, user) := AuthenticateToken(Some(scheme + " " + token), verify);
            next == Continue
            && (RequireRole(seq(|roles|, k requires 0 <= k < |roles| => RoleName(roles[k])), user).Continue?
                <==> u.role in roles)
  {
    BearerTokenReadsBack(scheme, token);
    var names := seq(|roles|, k requires 0 <= k < |roles| => RoleName(roles[k]));
    if u.role in roles {
      var k :| 0 <= k < |roles| && roles[k] == u.role;
      assert names[k] == RoleName(u.role);
    }
    if RoleName(u.role) in names {
      var k :| 0 <= k < |names| && names[k] == RoleName(u.role);
      assert ParseRole(RoleName(roles[k])) == Some(roles[k]);
    }
  }
}
