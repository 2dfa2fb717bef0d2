/** The residents' digital ID: a short-lived token a resident shows at the
    gate, and its verification against the live state of the account and
    the estate. Signing and checking a token are the `sign` and `verify`
    parameters; `now` is the clock in milliseconds. */
module Identity {
  import opened Common
  import opened Types
  import opened BackendStore
  import opened AuthMiddleware

  const ResidentIdType := "RESIDENT_ID"

  /** How long an ID token is valid: five minutes. */
  const IdTokenLifetimeMs := 5 * 60 * 1000

  const IssueFailed := "Failed to generate ID token"
  const OnlyResidents := "Only residents have digital IDs"

  /** The claims of a token as `verify` reads them back; a token signed for
      another purpose may lack either. */
  datatype IdPayload = IdPayload(id: Option<string>, tokenType: Option<string>)

  datatype IdVerify = IdVerified(payload: IdPayload) | IdInvalid

  /** The payload of the ID token of the user `id`. */
  function IdClaims(id: string): (p: IdPayload)
    ensures p.id == Some(id) && p.tokenType == Some(ResidentIdType)
  {
    IdPayload(Some(id), Some(ResidentIdType))
  }

  /** What a verified ID shows the guard. */
  datatype IdentityCard = IdentityCard(id: string, name: string, unitNumber: Option<string>, role: UserRole,
                                       estateName: Option<string>, status: string)

  /** Issuing an ID token to the user `userId` found in the store. */
  function IssueFor(db: Db, userId: string, now: int, sign: IdPayload -> string): (r: Response<(string, int)>)
    ensures UserById(db, userId).None? ==> r == Refuse(404, "User not found")
    ensures UserById(db, userId).Some? && db.users[UserById(db, userId).value].role != Resident
            ==> r == Refuse(403, OnlyResidents)
    ensures r.Respond? <==> UserById(db, userId).Some? && db.users[UserById(db, userId).value].role == Resident
    ensures r.Respond? ==> r == Respond(200, (sign(IdClaims(userId)), now + IdTokenLifetimeMs))
  {
    match UserById(db, userId)
    case None => Refuse(404, "User not found")
    case Some(i) =>
      var u := db.users[i];
      if u.role != Resident then Refuse(403, OnlyResidents)
      else Respond(200, (sign(IdClaims(u.id)), now + IdTokenLifetimeMs))
  }

  /** `getIdentityToken` as written: it reads the user id from a claim
      named `id`, which access tokens do not carry, so the lookup is given
      no key and throws. */
  function GetIdentityTokenAsWritten(db: Db, user: AccessClaims, now: int, sign: IdPayload -> string)
    : (r: Response<(string, int)>)
    ensures Claim(user, "id").None? ==> r == Refuse(500, IssueFailed)
    ensures Claim(user, "id").Some? ==> r == IssueFor(db, Claim(user, "id").value, now, sign)
  {
    match Claim(user, "id")
    case None => Refuse(500, IssueFailed)
    case Some(id) => IssueFor(db, id, now, sign)
  }

  /** Whoever asks, and whatever the store holds, the handler as written
      never issues an ID token. */
  lemma IdentityTokenNeverIssuedAsWritten(db: Db, user: AccessClaims, now: int, sign: IdPayload -> string)
    ensures GetIdentityTokenAsWritten(db, user, now, sign) == Refuse(500, IssueFailed)
  {
    assert Claim(user, "id").None?;
  }

  /** `getIdentityToken` reading the `userId` claim that login signs, as
      every other handler does. */
  function GetIdentityToken(db: Db, user: AccessClaims, now: int, sign: IdPayload -> string)
    : (r: Response<(string, int)>)
    ensures r == IssueFor(db, Claim(user, "userId").value, now, sign)
  {
    IssueFor(db, user.userId, now, sign)
  }

  /** A resident who logged in gets an ID token, valid for five minutes. */
  lemma ResidentGetsIdToken(db: Db, u: User, now: int, sign: IdPayload -> string)
    requires UserById(db, u.id).Some? && db.users[UserById(db, u.id).value] == u && u.role == Resident
    ensures GetIdentityToken(db, IssuedClaims(u), now, sign) == Respond(200, (sign(IdClaims(u.id)), now + 300000))
  {
  }

  /** Whether the estate of an account has been suspended; an account
      without an estate, or whose estate is pending, is not. */
  predicate EstateSuspendedFor(db: Db, u: User) {
    EstateOf(db, u).Some? && EstateOf(db, u).value.status == EstateSuspended
  }

  function CardOf(db: Db, u: User): (c: IdentityCard)
    ensures c.id == u.id && c.role == u.role && c.status == "ACTIVE"
    ensures c.estateName.Some? <==> EstateOf(db, u).Some?
  {
    IdentityCard(u.id, u.name, u.unitNumber, u.role,
                 if EstateOf(db, u).Some? then Some(EstateOf(db, u).value.name) else None, "ACTIVE")
  }

  /** `verifyIdentity`: a token must be given and verify, be an ID token,
      and name an approved account whose estate is not suspended, checked
      in that order. A payload without an id makes the lookup throw. */
  function VerifyIdentity(db: Db, token: Option<string>, verify: string -> IdVerify): (r: Response<IdentityCard>)
    ensures !Truthy(token) ==> r == Refuse(400, "Token required")
    ensures Truthy(token) && verify(token.value).IdInvalid? ==> r == Refuse(401, "Invalid or expired ID token")
    ensures Truthy(token) && verify(token.value).IdVerified? && verify(token.value).payload.tokenType != Some(ResidentIdType)
            ==> r == Refuse(400, "Invalid token type")
    ensures r.Respond? <==>
              Truthy(token) && verify(token.value).IdVerified?
              && verify(token.value).payload.tokenType == Some(ResidentIdType)
              && verify(token.value).payload.id.Some?
              && UserById(db, verify(token.value).payload.id.value).Some?
              && var u := db.users[UserById(db, verify(token.value).payload.id.value).value];
                 u.isApproved && !EstateSuspendedFor(db, u)
    ensures r.Respond? ==>
              r.status == 200 && r.value == CardOf(db, db.users[UserById(db, verify(token.value).payload.id.value).value])
  {
    if !Truthy(token) then Refuse(400, "Token required")
    else match verify(token.value)
      case IdInvalid => Refuse(401, "Invalid or expired ID token")
      case IdVerified(payload) =>
        if payload.tokenType != Some(ResidentIdType) then Refuse(400, "Invalid token type")
        else if payload.id.None? then Refuse(500, "Verification failed")
        else match UserById(db, payload.id.value)
          case None => Refuse(404, "User not found")
          case Some(i) =>
            var u := db.users[i];
            if !u.isApproved then Refuse(403, "Resident account is not approved")
            else if EstateSuspendedFor(db, u) then Refuse(403, "Estate service suspended")
            else Respond(200, CardOf(db, u))
  }

  /** The refusals for the account: unknown, unapproved, suspended. */
  lemma AccountRefusals(db: Db, token: string, verify: string -> IdVerify, id: string)
    requires token != "" && verify(token) == IdVerified(IdClaims(id))
    ensures UserById(db, id).None? ==> VerifyIdentity(db, Some(token), verify) == Refuse(404, "User not found")
    ensures UserById(db, id).Some? && !db.users[UserById(db, id).value].isApproved
            ==> VerifyIdentity(db, Some(token), verify) == Refuse(403, "Resident account is not approved")
    ensures UserById(db, id).Some? && db.users[UserById(db, id).value].isApproved
            && EstateSuspendedFor(db, db.users[UserById(db, id).value])
            ==> VerifyIdentity(db, Some(token), verify) == Refuse(403, "Estate service suspended")
  {
  }

  /** An ID token issued to an approved resident whose estate is not
      suspended verifies, while it is valid, to that resident's card. */
  lemma IssuedTokenVerifies(db: Db, user: AccessClaims, now: int, sign: IdPayload -> string,
                            verify: string -> IdVerify, token: string, validUntil: int)
    requires GetIdentityToken(db, user, now, sign) == Respond(200, (token, validUntil))
    requires token != "" && verify(token) == IdVerified(IdClaims(user.userId))
    requires var u := db.users[UserById(db, user.userId).value]; u.isApproved && !EstateSuspendedFor(db, u)
    ensures validUntil == now + IdTokenLifetimeMs
    ensures var r := VerifyIdentity(db, Some(token), verify);
            r.Respond? && r.value.id == user.userId && r.value.role == Resident
  {
  }

  /** An access token is not an ID token: one whose claims carry no type is
      refused before the store is consulted. */
  lemma AccessTokenIsNotAnId(db: Db, token: string, verify: string -> IdVerify, id: Option<string>)
    requires token != "" && verify(token) == IdVerified(IdPayload(id, None))
    ensures VerifyIdentity(db, Some(token), verify) == Refuse(400, "Invalid token type")
  {
  }
}
