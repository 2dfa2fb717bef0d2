/** Accounts on the backend: password login by email or phone, refresh
    tokens, resident registration and the self-service registration of an
    estate with its administrator.

    Password hashing is a parameter: `passwordMatches(plain, hash)` stands
    for `bcrypt.compare` and `hash` for the stored result of `bcrypt.hash`.
    Access tokens are not modelled; a refresh answers with the user the new
    access token is for. */
module AuthService {
  import opened Common
  import opened Types
  import opened BackendStore
  import opened OtpService
  import opened ReferralService

  const RefreshTokenLifetimeMs: nat := 30 * DayMs
  const InvalidCredentials: string := "Invalid credentials"
  const VerificationPending: string := "Account verification pending. Please complete registration."
  const InvalidRefreshToken: string := "Invalid or expired refresh token"

  // ---------------------------------------------------------------------
  // Login and tokens

  datatype Session = Session(user: PublicUser, refreshToken: string, db: Db)

  /** The user a login identifier names: an identifier containing '@' is an
      email, anything else a phone number that is formatted first. */
  function LoginLookup(db: Db, identifier: string): (r: Result<Option<nat>>)
    ensures '@' in identifier ==> r == Ok(UserByEmail(db, identifier))
    ensures '@' !in identifier ==>
              r == match FormatPhone(identifier)
                   case Err(m) => Err(m)
                   case Ok(p) => Ok(UserByPhone(db, p))
  {
    if '@' in identifier then Ok(UserByEmail(db, identifier))
    else match FormatPhone(identifier)
      case Err(m) => Err(m)
      case Ok(p) => Ok(UserByPhone(db, p))
  }

  /** `loginWithPassword`. An unknown user and a wrong password give the
      same error; a phone login is refused before the password check while
      the phone is unverified. A success stores a refresh token `issued`
      valid for thirty days. */
  function LoginWithPassword(db: Db, identifier: string, plain: string, passwordMatches: (string, string) -> bool,
                             issued: string, now: int): (r: Result<Session>)
    ensures r.Ok? <==> CredentialsAccepted(db, identifier, plain, passwordMatches)
    ensures r.Ok? ==>
              LoginLookup(db, identifier).Ok? && LoginLookup(db, identifier).value.Some?
              && var u := db.users[LoginLookup(db, identifier).value.value];
                 passwordMatches(plain, u.password)
                 && ('@' !in identifier ==> u.phoneVerified)
                 && r.value.user == WithoutPassword(u)
                 && r.value.db == db.(tokens := db.tokens + [RefreshToken(issued, u.id, now + RefreshTokenLifetimeMs, false)])
  {
    match LoginLookup(db, identifier)
    case Err(m) => Err(m)
    case Ok(None) => Err(InvalidCredentials)
    case Ok(Some(i)) =>
      var u := db.users[i];
      if !u.phoneVerified && '@' !in identifier then Err(VerificationPending)
      else if !passwordMatches(plain, u.password) then Err(InvalidCredentials)
      else Ok(Session(WithoutPassword(u), issued,
                      db.(tokens := db.tokens + [RefreshToken(issued, u.id, now + RefreshTokenLifetimeMs, false)])))
  }

  /** The identifier names a user whose password matches, and a phone
      login also needs a verified phone. */
  predicate CredentialsAccepted(db: Db, identifier: string, plain: string, passwordMatches: (string, string) -> bool) {
    LoginLookup(db, identifier).Ok? && LoginLookup(db, identifier).value.Some?
    && var u := db.users[LoginLookup(db, identifier).value.value];
       passwordMatches(plain, u.password) && ('@' in identifier || u.phoneVerified)
  }

  /** An unknown identifier and a wrong password cannot be told apart. */
  lemma UnknownUserAndWrongPasswordLookAlike(db: Db, identifier: string, plain: string,
                                             passwordMatches: (string, string) -> bool, issued: string, now: int)
    requires LoginLookup(db, identifier).Ok?
    requires var found := LoginLookup(db, identifier).value;
             found.None? || ((db.users[found.value].phoneVerified || '@' in identifier)
                             && !passwordMatches(plain, db.users[found.value].password))
    ensures LoginWithPassword(db, identifier, plain, passwordMatches, issued, now) == Err(InvalidCredentials)
  {
  }

  /** A phone login of an unverified account is refused whatever the
      password; an email login never looks at the phone's verification. */
  lemma VerificationOnlyGuardsPhoneLogin(db: Db, identifier: string, plain: string,
                                         passwordMatches: (string, string) -> bool, issued: string, now: int)
    requires LoginLookup(db, identifier).Ok? && LoginLookup(db, identifier).value.Some?
    ensures var u := db.users[LoginLookup(db, identifier).value.value];
            var r := LoginWithPassword(db, identifier, plain, passwordMatches, issued, now);
            ('@' !in identifier && !u.phoneVerified ==> r == Err(VerificationPending))
            && ('@' in identifier && passwordMatches(plain, u.password) ==> r.Ok?)
  {
  }

  /** `refreshAccessToken`: an unknown, revoked or expired token fails;
      otherwise the answer is the id of the token's user. */
  function RefreshAccessToken(db: Db, token: string, now: int): (r: Result<string>)
    ensures r.Ok? <==> TokenByValue(db, token).Some? && !db.tokens[TokenByValue(db, token).value].revoked
                       && db.tokens[TokenByValue(db, token).value].expiresAt >= now
    ensures r.Err? ==> r.msg == InvalidRefreshToken
    ensures r.Ok? ==> r.value == db.tokens[TokenByValue(db, token).value].userId
  {
    match TokenByValue(db, token)
    case None => Err(InvalidRefreshToken)
    case Some(k) =>
      var t := db.tokens[k];
      if t.revoked || t.expiresAt < now then Err(InvalidRefreshToken) else Ok(t.userId)
  }

  /** `logout`: the token is revoked; an unknown token is Prisma's "record
      not found". */
  function Logout(db: Db, token: string): (r: Result<Db>)
    ensures TokenByValue(db, token).None? <==> r.Err?
    ensures r.Ok? ==>
              var k := TokenByValue(db, token).value;
              r.value == db.(tokens := db.tokens[k := db.tokens[k].(revoked := true)])
  {
    match TokenByValue(db, token)
    case None => Err("Record to update not found")
    case Some(k) => Ok(db.(tokens := db.tokens[k := db.tokens[k].(revoked := true)]))
  }

  /** After a logout the token no longer refreshes, at any time. */
  lemma RefreshAfterLogoutFails(db: Db, token: string, now: int)
    requires Logout(db, token).Ok?
    ensures RefreshAccessToken(Logout(db, token).value, token, now) == Err(InvalidRefreshToken)
  {
    var k := TokenByValue(db, token).value;
    FindFirstAfterUpdate(db.tokens, (t: RefreshToken) => t.token == token, k, db.tokens[k].(revoked := true));
  }

  /** The refresh token a login hands out works until it expires, for the
      user who logged in. */
  lemma LoginTokenRefreshes(db: Db, identifier: string, plain: string, passwordMatches: (string, string) -> bool,
                            issued: string, now: int, later: int)
    requires TokenByValue(db, issued).None?
    requires LoginWithPassword(db, identifier, plain, passwordMatches, issued, now).Ok?
    requires later <= now + RefreshTokenLifetimeMs
    ensures var s := LoginWithPassword(db, identifier, plain, passwordMatches, issued, now).value;
            RefreshAccessToken(s.db, issued, later) == Ok(s.user.id)
  {
    var s := LoginWithPassword(db, identifier, plain, passwordMatches, issued, now).value;
    assert s.db.tokens[|db.tokens|].token == issued;
  }

  // ---------------------------------------------------------------------
  // Registration

  /** The checks on a new phone number shared by both registrations:
      formatting, the Nigerian shape, and no account with that number. */
  function CheckNewPhone(db: Db, phone: string): (r: Result<string>)
    ensures r.Ok? <==> FormatPhone(phone).Ok? && ValidatePhoneFormat(FormatPhone(phone).value)
                       && UserByPhone(db, FormatPhone(phone).value).None?
    ensures r.Ok? ==> r.value == FormatPhone(phone).value
    ensures FormatPhone(phone).Err? ==> r == FormatPhone(phone)
    ensures FormatPhone(phone).Ok? && !ValidatePhoneFormat(FormatPhone(phone).value) ==>
              r == Err("Invalid phone number format")
    ensures (FormatPhone(phone).Ok? && ValidatePhoneFormat(FormatPhone(phone).value)
             && UserByPhone(db, FormatPhone(phone).value).Some?) ==> r == Err("Phone number already registered")
  {
    match FormatPhone(phone)
    case Err(m) => Err(m)
    case Ok(p) =>
      if !ValidatePhoneFormat(p) then Err("Invalid phone number format")
      else if UserByPhone(db, p).Some? then Err("Phone number already registered")
      else Ok(p)
  }

  /** `register`: in order, a SECURITY role is refused, the phone is
      checked, and the estate code must exist. The new user is unverified
      and unapproved. `newId` is the id the database assigns. */
  function Register(db: Db, phone: string, name: string, hash: string, role: UserRole, estateCode: string,
                    unitNumber: Option<string>, email: Option<string>, newId: string): (r: Result<(PublicUser, Db)>)
    ensures role == Security ==> r == Err("Security accounts must be created by Estate Admin")
    ensures role != Security && CheckNewPhone(db, phone).Err? ==> r == Err(CheckNewPhone(db, phone).msg)
    ensures role != Security && CheckNewPhone(db, phone).Ok? && EstateByCode(db, estateCode).None? ==>
              r == Err("Invalid Estate Code")
    ensures r.Ok? <==> role != Security && CheckNewPhone(db, phone).Ok? && EstateByCode(db, estateCode).Some?
    ensures r.Ok? ==>
              var u := User(newId, name, email, Some(CheckNewPhone(db, phone).value), false, hash, role,
                               Some(db.estates[EstateByCode(db, estateCode).value].id), unitNumber, false,
                               None, None, None);
                 r.value == (WithoutPassword(u), db.(users := db.users + [u]))
  {
    if role == Security then Err("Security accounts must be created by Estate Admin")
    else match CheckNewPhone(db, phone)
      case Err(m) => Err(m)
      case Ok(p) =>
        match EstateByCode(db, estateCode)
        case None => Err("Invalid Estate Code")
        case Some(e) =>
          var u := User(newId, name, email, Some(p), false, hash, role, Some(db.estates[e].id), unitNumber, false,
                        None, None, None);
          Ok((WithoutPassword(u), db.(users := db.users + [u])))
  }

  /** A newly registered resident cannot log in by phone until the phone is
      verified, whatever password is given. */
  lemma NewAccountAwaitsVerification(db: Db, phone: string, name: string, hash: string, role: UserRole,
                                     estateCode: string, unitNumber: Option<string>, email: Option<string>,
                                     newId: string, plain: string, passwordMatches: (string, string) -> bool,
                                     issued: string, now: int)
    requires Register(db, phone, name, hash, role, estateCode, unitNumber, email, newId).Ok?
    requires '@' !in phone
    ensures var db' := Register(db, phone, name, hash, role, estateCode, unitNumber, email, newId).value.1;
            LoginWithPassword(db', phone, plain, passwordMatches, issued, now) == Err(VerificationPending)
  {
    var p := CheckNewPhone(db, phone).value;
    var db' := Register(db, phone, name, hash, role, estateCode, unitNumber, email, newId).value.1;
    var u := db'.users[|db.users|];
    PhoneOfAppendedUser(db, u, p);
    assert LoginLookup(db', phone) == Ok(Some(|db.users|));
  }

  /** A user appended with a number nobody had is the one found by it. */
  lemma PhoneOfAppendedUser(db: Db, u: User, p: string)
    requires UserByPhone(db, p).None? && u.phone == Some(p)
    ensures UserByPhone(db.(users := db.users + [u]), p) == Some(|db.users|)
  {
    assert (db.users + [u])[|db.users|] == u;
  }

  // ---------------------------------------------------------------------
  // Estate codes

  /** `.map(word => word[0]?.toUpperCase()).join('')`: the upper-cased first
      letter of every non-empty word. */
  function Initials(ws: seq<string>): (r: string)
    ensures |r| <= |ws|
  {
    if ws == [] then []
    else (if ws[0] == [] then [] else [UpperChar(ws[0][0])]) + Initials(ws[1..])
  }

  /** `generateCode(name)` with `Math.floor(Math.random() * 100)` drawn as
      `n`: at most six initials and then the number. */
  function GenerateEstateCode(name: string, n: nat): (code: string)
    requires n < 100
    ensures |code| <= 8
  {
    SmallNumberLength(n);
    Take(Initials(Split(name, ' ')), 6) + DecimalString(n)
  }

  /** A two-word estate name ("Sunset Gardens") gets a code of its two
      initials and the number ("SG7"), not its first word. */
  lemma TwoWordEstateCode(first: string, second: string, n: nat)
    requires n < 100 && first != [] && second != [] && ' ' !in first && ' ' !in second
    ensures GenerateEstateCode(first + " " + second, n) == [UpperChar(first[0]), UpperChar(second[0])] + DecimalString(n)
  {
    SplitAfterWord(first, second, ' ');
    SplitWord(second, ' ');
    assert Initials([first, second]) == [UpperChar(first[0])] + Initials([second]);
    assert Initials([second]) == [UpperChar(second[0])] + Initials([]);
  }

  lemma SmallNumberLength(n: nat)
    requires n < 100
    ensures |DecimalString(n)| <= 2
  {
    assert Pow10(1) == 10 && Pow10(2) == 100;
    if n >= 10 {
      DecimalStringLength(n, 2);
    }
  }

  /** The random numbers of one attempt at an estate code: `n` for
      `generateCode` and `extra` (below 1000) for a retry. */
  datatype CodeDraw = CodeDraw(n: nat, extra: nat)

  predicate ValidDraws(draws: seq<CodeDraw>) {
    forall k :: 0 <= k < |draws| ==> draws[k].n < 100 && draws[k].extra < 1000
  }

  /** The code tried at attempt `k`: the first is `generateCode(name)`, every
      retry appends another number. */
  function CandidateCode(name: string, draws: seq<CodeDraw>, k: nat): string
    requires ValidDraws(draws) && k < |draws|
  {
    if k == 0 then GenerateEstateCode(name, draws[0].n)
    else GenerateEstateCode(name, draws[k].n) + DecimalString(draws[k].extra)
  }

  predicate EstateCodeTaken(db: Db, code: string) {
    exists j :: 0 <= j < |db.estates| && db.estates[j].code == code
  }

  /** `code` is the candidate of attempt `m`, and every attempt from `k`
      before it was taken. */
  predicate PickedAt(db: Db, name: string, draws: seq<CodeDraw>, k: nat, m: nat, code: string)
    requires ValidDraws(draws) && k <= m < |draws|
  {
    code == CandidateCode(name, draws, m)
    && forall j :: k <= j < m ==> EstateCodeTaken(db, CandidateCode(name, draws, j))
  }

  /** The retry loop: the first candidate no estate uses. The source loops
      until it finds one; the draws given must contain one. */
  function PickEstateCode(db: Db, name: string, draws: seq<CodeDraw>, k: nat): (code: string)
    requires ValidDraws(draws) && k < |draws|
    requires exists m :: k <= m < |draws| && !EstateCodeTaken(db, CandidateCode(name, draws, m))
    ensures !EstateCodeTaken(db, code)
    ensures exists m :: k <= m < |draws| && PickedAt(db, name, draws, k, m, code)
    decreases |draws| - k
  {
    var c := CandidateCode(name, draws, k);
    if EstateByCode(db, c).None? then
      assert PickedAt(db, name, draws, k, k, c);
      c
    else
      NextAttemptRemains(db, name, draws, k);
      var code := PickEstateCode(db, name, draws, k + 1);
      PickedEarlier(db, name, draws, k, k + 1, code);
      code
  }

  lemma NextAttemptRemains(db: Db, name: string, draws: seq<CodeDraw>, k: nat)
    requires ValidDraws(draws) && k < |draws|
    requires exists m :: k <= m < |draws| && !EstateCodeTaken(db, CandidateCode(name, draws, m))
    requires EstateCodeTaken(db, CandidateCode(name, draws, k))
    ensures k + 1 < |draws|
    ensures exists m :: k + 1 <= m < |draws| && !EstateCodeTaken(db, CandidateCode(name, draws, m))
  {
    var m :| k <= m < |draws| && !EstateCodeTaken(db, CandidateCode(name, draws, m));
    assert m != k;
  }

  lemma PickedEarlier(db: Db, name: string, draws: seq<CodeDraw>, k: nat, next: nat, code: string)
    requires ValidDraws(draws) && next == k + 1 && next < |draws|
    requires EstateCodeTaken(db, CandidateCode(name, draws, k))
    requires exists m :: next <= m < |draws| && PickedAt(db, name, draws, next, m, code)
    ensures exists m :: k <= m < |draws| && PickedAt(db, name, draws, k, m, code)
  {
    var m :| next <= m < |draws| && PickedAt(db, name, draws, next, m, code);
    forall j | k <= j < m
      ensures EstateCodeTaken(db, CandidateCode(name, draws, j))
    {
      if j != k {
        assert next <= j < m;
      }
    }
    assert PickedAt(db, name, draws, k, m, code);
  }

  // ---------------------------------------------------------------------
  // Estate administrator registration

  /** What the administrator's sign-up form carries. */
  datatype AdminSignup = AdminSignup(
    name: string,
    phone: string,
    hash: string,
    email: Option<string>,
    referralCode: Option<string>,
    estateName: string,
    address: Option<string>,
    description: Option<string>
  )

  datatype AdminRegistration = AdminRegistration(estateCode: string, user: PublicUser, db: Db)

  /** `registerEstateAdmin`: after the phone checks, a issued estate code is
      picked, a PENDING estate and an unapproved, unverified ESTATE_ADMIN
      are created, and a referral code, if any, is linked; a failed link is
      ignored. The user returned is the one created, before linking.
      `estateId` and `userId` are the ids the database assigns. */
  function RegisterEstateAdmin(db: Db, f: AdminSignup, draws: seq<CodeDraw>, estateId: string, userId: string)
    : (r: Result<AdminRegistration>)
    requires ValidDraws(draws) && |draws| >= 1
    requires exists m :: 0 <= m < |draws| && !EstateCodeTaken(db, CandidateCode(f.estateName, draws, m))
    ensures CheckNewPhone(db, f.phone).Err? <==> r.Err?
    ensures r.Err? ==> r.msg == CheckNewPhone(db, f.phone).msg
    ensures r.Ok? ==>
              var e := Estate(estateId, f.estateName, r.value.estateCode, f.address, f.description, Free, EstatePending);
              var u := User(userId, f.name, f.email, Some(CheckNewPhone(db, f.phone).value), false, f.hash,
                            EstateAdmin, Some(estateId), None, false, None, None, None);
              var created := db.(estates := db.estates + [e], users := db.users + [u]);
              !EstateCodeTaken(db, r.value.estateCode)
              && (exists m :: 0 <= m < |draws| && PickedAt(db, f.estateName, draws, 0, m, r.value.estateCode))
              && r.value.user == WithoutPassword(u)
              && r.value.db == if f.referralCode.Some? && f.referralCode.value != ""
                                  && LinkReferral(created, userId, f.referralCode.value).Ok?
                               then LinkReferral(created, userId, f.referralCode.value).value else created
  {
    match CheckNewPhone(db, f.phone)
    case Err(m) => Err(m)
    case Ok(p) =>
      var code := PickEstateCode(db, f.estateName, draws, 0);
      var e := Estate(estateId, f.estateName, code, f.address, f.description, Free, EstatePending);
      var u := User(userId, f.name, f.email, Some(p), false, f.hash, EstateAdmin, Some(estateId), None, false,
                    None, None, None);
      var created := db.(estates := db.estates + [e], users := db.users + [u]);
      var linked :=
        if f.referralCode.Some? && f.referralCode.value != "" then
          match LinkReferral(created, userId, f.referralCode.value)
          case Ok(d) => d
          case Err(_) => created
        else created;
      Ok(AdminRegistration(code, WithoutPassword(u), linked))
  }

  /** A referral code never decides whether the registration succeeds:
      with or without one, the outcome is the same up to the `referredBy`
      link. */
  lemma ReferralNeverFailsRegistration(db: Db, f: AdminSignup, draws: seq<CodeDraw>, estateId: string,
                                       userId: string, code: string)
    requires ValidDraws(draws) && |draws| >= 1
    requires exists m :: 0 <= m < |draws| && !EstateCodeTaken(db, CandidateCode(f.estateName, draws, m))
    ensures var withCode := RegisterEstateAdmin(db, f.(referralCode := Some(code)), draws, estateId, userId);
            var without := RegisterEstateAdmin(db, f.(referralCode := None), draws, estateId, userId);
            withCode.Ok? == without.Ok?
            && (withCode.Ok? ==> withCode.value.estateCode == without.value.estateCode
                                 && withCode.value.user == without.value.user
                                 && withCode.value.db.estates == without.value.db.estates)
  {
  }

  /** The administrator's estate starts PENDING with a code no other estate
      has, and the administrator is unapproved with an unverified phone. */
  lemma AdminRegistrationIsPending(db: Db, f: AdminSignup, draws: seq<CodeDraw>, estateId: string, userId: string)
    requires ValidDraws(draws) && |draws| >= 1
    requires exists m :: 0 <= m < |draws| && !EstateCodeTaken(db, CandidateCode(f.estateName, draws, m))
    requires RegisterEstateAdmin(db, f, draws, estateId, userId).Ok?
    ensures var reg := RegisterEstateAdmin(db, f, draws, estateId, userId).value;
            var n := |db.estates|;
            |reg.db.estates| == n + 1 && reg.db.estates[n].status == EstatePending
            && reg.db.estates[n].code == reg.estateCode
            && (forall j :: 0 <= j < n ==> db.estates[j].code != reg.estateCode)
            && reg.user.role == EstateAdmin && !reg.user.isApproved && !reg.user.phoneVerified
  {
  }
}
