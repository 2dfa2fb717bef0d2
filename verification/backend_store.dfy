/** The backend's database as the services see it through Prisma: one
    table per model, each a sequence of records. A lookup on a unique
    column (`findUnique`) returns the first record with that value; an
    `update` or `delete` of a missing record fails, as Prisma's does. */
module BackendStore {
  import opened Common
  import opened Types

  datatype EstateStatus = EstateActive | EstateSuspended | EstatePending

  datatype User = User(
    id: string,
    name: string,
    email: Option<string>,
    phone: Option<string>,
    phoneVerified: bool,
    password: string,
    role: UserRole,
    estateId: Option<string>,
    unitNumber: Option<string>,
    isApproved: bool,
    primaryUserId: Option<string>,
    referralCode: Option<string>,
    referredBy: Option<string>
  )

  datatype Estate = Estate(
    id: string,
    name: string,
    code: string,
    address: Option<string>,
    description: Option<string>,
    subscriptionTier: SubscriptionTier,
    status: EstateStatus
  )

  datatype Pass = Pass(
    id: string,
    code: string,
    hostId: string,
    hostUnit: Option<string>,
    guestName: string,
    passType: PassType,
    status: PassStatus,
    validUntil: int,
    createdAt: int,
    entryTime: Option<int>,
    exitTime: Option<int>,
    exitInstruction: Option<string>,
    deliveryCompany: Option<string>
  )

  datatype RefreshToken = RefreshToken(token: string, userId: string, expiresAt: int, revoked: bool)

  datatype LogType = Manual | Digital | Emergency

  datatype LogEntry = LogEntry(
    id: string,
    estateId: string,
    guestName: string,
    destination: string,
    entryTime: int,
    exitTime: Option<int>,
    logType: LogType,
    notes: Option<string>
  )

  datatype Bill = Bill(id: string, estateId: string, userId: string, status: BillStatus)

  datatype GlobalAd = GlobalAd(id: string, impressions: nat, clicks: Option<nat>, isActive: bool)

  datatype Db = Db(
    users: seq<User>,
    estates: seq<Estate>,
    passes: seq<Pass>,
    tokens: seq<RefreshToken>,
    logs: seq<LogEntry>,
    bills: seq<Bill>,
    ads: seq<GlobalAd>
  )

  /** A user record as the API returns it: everything but the password
      hash. */
  datatype PublicUser = PublicUser(
    id: string,
    name: string,
    email: Option<string>,
    phone: Option<string>,
    phoneVerified: bool,
    role: UserRole,
    estateId: Option<string>,
    unitNumber: Option<string>,
    isApproved: bool,
    primaryUserId: Option<string>,
    referralCode: Option<string>,
    referredBy: Option<string>
  )

  /** `const { password, ...rest } = user`. */
  function WithoutPassword(u: User): (p: PublicUser)
    ensures p.id == u.id && p.name == u.name && p.role == u.role && p.estateId == u.estateId
    ensures p.isApproved == u.isApproved && p.primaryUserId == u.primaryUserId
  {
    PublicUser(u.id, u.name, u.email, u.phone, u.phoneVerified, u.role, u.estateId, u.unitNumber,
               u.isApproved, u.primaryUserId, u.referralCode, u.referredBy)
  }

  /** Dropping the password loses nothing else: the full record comes back
      from the public one and the hash. */
  lemma WithoutPasswordKeepsTheRest(u: User)
    ensures var p := WithoutPassword(u);
            User(p.id, p.name, p.email, p.phone, p.phoneVerified, u.password, p.role, p.estateId,
                 p.unitNumber, p.isApproved, p.primaryUserId, p.referralCode, p.referredBy) == u
  {
  }

  // ---------------------------------------------------------------------
  // Lookups

  function UserById(db: Db, id: string): (r: Option<nat>)
    ensures r.Some? ==> r.value < |db.users| && db.users[r.value].id == id
    ensures r.None? <==> forall j :: 0 <= j < |db.users| ==> db.users[j].id != id
  {
    FindFirst(db.users, (u: User) => u.id == id)
  }

  function UserByEmail(db: Db, email: string): (r: Option<nat>)
    ensures r.Some? ==> r.value < |db.users| && db.users[r.value].email == Some(email)
    ensures r.None? <==> forall j :: 0 <= j < |db.users| ==> db.users[j].email != Some(email)
  {
    FindFirst(db.users, (u: User) => u.email == Some(email))
  }

  function UserByPhone(db: Db, phone: string): (r: Option<nat>)
    ensures r.Some? ==> r.value < |db.users| && db.users[r.value].phone == Some(phone)
    ensures r.None? <==> forall j :: 0 <= j < |db.users| ==> db.users[j].phone != Some(phone)
  {
    FindFirst(db.users, (u: User) => u.phone == Some(phone))
  }

  function UserByReferralCode(db: Db, code: string): (r: Option<nat>)
    ensures r.Some? ==> r.value < |db.users| && db.users[r.value].referralCode == Some(code)
    ensures r.None? <==> forall j :: 0 <= j < |db.users| ==> db.users[j].referralCode != Some(code)
  {
    FindFirst(db.users, (u: User) => u.referralCode == Some(code))
  }

  function EstateById(db: Db, id: string): (r: Option<nat>)
    ensures r.Some? ==> r.value < |db.estates| && db.estates[r.value].id == id
    ensures r.None? <==> forall j :: 0 <= j < |db.estates| ==> db.estates[j].id != id
  {
    FindFirst(db.estates, (e: Estate) => e.id == id)
  }

  function EstateByCode(db: Db, code: string): (r: Option<nat>)
    ensures r.Some? ==> r.value < |db.estates| && db.estates[r.value].code == code
    ensures r.None? <==> forall j :: 0 <= j < |db.estates| ==> db.estates[j].code != code
  {
    FindFirst(db.estates, (e: Estate) => e.code == code)
  }

  function PassById(db: Db, id: string): (r: Option<nat>)
    ensures r.Some? ==> r.value < |db.passes| && db.passes[r.value].id == id
    ensures r.None? <==> forall j :: 0 <= j < |db.passes| ==> db.passes[j].id != id
  {
    FindFirst(db.passes, (p: Pass) => p.id == id)
  }

  function PassByCode(db: Db, code: string): (r: Option<nat>)
    ensures r.Some? ==> r.value < |db.passes| && db.passes[r.value].code == code
    ensures r.None? <==> forall j :: 0 <= j < |db.passes| ==> db.passes[j].code != code
  {
    FindFirst(db.passes, (p: Pass) => p.code == code)
  }

  function TokenByValue(db: Db, token: string): (r: Option<nat>)
    ensures r.Some? ==> r.value < |db.tokens| && db.tokens[r.value].token == token
    ensures r.None? <==> forall j :: 0 <= j < |db.tokens| ==> db.tokens[j].token != token
  {
    FindFirst(db.tokens, (t: RefreshToken) => t.token == token)
  }

  /** The estate of a user, through the `estate` relation. */
  function EstateOf(db: Db, u: User): (r: Option<Estate>)
    ensures r.Some? ==> r.value in db.estates && u.estateId == Some(r.value.id)
  {
    if u.estateId.None? then None
    else match EstateById(db, u.estateId.value)
      case Some(k) => Some(db.estates[k])
      case None => None
  }

  /** A user's record replaced in place (Prisma `update` by id on the first
      record with that id). */
  function SetUser(db: Db, i: nat, u: User): (r: Db)
    requires i < |db.users|
    ensures r == db.(users := db.users[i := u])
  {
    db.(users := db.users[i := u])
  }
}
