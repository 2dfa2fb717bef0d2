/** The user administration of the backend: profiles, the approval queue,
    residents of an estate, and security accounts created by an estate's
    administrator. */
module UserService {
  import opened Common
  import opened Types
  import opened BackendStore
  import opened ReferralService
  import opened AuthService

  /** `getProfile`: nothing for an unknown id, otherwise the user without
      the password hash, with their estate. */
  function GetProfile(db: Db, userId: string): (r: Option<(PublicUser, Option<Estate>)>)
    ensures r.None? <==> forall j :: 0 <= j < |db.users| ==> db.users[j].id != userId
    ensures r.Some? ==>
              exists j :: 0 <= j < |db.users| && db.users[j].id == userId
                          && r.value == (WithoutPassword(db.users[j]), EstateOf(db, db.users[j]))
  {
    match UserById(db, userId)
    case None => None
    case Some(i) => Some((WithoutPassword(db.users[i]), EstateOf(db, db.users[i])))
  }

  predicate PendingIn(u: User, estateId: string) {
    u.estateId == Some(estateId) && !u.isApproved
  }

  /** `getPendingUsers`: the unapproved users of the estate, in store
      order. */
  function GetPendingUsers(db: Db, estateId: string): (r: seq<User>)
    ensures forall u :: u in r <==> u in db.users && PendingIn(u, estateId)
  {
    var r := Filter(db.users, (u: User) => PendingIn(u, estateId));
    assert forall u :: u in db.users && PendingIn(u, estateId) ==> u in r by {
      forall u | u in db.users && PendingIn(u, estateId) ensures u in r {
        var j :| 0 <= j < |db.users| && db.users[j] == u;
      }
    }
    r
  }

  /** `approveUser`: an unknown user fails. An ESTATE_ADMIN with an estate
      also activates that estate (failing as Prisma does when it is
      missing); every other user only becomes approved. */
  function ApproveUser(db: Db, userId: string): (r: Result<(User, Db)>)
    ensures UserById(db, userId).None? <==> r == Err("User not found")
    ensures r.Ok? <==> UserById(db, userId).Some?
                       && var u := db.users[UserById(db, userId).value];
                          u.role != EstateAdmin || u.estateId.None? || EstateById(db, u.estateId.value).Some?
    ensures r.Ok? ==>
              var i := UserById(db, userId).value;
              var u := db.users[i];
              r.value.0 == u.(isApproved := true)
              && r.value.1.users == db.users[i := r.value.0]
              && (u.role != EstateAdmin || u.estateId.None? ==> r.value.1.estates == db.estates)
              && (u.role == EstateAdmin && u.estateId.Some? ==>
                    EstateById(db, u.estateId.value).Some?
                    && var k := EstateById(db, u.estateId.value).value;
                       r.value.1.estates == db.estates[k := db.estates[k].(status := EstateActive)])
  {
    match UserById(db, userId)
    case None => Err("User not found")
    case Some(i) =>
      var u := db.users[i];
      var approved := u.(isApproved := true);
      if u.role == EstateAdmin && u.estateId.Some? then
        match EstateById(db, u.estateId.value)
        case None => Err("Record to update not found")
        case Some(k) =>
          Ok((approved, db.(estates := db.estates[k := db.estates[k].(status := EstateActive)],
                            users := db.users[i := approved])))
      else Ok((approved, db.(users := db.users[i := approved])))
  }

  /** Approving a user takes exactly them off their estate's queue, and
      leaves every other estate's queue as long as it was. */
  lemma ApprovalShortensTheQueue(db: Db, userId: string, estateId: string)
    requires ApproveUser(db, userId).Ok?
    ensures var i := UserById(db, userId).value;
            var db' := ApproveUser(db, userId).value.1;
            |Filter(db'.users, (u: User) => PendingIn(u, estateId))|
              == |Filter(db.users, (u: User) => PendingIn(u, estateId))| - (if PendingIn(db.users[i], estateId) then 1 else 0)
  {
    var i := UserById(db, userId).value;
    var db' := ApproveUser(db, userId).value.1;
    var p := (u: User) => PendingIn(u, estateId);
    CountUpdate(db.users, p, i, db.users[i].(isApproved := true));
    CountIsFilterLength(db.users, p);
    CountIsFilterLength(db'.users, p);
  }

  /** Approving the administrator who registered an estate activates that
      estate. */
  lemma ApprovingNewAdminActivatesEstate(db: Db, f: AdminSignup, draws: seq<CodeDraw>, estateId: string, userId: string,
                                         reg: AdminRegistration)
    requires ValidDraws(draws) && |draws| >= 1
    requires exists m :: 0 <= m < |draws| && !EstateCodeTaken(db, CandidateCode(f.estateName, draws, m))
    requires UserById(db, userId).None? && EstateById(db, estateId).None?
    requires RegisterEstateAdmin(db, f, draws, estateId, userId) == Ok(reg)
    ensures ApproveUser(reg.db, userId).Ok?
    ensures ApproveUser(reg.db, userId).value.1.estates[|db.estates|].status == EstateActive
  {
    RegisteredAdminIsFound(db, f, draws, estateId, userId, reg);
    EstateOfAppended(db.estates, reg.db.estates[|db.estates|], estateId);
    ApprovingAdminActivates(reg.db, userId, |db.users|, estateId, |db.estates|);
  }

  /** An estate appended with an id nobody had is the one found by it. */
  lemma EstateOfAppended(estates: seq<Estate>, e: Estate, estateId: string)
    requires forall j :: 0 <= j < |estates| ==> estates[j].id != estateId
    requires e.id == estateId
    ensures FindFirst(estates + [e], (x: Estate) => x.id == estateId) == Some(|estates|)
  {
    assert (estates + [e])[|estates|] == e;
  }

  /** Approving an administrator sets their estate ACTIVE. */
  lemma ApprovingAdminActivates(d: Db, userId: string, n: nat, estateId: string, m: nat)
    requires UserById(d, userId) == Some(n) && EstateById(d, estateId) == Some(m)
    requires d.users[n].role == EstateAdmin && d.users[n].estateId == Some(estateId)
    ensures ApproveUser(d, userId).Ok? && ApproveUser(d, userId).value.1.estates[m].status == EstateActive
  {
  }

  /** The administrator just registered is the user found by their id, and
      their record still names the new estate. */
  lemma RegisteredAdminIsFound(db: Db, f: AdminSignup, draws: seq<CodeDraw>, estateId: string, userId: string,
                               reg: AdminRegistration)
    requires ValidDraws(draws) && |draws| >= 1
    requires exists m :: 0 <= m < |draws| && !EstateCodeTaken(db, CandidateCode(f.estateName, draws, m))
    requires UserById(db, userId).None?
    requires RegisterEstateAdmin(db, f, draws, estateId, userId) == Ok(reg)
    ensures |reg.db.users| == |db.users| + 1 && UserById(reg.db, userId) == Some(|db.users|)
    ensures reg.db.users[|db.users|].role == EstateAdmin && reg.db.users[|db.users|].estateId == Some(estateId)
    ensures reg.db.estates == db.estates + [reg.db.estates[|db.estates|]]
    ensures reg.db.estates[|db.estates|].id == estateId
  {
    var e := Estate(estateId, f.estateName, reg.estateCode, f.address, f.description, Free, EstatePending);
    var u := User(userId, f.name, f.email, Some(CheckNewPhone(db, f.phone).value), false, f.hash,
                  EstateAdmin, Some(estateId), None, false, None, None, None);
    var created := db.(estates := db.estates + [e], users := db.users + [u]);
    CreatedAdminIsFound(db, e, u, userId);
    if reg.db != created {
      LinkKeepsIdentity(created, userId, f.referralCode.value, reg.db);
    }
  }

  lemma CreatedAdminIsFound(db: Db, e: Estate, u: User, userId: string)
    requires UserById(db, userId).None? && u.id == userId
    ensures var created := db.(estates := db.estates + [e], users := db.users + [u]);
            UserById(created, userId) == Some(|db.users|) && created.users[|db.users|] == u
  {
    var created := db.(estates := db.estates + [e], users := db.users + [u]);
    assert created.users[|db.users|] == u;
    FindFirstAppendNew(db.users, (x: User) => x.id == userId, u);
  }

  /** `getResidentsByEstate`: the RESIDENT users of the estate. */
  function GetResidentsByEstate(db: Db, estateId: string): (r: seq<User>)
    ensures forall u :: u in r <==> u in db.users && u.role == Resident && u.estateId == Some(estateId)
  {
    var p := (u: User) => u.role == Resident && u.estateId == Some(estateId);
    var r := Filter(db.users, p);
    assert forall u :: u in db.users && p(u) ==> u in r by {
      forall u | u in db.users && p(u) ensures u in r {
        var j :| 0 <= j < |db.users| && db.users[j] == u;
      }
    }
    r
  }

  /** `createSecurityAccount`: a taken email is refused first, then a
      missing estate; the guard account is approved from the start and is
      returned without its password. */
  function CreateSecurityAccount(db: Db, name: string, email: string, hash: string, estateId: string, newId: string)
    : (r: Result<(PublicUser, Db)>)
    ensures UserByEmail(db, email).Some? ==> r == Err("Email already exists")
    ensures UserByEmail(db, email).None? && EstateById(db, estateId).None? ==> r == Err("Estate not found")
    ensures r.Ok? <==> UserByEmail(db, email).None? && EstateById(db, estateId).Some?
    ensures r.Ok? ==>
              var u := User(newId, name, Some(email), None, false, hash, Security, Some(estateId), None, true,
                               None, None, None);
                 r.value == (WithoutPassword(u), db.(users := db.users + [u]))
  {
    if UserByEmail(db, email).Some? then Err("Email already exists")
    else if EstateById(db, estateId).None? then Err("Estate not found")
    else
      var u := User(newId, name, Some(email), None, false, hash, Security, Some(estateId), None, true,
                    None, None, None);
      Ok((WithoutPassword(u), db.(users := db.users + [u])))
  }

  /** A guard account can log in by email straight away with its password:
      it needs neither approval nor a verified phone. */
  lemma SecurityAccountCanLogIn(db: Db, name: string, email: string, hash: string, estateId: string, newId: string,
                                plain: string, passwordMatches: (string, string) -> bool, issued: string, now: int)
    requires '@' in email && passwordMatches(plain, hash)
    requires CreateSecurityAccount(db, name, email, hash, estateId, newId).Ok?
    ensures var db' := CreateSecurityAccount(db, name, email, hash, estateId, newId).value.1;
            var login := LoginWithPassword(db', email, plain, passwordMatches, issued, now);
            login.Ok? && login.value.user.role == Security && login.value.user.id == newId
  {
    var db' := CreateSecurityAccount(db, name, email, hash, estateId, newId).value.1;
    assert db'.users[|db.users|].email == Some(email);
    assert UserByEmail(db', email) == Some(|db.users|);
  }
}
