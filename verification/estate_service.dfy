/** The estate records of the backend: creation by the platform's
    administrator, partial updates, suspension, and the dashboard counts of
    one estate. */
module EstateService {
  import opened Common
  import opened Types
  import opened BackendStore
  import opened PassService
  import opened UserService

  /** `createEstate`: a new estate, ACTIVE from the start, with the given
      tier. */
  function CreateEstate(db: Db, name: string, code: string, tier: SubscriptionTier, newId: string): (r: (Estate, Db))
    ensures r.0.status == EstateActive && r.0.subscriptionTier == tier && r.0.name == name && r.0.code == code
    ensures r.1 == db.(estates := db.estates + [r.0])
  {
    var e := Estate(newId, name, code, None, None, tier, EstateActive);
    (e, db.(estates := db.estates + [e]))
  }

  /** The columns of an estate that a body may name. */
  const EstateColumns: set<string> := {"id", "name", "code", "address", "description", "subscriptionTier", "status"}

  function TierName(t: SubscriptionTier): string {
    match t
    case Free => "FREE"
    case Premium => "PREMIUM"
  }

  function ParseTier(s: string): (r: Option<SubscriptionTier>)
    ensures r.Some? <==> s == "FREE" || s == "PREMIUM"
    ensures r.Some? ==> TierName(r.value) == s
  {
    if s == "FREE" then Some(Free) else if s == "PREMIUM" then Some(Premium) else None
  }

  function StatusName(st: EstateStatus): string {
    match st
    case EstateActive => "ACTIVE"
    case EstateSuspended => "SUSPENDED"
    case EstatePending => "PENDING"
  }

  function ParseStatus(s: string): (r: Option<EstateStatus>)
    ensures r.Some? <==> s == "ACTIVE" || s == "SUSPENDED" || s == "PENDING"
    ensures r.Some? ==> StatusName(r.value) == s
  {
    if s == "ACTIVE" then Some(EstateActive)
    else if s == "SUSPENDED" then Some(EstateSuspended)
    else if s == "PENDING" then Some(EstatePending)
    else None
  }

  /** Every enum value is sent by its name and read back as itself. */
  lemma NamesReadBack(t: SubscriptionTier, st: EstateStatus)
    ensures ParseTier(TierName(t)) == Some(t)
    ensures ParseStatus(StatusName(st)) == Some(st)
  {
  }

  /** The estate column `key` as it is sent in JSON. */
  function ColumnValue(e: Estate, key: string): JsonValue {
    if key == "id" then JStr(e.id)
    else if key == "name" then JStr(e.name)
    else if key == "code" then JStr(e.code)
    else if key == "address" then (if e.address.Some? then JStr(e.address.value) else JNull)
    else if key == "description" then (if e.description.Some? then JStr(e.description.value) else JNull)
    else if key == "subscriptionTier" then JStr(TierName(e.subscriptionTier))
    else if key == "status" then JStr(StatusName(e.status))
    else JOther
  }

  /** Whether the database accepts `v` for the column `key`: a string for
      the required text columns, a string or `null` for the optional ones,
      and an enum name for the tier and the status. */
  predicate Fits(key: string, v: JsonValue) {
    if key == "id" || key == "name" || key == "code" then v.JStr?
    else if key == "address" || key == "description" then v.JStr? || v.JNull?
    else if key == "subscriptionTier" then v.JStr? && ParseTier(v.s).Some?
    else if key == "status" then v.JStr? && ParseStatus(v.s).Some?
    else false
  }

  function TextOr(body: Body, key: string, otherwise: string): string {
    if key in body && body[key].JStr? then body[key].s else otherwise
  }

  function OptionalOr(body: Body, key: string, otherwise: Option<string>): Option<string> {
    if key !in body then otherwise
    else if body[key].JStr? then Some(body[key].s)
    else None
  }

  /** The estate with the columns the body names overwritten. */
  function Overwrite(e: Estate, body: Body): Estate
    requires forall key :: key in body ==> Fits(key, body[key])
  {
    Estate(TextOr(body, "id", e.id), TextOr(body, "name", e.name), TextOr(body, "code", e.code),
           OptionalOr(body, "address", e.address), OptionalOr(body, "description", e.description),
           if "subscriptionTier" in body && Fits("subscriptionTier", body["subscriptionTier"])
           then ParseTier(body["subscriptionTier"].s).value else e.subscriptionTier,
           if "status" in body && Fits("status", body["status"]) then ParseStatus(body["status"].s).value else e.status)
  }

  /** `updateEstate` as the source has it: the body goes to the database
      unchanged, so a key that is not a column, such as the `tier` the
      service's own parameter type names, is an unknown argument; a value
      of the wrong kind is refused; then a missing estate fails. */
  function UpdateEstateAsWritten(db: Db, id: string, body: Body): (r: Result<(Estate, Db)>)
    ensures r.Ok? <==> body.Keys <= EstateColumns && (forall key :: key in body ==> Fits(key, body[key]))
                       && EstateById(db, id).Some?
    ensures !(body.Keys <= EstateColumns) ==> r == Err("Unknown argument")
    ensures r.Ok? ==>
              var k := EstateById(db, id).value;
              (forall key :: key in EstateColumns ==>
                 ColumnValue(r.value.0, key) == if key in body then body[key] else ColumnValue(db.estates[k], key))
              && r.value.1 == db.(estates := db.estates[k := r.value.0])
  {
    if !(body.Keys <= EstateColumns) then Err("Unknown argument")
    else if !(forall key :: key in body ==> Fits(key, body[key])) then Err("Invalid value")
    else match EstateById(db, id)
      case None => Err("Record to update not found")
      case Some(k) =>
        var e := Overwrite(db.estates[k], body);
        OverwriteSetsColumns(db.estates[k], body);
        Ok((e, db.(estates := db.estates[k := e])))
  }

  /** Each column of the overwritten estate reads as the body's value when
      the body names it and as before otherwise. */
  lemma OverwriteSetsColumns(e: Estate, body: Body)
    requires forall key :: key in body ==> Fits(key, body[key])
    ensures forall key :: key in EstateColumns ==>
              ColumnValue(Overwrite(e, body), key) == if key in body then body[key] else ColumnValue(e, key)
  {
    forall key | key in EstateColumns
      ensures ColumnValue(Overwrite(e, body), key) == if key in body then body[key] else ColumnValue(e, key)
    {
      if key in body {
        assert Fits(key, body[key]);
      }
    }
  }

  /** The clients' own requests: the super administrator's tier switch
      sends `{ subscriptionTier }`, and it changes exactly the tier. */
  lemma SubscriptionTierUpdateSucceeds(db: Db, id: string, t: SubscriptionTier)
    requires EstateById(db, id).Some?
    ensures var r := UpdateEstateAsWritten(db, id, map["subscriptionTier" := JStr(TierName(t))]);
            var k := EstateById(db, id).value;
            r.Ok? && r.value.0 == db.estates[k].(subscriptionTier := t)
  {
    var body := map["subscriptionTier" := JStr(TierName(t))];
    var r := UpdateEstateAsWritten(db, id, body);
    var k := EstateById(db, id).value;
    var e := db.estates[k];
    assert ColumnValue(r.value.0, "subscriptionTier") == body["subscriptionTier"];
    assert ColumnValue(r.value.0, "id") == ColumnValue(e, "id");
    assert ColumnValue(r.value.0, "name") == ColumnValue(e, "name");
    assert ColumnValue(r.value.0, "code") == ColumnValue(e, "code");
    assert ColumnValue(r.value.0, "address") == ColumnValue(e, "address");
    assert ColumnValue(r.value.0, "description") == ColumnValue(e, "description");
    assert ColumnValue(r.value.0, "status") == ColumnValue(e, "status");
    TierNameInjective(r.value.0.subscriptionTier, t);
    StatusNameInjective(r.value.0.status, e.status);
  }

  lemma TierNameInjective(a: SubscriptionTier, b: SubscriptionTier)
    requires TierName(a) == TierName(b)
    ensures a == b
  {
    NamesReadBack(a, EstateActive);
    NamesReadBack(b, EstateActive);
  }

  lemma StatusNameInjective(a: EstateStatus, b: EstateStatus)
    requires StatusName(a) == StatusName(b)
    ensures a == b
  {
    NamesReadBack(Free, a);
    NamesReadBack(Free, b);
  }

  /** The discrepancy: a body with a `tier` key, the field the service's
      parameter type declares and `createEstate` reads, is refused whatever
      the estate and the rest of the body. */
  lemma TierKeyIsRefusedAsWritten(db: Db, id: string, body: Body)
    requires "tier" in body
    ensures UpdateEstateAsWritten(db, id, body) == Err("Unknown argument")
  {
    assert "tier" in body.Keys && "tier" !in EstateColumns;
  }

  /** The body with a `tier` key read as the tier column, as `createEstate`
      reads it. */
  function TierAsColumn(body: Body): (b: Body)
    ensures "tier" !in b
    ensures "tier" !in body ==> b == body
    ensures "tier" in body ==> "subscriptionTier" in b && b["subscriptionTier"] == body["tier"]
    ensures forall key :: key in b <==> (key in body && key != "tier") || (key == "subscriptionTier" && "tier" in body)
  {
    if "tier" in body then (body - {"tier"})["subscriptionTier" := body["tier"]] else body
  }

  /** `updateEstate` with a `tier` key stored as the tier, as `createEstate`
      does; every other body is treated as the source treats it. */
  function UpdateEstate(db: Db, id: string, body: Body): (r: Result<(Estate, Db)>)
    ensures "tier" in body && Fits("subscriptionTier", body["tier"]) && (body - {"tier", "subscriptionTier"}).Keys <= EstateColumns
            && (forall key :: key in body && key != "tier" && key != "subscriptionTier" ==> Fits(key, body[key]))
            && EstateById(db, id).Some?
            ==> r.Ok? && r.value.0.subscriptionTier == ParseTier(body["tier"].s).value
  {
    TierIsStored(db, id, body);
    UpdateEstateAsWritten(db, id, TierAsColumn(body))
  }

  /** A valid `tier` key, read as the tier column, sets the tier. */
  lemma TierIsStored(db: Db, id: string, body: Body)
    ensures "tier" in body && Fits("subscriptionTier", body["tier"]) && (body - {"tier", "subscriptionTier"}).Keys <= EstateColumns
            && (forall key :: key in body && key != "tier" && key != "subscriptionTier" ==> Fits(key, body[key]))
            && EstateById(db, id).Some?
            ==> var r := UpdateEstateAsWritten(db, id, TierAsColumn(body));
                r.Ok? && r.value.0.subscriptionTier == ParseTier(body["tier"].s).value
  {
    var b := TierAsColumn(body);
    if "tier" in body && Fits("subscriptionTier", body["tier"]) && (body - {"tier", "subscriptionTier"}).Keys <= EstateColumns
       && (forall key :: key in body && key != "tier" && key != "subscriptionTier" ==> Fits(key, body[key]))
       && EstateById(db, id).Some? {
      assert b.Keys <= EstateColumns;
      assert forall key :: key in b ==> Fits(key, b[key]);
      var r := UpdateEstateAsWritten(db, id, b);
      assert ColumnValue(r.value.0, "subscriptionTier") == body["tier"];
      TierNameInjective(r.value.0.subscriptionTier, ParseTier(body["tier"].s).value);
    }
  }

  /** The correction changes nothing for a body without a `tier` key, the
      clients' `{ subscriptionTier }` included. */
  lemma UpdateEstateAgreesWithoutTier(db: Db, id: string, body: Body)
    requires "tier" !in body
    ensures UpdateEstate(db, id, body) == UpdateEstateAsWritten(db, id, body)
  {
  }

  /** The status a toggle leaves: ACTIVE is suspended, anything else (a
      suspended or a pending estate) becomes ACTIVE. */
  function ToggledStatus(s: EstateStatus): (t: EstateStatus)
    ensures s == EstateActive <==> t == EstateSuspended
    ensures s != EstateActive <==> t == EstateActive
  {
    if s == EstateActive then EstateSuspended else EstateActive
  }

  /** `toggleEstateStatus`. */
  function ToggleEstateStatus(db: Db, id: string): (r: Result<(Estate, Db)>)
    ensures EstateById(db, id).None? <==> r == Err("Estate not found")
    ensures r.Ok? ==>
              var k := EstateById(db, id).value;
              r.value.0 == db.estates[k].(status := ToggledStatus(db.estates[k].status))
              && r.value.1 == db.(estates := db.estates[k := r.value.0])
  {
    match EstateById(db, id)
    case None => Err("Estate not found")
    case Some(k) =>
      var e := db.estates[k].(status := ToggledStatus(db.estates[k].status));
      Ok((e, db.(estates := db.estates[k := e])))
  }

  /** Toggling twice restores an active or suspended estate; a pending
      estate ends up suspended instead, so it never returns to PENDING. */
  lemma DoubleToggle(db: Db, id: string)
    requires EstateById(db, id).Some?
    ensures var k := EstateById(db, id).value;
            var once := ToggleEstateStatus(db, id).value.1;
            var twice := ToggleEstateStatus(once, id);
            twice.Ok?
            && (db.estates[k].status != EstatePending ==> twice.value.1 == db)
            && (db.estates[k].status == EstatePending ==> twice.value.0.status == EstateSuspended)
  {
    var k := EstateById(db, id).value;
    var once := ToggleEstateStatus(db, id).value.1;
    FindFirstAfterUpdate(db.estates, (e: Estate) => e.id == id, k, once.estates[k]);
  }

  datatype EstateStats = EstateStats(totalResidents: nat, pendingResidents: nat, activePasses: nat, unpaidBills: nat)

  predicate ResidentOf(u: User, estateId: string) {
    u.role == Resident && u.estateId == Some(estateId)
  }

  predicate PendingResidentOf(u: User, estateId: string) {
    ResidentOf(u, estateId) && !u.isApproved
  }

  /** `getEstateStats`: the estate's residents, those still unapproved, the
      ACTIVE passes of its residents' hosts and its UNPAID bills. */
  function GetEstateStats(db: Db, estateId: string): (s: EstateStats)
    ensures s.totalResidents == Count(db.users, (u: User) => ResidentOf(u, estateId))
    ensures s.pendingResidents == Count(db.users, (u: User) => PendingResidentOf(u, estateId))
    ensures s.activePasses == Count(db.passes, (p: Pass) => p.status == Active && HostInEstate(db, p, estateId))
    ensures s.unpaidBills == Count(db.bills, (b: Bill) => b.estateId == estateId && b.status == Unpaid)
  {
    EstateStats(Count(db.users, (u: User) => ResidentOf(u, estateId)),
                Count(db.users, (u: User) => PendingResidentOf(u, estateId)),
                Count(db.passes, (p: Pass) => p.status == Active && HostInEstate(db, p, estateId)),
                Count(db.bills, (b: Bill) => b.estateId == estateId && b.status == Unpaid))
  }

  /** The pending residents are among the residents. */
  lemma PendingAtMostTotal(db: Db, estateId: string)
    ensures GetEstateStats(db, estateId).pendingResidents <= GetEstateStats(db, estateId).totalResidents
  {
    CountMonotone(db.users, (u: User) => PendingResidentOf(u, estateId), (u: User) => ResidentOf(u, estateId));
  }

  /** Approving a pending resident of the estate lowers the pending count by
      one and leaves the resident count alone. */
  lemma ApprovalLowersPending(db: Db, userId: string, estateId: string)
    requires UserById(db, userId).Some?
    requires PendingResidentOf(db.users[UserById(db, userId).value], estateId)
    ensures ApproveUser(db, userId).Ok?
    ensures var s := GetEstateStats(db, estateId);
            var s' := GetEstateStats(ApproveUser(db, userId).value.1, estateId);
            s'.pendingResidents == s.pendingResidents - 1 && s'.totalResidents == s.totalResidents
  {
    var i := UserById(db, userId).value;
    var u := db.users[i].(isApproved := true);
    CountUpdate(db.users, (v: User) => PendingResidentOf(v, estateId), i, u);
    CountUpdate(db.users, (v: User) => ResidentOf(v, estateId), i, u);
  }
}
