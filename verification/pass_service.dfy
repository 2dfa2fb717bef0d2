/** The backend's guest-pass service: creating passes, checking a code at
    the gate, recording entry and exit, and cancelling. */
module PassService {
  import opened Common
  import opened Types
  import opened BackendStore

  /** The type names the database's enum accepts. */
  function ParsePassType(s: string): (r: Option<PassType>)
    ensures r == Some(OneTime) <==> s == "ONE_TIME"
    ensures r == Some(Recurring) <==> s == "RECURRING"
    ensures r == Some(Delivery) <==> s == "DELIVERY"
  {
    if s == "ONE_TIME" then Some(OneTime)
    else if s == "RECURRING" then Some(Recurring)
    else if s == "DELIVERY" then Some(Delivery)
    else None
  }

  /** The name the database's enum gives a pass type. */
  function PassTypeName(t: PassType): (s: string)
    ensures ParsePassType(s) == Some(t)
  {
    match t
    case OneTime => "ONE_TIME"
    case Recurring => "RECURRING"
    case Delivery => "DELIVERY"
  }

  /** The default lifetime of a new pass when no `validUntil` is given.
      `setHours(+12)`, `setDate(+30)` and `setMinutes(+30)` are taken as
      fixed offsets; a missing or unknown type adds nothing. */
  function DefaultValidUntil(typeName: Option<string>, now: int): (v: int)
    ensures typeName == Some("ONE_TIME") ==> v == now + 12 * HourMs
    ensures typeName == Some("RECURRING") ==> v == now + 30 * DayMs
    ensures typeName == Some("DELIVERY") ==> v == now + 30 * MinuteMs
    ensures typeName.None? || ParsePassType(typeName.value).None? ==> v == now
  {
    if typeName.None? then now
    else match ParsePassType(typeName.value)
      case Some(OneTime) => now + 12 * HourMs
      case Some(Recurring) => now + 30 * DayMs
      case Some(Delivery) => now + 30 * MinuteMs
      case None => now
  }

  /** `generatePass`: a new ACTIVE pass with a five-digit code. An explicit
      `validUntil` wins over the default. A missing type is stored as
      ONE_TIME although its default validity was computed as "now"; a type
      name the enum does not know is refused by the database. `id` is the
      identifier the database assigns and `draw` the random
      `Math.random() * 90000` rounded down. */
  function GeneratePass(db: Db, userId: string, guestName: string, typeName: Option<string>,
                        validUntil: Option<int>, exitInstruction: Option<string>,
                        deliveryCompany: Option<string>, now: int, id: string, draw: nat): (r: Result<(Pass, Db)>)
    requires draw < 90000
    ensures r.Err? <==> Truthy(typeName) && ParsePassType(typeName.value).None?
    ensures r.Ok? ==>
              var p := r.value.0;
              r.value.1 == db.(passes := db.passes + [p])
              && p.status == Active && p.hostId == userId && p.guestName == guestName && p.createdAt == now
              && p.passType == (if Truthy(typeName) then ParsePassType(typeName.value).value else OneTime)
              && p.validUntil == (if validUntil.Some? then validUntil.value else DefaultValidUntil(typeName, now))
              && |p.code| == 5 && AllDigits(p.code) && 10000 <= DigitsValue(p.code) <= 99999
              && p.entryTime.None? && p.exitTime.None?
  {
    PassCodeHasFiveDigits(draw);
    PassCodeInRange(draw);
    var stored := if Truthy(typeName) then ParsePassType(typeName.value) else Some(OneTime);
    if stored.None? then Err("Invalid value for argument `type`")
    else
      var p := Pass(id, RandomCode(10000, draw), userId, None, guestName, stored.value, Active,
                    if validUntil.Some? then validUntil.value else DefaultValidUntil(typeName, now),
                    now, None, None, exitInstruction, deliveryCompany);
      Ok((p, db.(passes := db.passes + [p])))
  }

  /** A pass created without a type is stored as ONE_TIME but expires at
      once, unlike one created as ONE_TIME. */
  lemma MissingTypeExpiresAtOnce(db: Db, userId: string, g: string, ei: Option<string>, dc: Option<string>,
                                 now: int, id: string, draw: nat)
    requires draw < 90000
    ensures var p := GeneratePass(db, userId, g, None, None, ei, dc, now, id, draw);
            var q := GeneratePass(db, userId, g, Some("ONE_TIME"), None, ei, dc, now, id, draw);
            p.Ok? && q.Ok? && p.value.0.passType == q.value.0.passType == OneTime
            && p.value.0.validUntil == now && q.value.0.validUntil == now + 12 * HourMs
  {
  }

  datatype Validation = Valid(pass: Pass) | Invalid(message: string)

  /** The host's estate check: the pass's host must be in the guard's
      estate. A pass whose host record is missing is refused here too. */
  predicate HostInEstate(db: Db, p: Pass, estateId: string) {
    match UserById(db, p.hostId)
    case Some(h) => db.users[h].estateId == Some(estateId)
    case None => false
  }

  /** `validateCode`, checking in order: unknown code, host in another
      estate, cancelled, then expired (status EXPIRED or past `validUntil`)
      for every type of pass. The store is not changed. */
  function ValidateCode(db: Db, code: string, estateId: string, now: int): (r: Validation)
    ensures PassByCode(db, code).None? <==> r == Invalid("Invalid Code")
    ensures r.Valid? ==> r.pass in db.passes && r.pass.code == code && HostInEstate(db, r.pass, estateId)
                         && r.pass.status != Cancelled && r.pass.status != Expired && r.pass.validUntil >= now
  {
    match PassByCode(db, code)
    case None => Invalid("Invalid Code")
    case Some(i) =>
      var p := db.passes[i];
      if !HostInEstate(db, p, estateId) then Invalid("Code belongs to different estate")
      else if p.status == Cancelled then Invalid("Code Cancelled")
      else if p.status == Expired || p.validUntil < now then Invalid("Code Expired")
      else Valid(p)
  }

  /** Each answer of a scan of a stored code, and exactly when it is
      given: another estate's pass is refused whatever its state, a
      cancelled pass is refused before its date is looked at, and a pass is
      accepted exactly when it is usable at this gate now. */
  lemma ValidateCodeOutcomes(db: Db, code: string, estateId: string, now: int, i: nat)
    requires PassByCode(db, code) == Some(i)
    ensures var r := ValidateCode(db, code, estateId, now);
            var p := db.passes[i];
            (r != Invalid("Invalid Code"))
            && (r == Invalid("Code belongs to different estate") <==> !HostInEstate(db, p, estateId))
            && (r == Invalid("Code Cancelled") <==> HostInEstate(db, p, estateId) && p.status == Cancelled)
            && (r == Invalid("Code Expired") <==>
                  HostInEstate(db, p, estateId) && p.status != Cancelled && (p.status == Expired || p.validUntil < now))
            && (r.Valid? <==> HostInEstate(db, p, estateId) && p.status in {Active, CheckedIn} && p.validUntil >= now)
            && (r.Valid? ==> r.pass == p)
  {
  }

  /** Unlike the mock, the backend refuses a recurring pass past its
      `validUntil`. */
  lemma RecurringExpiresByDate(db: Db, code: string, estateId: string, now: int, i: nat)
    requires PassByCode(db, code) == Some(i) && HostInEstate(db, db.passes[i], estateId)
    requires db.passes[i].passType == Recurring && db.passes[i].status != Cancelled
    requires db.passes[i].validUntil < now
    ensures ValidateCode(db, code, estateId, now) == Invalid("Code Expired")
  {
  }

  /** `processEntry`: CHECKED_IN with entry time `now`, whatever the status
      was (cancelled and expired passes included). A missing pass is
      Prisma's "record not found". */
  function ProcessEntry(db: Db, passId: string, now: int): (r: Result<(Pass, Db)>)
    ensures PassById(db, passId).None? <==> r.Err?
    ensures r.Ok? ==>
              var i := PassById(db, passId).value;
              r.value.0 == db.passes[i].(status := CheckedIn, entryTime := Some(now))
              && r.value.1 == db.(passes := db.passes[i := r.value.0])
  {
    match PassById(db, passId)
    case None => Err("Record to update not found")
    case Some(i) =>
      var p := db.passes[i].(status := CheckedIn, entryTime := Some(now));
      Ok((p, db.(passes := db.passes[i := p])))
  }

  /** `processExit`: "Pass not found" for an unknown id; otherwise a
      recurring pass returns to ACTIVE and every other type is EXPIRED,
      with exit time `now`. */
  function ProcessExit(db: Db, passId: string, now: int): (r: Result<(Pass, Db)>)
    ensures PassById(db, passId).None? <==> r == Err("Pass not found")
    ensures r.Ok? ==>
              var i := PassById(db, passId).value;
              r.value.0 == db.passes[i].(status := ExitStatus(db.passes[i].passType), exitTime := Some(now))
              && r.value.1 == db.(passes := db.passes[i := r.value.0])
  {
    match PassById(db, passId)
    case None => Err("Pass not found")
    case Some(i) =>
      var p := db.passes[i].(status := ExitStatus(db.passes[i].passType), exitTime := Some(now));
      Ok((p, db.(passes := db.passes[i := p])))
  }

  /** `cancelPass`: "Pass not found" for an unknown id, a refusal for a
      caller who is not the host, and otherwise only the status becomes
      CANCELLED. */
  function CancelPass(db: Db, passId: string, userId: string): (r: Result<(Pass, Db)>)
    ensures PassById(db, passId).None? ==> r == Err("Pass not found")
    ensures PassById(db, passId).Some? && db.passes[PassById(db, passId).value].hostId != userId ==>
              r == Err("Unauthorized to cancel this pass")
    ensures r.Ok? <==> PassById(db, passId).Some? && db.passes[PassById(db, passId).value].hostId == userId
    ensures r.Ok? ==>
              var i := PassById(db, passId).value;
              r.value.0 == db.passes[i].(status := Cancelled)
              && r.value.1 == db.(passes := db.passes[i := r.value.0])
  {
    match PassById(db, passId)
    case None => Err("Pass not found")
    case Some(i) =>
      if db.passes[i].hostId != userId then Err("Unauthorized to cancel this pass")
      else
        var p := db.passes[i].(status := Cancelled);
        Ok((p, db.(passes := db.passes[i := p])))
  }

  /** Once the host cancels a pass, a scan of its code in the host's
      estate is refused as cancelled. */
  lemma CancelledCodeIsRefused(db: Db, passId: string, userId: string, code: string, estateId: string, now: int, i: nat)
    requires PassById(db, passId) == Some(i) && PassByCode(db, code) == Some(i)
    requires HostInEstate(db, db.passes[i], estateId)
    requires CancelPass(db, passId, userId).Ok?
    ensures ValidateCode(CancelPass(db, passId, userId).value.1, code, estateId, now) == Invalid("Code Cancelled")
  {
    var db' := CancelPass(db, passId, userId).value.1;
    PassByCodeAfterUpdate(db, i, db'.passes[i], code);
    assert db'.users == db.users;
  }

  /** After an exit, a one-time or delivery pass is refused at its next
      scan, unless it was cancelled before. */
  lemma SpentPassIsRefused(db: Db, passId: string, code: string, estateId: string, now: int, later: int, i: nat)
    requires PassById(db, passId) == Some(i) && PassByCode(db, code) == Some(i)
    requires HostInEstate(db, db.passes[i], estateId) && db.passes[i].passType != Recurring
    ensures ProcessExit(db, passId, now).Ok?
    ensures var db' := ProcessExit(db, passId, now).value.1;
            ValidateCode(db', code, estateId, later) == Invalid("Code Expired")
  {
    var db' := ProcessExit(db, passId, now).value.1;
    PassByCodeAfterUpdate(db, i, db'.passes[i], code);
    assert db'.users == db.users;
  }

  /** Changing a pass without changing its code keeps it the first pass
      with that code. */
  lemma PassByCodeAfterUpdate(db: Db, i: nat, p: Pass, code: string)
    requires PassByCode(db, code) == Some(i) && p.code == code
    ensures PassByCode(db.(passes := db.passes[i := p]), code) == Some(i)
  {
    FindFirstAfterUpdate(db.passes, (q: Pass) => q.code == code, i, p);
  }
}
