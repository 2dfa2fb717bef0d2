/** The in-memory service the web client runs against: users, estates,
    guest passes, the gate log and bills, kept in module-level arrays and
    changed by the service functions. Here the arrays form one immutable
    store and every function returns the new store. Identifiers built from
    the clock (`p_${Date.now()}`) are built the same way from `now`. */
module MockService {
  import opened Common
  import opened Types

  /** The mock's estates are only ever ACTIVE or SUSPENDED. */
  datatype EstateStatus = Open | Suspended

  datatype User = User(
    id: string,
    name: string,
    email: string,
    role: UserRole,
    estateId: string,
    unitNumber: Option<string>,
    isApproved: bool
  )

  datatype Estate = Estate(id: string, name: string, code: string, tier: SubscriptionTier, status: EstateStatus)

  datatype LogKind = Manual | Digital

  /** A gate log line. Its identifier (built from the clock and
      `Math.random`) is not modelled. */
  datatype LogEntry = LogEntry(
    estateId: string,
    guestName: string,
    destination: string,
    entryTime: int,
    exitTime: Option<int>,
    kind: LogKind,
    notes: Option<string>
  )

  datatype Bill = Bill(
    id: string,
    estateId: string,
    userId: string,
    billType: BillType,
    amount: int,
    dueDate: int,
    status: BillStatus,
    paidAt: Option<int>,
    description: string
  )

  datatype Store = Store(
    users: seq<User>,
    estates: seq<Estate>,
    passes: seq<GuestPass>,
    logs: seq<LogEntry>,
    bills: seq<Bill>
  )

  /** A recurring schedule as the create-pass form sends it. */
  datatype Schedule = Schedule(days: seq<string>, start: string, end: string)

  /** `a || b` on an optional string: the empty string is falsy too. */
  function OrElse(a: Option<string>, b: string): (r: string)
    ensures a.Some? && a.value != "" ==> r == a.value
    ensures a.None? || a.value == "" ==> r == b
  {
    if a.Some? && a.value != "" then a.value else b
  }

  /** How a template literal prints an optional string. */
  function Show(a: Option<string>): string {
    match a
    case Some(s) => s
    case None => "undefined"
  }

  /** `!x` on an optional timestamp: absent, or the falsy 0. */
  predicate Unset(t: Option<int>) {
    t.None? || t.value == 0
  }

  // ---------------------------------------------------------------------
  // Lookups: `array.find`, the first element that fits

  function FindUserById(users: seq<User>, id: string): (r: Option<nat>)
    ensures r.Some? ==> r.value < |users| && users[r.value].id == id
    ensures r.Some? ==> forall j :: 0 <= j < r.value ==> users[j].id != id
    ensures r.None? <==> forall j :: 0 <= j < |users| ==> users[j].id != id
  {
    FindFirst(users, (u: User) => u.id == id)
  }

  function FindUserByEmail(users: seq<User>, email: string): (r: Option<nat>)
    ensures r.Some? ==> r.value < |users| && users[r.value].email == email
    ensures r.None? <==> forall j :: 0 <= j < |users| ==> users[j].email != email
  {
    FindFirst(users, (u: User) => u.email == email)
  }

  function FindEstateByCode(estates: seq<Estate>, code: string): (r: Option<nat>)
    ensures r.Some? ==> r.value < |estates| && estates[r.value].code == code
    ensures r.None? <==> forall j :: 0 <= j < |estates| ==> estates[j].code != code
  {
    FindFirst(estates, (e: Estate) => e.code == code)
  }

  function FindPassById(passes: seq<GuestPass>, id: string): (r: Option<nat>)
    ensures r.Some? ==> r.value < |passes| && passes[r.value].id == id
    ensures r.None? <==> forall j :: 0 <= j < |passes| ==> passes[j].id != id
  {
    FindFirst(passes, (p: GuestPass) => p.id == id)
  }

  function FindPassByCode(passes: seq<GuestPass>, code: string): (r: Option<nat>)
    ensures r.Some? ==> r.value < |passes| && passes[r.value].code == code
    ensures r.Some? ==> forall j :: 0 <= j < r.value ==> passes[j].code != code
    ensures r.None? <==> forall j :: 0 <= j < |passes| ==> passes[j].code != code
  {
    FindFirst(passes, (p: GuestPass) => p.code == code)
  }

  /** The estate of a pass's host, or '' when the host is unknown
      (`USERS.find(...)?.estateId || ''`). */
  function HostEstate(users: seq<User>, hostId: string): string {
    match FindUserById(users, hostId)
    case Some(i) => users[i].estateId
    case None => ""
  }

  // ---------------------------------------------------------------------
  // Registration and approval

  /** `register`: a duplicate email and an unknown estate code are refused;
      otherwise one unapproved user joins the estate whose code was given. */
  function Register(s: Store, name: string, email: string, role: UserRole, estateCode: string,
                    unitNumber: Option<string>, now: nat): (r: (Result<User>, Store))
    ensures (exists j :: 0 <= j < |s.users| && s.users[j].email == email) ==>
              r == (Err("Email already exists"), s)
    ensures (forall j :: 0 <= j < |s.users| ==> s.users[j].email != email)
            && (forall j :: 0 <= j < |s.estates| ==> s.estates[j].code != estateCode) ==>
              r == (Err("Invalid Estate Property Code"), s)
    ensures r.0.Ok? <==> (forall j :: 0 <= j < |s.users| ==> s.users[j].email != email)
                         && (exists j :: 0 <= j < |s.estates| && s.estates[j].code == estateCode)
    ensures r.0.Ok? ==>
              var u := r.0.value;
              r.1 == s.(users := s.users + [u])
              && u.name == name && u.email == email && u.role == role && !u.isApproved
              && u.unitNumber == Some(unitNumber.GetOr(""))
              && exists j :: 0 <= j < |s.estates| && s.estates[j].code == estateCode && s.estates[j].id == u.estateId
  {
    if FindUserByEmail(s.users, email).Some? then (Err("Email already exists"), s)
    else match FindEstateByCode(s.estates, estateCode)
      case None => (Err("Invalid Estate Property Code"), s)
      case Some(e) =>
        var u := User("u_" + DecimalString(now), name, email, role, s.estates[e].id,
                      Some(unitNumber.GetOr("")), false);
        (Ok(u), s.(users := s.users + [u]))
  }

  /** `login`: the first user with that email. */
  function Login(s: Store, email: string): (r: Option<User>)
    ensures r.Some? ==> r.value in s.users && r.value.email == email
    ensures r.None? <==> forall j :: 0 <= j < |s.users| ==> s.users[j].email != email
  {
    match FindUserByEmail(s.users, email)
    case Some(i) => Some(s.users[i])
    case None => None
  }

  /** A user who registered can log in with their email, and finds the
      record just created, awaiting approval. */
  lemma RegisteredUserCanLogIn(s: Store, name: string, email: string, role: UserRole, code: string,
                               unit: Option<string>, now: nat)
    requires Register(s, name, email, role, code, unit, now).0.Ok?
    ensures var (res, s') := Register(s, name, email, role, code, unit, now);
            Login(s', email) == Some(res.value) && !res.value.isApproved
  {
    var (res, s') := Register(s, name, email, role, code, unit, now);
    assert s'.users[|s.users|] == res.value;
  }

  /** Registering the same email twice fails the second time, whatever the
      estate code. */
  lemma RegisterTwiceFails(s: Store, name: string, email: string, role: UserRole, code: string,
                           unit: Option<string>, now: nat, code2: string, now2: nat)
    requires Register(s, name, email, role, code, unit, now).0.Ok?
    ensures var s' := Register(s, name, email, role, code, unit, now).1;
            Register(s', name, email, role, code2, unit, now2).0 == Err("Email already exists")
  {
    var s' := Register(s, name, email, role, code, unit, now).1;
    assert s'.users[|s.users|].email == email;
  }

  /** `getPendingUsers`: the users of the estate still awaiting approval. */
  function PendingUsers(s: Store, estateId: string): (r: seq<User>)
    ensures forall u :: u in r <==> u in s.users && u.estateId == estateId && !u.isApproved
  {
    Filter(s.users, (u: User) => u.estateId == estateId && !u.isApproved)
  }

  /** `approveUser`: every user with that id becomes approved; nobody else
      changes. */
  function ApproveUser(s: Store, userId: string): (r: Store)
    ensures r == s.(users := r.users) && |r.users| == |s.users|
    ensures forall i :: 0 <= i < |s.users| ==>
              r.users[i] == if s.users[i].id == userId then s.users[i].(isApproved := true) else s.users[i]
  {
    s.(users := MapWhere(s.users, (u: User) => u.id == userId, (u: User) => u.(isApproved := true)))
  }

  /** `rejectUser`: the users with that id are removed; the others stay. */
  function RejectUser(s: Store, userId: string): (r: Store)
    ensures r == s.(users := r.users)
    ensures forall u :: u in r.users <==> u in s.users && u.id != userId
  {
    s.(users := Filter(s.users, (u: User) => u.id != userId))
  }

  /** Once approved or rejected, a user no longer waits for approval. */
  lemma DecidedUserIsNotPending(s: Store, userId: string, estateId: string)
    ensures forall u :: u in PendingUsers(ApproveUser(s, userId), estateId) ==> u.id != userId
    ensures forall u :: u in PendingUsers(RejectUser(s, userId), estateId) ==> u.id != userId
    ensures forall u :: u in PendingUsers(s, estateId) && u.id != userId ==>
              u in PendingUsers(ApproveUser(s, userId), estateId) && u in PendingUsers(RejectUser(s, userId), estateId)
  {
    var a := ApproveUser(s, userId);
    forall u | u in PendingUsers(a, estateId)
      ensures u.id != userId
    {
      var i :| 0 <= i < |a.users| && a.users[i] == u;
    }
    forall u | u in PendingUsers(s, estateId) && u.id != userId
      ensures u in PendingUsers(a, estateId)
    {
      var i :| 0 <= i < |s.users| && s.users[i] == u;
      assert a.users[i] == u;
    }
  }

  // ---------------------------------------------------------------------
  // Guest passes

  /** How long a new pass stays valid, by type. */
  function Validity(t: PassType): nat {
    match t
    case OneTime => 12 * HourMs
    case Recurring => 30 * DayMs
    case Delivery => 30 * MinuteMs
  }

  /** `generatePass`: an unknown host is an error; otherwise exactly one
      ACTIVE pass is put in front of the others. `draw` is the random
      `Math.random() * 90000` rounded down. */
  function GeneratePass(s: Store, userId: string, guestName: string, exitInstruction: Option<string>,
                        passType: PassType, schedule: Option<Schedule>, deliveryCompany: Option<string>,
                        now: nat, draw: nat): (r: (Result<GuestPass>, Store))
    requires draw < 90000
    ensures FindUserById(s.users, userId).None? <==> r.0.Err?
    ensures r.0.Err? ==> r == (Err("User not found"), s)
    ensures r.0.Ok? ==>
              var p := r.0.value;
              r.1 == s.(passes := [p] + s.passes)
              && p.status == Active && p.passType == passType && p.hostId == userId
              && p.createdAt == now && p.validUntil == now + Validity(passType)
              && p.entryTime.None? && p.exitTime.None?
              && |p.code| == 5 && AllDigits(p.code)
              && p.guestName == (if passType == Delivery then OrElse(deliveryCompany, "Delivery") else guestName)
              && p.deliveryCompany == deliveryCompany
              && (schedule.Some? <==> p.recurringDays.Some?)
  {
    match FindUserById(s.users, userId)
    case None => (Err("User not found"), s)
    case Some(i) =>
      var host := s.users[i];
      PassCodeHasFiveDigits(draw);
      var p := GuestPass(
        "p_" + DecimalString(now), RandomCode(10000, draw), userId, host.name,
        Some(OrElse(host.unitNumber, "N/A")),
        if passType == Delivery then OrElse(deliveryCompany, "Delivery") else guestName,
        exitInstruction, Active, passType,
        if schedule.Some? then Some(schedule.value.days) else None,
        if schedule.Some? then Some(schedule.value.start) else None,
        if schedule.Some? then Some(schedule.value.end) else None,
        now, now + Validity(passType), None, None, None, deliveryCompany);
      (Ok(p), s.(passes := [p] + s.passes))
  }

  /** `cancelPass`: the passes with that id become CANCELLED; nothing else
      changes. */
  function CancelPass(s: Store, passId: string): (r: Store)
    ensures r == s.(passes := r.passes) && |r.passes| == |s.passes|
    ensures forall i :: 0 <= i < |s.passes| ==>
              r.passes[i] == if s.passes[i].id == passId then s.passes[i].(status := Cancelled) else s.passes[i]
  {
    s.(passes := MapWhere(s.passes, (p: GuestPass) => p.id == passId, (p: GuestPass) => p.(status := Cancelled)))
  }

  /** What a scan tells the guard. */
  datatype ScanResult = Accepted(pass: GuestPass) | Rejected(message: string)

  /** The message for a non-recurring pass that has run out, and the pass
      as it is stored afterwards. */
  predicate ExpiresHere(p: GuestPass, now: int) {
    (p.passType == OneTime || p.passType == Delivery) && (p.status == Expired || p.validUntil < now)
  }

  /** `validateCode`, checking in order: unknown code, host in another
      estate (only when the host is known), cancelled, and, for one-time
      and delivery passes only, expired. A pass found past its validity is
      marked EXPIRED in the store. */
  function ValidateCode(s: Store, code: string, estateId: string, now: int): (r: (ScanResult, Store))
    ensures FindPassByCode(s.passes, code).None? <==> r.0 == Rejected("Invalid Code")
    ensures FindPassByCode(s.passes, code).None? ==> r.1 == s
  {
    match FindPassByCode(s.passes, code)
    case None => (Rejected("Invalid Code"), s)
    case Some(i) =>
      var p := s.passes[i];
      var host := FindUserById(s.users, p.hostId);
      if host.Some? && s.users[host.value].estateId != estateId then
        (Rejected("Code belongs to a different estate."), s)
      else if p.status == Cancelled then (Rejected("Code has been cancelled by host."), s)
      else if (p.passType == OneTime || p.passType == Delivery) && p.status == Expired then
        (Rejected("Code expired."), s)
      else if (p.passType == OneTime || p.passType == Delivery) && p.validUntil < now then
        (Rejected("Code expired."), s.(passes := s.passes[i := p.(status := Expired)]))
      else (Accepted(p), s)
  }

  /** The host is known and lives in another estate. A pass whose host is
      unknown passes the estate check. */
  predicate InOtherEstate(s: Store, p: GuestPass, estateId: string) {
    FindUserById(s.users, p.hostId).Some? && s.users[FindUserById(s.users, p.hostId).value].estateId != estateId
  }

  /** Each answer of a scan of a stored code, and exactly when it is
      given; only an expiry found by date changes the store, and only that
      pass's status. */
  lemma ValidateCodeOutcomes(s: Store, code: string, estateId: string, now: int, i: nat)
    requires FindPassByCode(s.passes, code) == Some(i)
    ensures var (res, s') := ValidateCode(s, code, estateId, now);
            var p := s.passes[i];
            var usable := !InOtherEstate(s, p, estateId) && p.status != Cancelled;
            (res != Rejected("Invalid Code"))
            && (res == Rejected("Code belongs to a different estate.") <==> InOtherEstate(s, p, estateId))
            && (res == Rejected("Code has been cancelled by host.") <==> !InOtherEstate(s, p, estateId) && p.status == Cancelled)
            && (res == Rejected("Code expired.") <==> usable && ExpiresHere(p, now))
            && (res.Accepted? <==> usable && !ExpiresHere(p, now))
            && (res.Accepted? ==> res.pass == p)
            && s' == s.(passes := s'.passes)
            && s'.passes == if res == Rejected("Code expired.") then s.passes[i := p.(status := Expired)] else s.passes
  {
    var p := s.passes[i];
    if p.status == Expired {
      assert s.passes[i := p.(status := Expired)] == s.passes;
    }
  }

  /** The mock never expires a recurring pass: one that is found, in the
      guard's estate and not cancelled is accepted, however old it is. */
  lemma RecurringNeverExpires(s: Store, code: string, estateId: string, now: int, i: nat)
    requires FindPassByCode(s.passes, code) == Some(i)
    requires s.passes[i].passType == Recurring && s.passes[i].status != Cancelled
    requires HostEstate(s.users, s.passes[i].hostId) == estateId || FindUserById(s.users, s.passes[i].hostId).None?
    ensures ValidateCode(s, code, estateId, now) == (Accepted(s.passes[i]), s)
  {
  }

  /** `processEntry`: on a known id, the passes with that id are CHECKED_IN
      at `now` and one DIGITAL log line is appended; an unknown id changes
      nothing. */
  function ProcessEntry(s: Store, passId: string, now: int): (r: Store)
    ensures FindPassById(s.passes, passId).None? ==> r == s
    ensures FindPassById(s.passes, passId).Some? ==>
              var p := s.passes[FindPassById(s.passes, passId).value];
              r.users == s.users && r.estates == s.estates && r.bills == s.bills
              && |r.passes| == |s.passes|
              && (forall i :: 0 <= i < |s.passes| ==>
                    r.passes[i] == if s.passes[i].id == passId
                                   then s.passes[i].(status := CheckedIn, entryTime := Some(now))
                                   else s.passes[i])
              && r.logs == s.logs + [EntryLog(s.users, p, now)]
  {
    match FindPassById(s.passes, passId)
    case None => s
    case Some(i) =>
      var p := s.passes[i];
      s.(passes := MapWhere(s.passes, (q: GuestPass) => q.id == passId,
                            (q: GuestPass) => q.(status := CheckedIn, entryTime := Some(now))),
         logs := s.logs + [EntryLog(s.users, p, now)])
  }

  /** The log line of an online entry. */
  function EntryLog(users: seq<User>, p: GuestPass, now: int): (l: LogEntry)
    ensures l.kind == Digital && l.entryTime == now && l.exitTime.None? && l.guestName == p.guestName
    ensures l.notes == Some(if p.passType == Recurring then "Recurring Staff" else "Guest")
  {
    LogEntry(HostEstate(users, p.hostId), p.guestName, "Unit " + Show(p.hostUnit), now, None, Digital,
             Some(if p.passType == Recurring then "Recurring Staff" else "Guest"))
  }

  /** The first open log line of a guest (`!l.exitTime`), which an exit
      closes. */
  function OpenLogOf(logs: seq<LogEntry>, guestName: string): (r: Option<nat>)
    ensures r.Some? ==> r.value < |logs| && logs[r.value].guestName == guestName && Unset(logs[r.value].exitTime)
    ensures r.None? <==> forall j :: 0 <= j < |logs| ==> !(logs[j].guestName == guestName && Unset(logs[j].exitTime))
  {
    FindFirst(logs, (l: LogEntry) => l.guestName == guestName && Unset(l.exitTime))
  }

  /** Closes the guest's first open log line, if there is one. */
  function CloseLog(logs: seq<LogEntry>, guestName: string, t: int): (r: seq<LogEntry>)
    ensures |r| == |logs|
    ensures OpenLogOf(logs, guestName).None? ==> r == logs
    ensures OpenLogOf(logs, guestName).Some? ==>
              var k := OpenLogOf(logs, guestName).value;
              r == logs[k := logs[k].(exitTime := Some(t))]
  {
    match OpenLogOf(logs, guestName)
    case None => logs
    case Some(k) => logs[k := logs[k].(exitTime := Some(t))]
  }

  /** `processExit`: on a known id, the passes with that id take the exit
      status of the first one's type (recurring back to ACTIVE, every other
      type EXPIRED) and record `now` as exit time, and the guest's open log
      line is closed; an unknown id changes nothing. */
  function ProcessExit(s: Store, passId: string, now: int): (r: Store)
    ensures FindPassById(s.passes, passId).None? ==> r == s
    ensures FindPassById(s.passes, passId).Some? ==>
              var p := s.passes[FindPassById(s.passes, passId).value];
              r.users == s.users && r.estates == s.estates && r.bills == s.bills
              && |r.passes| == |s.passes|
              && (forall i :: 0 <= i < |s.passes| ==>
                    r.passes[i] == if s.passes[i].id == passId
                                   then s.passes[i].(status := ExitStatus(p.passType), exitTime := Some(now))
                                   else s.passes[i])
              && r.logs == CloseLog(s.logs, p.guestName, now)
  {
    match FindPassById(s.passes, passId)
    case None => s
    case Some(i) =>
      var p := s.passes[i];
      var st := ExitStatus(p.passType);
      s.(passes := MapWhere(s.passes, (q: GuestPass) => q.id == passId,
                            (q: GuestPass) => q.(status := st, exitTime := Some(now))),
         logs := CloseLog(s.logs, p.guestName, now))
  }

  /** An online exit on a known pass leaves it ACTIVE exactly when it is
      recurring. */
  lemma ExitReactivatesOnlyRecurring(s: Store, passId: string, now: int, i: nat)
    requires FindPassById(s.passes, passId) == Some(i)
    ensures ProcessExit(s, passId, now).passes[i].status == Active <==> s.passes[i].passType == Recurring
  {
  }

  // ---------------------------------------------------------------------
  // Replaying the offline queue

  /** One queued action as `syncOfflineActions` replays it: only the first
      pass with that id is changed; an ENTRY on a pass already CHECKED_IN
      changes nothing and logs nothing; an EXIT uses the online exit rule. */
  function SyncOne(s: Store, a: OfflineAction): (r: Store)
    ensures r.users == s.users && r.estates == s.estates && r.bills == s.bills
    ensures FindPassById(s.passes, a.passId).None? ==> r == s
  {
    match FindPassById(s.passes, a.passId)
    case None => s
    case Some(i) =>
      var p := s.passes[i];
      match a.action
      case Entry =>
        if p.status != CheckedIn then
          s.(passes := s.passes[i := p.(status := CheckedIn, entryTime := Some(a.timestamp))],
             logs := s.logs + [LogEntry(HostEstate(s.users, p.hostId), p.guestName, "Unit " + Show(p.hostUnit),
                                         a.timestamp, None, Digital, Some("Synced Entry"))])
        else s
      case Exit =>
        s.(passes := s.passes[i := p.(status := ExitStatus(p.passType), exitTime := Some(a.timestamp))],
           logs := CloseLog(s.logs, p.guestName, a.timestamp))
  }

  /** `syncOfflineActions`: the queued actions replayed in order. */
  function SyncOfflineActions(s: Store, actions: seq<OfflineAction>): (r: Store)
    ensures r.users == s.users && r.estates == s.estates && r.bills == s.bills
    ensures |r.passes| == |s.passes|
    decreases |actions|
  {
    if actions == [] then s else SyncOfflineActions(SyncOne(s, actions[0]), actions[1..])
  }

  /** A replayed ENTRY on a pass that is already inside changes nothing and
      adds no log line. */
  lemma SyncedEntryOnCheckedInIsNoOp(s: Store, passId: string, t: int, i: nat)
    requires FindPassById(s.passes, passId) == Some(i) && s.passes[i].status == CheckedIn
    ensures SyncOne(s, OfflineAction(Entry, passId, t)) == s
  {
  }

  /** A replayed ENTRY on any other known pass checks it in at the queued
      time and logs one line. */
  lemma SyncedEntryChecksIn(s: Store, passId: string, t: int, i: nat)
    requires FindPassById(s.passes, passId) == Some(i) && s.passes[i].status != CheckedIn
    ensures var r := SyncOne(s, OfflineAction(Entry, passId, t));
            r.passes[i].status == CheckedIn && r.passes[i].entryTime == Some(t)
            && |r.logs| == |s.logs| + 1 && r.logs[|s.logs|].entryTime == t
            && forall j :: 0 <= j < |s.passes| && j != i ==> r.passes[j] == s.passes[j]
  {
  }

  /** A replayed EXIT follows the online rule: recurring back to ACTIVE,
      every other type EXPIRED. */
  lemma SyncedExitUsesOnlineRule(s: Store, passId: string, t: int, i: nat)
    requires FindPassById(s.passes, passId) == Some(i)
    ensures var r := SyncOne(s, OfflineAction(Exit, passId, t));
            r.passes[i].status == ExitStatus(s.passes[i].passType) && r.passes[i].exitTime == Some(t)
  {
  }

  /** Replaying never adds or removes passes, and an empty queue changes
      nothing; replaying two queues one after the other is replaying them
      joined. */
  lemma {:induction false} SyncConcat(s: Store, a: seq<OfflineAction>, b: seq<OfflineAction>)
    ensures SyncOfflineActions(SyncOfflineActions(s, a), b) == SyncOfflineActions(s, a + b)
    decreases |a|
  {
    if a != [] {
      assert (a + b)[1..] == a[1..] + b;
      SyncConcat(SyncOne(s, a[0]), a[1..], b);
    } else {
      assert a + b == b;
    }
  }

  // ---------------------------------------------------------------------
  // Billing

  const OverdueGraceMs: nat := 30 * DayMs

  /** A bill that blocks access: the user's, unpaid, and due more than 30
      days before `now`. */
  predicate IsOverdue(b: Bill, userId: string, now: int) {
    b.userId == userId && b.status == Unpaid && b.dueDate < now - OverdueGraceMs
  }

  /** `checkAccessRestricted`: the number of overdue bills is positive. */
  function AccessRestricted(bills: seq<Bill>, userId: string, now: int): (r: bool)
    ensures r <==> exists j :: 0 <= j < |bills| && IsOverdue(bills[j], userId, now)
  {
    var overdue := Filter(bills, (b: Bill) => IsOverdue(b, userId, now));
    CountIsFilterLength(bills, (b: Bill) => IsOverdue(b, userId, now));
    CountZero(bills, (b: Bill) => IsOverdue(b, userId, now));
    |overdue| > 0
  }

  /** `payBill`: the bills with that id become PAID at `now`; nothing else
      changes. */
  function PayBill(bills: seq<Bill>, billId: string, now: int): (r: seq<Bill>)
    ensures |r| == |bills|
    ensures forall i :: 0 <= i < |bills| ==>
              r[i] == if bills[i].id == billId then bills[i].(status := Paid, paidAt := Some(now)) else bills[i]
  {
    MapWhere(bills, (b: Bill) => b.id == billId, (b: Bill) => b.(status := Paid, paidAt := Some(now)))
  }

  /** After paying one bill, the user is restricted exactly when some other
      overdue bill remains. */
  lemma PayBillLiftsThatBill(bills: seq<Bill>, billId: string, payTime: int, userId: string, now: int)
    ensures AccessRestricted(PayBill(bills, billId, payTime), userId, now)
            <==> exists j :: 0 <= j < |bills| && IsOverdue(bills[j], userId, now) && bills[j].id != billId
  {
    var r := PayBill(bills, billId, payTime);
    if exists j :: 0 <= j < |bills| && IsOverdue(bills[j], userId, now) && bills[j].id != billId {
      var j :| 0 <= j < |bills| && IsOverdue(bills[j], userId, now) && bills[j].id != billId;
      assert IsOverdue(r[j], userId, now);
    }
  }

  /** Paying bills one after another. */
  function PayAll(bills: seq<Bill>, ids: seq<string>, now: int): (r: seq<Bill>)
    ensures |r| == |bills|
    decreases |ids|
  {
    if ids == [] then bills else PayAll(PayBill(bills, ids[0], now), ids[1..], now)
  }

  /** Paying never makes a bill unpaid: what was paid stays paid, and a
      bill whose id was paid is paid. */
  lemma {:induction false} PayAllPays(bills: seq<Bill>, ids: seq<string>, payTime: int)
    ensures forall i :: 0 <= i < |bills| && (bills[i].status == Paid || bills[i].id in ids) ==>
              PayAll(bills, ids, payTime)[i].status == Paid
    ensures forall i :: 0 <= i < |bills| ==>
              PayAll(bills, ids, payTime)[i].(status := bills[i].status, paidAt := bills[i].paidAt) == bills[i]
    decreases |ids|
  {
    if ids != [] {
      var b := PayBill(bills, ids[0], payTime);
      PayAllPays(b, ids[1..], payTime);
      forall i | 0 <= i < |bills| && (bills[i].status == Paid || bills[i].id in ids)
        ensures PayAll(bills, ids, payTime)[i].status == Paid
      {
        if bills[i].id != ids[0] && bills[i].status != Paid {
          assert bills[i].id in ids[1..];
        }
      }
    }
  }

  /** Paying every overdue bill of a user lifts the restriction. */
  lemma PayingOverdueBillsLiftsRestriction(bills: seq<Bill>, ids: seq<string>, payTime: int, userId: string, now: int)
    requires forall j :: 0 <= j < |bills| && IsOverdue(bills[j], userId, now) ==> bills[j].id in ids
    ensures !AccessRestricted(PayAll(bills, ids, payTime), userId, now)
  {
    var r := PayAll(bills, ids, payTime);
    PayAllPays(bills, ids, payTime);
    forall j | 0 <= j < |r|
      ensures !IsOverdue(r[j], userId, now)
    {
      assert r[j].(status := bills[j].status, paidAt := bills[j].paidAt) == bills[j];
    }
  }

  // ---------------------------------------------------------------------
  // Estates

  function FlipTier(t: SubscriptionTier): SubscriptionTier {
    if t == Free then Premium else Free
  }

  function FlipStatus(st: EstateStatus): EstateStatus {
    if st == Open then Suspended else Open
  }

  /** `toggleEstateTier`: FREE and PREMIUM swap on the estates with that id;
      the others are untouched. */
  function ToggleEstateTier(estates: seq<Estate>, estateId: string): (r: seq<Estate>)
    ensures |r| == |estates|
    ensures forall i :: 0 <= i < |estates| ==>
              r[i] == if estates[i].id == estateId then estates[i].(tier := FlipTier(estates[i].tier)) else estates[i]
  {
    MapWhere(estates, (e: Estate) => e.id == estateId, (e: Estate) => e.(tier := FlipTier(e.tier)))
  }

  /** `toggleEstateStatus`: ACTIVE and SUSPENDED swap on the estates with
      that id; the others are untouched. */
  function ToggleEstateStatus(estates: seq<Estate>, estateId: string): (r: seq<Estate>)
    ensures |r| == |estates|
    ensures forall i :: 0 <= i < |estates| ==>
              r[i] == if estates[i].id == estateId then estates[i].(status := FlipStatus(estates[i].status)) else estates[i]
  {
    MapWhere(estates, (e: Estate) => e.id == estateId, (e: Estate) => e.(status := FlipStatus(e.status)))
  }

  /** Each toggle changes the target (both tiers and both statuses differ
      from their flips) and undoes itself. */
  lemma TogglesAreInvolutions(estates: seq<Estate>, estateId: string)
    ensures ToggleEstateTier(ToggleEstateTier(estates, estateId), estateId) == estates
    ensures ToggleEstateStatus(ToggleEstateStatus(estates, estateId), estateId) == estates
    ensures forall i :: 0 <= i < |estates| && estates[i].id == estateId ==>
              ToggleEstateTier(estates, estateId)[i].tier != estates[i].tier
              && ToggleEstateStatus(estates, estateId)[i].status != estates[i].status
  {
    var t := ToggleEstateTier(estates, estateId);
    var t2 := ToggleEstateTier(t, estateId);
    assert forall i :: 0 <= i < |estates| ==> t2[i] == estates[i];
    var u := ToggleEstateStatus(estates, estateId);
    var u2 := ToggleEstateStatus(u, estateId);
    assert forall i :: 0 <= i < |estates| ==> u2[i] == estates[i];
  }

  // ---------------------------------------------------------------------
  // The offline cache

  /** `getOfflineData`: the live passes of hosts in the estate, which the
      guard's device caches for offline scans. */
  function OfflineData(s: Store, estateId: string): (r: seq<GuestPass>)
    ensures forall p :: p in r <==> p in s.passes && IsLive(p.status)
                                    && FindUserById(s.users, p.hostId).Some? && HostEstate(s.users, p.hostId) == estateId
  {
    Filter(s.passes, (p: GuestPass) => FindUserById(s.users, p.hostId).Some?
                                       && HostEstate(s.users, p.hostId) == estateId && IsLive(p.status))
  }
}
