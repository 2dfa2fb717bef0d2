/** The guard's screen of the client that talks to the backend: code
    entry, validation by the server, gate actions that are queued while
    offline and replayed on the next sync, the expected deliveries and the
    manual logbook. The server's clock at the time of a call is `now`. */
module SecurityDashboard {
  import opened Common
  import opened Types
  import opened BackendStore
  import PS = PassService
  import SecurityService

  /** The code field: the digits typed, in order, at most five of them. */
  function SanitiseCode(s: string): (r: string)
    ensures |r| <= 5 && AllDigits(r)
    ensures r <= Keep(s, IsDigit)
    ensures |Keep(s, IsDigit)| >= 5 ==> |r| == 5
    ensures |Keep(s, IsDigit)| <= 5 ==> r == Keep(s, IsDigit)
  {
    Take(Keep(s, IsDigit), 5)
  }

  /** Five digits pass through the field unchanged, and cleaning a cleaned
      code changes nothing. */
  lemma SanitiseCodeKeepsCodes(s: string)
    ensures AllDigits(s) && |s| <= 5 ==> SanitiseCode(s) == s
    ensures SanitiseCode(SanitiseCode(s)) == SanitiseCode(s)
  {
    var r := SanitiseCode(s);
    KeepAll(r, IsDigit);
    if AllDigits(s) && |s| <= 5 {
      KeepAll(s, IsDigit);
    }
  }

  /** A scan is submitted only for a code of five characters or more. */
  predicate Submits(code: string) {
    |code| >= 5
  }

  datatype ScanResult = ScanOk(pass: Pass) | ScanFail(message: string)

  const CallFailed := "Invalid or expired code"

  datatype Scanner = Scanner(offline: bool, code: string, result: Option<ScanResult>, queue: seq<OfflineAction>)

  /** `handleScan`: a short code does nothing; otherwise the server's
      answer is shown, and a call that fails shows a generic refusal.
      `answer` is what the validation call brought back, `None` when it
      threw. */
  function HandleScan(st: Scanner, answer: Option<PS.Validation>): (r: Scanner)
    ensures !Submits(st.code) ==> r == st
    ensures Submits(st.code) ==> r == st.(result := r.result) && r.result.Some?
    ensures Submits(st.code) && answer.None? ==> r.result == Some(ScanFail(CallFailed))
    ensures Submits(st.code) && answer.Some? ==>
              (r.result.value.ScanOk? <==> answer.value.Valid?)
              && (answer.value.Valid? ==> r.result.value.pass == answer.value.pass)
  {
    if !Submits(st.code) then st
    else match answer
      case None => st.(result := Some(ScanFail(CallFailed)))
      case Some(v) =>
        match v
        case Valid(p) => st.(result := Some(ScanOk(p)))
        case Invalid(m) => st.(result := Some(ScanFail(m)))
  }

  /** What the server answers a scan of a code the guard has typed: a pass
      on screen is one the server found valid for the estate. */
  lemma ScannedPassIsValid(st: Scanner, db: Db, estateId: string, now: int)
    requires Submits(st.code)
    ensures var r := HandleScan(st, Some(PS.ValidateCode(db, st.code, estateId, now)));
            r.result.value.ScanOk? ==>
              var p := r.result.value.pass;
              p in db.passes && p.code == st.code && p.status != Cancelled && p.status != Expired
              && p.validUntil >= now && PS.HostInEstate(db, p, estateId)
  {
  }

  /** One gate action applied by the server; a call that fails leaves the
      store as it was. */
  function Apply(db: Db, action: GateAction, passId: string, now: int): (r: Db)
    ensures PassById(db, passId).None? ==> r == db
    ensures PassById(db, passId).Some? ==>
              var i := PassById(db, passId).value;
              |r.passes| == |db.passes| && r == db.(passes := r.passes) && r.passes == db.passes[i := r.passes[i]]
              && r.passes[i].status == (if action == Entry then CheckedIn else ExitStatus(db.passes[i].passType))
  {
    var res := if action == Entry then PS.ProcessEntry(db, passId, now) else PS.ProcessExit(db, passId, now);
    if res.Ok? then res.value.1 else db
  }

  /** The queue replayed in order, each action at the server's time; the
      queued timestamps are not sent. */
  function Replay(db: Db, queue: seq<OfflineAction>, now: int): (r: Db)
    ensures |r.passes| == |db.passes| && r == db.(passes := r.passes)
    decreases |queue|
  {
    if queue == [] then db else Replay(Apply(db, queue[0].action, queue[0].passId, now), queue[1..], now)
  }

  lemma {:induction false} ReplayConcat(db: Db, a: seq<OfflineAction>, b: seq<OfflineAction>, now: int)
    ensures Replay(Replay(db, a, now), b, now) == Replay(db, a + b, now)
    decreases |a|
  {
    if a != [] {
      assert (a + b)[1..] == a[1..] + b;
      ReplayConcat(Apply(db, a[0].action, a[0].passId, now), a[1..], b, now);
    } else {
      assert a + b == b;
    }
  }

  /** `performSync`: nothing while offline; otherwise the queue is replayed
      and emptied. */
  function PerformSync(st: Scanner, db: Db, now: int): (r: (Scanner, Db))
    ensures st.offline ==> r == (st, db)
    ensures !st.offline ==> r.0 == st.(queue := []) && r.1 == Replay(db, st.queue, now)
  {
    if st.offline then (st, db)
    else if |st.queue| > 0 then (st.(queue := []), Replay(db, st.queue, now))
    else (st, db)
  }

  /** `handleAction`: nothing without a pass on screen. Offline the action
      is queued; online the server applies it. Then the code and the
      result are cleared and a sync runs. */
  function HandleAction(st: Scanner, db: Db, action: GateAction, now: int): (r: (Scanner, Db))
    ensures st.result.None? || st.result.value.ScanFail? ==> r == (st, db)
    ensures st.result.Some? && st.result.value.ScanOk? && st.offline ==>
              r.1 == db
              && r.0 == st.(code := "", result := None,
                            queue := st.queue + [OfflineAction(action, st.result.value.pass.id, now)])
    ensures st.result.Some? && st.result.value.ScanOk? && !st.offline ==>
              r.0 == st.(code := "", result := None, queue := [])
              && r.1 == Replay(Apply(db, action, st.result.value.pass.id, now), st.queue, now)
  {
    match st.result
    case None => (st, db)
    case Some(res) =>
      match res
      case ScanFail(_) => (st, db)
      case ScanOk(p) =>
        if st.offline then
          PerformSync(st.(code := "", result := None, queue := st.queue + [OfflineAction(action, p.id, now)]), db, now)
        else
          PerformSync(st.(code := "", result := None), Apply(db, action, p.id, now), now)
  }

  /** Actions queued offline and synced later leave the server where the
      same actions taken online would have, when they all reach it at the
      same time, whenever they were queued. */
  lemma {:induction false} OfflineMatchesOnline(db: Db, ps: seq<(GateAction, string)>, queuedAt: int, now: int)
    ensures Replay(db, Queue(ps, queuedAt), now) == Online(db, ps, now)
    decreases |ps|
  {
    if ps != [] {
      assert Queue(ps, queuedAt)[1..] == Queue(ps[1..], queuedAt);
      OfflineMatchesOnline(Apply(db, ps[0].0, ps[0].1, now), ps[1..], queuedAt, now);
    }
  }

  /** The queue of actions taken offline at time `t`. */
  function Queue(ps: seq<(GateAction, string)>, t: int): (q: seq<OfflineAction>)
    ensures |q| == |ps|
    ensures forall k :: 0 <= k < |ps| ==> q[k] == OfflineAction(ps[k].0, ps[k].1, t)
  {
    if ps == [] then [] else [OfflineAction(ps[0].0, ps[0].1, t)] + Queue(ps[1..], t)
  }

  /** The same actions taken one by one online. */
  function Online(db: Db, ps: seq<(GateAction, string)>, now: int): Db
    decreases |ps|
  {
    if ps == [] then db else Online(Apply(db, ps[0].0, ps[0].1, now), ps[1..], now)
  }

  /** An entry queued offline is stamped with the time of the sync, not the
      time the guard let the visitor in. */
  lemma SyncStampsServerTime(st: Scanner, db: Db, passId: string, queuedAt: int, now: int, i: nat)
    requires !st.offline && st.queue == [OfflineAction(Entry, passId, queuedAt)]
    requires PassById(db, passId) == Some(i)
    ensures PerformSync(st, db, now).1.passes[i].entryTime == Some(now)
  {
    assert Replay(db, st.queue, now) == Replay(Apply(db, Entry, passId, now), [], now);
  }

  /** The expected deliveries: delivery passes not yet used or still
      inside, in the order listed. */
  function ExpectedDeliveries(passes: seq<Pass>): (r: seq<Pass>)
    ensures forall p :: p in r <==> p in passes && IsExpectedDelivery(p)
    ensures |r| <= |passes|
  {
    Filter(passes, IsExpectedDelivery)
  }

  predicate IsExpectedDelivery(p: Pass) {
    p.passType == Delivery && (p.status == Active || p.status == CheckedIn)
  }

  /** The list keeps the order of the passes it is taken from. */
  lemma ExpectedDeliveriesKeepOrder(a: seq<Pass>, b: seq<Pass>)
    ensures ExpectedDeliveries(a + b) == ExpectedDeliveries(a) + ExpectedDeliveries(b)
  {
    FilterAppend(a, b, IsExpectedDelivery);
  }

  /** A delivery that is let in stays on the list; once it leaves it
      drops off. */
  lemma DeliveryLeavesTheList(db: Db, passId: string, now: int, i: nat)
    requires PassById(db, passId) == Some(i) && db.passes[i].passType == Delivery
    ensures IsExpectedDelivery(Apply(db, Entry, passId, now).passes[i])
    ensures !IsExpectedDelivery(Apply(db, Exit, passId, now).passes[i])
  {
  }

  /** `handleManualLog`: nothing unless both a name and a destination are
      given; otherwise a MANUAL entry with the note as typed, possibly
      empty. */
  function HandleManualLog(db: Db, estateId: string, name: string, destination: string, note: string,
                           now: int, id: string): (r: Db)
    ensures name == "" || destination == "" ==> r == db
    ensures name != "" && destination != "" ==>
              |r.logs| == |db.logs| + 1 && r.logs[..|db.logs|] == db.logs
              && var l := r.logs[|db.logs|];
                 l.logType == Manual && l.guestName == name && l.destination == destination
                 && l.notes == Some(note) && l.entryTime == now
  {
    if name == "" || destination == "" then db
    else SecurityService.AddManualLog(db, estateId, name, destination, Some(note), now, id).1
  }
}
