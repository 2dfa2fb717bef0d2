/** The guard's scanner screen of the web client that runs against the
    in-memory service: code entry, validation (against the service, or
    against the cached passes while offline), gate actions that are queued
    and applied to the cache while offline, and the sync that replays the
    queue and refreshes the cache. `now` is the clock. */
module MockSecurityDashboard {
  import opened Common
  import opened Types
  import M = MockService

  /** The code field keeps only the digits typed, in order: each digit
      as often as it was typed, nothing else. */
  function DigitsOnly(s: string): (r: string)
    ensures AllDigits(r) && |r| <= |s|
    ensures forall c :: c in r <==> c in s && IsDigit(c)
    ensures forall c :: multiset(r)[c] == if IsDigit(c) then multiset(s)[c] else 0
  {
    KeepCounts(s, IsDigit);
    Keep(s, IsDigit)
  }

  /** The order is kept: cleaning text typed in two parts is cleaning
      each part, and one character survives exactly when it is a
      digit. */
  lemma DigitsOnlyByParts(a: string, b: string, c: char)
    ensures DigitsOnly(a + b) == DigitsOnly(a) + DigitsOnly(b)
    ensures DigitsOnly([c]) == if IsDigit(c) then [c] else []
  {
    KeepAppend(a, b, IsDigit);
    assert [c][1..] == [];
  }

  /** Typing only digits loses nothing, so cleaning twice is cleaning
      once. */
  lemma DigitsOnlyKeepsDigits(s: string)
    ensures AllDigits(s) ==> DigitsOnly(s) == s
    ensures DigitsOnly(DigitsOnly(s)) == DigitsOnly(s)
  {
    KeepAll(DigitsOnly(s), IsDigit);
    if AllDigits(s) {
      KeepAll(s, IsDigit);
    }
  }

  /** A scan is submitted only for a code of five characters or more; the
      Validate button is enabled only at exactly five. */
  predicate Submits(code: string) {
    |code| >= 5
  }

  predicate ValidateEnabled(code: string, loading: bool) {
    |code| == 5 && !loading
  }

  datatype ScanResult = ScanOk(pass: GuestPass) | ScanFail(message: string)

  const NotInCache := "Invalid Code (Offline Cache)"

  /** The offline check against the cached passes: unknown, cancelled, and
      a one-time or delivery pass already EXPIRED are refused; neither the
      validity date nor the estate is looked at. */
  function OfflineValidate(cache: seq<GuestPass>, code: string): (r: ScanResult)
    ensures M.FindPassByCode(cache, code).None? ==> r == ScanFail(NotInCache)
    ensures M.FindPassByCode(cache, code).Some? ==>
              var p := cache[M.FindPassByCode(cache, code).value];
              r == if p.status == Cancelled then ScanFail("Code cancelled")
                   else if (p.passType == OneTime || p.passType == Delivery) && p.status == Expired
                   then ScanFail("Code expired")
                   else ScanOk(p)
    ensures r.ScanOk? ==> r.pass in cache && r.pass.code == code && r.pass.status != Cancelled
                          && (r.pass.passType == Recurring || r.pass.status != Expired)
  {
    match M.FindPassByCode(cache, code)
    case None => ScanFail(NotInCache)
    case Some(i) =>
      var p := cache[i];
      if p.status == Cancelled then ScanFail("Code cancelled")
      else if (p.passType == OneTime || p.passType == Delivery) && p.status == Expired then ScanFail("Code expired")
      else ScanOk(p)
  }

  /** Offline validation is laxer than the service's: a one-time pass that
      is still ACTIVE past its validity is let through offline, while the
      service refuses it and marks it EXPIRED. */
  lemma OfflineIgnoresValidity(s: M.Store, cache: seq<GuestPass>, code: string, estateId: string, now: int, i: nat)
    requires M.FindPassByCode(s.passes, code) == Some(i) && M.FindPassByCode(cache, code) == Some(i)
    requires cache[i] == s.passes[i]
    requires s.passes[i].passType == OneTime && s.passes[i].status == Active && s.passes[i].validUntil < now
    requires M.HostEstate(s.users, s.passes[i].hostId) == estateId
    ensures OfflineValidate(cache, code) == ScanOk(cache[i])
    ensures M.ValidateCode(s, code, estateId, now).0 == M.Rejected("Code expired.")
    ensures M.ValidateCode(s, code, estateId, now).1.passes[i].status == Expired
  {
    var host := M.FindUserById(s.users, s.passes[i].hostId);
    if host.Some? {
      assert M.HostEstate(s.users, s.passes[i].hostId) == s.users[host.value].estateId;
    }
  }

  /** The scanner screen's state. */
  datatype Scanner = Scanner(offline: bool, code: string, result: Option<ScanResult>,
                             queue: seq<OfflineAction>, cache: seq<GuestPass>)

  function FromService(r: M.ScanResult): ScanResult {
    match r
    case Accepted(p) => ScanOk(p)
    case Rejected(m) => ScanFail(m)
  }

  /** The cache is loaded with the service's own pass records, not
      copies, so a change the service makes to a record in place shows in
      the cache too. The model has no object identity: a cached entry
      still equal to the record `before` is taken to be that record, and
      reads as `after` once the service has changed it. */
  function Shared(cache: seq<GuestPass>, before: GuestPass, after: GuestPass): (r: seq<GuestPass>)
    ensures |r| == |cache|
    ensures forall j :: 0 <= j < |cache| ==> r[j] == if cache[j] == before then after else cache[j]
  {
    MapWhere(cache, (q: GuestPass) => q == before, (q: GuestPass) => after)
  }

  /** `handleScan`: a short code does nothing; offline the cache decides,
      online the service does. When the service marks the pass EXPIRED it
      does so on the record the cache shares. */
  function HandleScan(st: Scanner, s: M.Store, estateId: string, now: int): (r: (Scanner, M.Store))
    ensures !Submits(st.code) ==> r == (st, s)
    ensures Submits(st.code) && st.offline ==> r == (st.(result := Some(OfflineValidate(st.cache, st.code))), s)
    ensures Submits(st.code) && !st.offline ==>
              r.0 == st.(result := Some(FromService(M.ValidateCode(s, st.code, estateId, now).0)), cache := r.0.cache)
              && r.1 == M.ValidateCode(s, st.code, estateId, now).1
              && |r.0.cache| == |st.cache|
    ensures Submits(st.code) && !st.offline && r.1 == s ==> r.0.cache == st.cache
    ensures Submits(st.code) && !st.offline && M.FindPassByCode(s.passes, st.code).Some? ==>
              var p := s.passes[M.FindPassByCode(s.passes, st.code).value];
              forall j :: 0 <= j < |st.cache| ==>
                r.0.cache[j] == if st.cache[j] == p && r.1 != s then p.(status := Expired) else st.cache[j]
  {
    if !Submits(st.code) then (st, s)
    else if st.offline then (st.(result := Some(OfflineValidate(st.cache, st.code))), s)
    else
      var (res, s') := M.ValidateCode(s, st.code, estateId, now);
      var found := M.FindPassByCode(s.passes, st.code);
      var cache := if found.None? then st.cache
                   else Shared(st.cache, s.passes[found.value], s'.passes[found.value]);
      (st.(result := Some(FromService(res)), cache := cache), s')
  }

  /** A pass the service expires online reads as expired in the cache
      that shares it, so a rescan after losing the connection is refused
      as expired instead of being let in. */
  lemma OnlineExpiryReachesCache(st: Scanner, s: M.Store, estateId: string, now: int, i: nat, j: nat)
    requires !st.offline && Submits(st.code)
    requires M.FindPassByCode(s.passes, st.code) == Some(i)
    requires M.FindPassByCode(st.cache, st.code) == Some(j) && st.cache[j] == s.passes[i]
    requires s.passes[i].passType == OneTime && s.passes[i].status == Active && s.passes[i].validUntil < now
    requires !M.InOtherEstate(s, s.passes[i], estateId)
    ensures var r := HandleScan(st, s, estateId, now);
            HandleScan(r.0.(offline := true), r.1, estateId, now).0.result == Some(ScanFail("Code expired"))
  {
    var r := HandleScan(st, s, estateId, now);
    OnlineScanExpiresCachedPass(st, s, estateId, now, i, j);
    ExpiredPassFailsOffline(r.0.cache, st.code, j);
  }

  /** The online scan turns the cached entry EXPIRED in place and leaves
      the entries before it as they were. */
  lemma OnlineScanExpiresCachedPass(st: Scanner, s: M.Store, estateId: string, now: int, i: nat, j: nat)
    requires !st.offline && Submits(st.code)
    requires M.FindPassByCode(s.passes, st.code) == Some(i)
    requires M.FindPassByCode(st.cache, st.code) == Some(j) && st.cache[j] == s.passes[i]
    requires s.passes[i].passType == OneTime && s.passes[i].status == Active && s.passes[i].validUntil < now
    requires !M.InOtherEstate(s, s.passes[i], estateId)
    ensures var c := HandleScan(st, s, estateId, now).0.cache;
            j < |c| && c[j] == s.passes[i].(status := Expired)
            && forall k :: 0 <= k < j ==> c[k].code != st.code
  {
    var r := HandleScan(st, s, estateId, now);
    M.ValidateCodeOutcomes(s, st.code, estateId, now, i);
    assert r.1.passes[i] == s.passes[i].(status := Expired);
    forall k | 0 <= k < j
      ensures r.0.cache[k].code != st.code
    {
      assert r.0.cache[k] == st.cache[k];
    }
  }

  /** A one-time pass found EXPIRED first in the cache is refused offline. */
  lemma ExpiredPassFailsOffline(cache: seq<GuestPass>, code: string, j: nat)
    requires j < |cache| && cache[j].code == code
    requires forall k :: 0 <= k < j ==> cache[k].code != code
    requires cache[j].passType == OneTime && cache[j].status == Expired
    ensures OfflineValidate(cache, code) == ScanFail("Code expired")
  {
    assert M.FindPassByCode(cache, code) == Some(j);
  }

  /** The cached copy of a pass after an offline action: an entry checks it
      in, an exit expires it whatever its type. */
  function OfflineUpdate(p: GuestPass, action: GateAction, now: int): (q: GuestPass)
    ensures action == Entry ==> q == p.(status := CheckedIn, entryTime := Some(now))
    ensures action == Exit ==> q == p.(status := Expired, exitTime := Some(now))
  {
    match action
    case Entry => p.(status := CheckedIn, entryTime := Some(now))
    case Exit => p.(status := Expired, exitTime := Some(now))
  }

  /** `handleAction`: nothing without an accepted scan. Offline, one
      action is queued and the cached passes with that id are updated;
      online, the service processes it. Either way the code and the result
      are cleared. */
  function HandleAction(st: Scanner, s: M.Store, action: GateAction, now: int): (r: (Scanner, M.Store))
    ensures st.result.None? || st.result.value.ScanFail? ==> r == (st, s)
    ensures st.result.Some? && st.result.value.ScanOk? ==>
              r.0.code == "" && r.0.result.None? && r.0.offline == st.offline
    ensures st.result.Some? && st.result.value.ScanOk? && st.offline ==>
              var id := st.result.value.pass.id;
              r.1 == s
              && r.0.queue == st.queue + [OfflineAction(action, id, now)]
              && |r.0.cache| == |st.cache|
              && forall j :: 0 <= j < |st.cache| ==>
                   r.0.cache[j] == if st.cache[j].id == id then OfflineUpdate(st.cache[j], action, now) else st.cache[j]
    ensures st.result.Some? && st.result.value.ScanOk? && !st.offline ==>
              r.0.queue == st.queue && r.0.cache == st.cache
              && r.1 == (if action == Entry then M.ProcessEntry(s, st.result.value.pass.id, now)
                         else M.ProcessExit(s, st.result.value.pass.id, now))
  {
    match st.result
    case None => (st, s)
    case Some(res) =>
      match res
      case ScanFail(_) => (st, s)
      case ScanOk(p) =>
        if st.offline then
          var cache := MapWhere(st.cache, (q: GuestPass) => q.id == p.id, (q: GuestPass) => OfflineUpdate(q, action, now));
          (st.(queue := st.queue + [OfflineAction(action, p.id, now)], cache := cache, code := "", result := None), s)
        else
          var s' := if action == Entry then M.ProcessEntry(s, p.id, now) else M.ProcessExit(s, p.id, now);
          (st.(code := "", result := None), s')
  }

  /** `performSync`: nothing while offline; otherwise the queue is replayed
      through the service, emptied, and the cache reloaded. */
  function PerformSync(st: Scanner, s: M.Store, estateId: string): (r: (Scanner, M.Store))
    ensures st.offline ==> r == (st, s)
    ensures !st.offline ==>
              r.1 == M.SyncOfflineActions(s, st.queue) && r.0.queue == []
              && r.0.cache == M.OfflineData(r.1, estateId)
              && r.0.code == st.code && r.0.result == st.result
  {
    if st.offline then (st, s)
    else
      var s' := if |st.queue| > 0 then M.SyncOfflineActions(s, st.queue) else s;
      (st.(queue := [], cache := M.OfflineData(s', estateId)), s')
  }

  /** The offline exit and the online exit disagree on recurring passes:
      the cache shows the pass EXPIRED, but once the queue is replayed the
      service has it ACTIVE again. */
  lemma OfflineExitDisagreesOnRecurring(st: Scanner, s: M.Store, estateId: string, now: int, i: nat, j: nat)
    requires st.offline && st.queue == [] && st.result.Some? && st.result.value.ScanOk?
    requires var p := st.result.value.pass;
             p.passType == Recurring && j < |st.cache| && st.cache[j].id == p.id
             && M.FindPassById(s.passes, p.id) == Some(i) && s.passes[i].passType == Recurring
    ensures var (st1, s1) := HandleAction(st, s, Exit, now);
            var (st2, s2) := PerformSync(st1.(offline := false), s1, estateId);
            st1.cache[j].status == Expired && s2.passes[i].status == Active
  {
    var (st1, s1) := HandleAction(st, s, Exit, now);
    var a := OfflineAction(Exit, st.result.value.pass.id, now);
    assert st1.queue == [a];
    assert M.SyncOfflineActions(s, [a]) == M.SyncOfflineActions(M.SyncOne(s, a), []);
  }
}
