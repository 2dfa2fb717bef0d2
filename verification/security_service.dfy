/** The gate log of an estate as the security staff sees it: manual entries
    typed in at the gate and SOS alerts, merged with the passes that were
    scanned in, newest first. */
module SecurityService {
  import opened Common
  import opened Types
  import opened BackendStore
  import opened Sorting
  import opened PassService

  /** How many entries each query takes, and how many the merged log keeps. */
  const QueryTake: nat := 50
  const MergedTake: nat := 100

  const UnknownUnit := "Unknown Unit"
  const UnknownLocation := "Unknown Location"
  const SosGuestName := "SOS ALERT"

  function LogTime(l: LogEntry): int {
    l.entryTime
  }

  /** The entry time of a pass; only passes that have one are ever sorted by
      it. */
  function PassTime(p: Pass): int {
    p.entryTime.GetOr(0)
  }

  predicate OfEstate(l: LogEntry, estateId: string) {
    l.estateId == estateId
  }

  /** A pass of the estate that has been scanned in. */
  predicate ScannedIn(db: Db, p: Pass, estateId: string) {
    HostInEstate(db, p, estateId) && p.entryTime.Some?
  }

  /** The estate's log entries, in the order they were stored. */
  function EstateLogs(db: Db, estateId: string): (r: seq<LogEntry>)
    ensures forall l :: l in r <==> l in db.logs && OfEstate(l, estateId)
  {
    Filter(db.logs, (l: LogEntry) => OfEstate(l, estateId))
  }

  /** The passes of the estate's hosts that have been scanned in. */
  function ScannedPasses(db: Db, estateId: string): (r: seq<Pass>)
    ensures forall p :: p in r <==> p in db.passes && ScannedIn(db, p, estateId)
  {
    Filter(db.passes, (p: Pass) => ScannedIn(db, p, estateId))
  }

  /** The first query: the estate's 50 newest log entries, or all of them
      when there are fewer. */
  function ManualLogs(db: Db, estateId: string): (r: seq<LogEntry>)
    ensures |r| == if QueryTake < |EstateLogs(db, estateId)| then QueryTake else |EstateLogs(db, estateId)|
    ensures multiset(r) <= multiset(EstateLogs(db, estateId))
    ensures SortedDesc(r, LogTime)
    ensures forall l :: l in r ==> l in db.logs && OfEstate(l, estateId)
  {
    var all := EstateLogs(db, estateId);
    var r := NewestN(all, LogTime, QueryTake);
    assert forall l :: l in r ==> l in all by {
      forall l | l in r ensures l in all {
        assert l in multiset(r);
      }
    }
    r
  }

  /** The second query: the 50 most recently scanned passes of the estate's
      hosts, or all of them when there are fewer. */
  function DigitalPasses(db: Db, estateId: string): (r: seq<Pass>)
    ensures |r| == if QueryTake < |ScannedPasses(db, estateId)| then QueryTake else |ScannedPasses(db, estateId)|
    ensures multiset(r) <= multiset(ScannedPasses(db, estateId))
    ensures SortedDesc(r, PassTime)
    ensures forall p :: p in r ==> p in db.passes && ScannedIn(db, p, estateId)
  {
    var all := ScannedPasses(db, estateId);
    var r := NewestN(all, PassTime, QueryTake);
    assert forall p :: p in r ==> p in all by {
      forall p | p in r ensures p in all {
        assert p in multiset(r);
      }
    }
    r
  }

  /** Where a scanned pass went: the unit on the pass, else the host's unit,
      else a placeholder. Empty units count as absent. */
  function Destination(db: Db, p: Pass): (d: string)
    ensures Truthy(p.hostUnit) ==> d == p.hostUnit.value
    ensures !Truthy(p.hostUnit) && UserById(db, p.hostId).Some? && Truthy(db.users[UserById(db, p.hostId).value].unitNumber)
            ==> d == db.users[UserById(db, p.hostId).value].unitNumber.value
    ensures d == UnknownUnit <==>
              (!Truthy(p.hostUnit) || p.hostUnit.value == UnknownUnit)
              && (Truthy(p.hostUnit)
                  || UserById(db, p.hostId).None?
                  || !Truthy(db.users[UserById(db, p.hostId).value].unitNumber)
                  || db.users[UserById(db, p.hostId).value].unitNumber.value == UnknownUnit)
  {
    if Truthy(p.hostUnit) then p.hostUnit.value
    else match UserById(db, p.hostId)
      case Some(h) => if Truthy(db.users[h].unitNumber) then db.users[h].unitNumber.value else UnknownUnit
      case None => UnknownUnit
  }

  /** A scanned pass as a log entry of the estate. */
  function DigitalLog(db: Db, p: Pass, estateId: string): (l: LogEntry)
    requires p.entryTime.Some?
    ensures l.id == p.id && l.estateId == estateId && l.guestName == p.guestName && l.exitTime == p.exitTime
    ensures l.logType == Digital && LogTime(l) == PassTime(p)
    ensures l.notes == Some(PassTypeName(p.passType) + " PASS - " + p.code)
  {
    LogEntry(p.id, estateId, p.guestName, Destination(db, p), p.entryTime.value, p.exitTime, Digital,
             Some(PassTypeName(p.passType) + " PASS - " + p.code))
  }

  /** The scanned passes mapped to log entries, in order. */
  function DigitalLogs(db: Db, ps: seq<Pass>, estateId: string): (r: seq<LogEntry>)
    requires forall p :: p in ps ==> p.entryTime.Some?
    ensures |r| == |ps|
    ensures forall i :: 0 <= i < |ps| ==> r[i] == DigitalLog(db, ps[i], estateId)
  {
    if ps == [] then [] else [DigitalLog(db, ps[0], estateId)] + DigitalLogs(db, ps[1..], estateId)
  }

  /** The two queries, manual entries first. */
  function MergedLogs(db: Db, estateId: string): (r: seq<LogEntry>)
    ensures |r| <= 2 * QueryTake
    ensures var manual, passes := ManualLogs(db, estateId), DigitalPasses(db, estateId);
            |r| == |manual| + |passes|
            && r[..|manual|] == manual
            && forall i :: 0 <= i < |passes| ==> passes[i].entryTime.Some? && r[|manual| + i] == DigitalLog(db, passes[i], estateId)
  {
    var manual, passes := ManualLogs(db, estateId), DigitalPasses(db, estateId);
    var digital := DigitalLogs(db, passes, estateId);
    assert (manual + digital)[..|manual|] == manual;
    manual + digital
  }

  /** An entry that can appear in the estate's log: one of its own log
      entries, or a scanned pass of one of its hosts. */
  predicate FromEstate(db: Db, l: LogEntry, estateId: string) {
    (l in db.logs && OfEstate(l, estateId))
    || exists p :: p in db.passes && ScannedIn(db, p, estateId) && l == DigitalLog(db, p, estateId)
  }

  /** `getEstateLogs`: both lists merged, sorted newest first and cut to
      100. */
  function GetEstateLogs(db: Db, estateId: string): (r: seq<LogEntry>)
    ensures |r| <= MergedTake
    ensures SortedDesc(r, LogTime)
    ensures multiset(r) <= multiset(MergedLogs(db, estateId))
    ensures forall l :: l in r ==> FromEstate(db, l, estateId)
  {
    var r := NewestN(MergedLogs(db, estateId), LogTime, MergedTake);
    forall l | l in r ensures FromEstate(db, l, estateId) {
      assert l in multiset(r);
      MergedEntryFromEstate(db, estateId, l);
    }
    r
  }

  lemma MergedEntryFromEstate(db: Db, estateId: string, l: LogEntry)
    requires l in MergedLogs(db, estateId)
    ensures FromEstate(db, l, estateId)
  {
    var m := MergedLogs(db, estateId);
    var k :| 0 <= k < |m| && m[k] == l;
    MergedEntryAt(db, estateId, k);
  }

  lemma MergedEntryAt(db: Db, estateId: string, k: nat)
    requires k < |MergedLogs(db, estateId)|
    ensures FromEstate(db, MergedLogs(db, estateId)[k], estateId)
  {
    var m := MergedLogs(db, estateId);
    var manual, passes := ManualLogs(db, estateId), DigitalPasses(db, estateId);
    if k < |manual| {
      assert m[k] == m[..|manual|][k];
      ManualEntryFromEstate(db, estateId, m[k]);
    } else {
      ScannedEntryFromEstate(db, estateId, passes[k - |manual|]);
    }
  }

  lemma ManualEntryFromEstate(db: Db, estateId: string, l: LogEntry)
    requires l in ManualLogs(db, estateId)
    ensures FromEstate(db, l, estateId)
  {
  }

  lemma ScannedEntryFromEstate(db: Db, estateId: string, p: Pass)
    requires p in DigitalPasses(db, estateId)
    ensures p.entryTime.Some? && FromEstate(db, DigitalLog(db, p, estateId), estateId)
  {
    assert p in db.passes && ScannedIn(db, p, estateId);
  }

  /** The merged list is at most 100 long, so nothing is cut: the log is a
      reordering of exactly the two query results. */
  lemma NothingIsCut(db: Db, estateId: string)
    ensures multiset(GetEstateLogs(db, estateId)) == multiset(MergedLogs(db, estateId))
  {
    var m := MergedLogs(db, estateId);
    var r := GetEstateLogs(db, estateId);
    assert |r| == |m|;
    SubMultisetOfSameSize(multiset(r), multiset(m));
  }

  lemma SubMultisetOfSameSize<T>(a: multiset<T>, b: multiset<T>)
    requires a <= b && |a| == |b|
    ensures a == b
  {
    assert |b - a| == |b| - |a|;
    assert b == a + (b - a);
  }

  /** The 50 newest of each kind, and the newest overall first: a dropped
      entry is never newer than a kept one. */
  lemma LogKeepsTheNewest(db: Db, estateId: string, dropped: LogEntry, kept: LogEntry)
    requires dropped in multiset(db.logs) && OfEstate(dropped, estateId)
    requires dropped !in ManualLogs(db, estateId)
    requires kept in ManualLogs(db, estateId)
    ensures LogTime(dropped) <= LogTime(kept)
  {
    var all := EstateLogs(db, estateId);
    var i :| 0 <= i < |db.logs| && db.logs[i] == dropped;
    assert dropped in all;
    assert dropped in multiset(all) - multiset(NewestN(all, LogTime, QueryTake));
    NewestNKeepsTheNewest(all, LogTime, QueryTake, dropped, kept);
  }

  /** The same for the scanned passes: a pass the second query leaves
      out was never scanned later than one it keeps. */
  lemma PassesKeepTheNewest(db: Db, estateId: string, dropped: Pass, kept: Pass)
    requires dropped in multiset(db.passes) && ScannedIn(db, dropped, estateId)
    requires dropped !in DigitalPasses(db, estateId)
    requires kept in DigitalPasses(db, estateId)
    ensures PassTime(dropped) <= PassTime(kept)
  {
    var all := ScannedPasses(db, estateId);
    assert dropped in all;
    assert dropped in multiset(all) - multiset(NewestN(all, PassTime, QueryTake));
    NewestNKeepsTheNewest(all, PassTime, QueryTake, dropped, kept);
  }

  /** `addManualLog`: a MANUAL entry of the estate stamped with the current
      time. */
  function AddManualLog(db: Db, estateId: string, guestName: string, destination: string, notes: Option<string>,
                        now: int, id: string): (r: (LogEntry, Db))
    ensures r.0.logType == Manual && LogTime(r.0) == now && OfEstate(r.0, estateId)
    ensures r.0.guestName == guestName && r.0.destination == destination && r.0.notes == notes
    ensures r.1 == db.(logs := db.logs + [r.0])
  {
    var l := LogEntry(id, estateId, guestName, destination, now, None, Manual, notes);
    (l, db.(logs := db.logs + [l]))
  }

  /** `triggerSOS`: an EMERGENCY entry stamped with the current time, at the
      given location or an unknown one, naming the resident. */
  function TriggerSos(db: Db, estateId: string, userId: string, location: Option<string>, now: int, id: string)
    : (r: (LogEntry, Db))
    ensures r.0.logType == Emergency && LogTime(r.0) == now && OfEstate(r.0, estateId)
    ensures r.0.guestName == SosGuestName
    ensures Truthy(location) ==> r.0.destination == location.value
    ensures !Truthy(location) ==> r.0.destination == UnknownLocation
    ensures r.0.notes == Some("Emergency triggered by resident " + userId)
    ensures r.1 == db.(logs := db.logs + [r.0])
  {
    var l := LogEntry(id, estateId, SosGuestName, if Truthy(location) then location.value else UnknownLocation,
                      now, None, Emergency, Some("Emergency triggered by resident " + userId));
    (l, db.(logs := db.logs + [l]))
  }

  /** Everything recorded so far happened before `now`. */
  predicate AllBefore(db: Db, now: int) {
    (forall l :: l in db.logs ==> LogTime(l) < now)
    && forall p :: p in db.passes && p.entryTime.Some? ==> PassTime(p) < now
  }

  /** An SOS raised after everything else recorded heads the estate's log. */
  lemma SosHeadsTheLog(db: Db, estateId: string, userId: string, location: Option<string>, now: int, id: string,
                       sos: LogEntry, db': Db)
    requires AllBefore(db, now)
    requires TriggerSos(db, estateId, userId, location, now, id) == (sos, db')
    ensures |GetEstateLogs(db', estateId)| >= 1 && GetEstateLogs(db', estateId)[0] == sos
  {
    NewEntryHeadsTheLog(db, estateId, sos, db');
  }

  /** A manual entry made after everything else recorded heads the estate's
      log. */
  lemma ManualLogHeadsTheLog(db: Db, estateId: string, guestName: string, destination: string, notes: Option<string>,
                             now: int, id: string, l: LogEntry, db': Db)
    requires AllBefore(db, now)
    requires AddManualLog(db, estateId, guestName, destination, notes, now, id) == (l, db')
    ensures |GetEstateLogs(db', estateId)| >= 1 && GetEstateLogs(db', estateId)[0] == l
  {
    NewEntryHeadsTheLog(db, estateId, l, db');
  }

  /** An entry of the estate appended after everything else recorded comes
      first. */
  lemma NewEntryHeadsTheLog(db: Db, estateId: string, x: LogEntry, db': Db)
    requires AllBefore(db, LogTime(x)) && OfEstate(x, estateId)
    requires db' == db.(logs := db.logs + [x])
    ensures |GetEstateLogs(db', estateId)| >= 1 && GetEstateLogs(db', estateId)[0] == x
  {
    NewEntryHeadsManualLogs(db, estateId, x, db');
    NewEntryIsStrictlyNewest(db, estateId, x, db');
    assert MergedLogs(db', estateId)[0] == x;
    HeadOfMerged(MergedLogs(db', estateId), x);
    assert GetEstateLogs(db', estateId) == NewestN(MergedLogs(db', estateId), LogTime, MergedTake);
  }

  /** An entry heading the merged list and newer than every other entry in
      it heads the sorted log. */
  lemma HeadOfMerged(merged: seq<LogEntry>, x: LogEntry)
    requires |merged| >= 1 && merged[0] == x
    requires forall y :: y in merged && y != x ==> LogTime(y) < LogTime(x)
    ensures |NewestN(merged, LogTime, MergedTake)| >= 1 && NewestN(merged, LogTime, MergedTake)[0] == x
  {
    StrictlyNewestLeads(merged, LogTime, MergedTake, x);
  }

  lemma NewEntryHeadsManualLogs(db: Db, estateId: string, x: LogEntry, db': Db)
    requires AllBefore(db, LogTime(x)) && OfEstate(x, estateId)
    requires db' == db.(logs := db.logs + [x])
    ensures |ManualLogs(db', estateId)| >= 1 && ManualLogs(db', estateId)[0] == x
  {
    var all := Filter(db'.logs, (l: LogEntry) => OfEstate(l, estateId));
    assert db'.logs[|db.logs|] == x;
    assert x in all;
    forall y | y in all && y != x ensures LogTime(y) < LogTime(x) {
      assert y in db'.logs;
    }
    StrictlyNewestLeads(all, LogTime, QueryTake, x);
  }

  lemma NewEntryIsStrictlyNewest(db: Db, estateId: string, x: LogEntry, db': Db)
    requires AllBefore(db, LogTime(x))
    requires db' == db.(logs := db.logs + [x])
    ensures forall y :: y in MergedLogs(db', estateId) && y != x ==> LogTime(y) < LogTime(x)
  {
    forall y | y in MergedLogs(db', estateId) && y != x ensures LogTime(y) < LogTime(x) {
      MergedEntryFromEstate(db', estateId, y);
      if y !in db'.logs {
        var p :| p in db'.passes && ScannedIn(db', p, estateId) && y == DigitalLog(db', p, estateId);
      }
    }
  }
}
