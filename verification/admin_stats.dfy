/** The platform administrator's dashboard: the platform-wide counts and
    the most recent system log entries. */
module AdminStats {
  import opened Common
  import opened BackendStore
  import opened Sorting
  import opened JsParseInt
  import EstateService

  datatype PlatformStats = PlatformStats(totalEstates: nat, totalUsers: nat, adImpressions: nat, adClicks: nat)

  predicate IsActiveEstate(e: Estate) {
    e.status == EstateActive
  }

  predicate IsActiveAd(a: GlobalAd) {
    a.isActive
  }

  function Clicks(a: GlobalAd): nat {
    a.clicks.GetOr(0)
  }

  /** `ads.reduce((sum, ad) => sum + f(ad), 0)`, folding from the left. */
  function Reduce(ads: seq<GlobalAd>, f: GlobalAd -> nat): (total: nat)
  {
    if ads == [] then 0 else Reduce(ads[..|ads| - 1], f) + f(ads[|ads| - 1])
  }

  /** The total of `f` over the ads satisfying `p`, summed from the front
      with every other ad counting nothing. */
  function SumWhere(ads: seq<GlobalAd>, p: GlobalAd -> bool, f: GlobalAd -> nat): (total: nat)
  {
    if ads == [] then 0 else (if p(ads[0]) then f(ads[0]) else 0) + SumWhere(ads[1..], p, f)
  }

  /** `getPlatformStats`: the ACTIVE estates, all users, and the
      impressions and clicks of the active ads, a missing click count
      counting as none. */
  function GetPlatformStats(db: Db): (s: PlatformStats)
    ensures s.totalEstates == Count(db.estates, IsActiveEstate) <= |db.estates|
    ensures s.totalUsers == |db.users|
    ensures s.adImpressions == SumWhere(db.ads, IsActiveAd, (a: GlobalAd) => a.impressions)
    ensures s.adClicks == SumWhere(db.ads, IsActiveAd, Clicks)
  {
    var active := Filter(db.ads, IsActiveAd);
    ReduceOfFilter(db.ads, IsActiveAd, (a: GlobalAd) => a.impressions);
    ReduceOfFilter(db.ads, IsActiveAd, Clicks);
    PlatformStats(Count(db.estates, IsActiveEstate), |db.users|,
                  Reduce(active, (a: GlobalAd) => a.impressions), Reduce(active, Clicks))
  }

  lemma {:induction false} ReduceAppendFront(a: GlobalAd, ads: seq<GlobalAd>, f: GlobalAd -> nat)
    ensures Reduce([a] + ads, f) == f(a) + Reduce(ads, f)
  {
    if ads != [] {
      assert ([a] + ads)[..|ads|] == [a] + ads[..|ads| - 1];
      ReduceAppendFront(a, ads[..|ads| - 1], f);
    }
  }

  /** Folding the filtered ads from the left gives the same total as
      summing over all of them from the front. */
  lemma {:induction false} ReduceOfFilter(ads: seq<GlobalAd>, p: GlobalAd -> bool, f: GlobalAd -> nat)
    ensures Reduce(Filter(ads, p), f) == SumWhere(ads, p, f)
  {
    if ads != [] {
      ReduceOfFilter(ads[1..], p, f);
      if p(ads[0]) {
        ReduceAppendFront(ads[0], Filter(ads[1..], p), f);
      }
    }
  }

  /** Suspending an active estate lowers the active count by one, and
      re-activating one raises it by one. */
  lemma ToggleMovesActiveCount(db: Db, id: string)
    requires EstateService.ToggleEstateStatus(db, id).Ok?
    ensures var db' := EstateService.ToggleEstateStatus(db, id).value.1;
            var k := EstateById(db, id).value;
            GetPlatformStats(db').totalEstates
            == GetPlatformStats(db).totalEstates + (if db.estates[k].status == EstateActive then -1 else 1)
  {
    var k := EstateById(db, id).value;
    var r := EstateService.ToggleEstateStatus(db, id).value;
    CountUpdate(db.estates, IsActiveEstate, k, r.0);
  }

  /** Turning an ad off takes its numbers out of the totals. */
  lemma {:induction false} DeactivatingAnAd(ads: seq<GlobalAd>, i: nat, f: GlobalAd -> nat)
    requires i < |ads| && ads[i].isActive
    ensures SumWhere(ads[i := ads[i].(isActive := false)], IsActiveAd, f) + f(ads[i]) == SumWhere(ads, IsActiveAd, f)
  {
    if i > 0 {
      assert ads[i := ads[i].(isActive := false)][1..] == ads[1..][i - 1 := ads[i].(isActive := false)];
      DeactivatingAnAd(ads[1..], i - 1, f);
    } else {
      assert ads[i := ads[i].(isActive := false)][1..] == ads[1..];
    }
  }

  // ---------------------------------------------------------------------
  // System logs

  datatype SystemLog = SystemLog(id: string, action: string, createdAt: int)

  const DefaultLogLimit := 50

  /** `parseInt(req.query.limit) || 50`: an absent, unreadable or zero
      limit is fifty; a negative one is kept. */
  function LimitOf(q: Option<string>): (n: int)
    ensures q.None? ==> n == DefaultLogLimit
    ensures q.Some? && (ParseInt(q.value).None? || ParseInt(q.value) == Some(0)) ==> n == DefaultLogLimit
    ensures q.Some? && ParseInt(q.value).Some? && ParseInt(q.value) != Some(0) ==> n == ParseInt(q.value).value
  {
    if q.None? then DefaultLogLimit
    else match ParseInt(q.value)
      case None => DefaultLogLimit
      case Some(k) => if k == 0 then DefaultLogLimit else k
  }

  /** A printed positive limit is used as it is. */
  lemma PrintedLimitIsUsed(n: nat)
    requires n > 0
    ensures LimitOf(Some(DecimalString(n))) == n
  {
    ParseIntReadsDecimal(n, []);
    assert DecimalString(n) + [] == DecimalString(n);
  }

  function CreatedAt(l: SystemLog): int {
    l.createdAt
  }

  /** `getSystemLogs`: newest first, the first `limit` of them; a negative
      limit takes that many from the far end, the oldest, still newest
      first. */
  function GetSystemLogs(logs: seq<SystemLog>, q: Option<string>): (r: seq<SystemLog>)
    ensures SortedDesc(r, CreatedAt)
    ensures multiset(r) <= multiset(logs)
    ensures |r| == var n := LimitOf(q); var m := if n > 0 then n else -n; if m < |logs| then m else |logs|
    ensures LimitOf(q) > 0 ==> r == NewestN(logs, CreatedAt, LimitOf(q))
  {
    var n := LimitOf(q);
    if n > 0 then NewestN(logs, CreatedAt, n)
    else
      var s := SortDesc(logs, CreatedAt);
      var m := if -n < |s| then -n else |s|;
      OldestEndKeepsOrder(s, |s| - m);
      s[|s| - m..]
  }

  lemma OldestEndKeepsOrder(s: seq<SystemLog>, k: nat)
    requires k <= |s| && SortedDesc(s, CreatedAt)
    ensures SortedDesc(s[k..], CreatedAt)
    ensures multiset(s[k..]) <= multiset(s)
  {
    assert s == s[..k] + s[k..];
    assert multiset(s) == multiset(s[..k]) + multiset(s[k..]);
  }

  /** Without a limit the fifty newest entries are returned, and nothing
      left out is newer than anything returned. */
  lemma DefaultIsFiftyNewest(logs: seq<SystemLog>, x: SystemLog, y: SystemLog)
    requires x in multiset(logs) - multiset(GetSystemLogs(logs, None))
    requires y in GetSystemLogs(logs, None)
    ensures |GetSystemLogs(logs, None)| == if |logs| < 50 then |logs| else 50
    ensures x.createdAt <= y.createdAt
  {
    NewestNKeepsTheNewest(logs, CreatedAt, 50, x, y);
  }
}
