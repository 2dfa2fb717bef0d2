/** Ordering by a numeric key, newest first: the stable sort that
    JavaScript's `Array.prototype.sort` performs with a `b - a` comparator,
    and the "newest `n`" that a database query with a descending order and a
    `take` returns. */
module Sorting {
  import opened Common

  /** Non-increasing by `key`. */
  ghost predicate SortedDesc<T>(xs: seq<T>, key: T -> int) {
    forall i, j :: 0 <= i < j < |xs| ==> key(xs[i]) >= key(xs[j])
  }

  /** `x` placed before the first element whose key is not larger, so
      ahead of the elements with the same key. */
  function Insert<T>(x: T, xs: seq<T>, key: T -> int): (r: seq<T>)
    requires SortedDesc(xs, key)
    ensures |r| == |xs| + 1
    ensures multiset(r) == multiset(xs) + multiset{x}
    ensures r[0] == x || (xs != [] && r[0] == xs[0])
    ensures SortedDesc(r, key)
  {
    if xs == [] then [x]
    else if key(x) >= key(xs[0]) then
      SortedCons(x, xs, key);
      [x] + xs
    else
      SortedTail(xs, key);
      var rest := Insert(x, xs[1..], key);
      assert xs == [xs[0]] + xs[1..];
      SortedCons(xs[0], rest, key);
      [xs[0]] + rest
  }

  lemma SortedTail<T>(xs: seq<T>, key: T -> int)
    requires xs != [] && SortedDesc(xs, key)
    ensures SortedDesc(xs[1..], key)
  {
    forall i, j | 0 <= i < j < |xs| - 1 ensures key(xs[1..][i]) >= key(xs[1..][j]) {
      assert xs[1..][i] == xs[i + 1] && xs[1..][j] == xs[j + 1];
    }
  }

  lemma SortedCons<T>(h: T, xs: seq<T>, key: T -> int)
    requires SortedDesc(xs, key) && (xs != [] ==> key(h) >= key(xs[0]))
    ensures SortedDesc([h] + xs, key)
  {
    var r := [h] + xs;
    forall i, j | 0 <= i < j < |r| ensures key(r[i]) >= key(r[j]) {
      if i == 0 {
        assert r[j] == xs[j - 1];
        if j > 1 {
          assert key(xs[0]) >= key(xs[j - 1]);
        }
      } else {
        assert r[i] == xs[i - 1] && r[j] == xs[j - 1];
      }
    }
  }

  /** Insertion sort by `key`, largest first. */
  function SortDesc<T>(xs: seq<T>, key: T -> int): (r: seq<T>)
    ensures |r| == |xs|
    ensures multiset(r) == multiset(xs)
    ensures SortedDesc(r, key)
  {
    if xs == [] then []
    else
      assert xs == [xs[0]] + xs[1..];
      Insert(xs[0], SortDesc(xs[1..], key), key)
  }

  /** The first `n` by `key`, largest first. */
  function NewestN<T>(xs: seq<T>, key: T -> int, n: nat): (r: seq<T>)
    ensures |r| == if n < |xs| then n else |xs|
    ensures SortedDesc(r, key)
    ensures multiset(r) <= multiset(xs)
  {
    var s := SortDesc(xs, key);
    TakeKeepsOrder(s, key, n);
    Take(s, n)
  }

  lemma TakeKeepsOrder<T>(s: seq<T>, key: T -> int, n: nat)
    requires SortedDesc(s, key)
    ensures SortedDesc(Take(s, n), key)
    ensures multiset(Take(s, n)) <= multiset(s)
  {
    if n < |s| {
      assert s == s[..n] + s[n..];
      assert multiset(s) == multiset(s[..n]) + multiset(s[n..]);
    }
  }

  /** Nothing left out is newer than anything kept: the result really is
      the `n` newest. */
  lemma NewestNKeepsTheNewest<T>(xs: seq<T>, key: T -> int, n: nat, x: T, y: T)
    requires x in multiset(xs) - multiset(NewestN(xs, key, n))
    requires y in NewestN(xs, key, n)
    ensures key(x) <= key(y)
  {
    var s := SortDesc(xs, key);
    assert n < |s|;
    assert NewestN(xs, key, n) == s[..n];
    SplitMultiset(s, n);
    SortedSplit(s, key, n, x, y);
  }

  lemma SplitMultiset<T>(s: seq<T>, n: nat)
    requires n <= |s|
    ensures multiset(s) - multiset(s[..n]) == multiset(s[n..])
  {
    assert s == s[..n] + s[n..];
  }

  /** In a sorted sequence, whatever lies after a cut is not newer than what
      lies before it. */
  lemma SortedSplit<T>(s: seq<T>, key: T -> int, n: nat, x: T, y: T)
    requires SortedDesc(s, key) && n <= |s|
    requires x in multiset(s[n..]) && y in s[..n]
    ensures key(x) <= key(y)
  {
    var j :| 0 <= j < |s| - n && s[n..][j] == x;
    var i :| 0 <= i < n && s[..n][i] == y;
    assert s[i] == y && s[n + j] == x;
  }

  /** An element newer than every other one comes first. */
  lemma StrictlyNewestLeads<T>(xs: seq<T>, key: T -> int, n: nat, x: T)
    requires n >= 1 && x in xs
    requires forall y :: y in xs && y != x ==> key(y) < key(x)
    ensures |NewestN(xs, key, n)| >= 1 && NewestN(xs, key, n)[0] == x
  {
    var s := SortDesc(xs, key);
    assert x in multiset(s);
    var j :| 0 <= j < |s| && s[j] == x;
    assert s[0] in multiset(xs);
  }
}
