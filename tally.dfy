/** Python dict counters: `counts[k] = counts.get(k, 0) + 1` over a sequence of keys,
    and the sum of all counters. */
module Tally {

  /** A non-empty dict has a key. */
  lemma HasKey(m: map<int, nat>)
    requires |m| > 0
    ensures exists k :: k in m
  {
    if forall k :: k !in m {
      assert false;
    }
  }

  /** The key a sum over `m` takes out first. */
  ghost function Pick(m: map<int, nat>): (k: int)
    requires |m| > 0
    ensures k in m
  {
    HasKey(m);
    var k :| k in m; k
  }

  /** Sum of the counters of a dict. */
  ghost function MapSum(m: map<int, nat>): nat
    decreases |m|
  {
    if |m| == 0 then 0 else m[Pick(m)] + MapSum(m - {Pick(m)})
  }

  /** Removing a key shrinks a dict by one. */
  lemma RemoveSize(m: map<int, nat>, k: int)
    requires k in m
    ensures |m - {k}| == |m| - 1
  {
    assert (m - {k}).Keys == m.Keys - {k};
  }

  /** Any key may be taken out first. */
  lemma {:induction false} MapSumRemove(m: map<int, nat>, k: int)
    requires k in m
    ensures MapSum(m) == m[k] + MapSum(m - {k})
    decreases |m|
  {
    var j := Pick(m);
    if j != k {
      var mj, mk := m - {j}, m - {k};
      RemoveSize(m, j);
      RemoveSize(m, k);
      MapSumRemove(mj, k);
      MapSumRemove(mk, j);
      assert mj - {k} == mk - {j};
    }
  }

  /** `m.get(k, 0)`. */
  function Get(m: map<int, nat>, k: int): nat
  {
    if k in m then m[k] else 0
  }

  /** `m[k] = m.get(k, 0) + 1`. */
  function Bump(m: map<int, nat>, k: int): (r: map<int, nat>)
    ensures r.Keys == m.Keys + {k}
    ensures r[k] == Get(m, k) + 1
    ensures forall j | j in m && j != k :: r[j] == m[j]
  {
    m[k := Get(m, k) + 1]
  }

  /** Only the bumped key's counter differs. */
  lemma BumpRest(m: map<int, nat>, k: int)
    ensures Bump(m, k) - {k} == m - {k}
  {
    var r, a := Bump(m, k) - {k}, m - {k};
    assert r.Keys == a.Keys;
    forall j | j in r
      ensures r[j] == a[j]
    {
    }
  }

  lemma {:induction false} MapSumBump(m: map<int, nat>, k: int)
    ensures MapSum(Bump(m, k)) == MapSum(m) + 1
  {
    MapSumRemove(Bump(m, k), k);
    BumpRest(m, k);
    if k in m {
      MapSumRemove(m, k);
    } else {
      assert m - {k} == m;
    }
  }

  /** The counters after bumping once per element of `xs`, in order, starting from `init`. */
  function Tally(init: map<int, nat>, xs: seq<int>): map<int, nat>
  {
    if xs == [] then init else Bump(Tally(init, xs[..|xs| - 1]), xs[|xs| - 1])
  }

  /** Occurrences of `k` in `xs`. */
  function Count(xs: seq<int>, k: int): nat
  {
    if xs == [] then 0 else Count(xs[..|xs| - 1], k) + (if xs[|xs| - 1] == k then 1 else 0)
  }

  /** The keys are those of `init` plus those met. */
  lemma {:induction false} TallyKeys(init: map<int, nat>, xs: seq<int>)
    ensures Tally(init, xs).Keys == init.Keys + set x | x in xs
  {
    if xs != [] {
      var front := xs[..|xs| - 1];
      TallyKeys(init, front);
      assert xs == front + [xs[|xs| - 1]];
      assert (set x | x in xs) == (set x | x in front) + {xs[|xs| - 1]};
    }
  }

  /** Each counter grows by the number of occurrences of its key. */
  lemma {:induction false} TallyCounts(init: map<int, nat>, xs: seq<int>, k: int)
    ensures Get(Tally(init, xs), k) == Get(init, k) + Count(xs, k)
  {
    if xs != [] {
      TallyCounts(init, xs[..|xs| - 1], k);
    }
  }

  /** The counters' sum grows by `|xs|`. */
  lemma {:induction false} TallySum(init: map<int, nat>, xs: seq<int>)
    ensures MapSum(Tally(init, xs)) == MapSum(init) + |xs|
  {
    if xs != [] {
      var front := xs[..|xs| - 1];
      TallySum(init, front);
      MapSumBump(Tally(init, front), xs[|xs| - 1]);
    }
  }

  /** A histogram grown from `init`: its keys are those of `init` and the values met,
      each counter grows by the occurrences of its key, and the sum by `|xs|`. */
  lemma Histogram(init: map<int, nat>, xs: seq<int>)
    ensures forall k :: k in Tally(init, xs) <==> k in init || k in xs
    ensures forall k :: Get(Tally(init, xs), k) == Get(init, k) + Count(xs, k)
    ensures MapSum(Tally(init, xs)) == MapSum(init) + |xs|
  {
    TallyKeys(init, xs);
    forall k
      ensures Get(Tally(init, xs), k) == Get(init, k) + Count(xs, k)
    {
      TallyCounts(init, xs, k);
    }
    TallySum(init, xs);
  }

  /** `{i: 0 for i in range(n)}`. */
  function Zeros(n: nat): (m: map<int, nat>)
    ensures forall k :: k in m <==> 0 <= k < n
    ensures forall k | k in m :: m[k] == 0
  {
    if n == 0 then map[] else Zeros(n - 1)[n - 1 := 0]
  }

  lemma {:induction false} MapSumZeros(m: map<int, nat>)
    requires forall k | k in m :: m[k] == 0
    ensures MapSum(m) == 0
    decreases |m|
  {
    if |m| > 0 {
      RemoveSize(m, Pick(m));
      MapSumZeros(m - {Pick(m)});
    }
  }

  /** A histogram grown from `{i: 0 for i in range(n)}` over values in `0..n-1` keeps
      exactly the keys `0..n-1`, counts each value, and sums to `|xs|`. */
  lemma ZerosHistogram(n: nat, xs: seq<int>)
    requires forall i | 0 <= i < |xs| :: 0 <= xs[i] < n
    ensures forall k :: k in Tally(Zeros(n), xs) <==> 0 <= k < n
    ensures forall k | 0 <= k < n :: Tally(Zeros(n), xs)[k] == Count(xs, k)
    ensures MapSum(Tally(Zeros(n), xs)) == |xs|
  {
    var z := Zeros(n);
    TallyKeys(z, xs);
    forall k | 0 <= k < n
      ensures Tally(z, xs)[k] == Count(xs, k)
    {
      TallyCounts(z, xs, k);
    }
    TallySum(z, xs);
    MapSumZeros(z);
  }

  /** `max(xs, default=d)`. */
  function MaxOr(xs: seq<int>, d: int): (r: int)
    ensures xs == [] ==> r == d
    ensures xs != [] ==> r in xs && forall x | x in xs :: x <= r
  {
    if xs == [] then d
    else if |xs| == 1 then xs[0]
    else
      var m := MaxOr(xs[1..], d);
      assert xs == [xs[0]] + xs[1..];
      if m < xs[0] then xs[0] else m
  }
}
