/** Python's `sorted(xs, key=k, reverse=True)` followed by `[:top_k]`: a stable sort
    in descending key order, and what the kept prefix says about the dropped rest. */
module Ranking {

  /** Keys never increase along `s`. */
  predicate SortedDesc<T>(s: seq<T>, key: T -> real)
  {
    forall i, j | 0 <= i < j < |s| :: key(s[i]) >= key(s[j])
  }

  /** The elements of `s` whose key is `v`, in their order in `s`. */
  function FilterKey<T>(s: seq<T>, key: T -> real, v: real): (r: seq<T>)
    ensures |r| <= |s|
    ensures forall x | x in r :: x in s && key(x) == v
  {
    if s == [] then []
    else (if key(s[0]) == v then [s[0]] else []) + FilterKey(s[1..], key, v)
  }

  /** Places `x` after every element whose key is at least `key(x)`: equal keys keep
      their arrival order, which is what makes the sort stable. */
  function Insert<T>(x: T, s: seq<T>, key: T -> real): seq<T>
  {
    if s == [] then [x]
    else if key(s[0]) < key(x) then [x] + s
    else [s[0]] + Insert(x, s[1..], key)
  }

  /** Insertion sort, inserting the elements in their original order. */
  function SortDesc<T>(s: seq<T>, key: T -> real): seq<T>
  {
    if s == [] then [] else Insert(s[|s| - 1], SortDesc(s[..|s| - 1], key), key)
  }

  lemma {:induction false} FilterKeyAppend<T>(a: seq<T>, b: seq<T>, key: T -> real, v: real)
    ensures FilterKey(a + b, key, v) == FilterKey(a, key, v) + FilterKey(b, key, v)
  {
    if a == [] {
      assert a + b == b;
    } else {
      assert (a + b)[0] == a[0];
      assert (a + b)[1..] == a[1..] + b;
      FilterKeyAppend(a[1..], b, key, v);
    }
  }

  /** Nothing in `s` carries key `v` when every key stays below it. */
  lemma {:induction false} FilterKeyBelow<T>(s: seq<T>, key: T -> real, v: real)
    requires forall i | 0 <= i < |s| :: key(s[i]) < v
    ensures FilterKey(s, key, v) == []
  {
    if s != [] {
      FilterKeyBelow(s[1..], key, v);
    }
  }

  /** Every element of `Insert(x, s)` is `x` or an element of `s`. */
  lemma {:induction false} InsertMultiset<T>(x: T, s: seq<T>, key: T -> real)
    ensures multiset(Insert(x, s, key)) == multiset(s) + multiset{x}
  {
    if s != [] && key(s[0]) >= key(x) {
      InsertMultiset(x, s[1..], key);
      assert s == [s[0]] + s[1..];
    }
  }

  lemma {:induction false} InsertSorted<T>(x: T, s: seq<T>, key: T -> real)
    requires SortedDesc(s, key)
    ensures SortedDesc(Insert(x, s, key), key)
  {
    if s != [] && key(s[0]) >= key(x) {
      var t := s[1..];
      SortedTail(s, key);
      InsertSorted(x, t, key);
      var u := Insert(x, t, key);
      forall y | y in u
        ensures key(y) <= key(s[0])
      {
        InsertMultiset(x, t, key);
        assert y in multiset(u);
        if y != x {
          var k :| 0 <= k < |t| && t[k] == y;
          assert s[k + 1] == y;
        }
      }
      ConsSorted(s[0], u, key);
    }
  }

  /** An element at least as high as everything after it heads a descending sequence. */
  lemma ConsSorted<T>(h: T, u: seq<T>, key: T -> real)
    requires SortedDesc(u, key)
    requires forall y | y in u :: key(y) <= key(h)
    ensures SortedDesc([h] + u, key)
  {
    var r := [h] + u;
    forall i, j | 0 <= i < j < |r|
      ensures key(r[i]) >= key(r[j])
    {
      assert r[j] == u[j - 1];
      if i > 0 {
        assert r[i] == u[i - 1];
      }
    }
  }

  /** The tail of a descending sequence is descending. */
  lemma SortedTail<T>(s: seq<T>, key: T -> real)
    requires SortedDesc(s, key) && s != []
    ensures SortedDesc(s[1..], key)
  {
    var t := s[1..];
    forall i, j | 0 <= i < j < |t|
      ensures key(t[i]) >= key(t[j])
    {
      assert t[i] == s[i + 1] && t[j] == s[j + 1];
    }
  }

  /** Everything in a descending sequence is below a bound its head is below. */
  lemma SortedBelow<T>(s: seq<T>, key: T -> real, v: real)
    requires SortedDesc(s, key) && s != [] && key(s[0]) < v
    ensures forall i | 0 <= i < |s| :: key(s[i]) < v
  {
    forall i | 0 <= i < |s|
      ensures key(s[i]) < v
    {
      if i > 0 { assert key(s[0]) >= key(s[i]); }
    }
  }

  lemma {:induction false} InsertFilter<T>(x: T, s: seq<T>, key: T -> real, v: real)
    requires SortedDesc(s, key)
    ensures FilterKey(Insert(x, s, key), key, v)
            == FilterKey(s, key, v) + (if key(x) == v then [x] else [])
  {
    if s == [] {
    } else if key(s[0]) < key(x) {
      var r := [x] + s;
      assert r[0] == x && r[1..] == s;
      if key(x) == v {
        SortedBelow(s, key, v);
        FilterKeyBelow(s, key, v);
      }
    } else {
      var t := s[1..];
      SortedTail(s, key);
      InsertFilter(x, t, key, v);
      var r := Insert(x, s, key);
      assert r == [s[0]] + Insert(x, t, key);
      assert r[0] == s[0] && r[1..] == Insert(x, t, key);
      var head := if key(s[0]) == v then [s[0]] else [];
      assert FilterKey(r, key, v) == head + FilterKey(Insert(x, t, key), key, v);
      assert FilterKey(s, key, v) == head + FilterKey(t, key, v);
    }
  }

  /** The sort yields an ordering of its input, by descending key, in which elements of
      equal key keep their relative order. */
  lemma {:induction false} SortDescFacts<T>(s: seq<T>, key: T -> real)
    ensures SortedDesc(SortDesc(s, key), key)
    ensures multiset(SortDesc(s, key)) == multiset(s)
    ensures forall v :: FilterKey(SortDesc(s, key), key, v) == FilterKey(s, key, v)
  {
    if s != [] {
      var init, x := s[..|s| - 1], s[|s| - 1];
      assert s == init + [x];
      SortDescFacts(init, key);
      InsertSorted(x, SortDesc(init, key), key);
      InsertMultiset(x, SortDesc(init, key), key);
      forall v
        ensures FilterKey(SortDesc(s, key), key, v) == FilterKey(s, key, v)
      {
        InsertFilter(x, SortDesc(init, key), key, v);
        FilterKeyAppend(init, [x], key, v);
        assert [x][1..] == [];
      }
    }
  }

  lemma SortDescLength<T>(s: seq<T>, key: T -> real)
    ensures |SortDesc(s, key)| == |s|
  {
    SortDescFacts(s, key);
    assert |multiset(SortDesc(s, key))| == |multiset(s)|;
  }

  /** Truncating a descending list keeps every element at least as high as any element
      left out. */
  lemma PrefixDominates<T>(s: seq<T>, key: T -> real, k: nat, x: T)
    requires SortedDesc(s, key) && k <= |s|
    requires x in s && x !in s[..k]
    ensures forall y | y in s[..k] :: key(y) >= key(x)
  {
    forall y | y in s[..k]
      ensures key(y) >= key(x)
    {
      var i :| 0 <= i < k && s[..k][i] == y;
      assert s[i] == y;
    }
  }

  /** No element occurs twice. */
  predicate Distinct<T(==)>(s: seq<T>)
  {
    forall i, j | 0 <= i < j < |s| :: s[i] != s[j]
  }

  lemma {:induction false} DistinctOnce<T>(s: seq<T>, x: T)
    requires Distinct(s)
    ensures multiset(s)[x] <= 1
  {
    if s != [] {
      var t := s[1..];
      assert s == [s[0]] + t;
      assert Distinct(t) by {
        forall i, j | 0 <= i < j < |t|
          ensures t[i] != t[j]
        {
          assert t[i] == s[i + 1] && t[j] == s[j + 1];
        }
      }
      DistinctOnce(t, x);
      if x == s[0] {
        assert x !in t;
      }
    }
  }

  /** The prefix one longer ends with the next element. */
  lemma SliceSnoc<T>(s: seq<T>, i: nat)
    requires i < |s|
    ensures s[..i + 1] == s[..i] + [s[i]]
  {
  }

  /** A new element can go at the end of a list without repeats. */
  lemma DistinctSnoc<T>(s: seq<T>, x: T)
    requires Distinct(s) && x !in s
    ensures Distinct(s + [x])
  {
    var r := s + [x];
    forall i, j | 0 <= i < j < |r|
      ensures r[i] != r[j]
    {
      if j == |s| {
        assert r[i] == s[i] && s[i] in s;
      } else {
        assert r[i] == s[i] && r[j] == s[j];
      }
    }
  }

  /** A reordering of a list without repeats has no repeats. */
  lemma PermutationDistinct<T>(a: seq<T>, b: seq<T>)
    requires multiset(a) == multiset(b) && Distinct(a)
    ensures Distinct(b)
  {
    forall i, j | 0 <= i < j < |b|
      ensures b[i] != b[j]
    {
      if b[i] == b[j] {
        var x := b[i];
        assert b == b[..j] + [x] + b[j + 1..];
        assert x in b[..j];
        assert multiset(b)[x] >= 2 by {
          assert multiset(b) == multiset(b[..j]) + multiset{x} + multiset(b[j + 1..]);
        }
        DistinctOnce(a, x);
      }
    }
  }
}
