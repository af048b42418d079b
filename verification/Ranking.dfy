/**
 * Stable descending sort by a real key, and what characterises it: the result
 * is descending, and for every key the elements with that key are those of the
 * input in the same order. At most one sequence is both.
 */
module Ranking {

  /** The elements that satisfy p, in order. */
  function Filter<T>(xs: seq<T>, p: T -> bool): seq<T> {
    if |xs| == 0 then []
    else (if p(xs[0]) then [xs[0]] else []) + Filter(xs[1..], p)
  }

  /** The elements whose key is k, in order. */
  function WithKey<T>(xs: seq<T>, key: T -> real, k: real): seq<T> {
    if |xs| == 0 then []
    else (if key(xs[0]) == k then [xs[0]] else []) + WithKey(xs[1..], key, k)
  }

  ghost predicate Descending<T>(xs: seq<T>, key: T -> real) {
    forall i, j | 0 <= i < j < |xs| :: key(xs[i]) >= key(xs[j])
  }

  /** ys is xs sorted descending, ties in the order of xs. */
  ghost predicate IsStableSort<T>(xs: seq<T>, ys: seq<T>, key: T -> real) {
    Descending(ys, key) && forall k: real :: WithKey(ys, key, k) == WithKey(xs, key, k)
  }

  /** x goes before everything that does not beat it. */
  function Insert<T>(x: T, ys: seq<T>, key: T -> real): seq<T> {
    if |ys| == 0 || key(x) >= key(ys[0]) then [x] + ys
    else [ys[0]] + Insert(x, ys[1..], key)
  }

  function StableSort<T>(xs: seq<T>, key: T -> real): seq<T> {
    if |xs| == 0 then [] else Insert(xs[0], StableSort(xs[1..], key), key)
  }

  lemma {:induction false} InsertKeepsElements<T>(x: T, ys: seq<T>, key: T -> real)
    ensures multiset(Insert(x, ys, key)) == multiset{x} + multiset(ys)
    decreases |ys|
  {
    if |ys| > 0 && key(x) < key(ys[0]) {
      InsertKeepsElements(x, ys[1..], key);
      assert ys == [ys[0]] + ys[1..];
    }
  }

  lemma {:induction false} InsertDescends<T>(x: T, ys: seq<T>, key: T -> real)
    requires Descending(ys, key)
    ensures Descending(Insert(x, ys, key), key)
    decreases |ys|
  {
    if |ys| > 0 && key(x) < key(ys[0]) {
      var rest, tail := ys[1..], Insert(x, ys[1..], key);
      InsertDescends(x, rest, key);
      InsertKeepsElements(x, rest, key);
      forall j | 0 <= j < |tail| ensures key(ys[0]) >= key(tail[j]) {
        assert tail[j] in multiset(tail);
        assert tail[j] == x || tail[j] in rest;
      }
    }
  }

  /** Putting y in front of both keeps x where it belongs among its ties. */
  lemma StaysAmongTies<T>(x: T, y: T, rest: seq<T>, tail: seq<T>, key: T -> real, k: real)
    requires key(x) < key(y) && WithKey(tail, key, k) == (if key(x) == k then [x] else []) + WithKey(rest, key, k)
    ensures WithKey([y] + tail, key, k) == (if key(x) == k then [x] else []) + WithKey([y] + rest, key, k)
  {
    WithKeyCons(y, rest, key, k);
    WithKeyCons(y, tail, key, k);
  }

  lemma {:induction false} InsertIsStable<T>(x: T, ys: seq<T>, key: T -> real, k: real)
    requires Descending(ys, key)
    ensures WithKey(Insert(x, ys, key), key, k) == (if key(x) == k then [x] else []) + WithKey(ys, key, k)
    decreases |ys|
  {
    if |ys| == 0 || key(x) >= key(ys[0]) {
      WithKeyCons(x, ys, key, k);
    } else {
      InsertIsStable(x, ys[1..], key, k);
      StaysAmongTies(x, ys[0], ys[1..], Insert(x, ys[1..], key), key, k);
      assert ys == [ys[0]] + ys[1..];
    }
  }

  lemma {:induction false} StableSortSorts<T>(xs: seq<T>, key: T -> real)
    ensures Descending(StableSort(xs, key), key)
    ensures multiset(StableSort(xs, key)) == multiset(xs)
  {
    if |xs| > 0 {
      StableSortSorts(xs[1..], key);
      InsertDescends(xs[0], StableSort(xs[1..], key), key);
      InsertKeepsElements(xs[0], StableSort(xs[1..], key), key);
      assert xs == [xs[0]] + xs[1..];
    }
  }

  lemma {:induction false} StableSortKeepsTies<T>(xs: seq<T>, key: T -> real, k: real)
    ensures WithKey(StableSort(xs, key), key, k) == WithKey(xs, key, k)
  {
    if |xs| > 0 {
      StableSortKeepsTies(xs[1..], key, k);
      StableSortSorts(xs[1..], key);
      InsertIsStable(xs[0], StableSort(xs[1..], key), key, k);
    }
  }

  lemma StableSortIsStable<T>(xs: seq<T>, key: T -> real)
    ensures IsStableSort(xs, StableSort(xs, key), key)
  {
    StableSortSorts(xs, key);
    forall k: real ensures WithKey(StableSort(xs, key), key, k) == WithKey(xs, key, k) {
      StableSortKeepsTies(xs, key, k);
    }
  }

  lemma {:induction false} WithKeyMembers<T>(xs: seq<T>, key: T -> real, k: real)
    ensures forall i | 0 <= i < |xs| && key(xs[i]) == k :: xs[i] in WithKey(xs, key, k)
    ensures forall x | x in WithKey(xs, key, k) :: x in xs && key(x) == k
  {
    if |xs| > 0 {
      WithKeyMembers(xs[1..], key, k);
    }
  }

  lemma HeadsAgree<T>(ys: seq<T>, zs: seq<T>, key: T -> real)
    requires Descending(ys, key) && Descending(zs, key) && |ys| > 0
    requires forall k: real :: WithKey(ys, key, k) == WithKey(zs, key, k)
    ensures |zs| > 0 && key(ys[0]) <= key(zs[0])
  {
    var k := key(ys[0]);
    WithKeyMembers(ys, key, k);
    assert ys[0] in WithKey(zs, key, k);
    WithKeyMembers(zs, key, k);
  }

  /** Descending order and the order of ties leave no freedom. */
  lemma {:induction false} StableSortIsUnique<T>(ys: seq<T>, zs: seq<T>, key: T -> real)
    requires Descending(ys, key) && Descending(zs, key)
    requires forall k: real :: WithKey(ys, key, k) == WithKey(zs, key, k)
    ensures ys == zs
    decreases |ys|
  {
    if |ys| == 0 {
      if |zs| > 0 {
        HeadsAgree(zs, ys, key);
      }
    } else {
      HeadsAgree(ys, zs, key);
      HeadsAgree(zs, ys, key);
      var k := key(ys[0]);
      assert WithKey(ys, key, k)[0] == ys[0] && WithKey(zs, key, k)[0] == zs[0];
      forall l: real ensures WithKey(ys[1..], key, l) == WithKey(zs[1..], key, l) {
        var own := if l == k then [ys[0]] else [];
        assert WithKey(ys, key, l) == own + WithKey(ys[1..], key, l);
        assert WithKey(zs, key, l) == own + WithKey(zs[1..], key, l);
        assert WithKey(ys[1..], key, l) == WithKey(ys, key, l)[|own|..];
        assert WithKey(zs[1..], key, l) == WithKey(zs, key, l)[|own|..];
      }
      StableSortIsUnique(ys[1..], zs[1..], key);
      assert ys == [ys[0]] + ys[1..] && zs == [zs[0]] + zs[1..];
    }
  }

  /** Any stable descending arrangement is the one StableSort computes. */
  lemma OnlyStableSort<T>(xs: seq<T>, ys: seq<T>, key: T -> real)
    requires IsStableSort(xs, ys, key)
    ensures ys == StableSort(xs, key)
  {
    StableSortIsStable(xs, key);
    StableSortIsUnique(ys, StableSort(xs, key), key);
  }

  /** Where the j-th element that passes came from. */
  lemma {:induction false} FilterIndex<T>(xs: seq<T>, p: T -> bool, j: nat) returns (i: nat)
    requires j < |Filter(xs, p)|
    ensures i < |xs| && xs[i] == Filter(xs, p)[j] && p(xs[i])
    decreases |xs|
  {
    if p(xs[0]) && j == 0 {
      i := 0;
    } else {
      var k := FilterIndex(xs[1..], p, if p(xs[0]) then j - 1 else j);
      i := k + 1;
    }
  }

  lemma {:induction false} FilterMembers<T>(xs: seq<T>, p: T -> bool, x: T)
    ensures x in Filter(xs, p) <==> x in xs && p(x)
  {
    if |xs| > 0 {
      FilterMembers(xs[1..], p, x);
      assert xs == [xs[0]] + xs[1..];
    }
  }

  lemma FilterCons<T>(x: T, xs: seq<T>, p: T -> bool)
    ensures Filter([x] + xs, p) == if p(x) then [x] + Filter(xs, p) else Filter(xs, p)
  {
    assert ([x] + xs)[1..] == xs;
  }

  lemma WithKeyCons<T>(x: T, xs: seq<T>, key: T -> real, k: real)
    ensures WithKey([x] + xs, key, k) == if key(x) == k then [x] + WithKey(xs, key, k) else WithKey(xs, key, k)
  {
    assert ([x] + xs)[1..] == xs;
  }

  lemma {:induction false} FilterWithKey<T>(xs: seq<T>, p: T -> bool, key: T -> real, k: real)
    ensures WithKey(Filter(xs, p), key, k) == Filter(WithKey(xs, key, k), p)
  {
    if |xs| > 0 {
      var x, rest := xs[0], xs[1..];
      assert xs == [x] + rest;
      FilterWithKey(rest, p, key, k);
      FilterCons(x, rest, p);
      WithKeyCons(x, rest, key, k);
      WithKeyCons(x, Filter(rest, p), key, k);
      FilterCons(x, WithKey(rest, key, k), p);
    }
  }

  lemma {:induction false} FilterDescends<T>(xs: seq<T>, p: T -> bool, key: T -> real)
    requires Descending(xs, key)
    ensures Descending(Filter(xs, p), key)
  {
    if |xs| > 0 {
      FilterDescends(xs[1..], p, key);
      var rest := Filter(xs[1..], p);
      forall j | 0 <= j < |rest| ensures key(xs[0]) >= key(rest[j]) {
        var i := FilterIndex(xs[1..], p, j);
        assert xs[i + 1] == rest[j];
      }
    }
  }

  /** Filtering commutes with a stable sort. */
  lemma FilterSortCommute<T>(xs: seq<T>, p: T -> bool, key: T -> real)
    ensures Filter(StableSort(xs, key), p) == StableSort(Filter(xs, p), key)
  {
    StableSortIsStable(xs, key);
    var ys := Filter(StableSort(xs, key), p);
    FilterDescends(StableSort(xs, key), p, key);
    forall k: real ensures WithKey(ys, key, k) == WithKey(Filter(xs, p), key, k) {
      FilterWithKey(StableSort(xs, key), p, key, k);
      FilterWithKey(xs, p, key, k);
    }
    OnlyStableSort(Filter(xs, p), ys, key);
  }

  lemma {:induction false} FiltersCommute<T>(xs: seq<T>, p: T -> bool, q: T -> bool)
    ensures Filter(Filter(xs, p), q) == Filter(Filter(xs, q), p)
  {
    if |xs| > 0 {
      var x, rest := xs[0], xs[1..];
      assert xs == [x] + rest;
      FiltersCommute(rest, p, q);
      FilterCons(x, rest, p);
      FilterCons(x, rest, q);
      FilterCons(x, Filter(rest, p), q);
      FilterCons(x, Filter(rest, q), p);
    }
  }

  lemma Associate<T>(a: seq<T>, b: seq<T>, c: seq<T>)
    ensures a + (b + c) == (a + b) + c
  {
  }

  lemma {:induction false} FilterConcat<T>(xs: seq<T>, ys: seq<T>, p: T -> bool)
    ensures Filter(xs + ys, p) == Filter(xs, p) + Filter(ys, p)
  {
    if |xs| == 0 {
      assert xs + ys == ys;
    } else {
      var x, rest := xs[0], xs[1..];
      FilterConcat(rest, ys, p);
      assert xs == [x] + rest;
      Associate([x], rest, ys);
      FilterCons(x, rest, p);
      FilterCons(x, rest + ys, p);
      Associate([x], Filter(rest, p), Filter(ys, p));
    }
  }

  /** The first n, or all of them. */
  function Take<T>(xs: seq<T>, n: nat): seq<T> {
    if |xs| > n then xs[..n] else xs
  }

  ghost predicate DistinctBy<T, K>(xs: seq<T>, key: T -> K) {
    forall i, j | 0 <= i < j < |xs| :: key(xs[i]) != key(xs[j])
  }

  lemma TwiceInMultiset<T>(xs: seq<T>, i: nat, j: nat)
    requires i < j < |xs| && xs[i] == xs[j]
    ensures multiset(xs)[xs[i]] >= 2
  {
    assert xs == xs[..i] + [xs[i]] + xs[i + 1..j] + [xs[j]] + xs[j + 1..];
  }

  lemma OnceInMultiset<T, K>(xs: seq<T>, key: T -> K, a: nat)
    requires a < |xs| && DistinctBy(xs, key)
    ensures multiset(xs)[xs[a]] == 1
  {
    assert xs == xs[..a] + [xs[a]] + xs[a + 1..];
    assert xs[a] !in xs[..a] && xs[a] !in xs[a + 1..];
  }

  /** A rearrangement of distinct elements has the same elements, still distinct. */
  lemma RearrangedDistinct<T, K>(xs: seq<T>, ys: seq<T>, key: T -> K)
    requires multiset(ys) == multiset(xs) && DistinctBy(xs, key)
    ensures DistinctBy(ys, key)
  {
    forall i, j | 0 <= i < j < |ys| ensures key(ys[i]) != key(ys[j]) {
      assert ys[i] in multiset(ys) && ys[j] in multiset(ys);
      var a :| 0 <= a < |xs| && xs[a] == ys[i];
      var b :| 0 <= b < |xs| && xs[b] == ys[j];
      OnceInMultiset(xs, key, a);
      if a == b {
        TwiceInMultiset(ys, i, j);
      }
    }
  }

  lemma RearrangedMembers<T>(xs: seq<T>, ys: seq<T>, x: T)
    requires multiset(ys) == multiset(xs)
    ensures x in ys <==> x in xs
  {
    assert x in multiset(ys) <==> x in multiset(xs);
  }

  lemma BestHeadsAgree<T>(xs: seq<T>, ys: seq<T>, key: T -> real)
    requires multiset(xs) == multiset(ys) && Descending(xs, key) && Descending(ys, key) && DistinctBy(xs, key)
    requires |xs| > 0
    ensures |ys| > 0 && ys[0] == xs[0]
  {
    assert xs[0] in multiset(ys);
    assert ys[0] in multiset(xs);
    var i :| 0 <= i < |ys| && ys[i] == xs[0];
    var j :| 0 <= j < |xs| && xs[j] == ys[0];
    assert i > 0 ==> key(ys[0]) >= key(ys[i]);
    assert key(xs[0]) >= key(xs[j]);
    assert xs[j] != xs[0] ==> j > 0;
  }

  lemma TailElements<T>(xs: seq<T>)
    requires |xs| > 0
    ensures multiset(xs[1..]) == multiset(xs) - multiset{xs[0]}
  {
    assert xs == [xs[0]] + xs[1..];
  }

  /** When no two elements share a key, descending order alone leaves no freedom. */
  lemma {:induction false} DescendingIsUnique<T>(xs: seq<T>, ys: seq<T>, key: T -> real)
    requires multiset(xs) == multiset(ys) && Descending(xs, key) && Descending(ys, key) && DistinctBy(xs, key)
    ensures xs == ys
    decreases |xs|
  {
    if |xs| > 0 {
      BestHeadsAgree(xs, ys, key);
      TailElements(xs);
      TailElements(ys);
      DescendingIsUnique(xs[1..], ys[1..], key);
      assert xs == [xs[0]] + xs[1..] && ys == [ys[0]] + ys[1..];
    } else {
      assert |multiset(ys)| == 0;
    }
  }
}
