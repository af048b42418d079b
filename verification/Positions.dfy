/** What a scan over positions keeps: item(i) for every position i below n where there is one, in order. */
module Positions {
  import opened Prelude

  /** at lists exactly the positions below n that have an item, in increasing order. */
  ghost predicate Lists<T>(at: seq<nat>, n: nat, item: nat -> Option<T>) {
    && (forall k | 0 <= k < |at| :: at[k] < n)
    && (forall k, l | 0 <= k < l < |at| :: at[k] < at[l])
    && (forall i: nat | i < n :: i in at <==> item(i).Some?)
  }

  /** kept are the items at those positions. */
  ghost predicate Picks<T>(at: seq<nat>, kept: seq<T>, n: nat, item: nat -> Option<T>) {
    Lists(at, n, item) && |kept| == |at| && forall k | 0 <= k < |at| :: item(at[k]) == Some(kept[k])
  }

  lemma ListsOneMore<T>(at: seq<nat>, n: nat, item: nat -> Option<T>)
    requires Lists(at, n, item)
    ensures Lists(if item(n).Some? then at + [n] else at, n + 1, item)
  {
    var longer := if item(n).Some? then at + [n] else at;
    assert n !in at;
    forall i: nat | i < n + 1 ensures i in longer <==> item(i).Some? {
      assert i in at + [n] <==> i in at || i == n;
    }
  }

  lemma OneMore<T>(at: seq<nat>, kept: seq<T>, n: nat, item: nat -> Option<T>)
    requires Picks(at, kept, n, item)
    ensures item(n).None? ==> Picks(at, kept, n + 1, item)
    ensures item(n).Some? ==> Picks(at + [n], kept + [item(n).value], n + 1, item)
  {
    ListsOneMore(at, n, item);
  }

  lemma SameItems<T>(at: seq<nat>, kept: seq<T>, n: nat, item: nat -> Option<T>, other: nat -> Option<T>)
    requires Picks(at, kept, n, item) && forall i: nat | i < n :: item(i) == other(i)
    ensures Picks(at, kept, n, other)
  {
    forall i: nat | i < n ensures i in at <==> other(i).Some? {
      assert item(i) == other(i);
    }
  }

  /** The items at the positions below n, in order. */
  function Kept<T>(n: nat, item: nat -> Option<T>): seq<T> {
    if n == 0 then []
    else Kept(n - 1, item) + (if item(n - 1).Some? then [item(n - 1).value] else [])
  }

  lemma {:induction false} KeptIsPicked<T>(n: nat, item: nat -> Option<T>) returns (at: seq<nat>)
    ensures Picks(at, Kept(n, item), n, item)
  {
    if n == 0 {
      at := [];
    } else {
      at := KeptIsPicked(n - 1, item);
      OneMore(at, Kept(n - 1, item), n - 1, item);
      if item(n - 1).Some? {
        at := at + [n - 1];
      }
    }
  }
}
