/** Hits by group: what the grouping loops of recall collect, told from the list of hits alone. */
module Groups {
  import opened Prelude
  import opened Hits
  import Positions

  predicate InGroup(h: Hit, gid: string) {
    h.groupId == Some(gid)
  }

  /** The hits of one group, in order. */
  function OfGroup(results: seq<Hit>, gid: string): seq<Hit> {
    if |results| == 0 then []
    else
      var h := results[|results| - 1];
      OfGroup(results[..|results| - 1], gid) + (if InGroup(h, gid) then [h] else [])
  }

  function Standalone(results: seq<Hit>): seq<Hit> {
    if |results| == 0 then []
    else
      var h := results[|results| - 1];
      Standalone(results[..|results| - 1]) + (if h.groupId.None? then [h] else [])
  }

  function Gids(results: seq<Hit>): set<string> {
    set h | h in results && h.groupId.Some? :: h.groupId.value
  }

  /** The key of a group: the best score of its members, but at least zero. */
  function BestScore(hits: seq<Hit>): (best: real)
    ensures best >= 0.0
    ensures forall h | h in hits :: h.score <= best
    ensures best == 0.0 || exists h :: h in hits && h.score == best
  {
    if |hits| == 0 then 0.0
    else
      var h, best := hits[|hits| - 1], BestScore(hits[..|hits| - 1]);
      assert hits == hits[..|hits| - 1] + [h];
      if h.score > best then h.score else best
  }

  lemma GroupsAppend(results: seq<Hit>, h: Hit, gid: string)
    ensures OfGroup(results + [h], gid) == OfGroup(results, gid) + (if InGroup(h, gid) then [h] else [])
    ensures Standalone(results + [h]) == Standalone(results) + (if h.groupId.None? then [h] else [])
    ensures Gids(results + [h]) == Gids(results) + (if h.groupId.Some? then {h.groupId.value} else {})
  {
    var longer := results + [h];
    assert longer[..|results|] == results;
    assert h in longer && forall g | g in results :: g in longer;
  }

  lemma {:induction false} GroupMembers(results: seq<Hit>, gid: string)
    ensures forall h :: h in OfGroup(results, gid) <==> h in results && InGroup(h, gid)
    ensures |OfGroup(results, gid)| > 0 <==> gid in Gids(results)
  {
    if |results| > 0 {
      var before, h := results[..|results| - 1], results[|results| - 1];
      assert results == before + [h];
      GroupMembers(before, gid);
      GroupsAppend(before, h, gid);
    }
  }

  /** Where the hits of one group are. */
  function PlacesOf(results: seq<Hit>, gid: string): set<int> {
    set i | 0 <= i < |results| && results[i].groupId == Some(gid)
  }

  lemma {:induction false} OfGroupCounts(results: seq<Hit>, gid: string)
    ensures |OfGroup(results, gid)| == |PlacesOf(results, gid)|
  {
    if |results| > 0 {
      var n := |results| - 1;
      var before := results[..n];
      OfGroupCounts(before, gid);
      var last := if InGroup(results[n], gid) then {n} else {};
      assert PlacesOf(results, gid) == PlacesOf(before, gid) + last;
    }
  }

  function MemberAt(results: seq<Hit>, group: Option<string>): nat -> Option<Hit> {
    (i: nat) => if i < |results| && results[i].groupId == group then Some(results[i]) else None
  }

  lemma LastMember(results: seq<Hit>, group: Option<string>, n: nat, before: seq<nat>, kept: seq<Hit>)
    requires |results| == n + 1 && Positions.Picks(before, kept, n, MemberAt(results[..n], group))
    ensures Positions.Picks(before, kept, n, MemberAt(results, group))
  {
    Positions.SameItems(before, kept, n, MemberAt(results[..n], group), MemberAt(results, group));
  }

  /** The members of a group stand in the order of the results. */
  lemma {:induction false} GroupPositions(results: seq<Hit>, gid: string) returns (at: seq<nat>)
    ensures Positions.Picks(at, OfGroup(results, gid), |results|, MemberAt(results, Some(gid)))
  {
    if |results| == 0 {
      at := [];
    } else {
      var n, item := |results| - 1, MemberAt(results, Some(gid));
      at := GroupPositions(results[..n], gid);
      LastMember(results, Some(gid), n, at, OfGroup(results[..n], gid));
      Positions.OneMore(at, OfGroup(results[..n], gid), n, item);
      at := if item(n).Some? then at + [n] else at;
    }
  }

  /** So do the hits outside all groups. */
  lemma {:induction false} StandalonePositions(results: seq<Hit>) returns (at: seq<nat>)
    ensures Positions.Picks(at, Standalone(results), |results|, MemberAt(results, None))
  {
    if |results| == 0 {
      at := [];
    } else {
      var n, item := |results| - 1, MemberAt(results, None);
      at := StandalonePositions(results[..n]);
      LastMember(results, None, n, at, Standalone(results[..n]));
      Positions.OneMore(at, Standalone(results[..n]), n, item);
      at := if item(n).Some? then at + [n] else at;
    }
  }

  /** Position i holds the first hit of the group. */
  ghost predicate IsFirstOf(results: seq<Hit>, gid: string, i: nat) {
    && i < |results| && results[i].groupId == Some(gid)
    && forall j | 0 <= j < i :: results[j].groupId != Some(gid)
  }

  lemma {:induction false} OfGroupStarts(results: seq<Hit>, gid: string, i: nat)
    requires IsFirstOf(results, gid, i)
    ensures |OfGroup(results, gid)| > 0 && OfGroup(results, gid)[0] == results[i]
  {
    var n := |results| - 1;
    var before := results[..n];
    if i == n {
      GroupMembers(before, gid);
      assert OfGroup(before, gid) == [];
    } else {
      OfGroupStarts(before, gid, i);
    }
  }

  lemma {:induction false} HasFirst(results: seq<Hit>, gid: string) returns (i: nat)
    requires gid in Gids(results)
    ensures IsFirstOf(results, gid, i)
  {
    var n := |results| - 1;
    var before := results[..n];
    assert results == before + [results[n]];
    GroupsAppend(before, results[n], gid);
    if gid in Gids(before) {
      i := HasFirst(before, gid);
    } else {
      i := n;
      forall j | 0 <= j < n ensures results[j].groupId != Some(gid) {
        assert before[j] in before;
      }
    }
  }

  lemma {:induction false} StandaloneMembers(results: seq<Hit>)
    ensures forall h :: h in Standalone(results) <==> h in results && h.groupId.None?
  {
    if |results| > 0 {
      var before, h := results[..|results| - 1], results[|results| - 1];
      assert results == before + [h];
      StandaloneMembers(before);
      GroupsAppend(before, h, "");
    }
  }

  lemma BestAppend(hits: seq<Hit>, h: Hit)
    ensures BestScore(hits + [h]) == if h.score > BestScore(hits) then h.score else BestScore(hits)
  {
    assert (hits + [h])[..|hits|] == hits;
  }
}
