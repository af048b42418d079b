/**
 * Group assembly: groups are sorted inside by phase, groups and standalone
 * hits are each sorted by score, and the two lists are merged. A list that is
 * used up stands in the merge with the score -1.0, so a standalone hit that
 * scores no higher makes the merge index the exhausted list of groups.
 */
module RecallAssemble {
  import opened Prelude
  import opened Hits
  import opened Groups
  import opened Ranking

  datatype Group = Group(gid: string, hits: seq<Hit>, best: real)

  function GroupKey(g: Group): real { g.best }

  function GroupId(g: Group): string { g.gid }

  datatype Block = Cluster(group: Group) | Lone(hit: Hit)

  function BlockKey(b: Block): real {
    match b
    case Cluster(g) => g.best
    case Lone(h) => h.score
  }

  function BlockHits(b: Block): seq<Hit> {
    match b
    case Cluster(g) => g.hits
    case Lone(h) => [h]
  }

  function Flatten(blocks: seq<Block>): seq<Hit> {
    if |blocks| == 0 then [] else BlockHits(blocks[0]) + Flatten(blocks[1..])
  }

  const EXHAUSTED := -1.0

  // ------------------------------------------------------------------- the grouping loop

  /** A group as the loop leaves it: members in input order, the key at least zero. */
  function Gathered(results: seq<Hit>, gid: string): Group {
    Group(gid, OfGroup(results, gid), BestScore(OfGroup(results, gid)))
  }

  ghost predicate IsGathering(groups: map<string, Group>, results: seq<Hit>) {
    groups.Keys == Gids(results) && forall gid | gid in groups :: groups[gid] == Gathered(results, gid)
  }

  function Joined(groups: map<string, Group>, gid: string, h: Hit): Group {
    var g := if gid in groups then groups[gid] else Group(gid, [], 0.0);
    Group(gid, g.hits + [h], if h.score > g.best then h.score else g.best)
  }

  lemma GatheringStep(groups: map<string, Group>, h: Hit, before: seq<Hit>)
    requires IsGathering(groups, before)
    ensures IsGathering(
      if h.groupId.None? then groups else groups[h.groupId.value := Joined(groups, h.groupId.value, h)],
      before + [h])
  {
    var after := before + [h];
    var groups' := if h.groupId.None? then groups else groups[h.groupId.value := Joined(groups, h.groupId.value, h)];
    GroupsAppend(before, h, "");
    assert groups'.Keys == Gids(after);
    forall gid | gid in groups' ensures groups'[gid] == Gathered(after, gid) {
      GroupsAppend(before, h, gid);
      if InGroup(h, gid) {
        GroupMembers(before, gid);
        BestAppend(OfGroup(before, gid), h);
      } else {
        assert gid in groups && groups'[gid] == groups[gid];
        assert OfGroup(after, gid) == OfGroup(before, gid);
      }
    }
  }

  method GatherGroups(results: seq<Hit>) returns (groups: map<string, Group>, standalone: seq<Hit>)
    ensures IsGathering(groups, results) && standalone == Standalone(results)
  {
    groups, standalone := map[], [];
    for i := 0 to |results|
      invariant IsGathering(groups, results[..i]) && standalone == Standalone(results[..i])
    {
      var h := results[i];
      assert results[..i + 1] == results[..i] + [h];
      GatheringStep(groups, h, results[..i]);
      GroupsAppend(results[..i], h, "");
      if h.groupId.Some? {
        groups := groups[h.groupId.value := Joined(groups, h.groupId.value, h)];
      } else {
        standalone := standalone + [h];
      }
    }
    assert results[..|results|] == results;
  }

  // --------------------------------------------------------------------- sorting groups

  /** A group with its members in phase order. */
  function Ordered(results: seq<Hit>, gid: string): Group {
    Group(gid, StableSort(OfGroup(results, gid), PhaseKey), BestScore(OfGroup(results, gid)))
  }

  /** Phase numbers never fall inside a group; a member without one counts as phase zero. */
  lemma PhasesAscend(results: seq<Hit>, gid: string, i: nat, j: nat)
    requires i < j < |Ordered(results, gid).hits|
    ensures var a, b := Ordered(results, gid).hits[i].phaseSeq, Ordered(results, gid).hits[j].phaseSeq;
      (if a.Some? then a.value else 0) <= (if b.Some? then b.value else 0)
  {
    StableSortSorts(OfGroup(results, gid), PhaseKey);
    assert PhaseKey(Ordered(results, gid).hits[i]) >= PhaseKey(Ordered(results, gid).hits[j]);
  }

  /** Every group among these IDs exactly once, in phase order inside. */
  ghost predicate AreOrdered(results: seq<Hit>, gs: seq<Group>, among: set<string>) {
    && DistinctBy(gs, GroupId)
    && (forall g | g in gs :: g.gid in among && g == Ordered(results, g.gid))
    && (forall gid | gid in among :: Ordered(results, gid) in gs)
  }

  lemma OneMoreOrdered(results: seq<Hit>, gs: seq<Group>, among: set<string>, gid: string)
    requires AreOrdered(results, gs, among) && gid !in among
    ensures AreOrdered(results, gs + [Ordered(results, gid)], among + {gid})
  {
    var g := Ordered(results, gid);
    assert forall k | 0 <= k < |gs| :: gs[k] in gs;
    assert forall x | x in gs :: x in gs + [g];
    assert g in gs + [g];
  }

  /** The map is walked in an arbitrary order, so groups of equal score come in any order. */
  method SortGroups(results: seq<Hit>, groups: map<string, Group>) returns (sorted: seq<Group>)
    requires IsGathering(groups, results)
    ensures AreOrdered(results, sorted, Gids(results)) && Descending(sorted, GroupKey)
  {
    var gathered: seq<Group> := [];
    var remaining := groups.Keys;
    while remaining != {}
      invariant remaining <= groups.Keys
      invariant AreOrdered(results, gathered, groups.Keys - remaining)
      decreases remaining
    {
      var gid :| gid in remaining;
      OneMoreOrdered(results, gathered, groups.Keys - remaining, gid);
      assert groups.Keys - (remaining - {gid}) == groups.Keys - remaining + {gid};
      remaining := remaining - {gid};
      var g := groups[gid];
      gathered := gathered + [Group(gid, StableSort(g.hits, PhaseKey), g.best)];
    }
    assert groups.Keys - {} == Gids(results);
    sorted := StableSort(gathered, GroupKey);
    StableSortSorts(gathered, GroupKey);
    RearrangedDistinct(gathered, sorted, GroupId);
    forall g: Group ensures g in sorted <==> g in gathered {
      RearrangedMembers(gathered, sorted, g);
    }
  }

  // --------------------------------------------------------------------------- the merge

  /** The merge with no sentinel: a group goes first when its key is at least the hit's. */
  function Merged(gs: seq<Group>, hs: seq<Hit>): seq<Block>
    decreases |gs| + |hs|
  {
    if |gs| == 0 && |hs| == 0 then []
    else if |gs| > 0 && (|hs| == 0 || gs[0].best >= hs[0].score) then [Cluster(gs[0])] + Merged(gs[1..], hs)
    else [Lone(hs[0])] + Merged(gs, hs[1..])
  }

  predicate TooLow(h: Hit) {
    h.score <= EXHAUSTED
  }

  lemma GroupGoesFirst(gs: seq<Group>, hs: seq<Hit>, gi: nat, si: nat)
    requires gi < |gs| && si <= |hs| && (si < |hs| ==> gs[gi].best >= hs[si].score)
    ensures Flatten(Merged(gs[gi..], hs[si..])) == gs[gi].hits + Flatten(Merged(gs[gi + 1..], hs[si..]))
  {
    var rest := Merged(gs[gi..], hs[si..]);
    assert gs[gi..][1..] == gs[gi + 1..];
    assert rest[0] == Cluster(gs[gi]) && rest[1..] == Merged(gs[gi + 1..], hs[si..]);
  }

  lemma HitGoesFirst(gs: seq<Group>, hs: seq<Hit>, gi: nat, si: nat)
    requires gi <= |gs| && si < |hs| && (gi < |gs| ==> gs[gi].best < hs[si].score)
    ensures Flatten(Merged(gs[gi..], hs[si..])) == [hs[si]] + Flatten(Merged(gs[gi..], hs[si + 1..]))
  {
    var rest := Merged(gs[gi..], hs[si..]);
    assert hs[si..][1..] == hs[si + 1..];
    assert rest[0] == Lone(hs[si]) && rest[1..] == Merged(gs[gi..], hs[si + 1..]);
  }

  /** The hits the merge still has to deliver from these positions on. */
  function Rest(gs: seq<Group>, hs: seq<Hit>, gi: nat, si: nat): seq<Hit>
    requires gi <= |gs| && si <= |hs|
    decreases |gs| - gi + |hs| - si
  {
    if gi < |gs| && (si == |hs| || gs[gi].best >= hs[si].score) then gs[gi].hits + Rest(gs, hs, gi + 1, si)
    else if si < |hs| then [hs[si]] + Rest(gs, hs, gi, si + 1)
    else []
  }

  lemma {:induction false} RestIsMerged(gs: seq<Group>, hs: seq<Hit>, gi: nat, si: nat)
    requires gi <= |gs| && si <= |hs|
    ensures Rest(gs, hs, gi, si) == Flatten(Merged(gs[gi..], hs[si..]))
    decreases |gs| - gi + |hs| - si
  {
    if gi < |gs| && (si == |hs| || gs[gi].best >= hs[si].score) {
      RestIsMerged(gs, hs, gi + 1, si);
      GroupGoesFirst(gs, hs, gi, si);
    } else if si < |hs| {
      RestIsMerged(gs, hs, gi, si + 1);
      HitGoesFirst(gs, hs, gi, si);
    } else {
      assert gs[gi..] == [] && hs[si..] == [];
    }
  }

  /** None is the out-of-range panic. */
  method Merge(gs: seq<Group>, hs: seq<Hit>) returns (r: Option<seq<Hit>>)
    requires forall g | g in gs :: g.best >= 0.0
    ensures r == None <==> exists h :: h in hs && h.score <= -1.0
    ensures r.Some? ==> r.value == Flatten(Merged(gs, hs))
  {
    ghost var whole := Rest(gs, hs, 0, 0);
    var assembled: seq<Hit> := [];
    var gi, si := 0, 0;
    while gi < |gs| || si < |hs|
      invariant gi <= |gs| && si <= |hs|
      invariant assembled + Rest(gs, hs, gi, si) == whole
      invariant forall k | 0 <= k < si :: !TooLow(hs[k])
      decreases |gs| - gi + |hs| - si
    {
      var groupScore, standScore := EXHAUSTED, EXHAUSTED;
      if gi < |gs| {
        groupScore := gs[gi].best;
        assert gs[gi] in gs;
      }
      if si < |hs| {
        standScore := hs[si].score;
      }
      if groupScore >= standScore {
        if gi == |gs| {
          assert TooLow(hs[si]);
          return None;
        }
        Associate(assembled, gs[gi].hits, Rest(gs, hs, gi + 1, si));
        assembled := assembled + gs[gi].hits;
        gi := gi + 1;
      } else {
        Associate(assembled, [hs[si]], Rest(gs, hs, gi, si + 1));
        assembled := assembled + [hs[si]];
        si := si + 1;
      }
    }
    RestIsMerged(gs, hs, 0, 0);
    assert gs[0..] == gs && hs[0..] == hs;
    r := Some(assembled);
  }

  // ------------------------------------------------------------------ what a result is

  function ClustersOf(blocks: seq<Block>): seq<Group> {
    if |blocks| == 0 then []
    else (if blocks[0].Cluster? then [blocks[0].group] else []) + ClustersOf(blocks[1..])
  }

  function LonesOf(blocks: seq<Block>): seq<Hit> {
    if |blocks| == 0 then []
    else (if blocks[0].Lone? then [blocks[0].hit] else []) + LonesOf(blocks[1..])
  }

  /** On equal keys a group stands before a standalone hit. */
  ghost predicate GroupsFirst(blocks: seq<Block>) {
    forall i, j | 0 <= i < j < |blocks| && blocks[i].Lone? && blocks[j].Cluster? :: BlockKey(blocks[i]) > BlockKey(blocks[j])
  }

  /**
   * A correct assembly: every group once and contiguous, in phase order inside;
   * the standalone hits sorted by score with ties in input order; keys never
   * increase; groups first on equal keys.
   */
  ghost predicate IsAssembly(results: seq<Hit>, blocks: seq<Block>) {
    && AreOrdered(results, ClustersOf(blocks), Gids(results))
    && LonesOf(blocks) == StableSort(Standalone(results), ScoreOf)
    && Descending(blocks, BlockKey)
    && GroupsFirst(blocks)
  }

  lemma {:induction false} MergedParts(gs: seq<Group>, hs: seq<Hit>)
    ensures ClustersOf(Merged(gs, hs)) == gs && LonesOf(Merged(gs, hs)) == hs
    decreases |gs| + |hs|
  {
    var blocks := Merged(gs, hs);
    if |blocks| > 0 {
      if blocks[0].Cluster? {
        MergedParts(gs[1..], hs);
        assert blocks[1..] == Merged(gs[1..], hs);
      } else {
        MergedParts(gs, hs[1..]);
        assert blocks[1..] == Merged(gs, hs[1..]);
      }
    }
  }

  lemma {:induction false} MergedBlocks(gs: seq<Group>, hs: seq<Hit>)
    ensures forall b | b in Merged(gs, hs) :: if b.Cluster? then b.group in gs else b.hit in hs
    decreases |gs| + |hs|
  {
    var blocks := Merged(gs, hs);
    if |blocks| > 0 {
      if blocks[0].Cluster? {
        MergedBlocks(gs[1..], hs);
        assert blocks == [blocks[0]] + Merged(gs[1..], hs);
      } else {
        MergedBlocks(gs, hs[1..]);
        assert blocks == [blocks[0]] + Merged(gs, hs[1..]);
      }
    }
  }

  lemma HeadThenTail(head: Block, tail: seq<Block>)
    requires Descending(tail, BlockKey) && GroupsFirst(tail)
    requires forall b | b in tail :: BlockKey(head) >= BlockKey(b) && (head.Lone? && b.Cluster? ==> BlockKey(head) > BlockKey(b))
    ensures Descending([head] + tail, BlockKey) && GroupsFirst([head] + tail)
  {
    var blocks := [head] + tail;
    forall i, j | 0 <= i < j < |blocks|
      ensures BlockKey(blocks[i]) >= BlockKey(blocks[j])
      ensures blocks[i].Lone? && blocks[j].Cluster? ==> BlockKey(blocks[i]) > BlockKey(blocks[j])
    {
      assert blocks[j] == tail[j - 1] && blocks[j] in tail;
      if i > 0 {
        assert blocks[i] == tail[i - 1];
      }
    }
  }

  lemma {:induction false} MergedDescends(gs: seq<Group>, hs: seq<Hit>)
    requires Descending(gs, GroupKey) && Descending(hs, ScoreOf)
    ensures Descending(Merged(gs, hs), BlockKey) && GroupsFirst(Merged(gs, hs))
    decreases |gs| + |hs|
  {
    var blocks := Merged(gs, hs);
    if |blocks| > 0 {
      var gs', hs' := if blocks[0].Cluster? then gs[1..] else gs, if blocks[0].Cluster? then hs else hs[1..];
      MergedDescends(gs', hs');
      MergedBlocks(gs', hs');
      var tail := Merged(gs', hs');
      assert blocks == [blocks[0]] + tail;
      forall b | b in tail
        ensures BlockKey(blocks[0]) >= BlockKey(b) && (blocks[0].Lone? && b.Cluster? ==> BlockKey(blocks[0]) > BlockKey(b))
      {
        HeadIsBest(gs, hs, b);
      }
      HeadThenTail(blocks[0], tail);
    }
  }

  lemma HeadIsBest(gs: seq<Group>, hs: seq<Hit>, b: Block)
    requires Descending(gs, GroupKey) && Descending(hs, ScoreOf)
    requires if b.Cluster? then b.group in gs else b.hit in hs
    ensures BlockKey(Merged(gs, hs)[0]) >= BlockKey(b)
    ensures Merged(gs, hs)[0].Lone? && b.Cluster? ==> BlockKey(Merged(gs, hs)[0]) > BlockKey(b)
  {
    if b.Cluster? {
      var k :| 0 <= k < |gs| && gs[k] == b.group;
      assert k > 0 ==> GroupKey(gs[0]) >= GroupKey(gs[k]);
    } else {
      var k :| 0 <= k < |hs| && hs[k] == b.hit;
      assert k > 0 ==> ScoreOf(hs[0]) >= ScoreOf(hs[k]);
    }
  }

  /**
   * For every order the map is walked in: the merge runs out of range exactly
   * when some standalone hit scores -1.0 or less, and otherwise the result is
   * the flattening of a correct assembly.
   */
  method AssembleGroups(results: seq<Hit>) returns (r: Option<seq<Hit>>, ghost blocks: seq<Block>)
    ensures r == None <==> exists h :: h in results && h.groupId.None? && h.score <= -1.0
    ensures r.Some? ==> IsAssembly(results, blocks) && r.value == Flatten(blocks)
  {
    var groups, standalone := GatherGroups(results);
    var sorted := SortGroups(results, groups);
    var ranked := StableSort(standalone, ScoreOf);
    StableSortSorts(standalone, ScoreOf);
    MergedParts(sorted, ranked);
    MergedDescends(sorted, ranked);
    StandaloneMembers(results);
    forall h: Hit ensures h in ranked <==> h in results && h.groupId.None? {
      RearrangedMembers(standalone, ranked, h);
    }
    r := Merge(sorted, ranked);
    blocks := Merged(sorted, ranked);
  }
}
