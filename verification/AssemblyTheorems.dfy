/** What a correct assembly means for the hits in it: nothing lost, and every group in one piece. */
module AssemblyTheorems {
  import opened Prelude
  import opened Hits
  import opened Groups
  import opened Ranking
  import opened RecallAssemble

  function BlockGroup(b: Block): Option<string> {
    match b
    case Cluster(g) => Some(g.gid)
    case Lone(_) => None
  }

  /** Blocks hold hits of their own group only. */
  ghost predicate AtHome(b: Block) {
    forall h | h in BlockHits(b) :: h.groupId == BlockGroup(b)
  }

  ghost predicate AllAtHome(blocks: seq<Block>) {
    forall b | b in blocks :: AtHome(b)
  }

  lemma {:induction false} PartsOf(blocks: seq<Block>)
    ensures forall b | b in blocks :: if b.Cluster? then b.group in ClustersOf(blocks) else b.hit in LonesOf(blocks)
    ensures forall g | g in ClustersOf(blocks) :: Cluster(g) in blocks
  {
    if |blocks| > 0 {
      PartsOf(blocks[1..]);
      assert blocks == [blocks[0]] + blocks[1..];
    }
  }

  lemma ClusterIsAtHome(results: seq<Hit>, gid: string)
    ensures AtHome(Cluster(Ordered(results, gid)))
  {
    var members := OfGroup(results, gid);
    StableSortSorts(members, PhaseKey);
    GroupMembers(results, gid);
    forall h | h in StableSort(members, PhaseKey) ensures InGroup(h, gid) {
      RearrangedMembers(members, StableSort(members, PhaseKey), h);
    }
  }

  lemma LoneIsAtHome(results: seq<Hit>, h: Hit)
    requires h in StableSort(Standalone(results), ScoreOf)
    ensures AtHome(Lone(h))
  {
    var alone := Standalone(results);
    StableSortSorts(alone, ScoreOf);
    RearrangedMembers(alone, StableSort(alone, ScoreOf), h);
    StandaloneMembers(results);
  }

  lemma AssemblyIsAtHome(results: seq<Hit>, blocks: seq<Block>)
    requires IsAssembly(results, blocks)
    ensures AllAtHome(blocks)
  {
    PartsOf(blocks);
    forall b | b in blocks ensures AtHome(b) {
      match b
      case Cluster(g) => ClusterIsAtHome(results, g.gid);
      case Lone(h) => LoneIsAtHome(results, h);
    }
  }

  lemma {:induction false} FlattenSplit(blocks: seq<Block>, i: nat)
    requires i <= |blocks|
    ensures Flatten(blocks) == Flatten(blocks[..i]) + Flatten(blocks[i..])
  {
    if i > 0 {
      FlattenSplit(blocks[1..], i - 1);
      assert blocks[..i][1..] == blocks[1..][..i - 1];
      assert blocks[1..][i - 1..] == blocks[i..];
    } else {
      assert blocks[0..] == blocks;
    }
  }

  lemma {:induction false} ClustersSplit(blocks: seq<Block>, i: nat)
    requires i <= |blocks|
    ensures ClustersOf(blocks) == ClustersOf(blocks[..i]) + ClustersOf(blocks[i..])
  {
    if i > 0 {
      ClustersSplit(blocks[1..], i - 1);
      assert blocks[..i][1..] == blocks[1..][..i - 1];
      assert blocks[1..][i - 1..] == blocks[i..];
    } else {
      assert blocks[0..] == blocks;
    }
  }

  ghost predicate NoneOf(hits: seq<Hit>, group: Option<string>) {
    forall h | h in hits :: h.groupId != group
  }

  lemma {:induction false} FlattenAway(blocks: seq<Block>, group: Option<string>)
    requires AllAtHome(blocks) && forall b | b in blocks :: BlockGroup(b) != group
    ensures NoneOf(Flatten(blocks), group)
  {
    if |blocks| > 0 {
      assert blocks[0] in blocks && AtHome(blocks[0]);
      FlattenAway(blocks[1..], group);
    }
  }

  lemma OtherClusters(blocks: seq<Block>, i: nat)
    requires i < |blocks| && blocks[i].Cluster? && DistinctBy(ClustersOf(blocks), GroupId)
    ensures forall b | b in blocks[..i] || b in blocks[i + 1..] :: BlockGroup(b) != BlockGroup(blocks[i])
  {
    var pre, post := ClustersOf(blocks[..i]), ClustersOf(blocks[i + 1..]);
    ClustersSplit(blocks, i);
    assert blocks[i..][1..] == blocks[i + 1..];
    var all := ClustersOf(blocks);
    assert all == pre + [blocks[i].group] + post;
    assert all[|pre|] == blocks[i].group;
    PartsOf(blocks[..i]);
    PartsOf(blocks[i + 1..]);
    forall g | g in pre || g in post ensures g.gid != blocks[i].group.gid {
      if g in pre {
        var k :| 0 <= k < |pre| && pre[k] == g;
        assert all[k] == g;
        assert GroupId(all[k]) != GroupId(all[|pre|]);
      } else {
        var k :| 0 <= k < |post| && post[k] == g;
        assert all[|pre| + 1 + k] == g;
        assert GroupId(all[|pre|]) != GroupId(all[|pre| + 1 + k]);
      }
    }
  }

  lemma ClusterSplits(blocks: seq<Block>, i: nat)
    requires i < |blocks| && blocks[i].Cluster? && AllAtHome(blocks) && DistinctBy(ClustersOf(blocks), GroupId)
    ensures Flatten(blocks) == Flatten(blocks[..i]) + blocks[i].group.hits + Flatten(blocks[i + 1..])
    ensures NoneOf(Flatten(blocks[..i]), BlockGroup(blocks[i])) && NoneOf(Flatten(blocks[i + 1..]), BlockGroup(blocks[i]))
  {
    FlattenSplit(blocks, i);
    assert blocks[i..][1..] == blocks[i + 1..];
    OtherClusters(blocks, i);
    FlattenAway(blocks[..i], BlockGroup(blocks[i]));
    FlattenAway(blocks[i + 1..], BlockGroup(blocks[i]));
  }

  lemma OwnBlock(results: seq<Hit>, blocks: seq<Block>, gid: string) returns (i: nat)
    requires AreOrdered(results, ClustersOf(blocks), Gids(results)) && gid in Gids(results)
    ensures i < |blocks| && blocks[i] == Cluster(Ordered(results, gid))
  {
    PartsOf(blocks);
    assert Cluster(Ordered(results, gid)) in blocks;
    i :| 0 <= i < |blocks| && blocks[i] == Cluster(Ordered(results, gid));
  }

  /**
   * The members of a group stand together, in phase order with ties in input
   * order, and no member stands anywhere else.
   */
  lemma GroupIsContiguous(results: seq<Hit>, blocks: seq<Block>, gid: string) returns (pre: seq<Hit>, post: seq<Hit>)
    requires IsAssembly(results, blocks) && gid in Gids(results)
    ensures Flatten(blocks) == pre + StableSort(OfGroup(results, gid), PhaseKey) + post
    ensures NoneOf(pre, Some(gid)) && NoneOf(post, Some(gid))
  {
    AssemblyIsAtHome(results, blocks);
    var i := OwnBlock(results, blocks, gid);
    ClusterSplits(blocks, i);
    pre, post := Flatten(blocks[..i]), Flatten(blocks[i + 1..]);
  }

  // ------------------------------------------------------------------ in which order

  /** The blocks that two positions fall into are in the order of the positions. */
  lemma {:induction false} BlocksOf(blocks: seq<Block>, i: nat, j: nat) returns (b: nat, c: nat)
    requires i < j < |Flatten(blocks)|
    ensures b <= c < |blocks|
    ensures Flatten(blocks)[i] in BlockHits(blocks[b]) && Flatten(blocks)[j] in BlockHits(blocks[c])
    decreases |blocks|
  {
    var head, rest := BlockHits(blocks[0]), blocks[1..];
    if i >= |head| {
      var b', c' := BlocksOf(rest, i - |head|, j - |head|);
      b, c := b' + 1, c' + 1;
    } else if j >= |head| {
      var c' := BlockOf(rest, j - |head|);
      b, c := 0, c' + 1;
    } else {
      b, c := 0, 0;
    }
  }

  lemma {:induction false} BlockOf(blocks: seq<Block>, j: nat) returns (c: nat)
    requires j < |Flatten(blocks)|
    ensures c < |blocks| && Flatten(blocks)[j] in BlockHits(blocks[c])
    decreases |blocks|
  {
    var head := BlockHits(blocks[0]);
    if j < |head| {
      c := 0;
    } else {
      var c' := BlockOf(blocks[1..], j - |head|);
      c := c' + 1;
    }
  }

  /** What a hit is placed by: its own score, or the best of its group but at least zero. */
  function PlacedBy(results: seq<Hit>, h: Hit): real {
    match h.groupId
    case None => h.score
    case Some(gid) => BestScore(OfGroup(results, gid))
  }

  lemma BlockIsPlaced(results: seq<Hit>, blocks: seq<Block>, b: nat, h: Hit)
    requires IsAssembly(results, blocks) && b < |blocks| && h in BlockHits(blocks[b])
    ensures BlockKey(blocks[b]) == PlacedBy(results, h) && (blocks[b].Cluster? <==> h.groupId.Some?)
  {
    AssemblyIsAtHome(results, blocks);
    PartsOf(blocks);
    assert blocks[b] in blocks && AtHome(blocks[b]);
  }

  /** From the front to the back of the list nothing is placed higher, and at the same place groups come first. */
  lemma PlacesFall(results: seq<Hit>, blocks: seq<Block>, i: nat, j: nat)
    requires IsAssembly(results, blocks) && i < j < |Flatten(blocks)|
    ensures var front, back := Flatten(blocks)[i], Flatten(blocks)[j];
      && PlacedBy(results, front) >= PlacedBy(results, back)
      && (front.groupId.None? && back.groupId.Some? ==> PlacedBy(results, front) > PlacedBy(results, back))
  {
    var b, c := BlocksOf(blocks, i, j);
    BlockIsPlaced(results, blocks, b, Flatten(blocks)[i]);
    BlockIsPlaced(results, blocks, c, Flatten(blocks)[j]);
    assert b < c ==> BlockKey(blocks[b]) >= BlockKey(blocks[c]);
  }

  // ------------------------------------------------------------------ nothing is lost

  lemma {:induction false} CountByGroup(results: seq<Hit>, h: Hit)
    ensures multiset(results)[h] ==
      multiset(if h.groupId.Some? then OfGroup(results, h.groupId.value) else Standalone(results))[h]
  {
    if |results| > 0 {
      var before, last := results[..|results| - 1], results[|results| - 1];
      assert results == before + [last];
      CountByGroup(before, h);
      GroupsAppend(before, last, if h.groupId.Some? then h.groupId.value else "");
    }
  }

  lemma CountConcat(xs: seq<Hit>, ys: seq<Hit>, h: Hit)
    ensures multiset(xs + ys)[h] == multiset(xs)[h] + multiset(ys)[h]
  {
  }

  function LonesIn(b: Block): seq<Hit> {
    if b.Lone? then [b.hit] else []
  }

  lemma CountHead(b: Block, h: Hit)
    requires AtHome(b) && h.groupId.None?
    ensures multiset(BlockHits(b))[h] == multiset(LonesIn(b))[h]
  {
    if b.Cluster? {
      assert h !in BlockHits(b);
    }
  }

  lemma CountStep(blocks: seq<Block>, h: Hit)
    requires |blocks| > 0
    ensures multiset(Flatten(blocks))[h] == multiset(BlockHits(blocks[0]))[h] + multiset(Flatten(blocks[1..]))[h]
    ensures multiset(LonesOf(blocks))[h] == multiset(LonesIn(blocks[0]))[h] + multiset(LonesOf(blocks[1..]))[h]
  {
    CountConcat(BlockHits(blocks[0]), Flatten(blocks[1..]), h);
    CountConcat(LonesIn(blocks[0]), LonesOf(blocks[1..]), h);
  }

  lemma {:induction false} CountLones(blocks: seq<Block>, h: Hit)
    requires AllAtHome(blocks) && h.groupId.None?
    ensures multiset(Flatten(blocks))[h] == multiset(LonesOf(blocks))[h]
  {
    if |blocks| > 0 {
      CountLones(blocks[1..], h);
      assert AtHome(blocks[0]);
      CountHead(blocks[0], h);
      CountStep(blocks, h);
    }
  }

  lemma CountMembers(results: seq<Hit>, blocks: seq<Block>, h: Hit)
    requires IsAssembly(results, blocks) && h.groupId.Some? && h.groupId.value in Gids(results)
    ensures multiset(Flatten(blocks))[h] == multiset(OfGroup(results, h.groupId.value))[h]
  {
    var members := OfGroup(results, h.groupId.value);
    var pre, post := GroupIsContiguous(results, blocks, h.groupId.value);
    StableSortSorts(members, PhaseKey);
    CountConcat(pre + StableSort(members, PhaseKey), post, h);
    CountConcat(pre, StableSort(members, PhaseKey), h);
    assert h !in pre && h !in post;
  }

  lemma CountAbsent(results: seq<Hit>, blocks: seq<Block>, h: Hit)
    requires IsAssembly(results, blocks) && h.groupId.Some? && h.groupId.value !in Gids(results)
    ensures h !in Flatten(blocks) && h !in results
  {
    AssemblyIsAtHome(results, blocks);
    PartsOf(blocks);
    FlattenAway(blocks, h.groupId);
  }

  lemma CountOne(results: seq<Hit>, blocks: seq<Block>, h: Hit)
    requires IsAssembly(results, blocks)
    ensures multiset(Flatten(blocks))[h] == multiset(results)[h]
  {
    CountByGroup(results, h);
    if h.groupId.None? {
      AssemblyIsAtHome(results, blocks);
      CountLones(blocks, h);
      StableSortSorts(Standalone(results), ScoreOf);
    } else if h.groupId.value in Gids(results) {
      CountMembers(results, blocks, h);
    } else {
      CountAbsent(results, blocks, h);
    }
  }

  /** The output is a rearrangement of the input. */
  lemma AssemblyIsPermutation(results: seq<Hit>, blocks: seq<Block>)
    requires IsAssembly(results, blocks)
    ensures multiset(Flatten(blocks)) == multiset(results)
  {
    forall h: Hit ensures multiset(Flatten(blocks))[h] == multiset(results)[h] {
      CountOne(results, blocks, h);
    }
  }
}
