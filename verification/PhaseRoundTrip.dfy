/** From capture to recall: the records of one group come back together and in capture order. */
module PhaseRoundTrip {
  import opened Prelude
  import opened Hits
  import opened Groups
  import opened Ranking
  import opened RecallAssemble
  import AssemblyTheorems
  import opened RecallSearch
  import opened RecallExpand
  import opened RecordBuilder

  /** The metadata object of a record, in the fields that grouping reads. */
  predicate Encodes(m: Metadata, r: Record) {
    && m.id == Some(r.id)
    && m.groupId == Some(r.groupId)
    && m.groupType == Some(r.groupType)
    && m.phaseSeq == Some(r.phaseSeq)
    && m.phaseTotal == Some(r.phaseTotal)
  }

  /** Each record's hit, with whatever score its search gave it. */
  function HitsOfRecords(metas: seq<Metadata>, scores: seq<real>): seq<Hit>
    requires |metas| == |scores|
  {
    seq(|metas|, i requires 0 <= i < |metas| => ToSearchHit(metas[i], scores[i]))
  }

  /**
   * Whatever the order of the hits, their scores and the other hits around
   * them, the assembly holds the whole group in one piece, in capture order.
   */
  lemma GroupComesBackInOrder(records: seq<Record>, metas: seq<Metadata>, scores: seq<real>, results: seq<Hit>, blocks: seq<Block>)
    returns (pre: seq<Hit>, post: seq<Hit>)
    requires IsGroup(records) && |records| > 0 && records[0].groupId != ""
    requires |metas| == |scores| == |records| && forall i | 0 <= i < |records| :: Encodes(metas[i], records[i])
    requires multiset(OfGroup(results, records[0].groupId)) == multiset(HitsOfRecords(metas, scores))
    requires IsAssembly(results, blocks)
    ensures Flatten(blocks) == pre + HitsOfRecords(metas, scores) + post
    ensures AssemblyTheorems.NoneOf(pre, Some(records[0].groupId)) && AssemblyTheorems.NoneOf(post, Some(records[0].groupId))
    ensures forall i | 0 <= i < |records| :: HitsOfRecords(metas, scores)[i].phaseSeq == Some(i)
  {
    var gid, hits := records[0].groupId, HitsOfRecords(metas, scores);
    var members := OfGroup(results, gid);
    forall i | 0 <= i < |hits| ensures PhaseKey(hits[i]) == -(i as real) && hits[i].phaseSeq == Some(i) {
      assert Encodes(metas[i], records[i]);
    }
    StableSortSorts(members, PhaseKey);
    DescendingIsUnique(hits, StableSort(members, PhaseKey), PhaseKey);
    GroupMembers(results, gid);
    assert |members| == |multiset(members)| == |multiset(hits)| == |hits|;
    pre, post := AssemblyTheorems.GroupIsContiguous(results, blocks, gid);
  }

  /** The hits of a group are told apart by their record IDs. */
  lemma GroupIdsAreDistinct(records: seq<Record>, metas: seq<Metadata>, scores: seq<real>)
    requires IsGroup(records) && |metas| == |scores| == |records|
    requires forall i | 0 <= i < |records| :: Encodes(metas[i], records[i]) && records[i].id != ""
    ensures DistinctIds(HitsOfRecords(metas, scores))
  {
    var hits := HitsOfRecords(metas, scores);
    forall i, j | 0 <= i < j < |hits| ensures IdOf(hits[i]) != IdOf(hits[j]) {
      assert IdOf(hits[i]) == records[i].id && IdOf(hits[j]) == records[j].id;
    }
  }

  // ---------------------------------------------------------------- from the searches on

  /** h is what some search made of this metadata, whatever the score. */
  predicate HitOf(h: Hit, m: Metadata) {
    h == ToSearchHit(m, h.score)
  }

  /** Some search found record i. */
  ghost predicate Found(pool: seq<Hit>, metas: seq<Metadata>, i: nat)
    requires i < |metas|
  {
    exists h :: h in pool && HitOf(h, metas[i])
  }

  /** h bears the group's ID or the ID of one of its records. */
  ghost predicate Concerns(h: Hit, records: seq<Record>)
    requires |records| > 0
  {
    InGroup(h, records[0].groupId) || exists i :: 0 <= i < |records| && h.recordId == records[i].id
  }

  ghost predicate Owned(h: Hit, metas: seq<Metadata>) {
    exists i :: 0 <= i < |metas| && HitOf(h, metas[i])
  }

  /**
   * The answers hold every record of the group at least once, with scores that
   * may differ, and no other hit bears the group's ID or the ID of one of its records.
   */
  ghost predicate PoolHolds(pool: seq<Hit>, records: seq<Record>, metas: seq<Metadata>)
    requires |metas| == |records| > 0
  {
    && (forall i: nat | i < |metas| :: Found(pool, metas, i))
    && (forall h | h in pool && Concerns(h, records) :: Owned(h, metas))
  }

  /** The stored form of a group of records. */
  ghost predicate Stored(records: seq<Record>, metas: seq<Metadata>) {
    && IsGroup(records) && |metas| == |records| > 0 && records[0].groupId != ""
    && forall i | 0 <= i < |records| :: Encodes(metas[i], records[i]) && records[i].id != ""
  }

  lemma HitOfRecord(records: seq<Record>, metas: seq<Metadata>, h: Hit, i: nat)
    requires Stored(records, metas) && i < |metas| && HitOf(h, metas[i])
    ensures h.recordId == records[i].id && InGroup(h, records[0].groupId) && Concerns(h, records)
  {
    assert Encodes(metas[i], records[i]);
  }

  lemma SameIdSameRecord(records: seq<Record>, i: nat, j: nat)
    requires IsGroup(records) && i < |records| && j < |records| && records[i].id == records[j].id
    ensures i == j
  {
  }

  /** A hit with the ID of record i is a hit of record i. */
  lemma OwnerOf(pool: seq<Hit>, records: seq<Record>, metas: seq<Metadata>, h: Hit, i: nat)
    requires Stored(records, metas) && PoolHolds(pool, records, metas) && i < |metas|
    requires h in pool && h.recordId == records[i].id
    ensures HitOf(h, metas[i])
  {
    assert Concerns(h, records);
    assert Owned(h, metas);
    var j: nat :| j < |metas| && HitOf(h, metas[j]);
    HitOfRecord(records, metas, h, j);
    SameIdSameRecord(records, i, j);
  }

  lemma KeptWithId(pool: seq<Hit>, id: string) returns (h: Hit)
    requires id in Ids(pool)
    ensures h in FirstOccurrences(pool) && h in pool && h.recordId == id
  {
    FirstOccurrencesAreDistinct(pool);
    FirstOccurrencesAreMembers(pool);
    assert id in Ids(FirstOccurrences(pool));
    h :| h in FirstOccurrences(pool) && h.recordId == id;
  }

  /** The record's hit that deduplication keeps. */
  lemma KeptHit(pool: seq<Hit>, records: seq<Record>, metas: seq<Metadata>, i: nat) returns (h: Hit)
    requires Stored(records, metas) && PoolHolds(pool, records, metas) && i < |metas|
    ensures h in FirstOccurrences(pool) && HitOf(h, metas[i])
  {
    assert Found(pool, metas, i);
    var found :| found in pool && HitOf(found, metas[i]);
    HitOfRecord(records, metas, found, i);
    h := KeptWithId(pool, records[i].id);
    OwnerOf(pool, records, metas, h, i);
  }

  /** scores are the scores of the hits that deduplication keeps for the first records. */
  ghost predicate AreKeptScores(kept: seq<Hit>, metas: seq<Metadata>, scores: seq<real>) {
    |scores| <= |metas| && forall i | 0 <= i < |scores| :: ToSearchHit(metas[i], scores[i]) in kept
  }

  lemma OneMoreScore(kept: seq<Hit>, metas: seq<Metadata>, scores: seq<real>, h: Hit)
    requires AreKeptScores(kept, metas, scores) && |scores| < |metas| && h in kept && HitOf(h, metas[|scores|])
    ensures AreKeptScores(kept, metas, scores + [h.score])
  {
  }

  lemma {:induction false} KeptScores(pool: seq<Hit>, records: seq<Record>, metas: seq<Metadata>, n: nat) returns (scores: seq<real>)
    requires Stored(records, metas) && PoolHolds(pool, records, metas) && n <= |metas|
    ensures |scores| == n && AreKeptScores(FirstOccurrences(pool), metas, scores)
  {
    if n == 0 {
      scores := [];
    } else {
      var before := KeptScores(pool, records, metas, n - 1);
      var h := KeptHit(pool, records, metas, n - 1);
      OneMoreScore(FirstOccurrences(pool), metas, before, h);
      scores := before + [h.score];
    }
  }

  lemma {:induction false} FirstOccurrencesAreMembers(pool: seq<Hit>)
    ensures forall h | h in FirstOccurrences(pool) :: h in pool
  {
    if |pool| > 0 {
      FirstOccurrencesAreMembers(pool[..|pool| - 1]);
      assert pool == pool[..|pool| - 1] + [pool[|pool| - 1]];
    }
  }

  lemma {:induction false} OfGroupIsDistinct(hits: seq<Hit>, gid: string)
    requires DistinctIds(hits)
    ensures DistinctIds(OfGroup(hits, gid))
  {
    if |hits| > 0 {
      var before, h := hits[..|hits| - 1], hits[|hits| - 1];
      OfGroupIsDistinct(before, gid);
      GroupMembers(before, gid);
      var own := OfGroup(before, gid);
      forall k | 0 <= k < |own| ensures IdOf(own[k]) != IdOf(h) {
        assert own[k] in before;
        var j :| 0 <= j < |before| && before[j] == own[k];
        assert IdOf(hits[j]) != IdOf(hits[|hits| - 1]);
      }
    }
  }

  /** Two lists without repetition that have the same members are rearrangements of each other. */
  lemma SameMembers(xs: seq<Hit>, ys: seq<Hit>)
    requires DistinctIds(xs) && DistinctIds(ys) && forall h: Hit :: h in xs <==> h in ys
    ensures multiset(xs) == multiset(ys)
  {
    forall h: Hit ensures multiset(xs)[h] == multiset(ys)[h] {
      if h in xs {
        var i :| 0 <= i < |xs| && xs[i] == h;
        OnceInMultiset(xs, IdOf, i);
        var j :| 0 <= j < |ys| && ys[j] == h;
        OnceInMultiset(ys, IdOf, j);
      }
    }
  }

  lemma KeptIsOwn(pool: seq<Hit>, records: seq<Record>, metas: seq<Metadata>, scores: seq<real>, h: Hit)
    requires Stored(records, metas) && PoolHolds(pool, records, metas)
    requires |scores| == |metas| && AreKeptScores(FirstOccurrences(pool), metas, scores)
    requires h in FirstOccurrences(pool) && InGroup(h, records[0].groupId)
    ensures h in HitsOfRecords(metas, scores)
  {
    FirstOccurrencesAreMembers(pool);
    FirstOccurrencesAreDistinct(pool);
    assert Concerns(h, records) && Owned(h, metas);
    var i: nat :| i < |metas| && HitOf(h, metas[i]);
    var own := HitsOfRecords(metas, scores)[i];
    HitOfRecord(records, metas, h, i);
    HitOfRecord(records, metas, own, i);
    SameIdSameHit(FirstOccurrences(pool), h, own);
  }

  lemma OwnIsKept(records: seq<Record>, metas: seq<Metadata>, scores: seq<real>, kept: seq<Hit>, h: Hit)
    requires Stored(records, metas) && |scores| == |metas| && AreKeptScores(kept, metas, scores)
    requires h in HitsOfRecords(metas, scores)
    ensures h in kept && InGroup(h, records[0].groupId)
  {
    var i: nat :| i < |metas| && HitsOfRecords(metas, scores)[i] == h;
    HitOfRecord(records, metas, h, i);
  }

  lemma SameIdSameHit(hits: seq<Hit>, g: Hit, h: Hit)
    requires DistinctIds(hits) && g in hits && h in hits && g.recordId == h.recordId
    ensures g == h
  {
    var i :| 0 <= i < |hits| && hits[i] == g;
    var j :| 0 <= j < |hits| && hits[j] == h;
    assert i < j ==> IdOf(hits[i]) != IdOf(hits[j]);
    assert j < i ==> IdOf(hits[j]) != IdOf(hits[i]);
  }

  /** Deduplication keeps exactly one hit of each record of the group. */
  lemma GroupSurvivesDeduplication(pool: seq<Hit>, records: seq<Record>, metas: seq<Metadata>) returns (scores: seq<real>)
    requires Stored(records, metas) && PoolHolds(pool, records, metas)
    ensures |scores| == |metas|
    ensures multiset(OfGroup(FirstOccurrences(pool), records[0].groupId)) == multiset(HitsOfRecords(metas, scores))
  {
    scores := KeptScores(pool, records, metas, |metas|);
    var kept, gid, hits := FirstOccurrences(pool), records[0].groupId, HitsOfRecords(metas, scores);
    FirstOccurrencesAreDistinct(pool);
    OfGroupIsDistinct(kept, gid);
    GroupIdsAreDistinct(records, metas, scores);
    GroupMembers(kept, gid);
    forall h: Hit ensures h in OfGroup(kept, gid) <==> h in hits {
      if h in OfGroup(kept, gid) {
        KeptIsOwn(pool, records, metas, scores, h);
      }
      if h in hits {
        OwnIsKept(records, metas, scores, kept, h);
      }
    }
    SameMembers(OfGroup(kept, gid), hits);
  }

  lemma OfGroupRearranged(xs: seq<Hit>, ys: seq<Hit>, gid: string)
    requires multiset(xs) == multiset(ys)
    ensures multiset(OfGroup(xs, gid)) == multiset(OfGroup(ys, gid))
  {
    GroupMembers(xs, gid);
    GroupMembers(ys, gid);
    forall h: Hit ensures multiset(OfGroup(xs, gid))[h] == multiset(OfGroup(ys, gid))[h] {
      if InGroup(h, gid) {
        AssemblyTheorems.CountByGroup(xs, h);
        AssemblyTheorems.CountByGroup(ys, h);
      } else {
        assert h !in OfGroup(xs, gid) && h !in OfGroup(ys, gid);
      }
    }
  }

  /** A group that is all there is not searched again. */
  lemma WholeIsComplete(results: seq<Hit>, records: seq<Record>, metas: seq<Metadata>, scores: seq<real>)
    requires Stored(records, metas) && |scores| == |metas|
    requires multiset(OfGroup(results, records[0].groupId)) == multiset(HitsOfRecords(metas, scores))
    ensures !Incomplete(results, records[0].groupId)
  {
    var own, hits := OfGroup(results, records[0].groupId), HitsOfRecords(metas, scores);
    assert |own| == |multiset(own)| == |multiset(hits)| == |hits|;
    assert own[0] in multiset(own);
    assert own[0] in hits;
    var i: nat :| i < |hits| && hits[i] == own[0];
    assert Encodes(metas[i], records[i]);
  }

  /** What a search for another group adds is not of this one. */
  lemma {:induction false} OthersAddNone(results: seq<Hit>, other: string, hits: seq<Hit>, gid: string)
    requires other != gid
    ensures OfGroup(AddMembers(results, other, hits), gid) == OfGroup(results, gid)
  {
    if |hits| > 0 {
      var n := |hits| - 1;
      OthersAddNone(results, other, hits[..n], gid);
      GroupsAppend(AddMembers(results, other, hits[..n]), hits[n], gid);
    }
  }

  lemma {:induction false} ExpansionAddsNone(results: seq<Hit>, chosen: seq<GroupInfo>, search: (string, int) -> Answer, gid: string)
    requires forall c | c in chosen :: c.gid != gid
    ensures OfGroup(AddAll(results, chosen, search), gid) == OfGroup(results, gid)
  {
    if |chosen| > 0 {
      var n := |chosen| - 1;
      var g, before := chosen[n], AddAll(results, chosen[..n], search);
      ExpansionAddsNone(results, chosen[..n], search, gid);
      if search(g.gid, g.total).Found? {
        OthersAddNone(before, g.gid, search(g.gid, g.total).hits, gid);
      }
    }
  }

  /**
   * From the searches through the group expansion to the assembly: a group
   * that the searches found stands in the assembled results once, whole, in one
   * piece and in capture order.
   */
  lemma CaptureComesBack(pool: seq<Hit>, records: seq<Record>, metas: seq<Metadata>,
                         chosen: seq<GroupInfo>, search: (string, int) -> Answer, blocks: seq<Block>)
    returns (scores: seq<real>, pre: seq<Hit>, post: seq<Hit>)
    requires Stored(records, metas) && PoolHolds(pool, records, metas)
    requires chosen == [] || IsChoice(StableSort(FirstOccurrences(pool), ScoreOf), chosen)
    requires IsAssembly(AddAll(StableSort(FirstOccurrences(pool), ScoreOf), chosen, search), blocks)
    ensures |scores| == |metas| && Flatten(blocks) == pre + HitsOfRecords(metas, scores) + post
    ensures AssemblyTheorems.NoneOf(pre, Some(records[0].groupId)) && AssemblyTheorems.NoneOf(post, Some(records[0].groupId))
  {
    var kept, gid := FirstOccurrences(pool), records[0].groupId;
    var found := StableSort(kept, ScoreOf);
    scores := GroupSurvivesDeduplication(pool, records, metas);
    StableSortSorts(kept, ScoreOf);
    OfGroupRearranged(found, kept, gid);
    WholeIsComplete(found, records, metas, scores);
    ExpansionAddsNone(found, chosen, search, gid);
    pre, post := GroupComesBackInOrder(records, metas, scores, AddAll(found, chosen, search), blocks);
  }

  // ----------------------------------------------------------------- two groups at once

  /** Every hit is one of a record of either group, and every record was found. */
  ghost predicate HoldsBoth(pool: seq<Hit>, metas: seq<Metadata>, metas': seq<Metadata>) {
    && (forall h | h in pool :: Owned(h, metas) || Owned(h, metas'))
    && (forall i: nat | i < |metas| :: Found(pool, metas, i))
    && (forall i: nat | i < |metas'| :: Found(pool, metas', i))
  }

  lemma OtherGroupsHit(records: seq<Record>, records': seq<Record>, metas': seq<Metadata>, h: Hit)
    requires Stored(records', metas') && |records| > 0 && Owned(h, metas')
    requires records[0].groupId != records'[0].groupId && !SharesId(records, records')
    ensures !Concerns(h, records)
  {
    var j: nat :| j < |metas'| && HitOf(h, metas'[j]);
    HitOfRecord(records', metas', h, j);
  }

  lemma ConcernsOwnOnly(pool: seq<Hit>, records: seq<Record>, metas: seq<Metadata>, records': seq<Record>, metas': seq<Metadata>)
    requires Stored(records, metas) && Stored(records', metas') && HoldsBoth(pool, metas, metas')
    requires records[0].groupId != records'[0].groupId && !SharesId(records, records')
    ensures PoolHolds(pool, records, metas)
  {
    forall h | h in pool && Owned(h, metas') ensures !Concerns(h, records) {
      OtherGroupsHit(records, records', metas', h);
    }
  }

  /** Two groups of different group IDs both survive deduplication as above if and only if no record ID is in both. */
  lemma BothHeldIff(pool: seq<Hit>, records: seq<Record>, metas: seq<Metadata>, records': seq<Record>, metas': seq<Metadata>)
    requires Stored(records, metas) && Stored(records', metas') && HoldsBoth(pool, metas, metas')
    requires records[0].groupId != records'[0].groupId
    ensures PoolHolds(pool, records, metas) && PoolHolds(pool, records', metas') <==> !SharesId(records, records')
  {
    if SharesId(records, records') {
      var i: nat, j: nat :| i < |records| && j < |records'| && records[i].id == records'[j].id;
      assert Found(pool, metas', j);
      var h :| h in pool && HitOf(h, metas'[j]);
      HitOfRecord(records', metas', h, j);
      assert Concerns(h, records);
      if Owned(h, metas) {
        var k: nat :| k < |metas| && HitOf(h, metas[k]);
        HitOfRecord(records, metas, h, k);
      }
    } else {
      ConcernsOwnOnly(pool, records, metas, records', metas');
      ConcernsOwnOnly(pool, records', metas', records, metas);
    }
  }

  /** Of two different hits with one record ID, deduplication keeps at most one. */
  lemma SharedIdLosesOne(pool: seq<Hit>, g: Hit, h: Hit)
    requires g != h && g.recordId == h.recordId
    ensures g !in FirstOccurrences(pool) || h !in FirstOccurrences(pool)
  {
    FirstOccurrencesAreDistinct(pool);
    if g in FirstOccurrences(pool) && h in FirstOccurrences(pool) {
      SameIdSameHit(FirstOccurrences(pool), g, h);
    }
  }
}
