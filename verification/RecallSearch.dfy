/** The expansion searches of recall: pooling, deduplication by record ID and the sort by raw score. */
module RecallSearch {
  import opened Prelude
  import opened Hits
  import Positions
  import opened Ranking

  /** What one search comes to. A failure covers every error but a top_k rejection. */
  datatype Answer = Found(hits: seq<Hit>) | TopKRejected | Failed

  /** The answers searchWithExpansions looks at, in order. fallback is None without an embedder. */
  function Consulted(original: string, exps: seq<string>, answers: seq<Answer>, fallback: Option<Answer>): seq<Answer> {
    Take(answers, |exps|) + (if original !in exps && fallback.Some? then [fallback.value] else [])
  }

  /** All hits of all answers, in order. */
  function Pool(answers: seq<Answer>): seq<Hit> {
    if |answers| == 0 then []
    else
      var last := answers[|answers| - 1];
      Pool(answers[..|answers| - 1]) + (if last.Found? then last.hits else [])
  }

  /** Each record once, where it first appears. */
  function FirstOccurrences(hits: seq<Hit>): seq<Hit> {
    if |hits| == 0 then []
    else
      var before, h := hits[..|hits| - 1], hits[|hits| - 1];
      FirstOccurrences(before) + (if h.recordId in Ids(before) then [] else [h])
  }

  predicate IsFirst(hits: seq<Hit>, i: nat)
    requires i < |hits|
  {
    forall j | 0 <= j < i :: hits[j].recordId != hits[i].recordId
  }

  /** The hit at i, when no earlier one has its record ID. */
  function FirstAt(hits: seq<Hit>): nat -> Option<Hit> {
    (i: nat) => if i < |hits| && IsFirst(hits, i) then Some(hits[i]) else None
  }

  lemma LastIsFirst(hits: seq<Hit>)
    requires |hits| > 0
    ensures IsFirst(hits, |hits| - 1) <==> hits[|hits| - 1].recordId !in Ids(hits[..|hits| - 1])
  {
    var n := |hits| - 1;
    var before := hits[..n];
    forall j | 0 <= j < n ensures hits[j].recordId in Ids(before) {
      assert before[j] in before;
    }
    if hits[n].recordId in Ids(before) {
      var h :| h in before && h.recordId == hits[n].recordId;
      var j :| 0 <= j < n && before[j] == h;
      assert hits[j].recordId == hits[n].recordId;
    }
  }

  lemma FirstAtIsLocal(hits: seq<Hit>, n: nat)
    requires n <= |hits|
    ensures forall i: nat | i < n :: FirstAt(hits[..n])(i) == FirstAt(hits)(i)
  {
    forall i: nat | i < n ensures FirstAt(hits[..n])(i) == FirstAt(hits)(i) {
      assert forall j | 0 <= j <= i :: hits[..n][j] == hits[j];
    }
  }

  lemma LastOccurrence(hits: seq<Hit>)
    requires |hits| > 0
    ensures var n := |hits| - 1;
      FirstOccurrences(hits) == FirstOccurrences(hits[..n]) + (if FirstAt(hits)(n).Some? then [FirstAt(hits)(n).value] else [])
  {
    LastIsFirst(hits);
  }

  /** What is kept are exactly the first occurrences, in their order. */
  lemma {:induction false} KeptPositions(hits: seq<Hit>) returns (at: seq<nat>)
    ensures Positions.Picks(at, FirstOccurrences(hits), |hits|, FirstAt(hits))
  {
    if |hits| == 0 {
      at := [];
    } else {
      var n := |hits| - 1;
      var before, item := FirstOccurrences(hits[..n]), FirstAt(hits);
      at := KeptPositions(hits[..n]);
      FirstAtIsLocal(hits, n);
      Positions.SameItems(at, before, n, FirstAt(hits[..n]), item);
      Positions.OneMore(at, before, n, item);
      LastOccurrence(hits);
      if item(n).Some? {
        at := at + [n];
      } else {
        assert before + [] == before;
      }
    }
  }

  /** kept[k] is the hit at position at[k], which no earlier hit shares its record ID with. */
  ghost predicate AreFirsts(hits: seq<Hit>, at: seq<nat>, kept: seq<Hit>) {
    && |kept| == |at|
    && (forall k | 0 <= k < |at| :: at[k] < |hits| && IsFirst(hits, at[k]) && kept[k] == hits[at[k]])
    && (forall k, l | 0 <= k < l < |at| :: at[k] < at[l])
  }

  lemma FirstsAreDistinct(hits: seq<Hit>, at: seq<nat>, kept: seq<Hit>)
    requires AreFirsts(hits, at, kept)
    ensures DistinctIds(kept) && Ids(kept) <= Ids(hits)
  {
    forall k, l | 0 <= k < l < |kept| ensures IdOf(kept[k]) != IdOf(kept[l]) {
      assert at[k] < at[l] && IsFirst(hits, at[l]);
    }
    forall k | 0 <= k < |kept| ensures kept[k].recordId in Ids(hits) {
      assert hits[at[k]] in hits;
    }
  }

  lemma IdIsKept(hits: seq<Hit>, i: nat)
    requires i < |hits|
    ensures hits[i].recordId in Ids(FirstOccurrences(hits))
  {
    var at := KeptPositions(hits);
    var j := Earliest(hits, i);
    assert FirstAt(hits)(j) == Some(hits[j]) && j in at;
    var k :| 0 <= k < |at| && at[k] == j;
    assert FirstAt(hits)(at[k]) == Some(FirstOccurrences(hits)[k]);
    assert FirstOccurrences(hits)[k] in FirstOccurrences(hits);
  }

  lemma FirstOccurrencesAreDistinct(hits: seq<Hit>)
    ensures DistinctIds(FirstOccurrences(hits))
    ensures Ids(FirstOccurrences(hits)) == Ids(hits)
  {
    var at := KeptPositions(hits);
    var kept := FirstOccurrences(hits);
    assert AreFirsts(hits, at, kept) by {
      assert forall k | 0 <= k < |kept| :: FirstAt(hits)(at[k]) == Some(kept[k]);
    }
    FirstsAreDistinct(hits, at, kept);
    forall h | h in hits ensures h.recordId in Ids(kept) {
      var i :| 0 <= i < |hits| && hits[i] == h;
      IdIsKept(hits, i);
    }
  }

  lemma {:induction false} Earliest(hits: seq<Hit>, i: nat) returns (j: nat)
    requires i < |hits|
    ensures j <= i && hits[j].recordId == hits[i].recordId && IsFirst(hits, j)
    decreases i
  {
    if IsFirst(hits, i) {
      j := i;
    } else {
      var k :| 0 <= k < i && hits[k].recordId == hits[i].recordId;
      j := Earliest(hits, k);
    }
  }

  lemma OneMoreHit(pool: seq<Hit>, h: Hit)
    ensures Ids(pool + [h]) == Ids(pool) + {h.recordId}
    ensures FirstOccurrences(pool + [h]) == FirstOccurrences(pool) + (if h.recordId in Ids(pool) then [] else [h])
  {
    assert (pool + [h])[..|pool|] == pool;
    IdsAppend(pool, h);
  }

  /** The record IDs seen after k more hits. */
  function SeenAfter(ids: set<string>, hits: seq<Hit>, k: nat): set<string>
    requires k <= |hits|
  {
    if k == 0 then ids else SeenAfter(ids, hits, k - 1) + {hits[k - 1].recordId}
  }

  /** Those of k more hits that were not seen before. */
  function NewAmong(ids: set<string>, hits: seq<Hit>, k: nat): seq<Hit>
    requires k <= |hits|
  {
    if k == 0 then []
    else NewAmong(ids, hits, k - 1) + (if hits[k - 1].recordId in SeenAfter(ids, hits, k - 1) then [] else [hits[k - 1]])
  }

  /** all is the pool with the first k more hits. */
  lemma {:induction false} CollectedAfter(pool: seq<Hit>, hits: seq<Hit>, k: nat, all: seq<Hit>)
    requires k <= |hits| && all == pool + hits[..k]
    ensures SeenAfter(Ids(pool), hits, k) == Ids(all)
    ensures FirstOccurrences(pool) + NewAmong(Ids(pool), hits, k) == FirstOccurrences(all)
    decreases k
  {
    if k == 0 {
      assert all == pool;
    } else {
      var before, h := all[..|all| - 1], hits[k - 1];
      assert before == pool + hits[..k - 1] && all == before + [h];
      CollectedAfter(pool, hits, k - 1, before);
      OneMoreHit(before, h);
      Associate(FirstOccurrences(pool), NewAmong(Ids(pool), hits, k - 1), if h.recordId in Ids(before) then [] else [h]);
    }
  }

  /** Appends the hits of one answer that were not seen before. */
  method Collect(seen: set<string>, allHits: seq<Hit>, hits: seq<Hit>, ghost pool: seq<Hit>)
    returns (seen': set<string>, allHits': seq<Hit>)
    requires seen == Ids(pool) && allHits == FirstOccurrences(pool)
    ensures seen' == Ids(pool + hits) && allHits' == FirstOccurrences(pool + hits)
  {
    seen', allHits' := seen, allHits;
    for k := 0 to |hits|
      invariant seen' == SeenAfter(seen, hits, k) && allHits' == allHits + NewAmong(seen, hits, k)
    {
      if hits[k].recordId !in seen' {
        seen' := seen' + {hits[k].recordId};
        allHits' := allHits' + [hits[k]];
      }
    }
    assert hits[..|hits|] == hits;
    CollectedAfter(pool, hits, |hits|, pool + hits);
  }

  lemma PoolAppend(answers: seq<Answer>, a: Answer)
    ensures Pool(answers + [a]) == Pool(answers) + (if a.Found? then a.hits else [])
  {
    assert (answers + [a])[..|answers|] == answers;
  }

  /** Adds one answer that is not a rejection. */
  method Absorb(seen: set<string>, allHits: seq<Hit>, a: Answer, ghost before: seq<Answer>)
    returns (seen': set<string>, allHits': seq<Hit>)
    requires !a.TopKRejected?
    requires seen == Ids(Pool(before)) && allHits == FirstOccurrences(Pool(before))
    ensures seen' == Ids(Pool(before + [a])) && allHits' == FirstOccurrences(Pool(before + [a]))
  {
    PoolAppend(before, a);
    if a.Found? {
      seen', allHits' := Collect(seen, allHits, a.hits, Pool(before));
    } else {
      seen', allHits' := seen, allHits;
      assert Pool(before) + [] == Pool(before);
    }
  }

  /** The answers to the expansions' own vectors; rejected is the top_k error. */
  method SearchVectors(exps: seq<string>, answers: seq<Answer>) returns (seen: set<string>, allHits: seq<Hit>, rejected: bool)
    ensures rejected <==> TopKRejected in Take(answers, |exps|)
    ensures !rejected ==> seen == Ids(Pool(Take(answers, |exps|))) && allHits == FirstOccurrences(Pool(Take(answers, |exps|)))
  {
    seen, allHits := {}, [];
    var i := 0;
    while i < |answers| && i < |exps|
      invariant i <= |answers| && i <= |exps|
      invariant TopKRejected !in answers[..i]
      invariant seen == Ids(Pool(answers[..i])) && allHits == FirstOccurrences(Pool(answers[..i]))
    {
      assert answers[..i + 1] == answers[..i] + [answers[i]];
      if answers[i].TopKRejected? {
        assert Take(answers, |exps|)[i] == TopKRejected;
        return seen, allHits, true;
      }
      seen, allHits := Absorb(seen, allHits, answers[i], answers[..i]);
      i := i + 1;
    }
    assert Take(answers, |exps|) == answers[..i];
    rejected := false;
  }

  method Contains(exps: seq<string>, original: string) returns (found: bool)
    ensures found == (original in exps)
  {
    for k := 0 to |exps|
      invariant original !in exps[..k]
    {
      if exps[k] == original {
        return true;
      }
    }
    found := false;
  }

  // ------------------------------------------------------- what the pool is, answer by answer

  /** The hits of a later answer come after those of an earlier one. */
  lemma {:induction false} PoolConcat(a: seq<Answer>, b: seq<Answer>)
    ensures Pool(a + b) == Pool(a) + Pool(b)
    decreases |b|
  {
    if |b| == 0 {
      assert a + b == a;
    } else {
      var front, last := b[..|b| - 1], b[|b| - 1];
      assert a + b == (a + front) + [last] && b == front + [last];
      PoolConcat(a, front);
      PoolAppend(a + front, last);
      PoolAppend(front, last);
      Associate(Pool(a), Pool(front), if last.Found? then last.hits else []);
    }
  }

  /** One answer gives its own hits, in their order. */
  lemma PoolOfOne(a: Answer)
    ensures Pool([a]) == if a.Found? then a.hits else []
  {
    PoolAppend([], a);
    assert [] + [a] == [a];
  }

  lemma {:induction false} PoolMembers(answers: seq<Answer>, h: Hit)
    ensures h in Pool(answers) <==> exists i :: 0 <= i < |answers| && answers[i].Found? && h in answers[i].hits
  {
    if |answers| > 0 {
      var front, last := answers[..|answers| - 1], answers[|answers| - 1];
      assert answers == front + [last];
      PoolMembers(front, h);
      PoolAppend(front, last);
    }
  }

  /** One of the first n answers found h. */
  ghost predicate FoundBy(answers: seq<Answer>, n: nat, h: Hit) {
    exists i :: 0 <= i < |answers| && i < n && answers[i].Found? && h in answers[i].hits
  }

  /** The search for the original query found h. */
  predicate FoundByFallback(fallback: Option<Answer>, h: Hit) {
    fallback.Some? && fallback.value.Found? && h in fallback.value.hits
  }

  lemma ConsultedHits(original: string, exps: seq<string>, answers: seq<Answer>, fallback: Option<Answer>, h: Hit)
    ensures h in Pool(Consulted(original, exps, answers, fallback)) <==>
      FoundBy(answers, |exps|, h) || (original !in exps && FoundByFallback(fallback, h))
  {
    var own := Take(answers, |exps|);
    PoolMembers(own, h);
    assert FoundBy(answers, |exps|, h) <==> h in Pool(own) by {
      assert forall i | 0 <= i < |own| :: own[i] == answers[i];
    }
    if original !in exps && fallback.Some? {
      PoolConcat(own, [fallback.value]);
      PoolOfOne(fallback.value);
    } else {
      assert Consulted(original, exps, answers, fallback) == own;
    }
  }

  /** The answers beyond the expansions do not count, the original's only when it is no expansion. */
  lemma ConsultedRejection(original: string, exps: seq<string>, answers: seq<Answer>, fallback: Option<Answer>)
    ensures TopKRejected in Consulted(original, exps, answers, fallback) <==>
      || (exists i :: 0 <= i < |answers| && i < |exps| && answers[i] == TopKRejected)
      || (original !in exps && fallback == Some(TopKRejected))
  {
    var own := Take(answers, |exps|);
    assert TopKRejected in own <==> exists i :: 0 <= i < |answers| && i < |exps| && answers[i] == TopKRejected by {
      assert forall i | 0 <= i < |own| :: own[i] == answers[i];
    }
  }

  /** What the sorted first occurrences of the pool have in common with it. */
  lemma SortedPoolHolds(pool: seq<Hit>, sorted: seq<Hit>)
    requires sorted == StableSort(FirstOccurrences(pool), ScoreOf)
    ensures DistinctIds(sorted) && Ids(sorted) == Ids(pool) && Descending(sorted, ScoreOf)
    ensures forall h | h in sorted :: h in pool
  {
    var first := FirstOccurrences(pool);
    StableSortSorts(first, ScoreOf);
    FirstOccurrencesAreDistinct(pool);
    RearrangedDistinct(first, sorted, IdOf);
    forall h: Hit ensures h in sorted <==> h in first {
      RearrangedMembers(first, sorted, h);
    }
    var at := KeptPositions(pool);
    forall h | h in first ensures h in pool {
      var k :| 0 <= k < |first| && first[k] == h;
      assert FirstAt(pool)(at[k]) == Some(first[k]);
    }
  }

  /** Every hit of the result was found by a search that counts, and of every such hit the record is there. */
  ghost predicate HoldsAllFound(original: string, exps: seq<string>, answers: seq<Answer>, fallback: Option<Answer>,
                                result: seq<Hit>)
  {
    && (forall h | h in result :: FoundBy(answers, |exps|, h) || (original !in exps && FoundByFallback(fallback, h)))
    && (forall h | FoundBy(answers, |exps|, h) :: h.recordId in Ids(result))
    && (original !in exps ==> forall h | FoundByFallback(fallback, h) :: h.recordId in Ids(result))
  }

  lemma ResultHoldsAllFound(original: string, exps: seq<string>, answers: seq<Answer>, fallback: Option<Answer>)
    ensures var result := StableSort(FirstOccurrences(Pool(Consulted(original, exps, answers, fallback))), ScoreOf);
      DistinctIds(result) && Descending(result, ScoreOf) && HoldsAllFound(original, exps, answers, fallback, result)
  {
    var pool := Pool(Consulted(original, exps, answers, fallback));
    var result := StableSort(FirstOccurrences(pool), ScoreOf);
    SortedPoolHolds(pool, result);
    forall h ensures h in pool <==> FoundBy(answers, |exps|, h) || (original !in exps && FoundByFallback(fallback, h)) {
      ConsultedHits(original, exps, answers, fallback, h);
    }
  }

  /**
   * None is the top_k error. Otherwise exactly the first occurrences by record
   * ID over every answer that did not fail, sorted by raw score, ties in the
   * order they were first seen.
   */
  method SearchWithExpansions(original: string, exps: seq<string>, answers: seq<Answer>, fallback: Option<Answer>)
    returns (r: Option<seq<Hit>>)
    ensures var consulted := Consulted(original, exps, answers, fallback);
      if TopKRejected in consulted then r == None
      else r == Some(StableSort(FirstOccurrences(Pool(consulted)), ScoreOf))
    ensures r == None <==>
      || (exists i :: 0 <= i < |answers| && i < |exps| && answers[i] == TopKRejected)
      || (original !in exps && fallback == Some(TopKRejected))
    ensures r.Some? ==> DistinctIds(r.value) && Descending(r.value, ScoreOf)
    ensures r.Some? ==> HoldsAllFound(original, exps, answers, fallback, r.value)
  {
    ConsultedRejection(original, exps, answers, fallback);
    ResultHoldsAllFound(original, exps, answers, fallback);
    var seen, allHits, rejected := SearchVectors(exps, answers);
    if rejected {
      return None;
    }
    var originalInExps := Contains(exps, original);
    if !originalInExps && fallback.Some? {
      if fallback.value.TopKRejected? {
        return None;
      }
      seen, allHits := Absorb(seen, allHits, fallback.value, Take(answers, |exps|));
    } else {
      assert Take(answers, |exps|) + [] == Take(answers, |exps|);
    }
    r := Some(StableSort(allHits, ScoreOf));
  }
}
