/** The recall request from the expansions to the final list. */
module RecallHandle {
  import opened Prelude
  import opened Hits
  import opened Ranking
  import opened RecallSearch
  import opened RecallExpand
  import opened RecallAssemble
  import opened RecallRank
  import AssemblyTheorems

  datatype Request = Request(query: string, topK: int, filters: Filters)

  /** What the outside world answers while one request is handled. */
  datatype World = World(
    expansions: seq<string>,          // the parsed query's expansions
    scope: TimeScope,
    embedOk: bool,                    // EmbedBatch returned one vector per expansion
    answers: seq<Answer>,             // what searching with each vector comes to
    fallback: Option<Answer>,
    search: (string, int) -> Answer,  // group searches
    filterNow: int,                   // the clock when the time filter runs
    now: int,                         // the clock when the weighting runs
    decay: nat -> real)

  datatype Response = EmbedFailed | TopKLimit | Panicked | Results(hits: seq<Hit>)

  const MAX_EXPANSIONS := 3
  const DEFAULT_TOP_K := 5

  function Expansions(w: World): seq<string> {
    Take(w.expansions, MAX_EXPANSIONS)
  }

  function TopK(r: Request): nat {
    if r.topK <= 0 then DEFAULT_TOP_K else r.topK
  }

  function Answers(r: Request, w: World): seq<Answer> {
    Consulted(r.query, Expansions(w), w.answers, w.fallback)
  }

  /** The hits the expansion searches give. */
  function Searched(r: Request, w: World): seq<Hit> {
    StableSort(FirstOccurrences(Pool(Answers(r, w))), ScoreOf)
  }

  /** The survivors of both filters. */
  function Survivors(r: Request, w: World, assembled: seq<Hit>): seq<Hit> {
    Filter(Filter(assembled, MetadataFilter(r.filters)), TimeFilter(w.scope, w.filterNow))
  }

  /** expanded is what the group searches make of the searched hits. */
  ghost predicate IsExpansion(r: Request, w: World, expanded: seq<Hit>, chosen: seq<GroupInfo>) {
    if |w.answers| == 0 then expanded == Searched(r, w)
    else IsChoice(Searched(r, w), chosen) && expanded == AddAll(Searched(r, w), chosen, w.search)
  }

  /** The searches that end the request: those for the first three expansions, and the query's own when it is none of these. */
  ghost predicate TopKIsRejected(r: Request, w: World) {
    var exps := if |w.expansions| > 3 then w.expansions[..3] else w.expansions;
    || (exists i :: 0 <= i < |w.answers| && i < |exps| && w.answers[i] == TopKRejected)
    || (r.query !in exps && w.fallback == Some(TopKRejected))
  }

  /** searched holds each record some search that counts has found, once, best score first. */
  ghost predicate IsSearch(r: Request, w: World, searched: seq<Hit>) {
    var exps := if |w.expansions| > 3 then w.expansions[..3] else w.expansions;
    DistinctIds(searched) && Descending(searched, ScoreOf) && HoldsAllFound(r.query, exps, w.answers, w.fallback, searched)
  }

  lemma SearchedIsSearch(r: Request, w: World)
    ensures IsSearch(r, w, Searched(r, w))
    ensures TopKIsRejected(r, w) <==> TopKRejected in Answers(r, w)
  {
    ResultHoldsAllFound(r.query, Expansions(w), w.answers, w.fallback);
    ConsultedRejection(r.query, Expansions(w), w.answers, w.fallback);
  }

  /** Nothing is added without a vector to search with; otherwise the missing members of the groups chosen are. */
  ghost predicate AddsTheMissing(w: World, searched: seq<Hit>, expanded: seq<Hit>, chosen: seq<GroupInfo>) {
    && searched <= expanded
    && (|w.answers| == 0 ==> expanded == searched)
    && (|w.answers| > 0 ==>
          && SearchesTheMissing(searched, chosen) && AddedByChosen(searched, expanded, chosen, w.search)
          && HasAllFound(expanded, chosen, w.search))
  }

  /** Both filters, the weighting and the cut to topK. */
  method RankSurvivors(r: Request, w: World, assembled: seq<Hit>, topK: nat) returns (kept: seq<Hit>)
    ensures kept == Take(Ranked(Survivors(r, w, assembled), w.now, w.decay), topK)
  {
    var hits := ApplyMetadataFilters(assembled, r.filters);
    hits := FilterByTime(hits, w.scope, w.filterNow);
    var ranked := new Hit[|hits|](i requires 0 <= i < |hits| => hits[i]);
    assert ranked[..] == hits;
    ApplyRecencyWeighting(ranked, w.now, w.decay);
    kept := ranked[..];
    if |kept| > topK {
      kept := kept[..topK];
    }
  }

  /** The hits that go into the assembly; None is the top_k error. */
  method Gather(r: Request, w: World) returns (hits: Option<seq<Hit>>, ghost chosen: seq<GroupInfo>)
    ensures hits.None? <==> TopKRejected in Answers(r, w)
    ensures hits.Some? ==> IsExpansion(r, w, hits.value, chosen)
    ensures hits.Some? ==> AddsTheMissing(w, Searched(r, w), hits.value, chosen)
  {
    chosen := [];
    var expansions := w.expansions;
    if |expansions| > MAX_EXPANSIONS {
      expansions := expansions[..MAX_EXPANSIONS];
    }
    hits := SearchWithExpansions(r.query, expansions, w.answers, w.fallback);
    if hits.Some? && |w.answers| > 0 {
      var longer;
      longer, chosen := ExpandPhaseChains(hits.value, w.search);
      hits := Some(longer);
    }
  }

  /** blocks arrange the expanded hits, and the response is cut from the ranked survivors of that. */
  ghost predicate IsRanking(r: Request, w: World, expanded: seq<Hit>, blocks: seq<Block>, hits: seq<Hit>) {
    && IsAssembly(expanded, blocks)
    && hits == Take(Ranked(Survivors(r, w, Flatten(blocks)), w.now, w.decay), TopK(r))
  }

  method Rank(r: Request, w: World, expanded: seq<Hit>) returns (response: Response, ghost blocks: seq<Block>)
    ensures if exists h :: h in expanded && h.groupId.None? && h.score <= -1.0 then response == Panicked
            else response.Results? && IsRanking(r, w, expanded, blocks, response.hits)
  {
    var topK := r.topK;
    if topK <= 0 {
      topK := DEFAULT_TOP_K;
    }
    var assembled;
    assembled, blocks := AssembleGroups(expanded);
    if assembled.None? {
      return Panicked, blocks;
    }
    var kept := RankSurvivors(r, w, assembled.value, topK);
    response := Results(kept);
  }

  /**
   * Whatever order Go walks its maps in: the response is the first topK of the
   * ranked survivors of an assembly of the expanded hits, with distinct record
   * IDs; a top_k rejection by any consulted search ends the request; and the
   * request panics exactly when a standalone hit scores -1.0 or less.
   */
  method Handle(r: Request, w: World)
    returns (response: Response, ghost expanded: seq<Hit>, ghost chosen: seq<GroupInfo>, ghost blocks: seq<Block>)
    ensures response == EmbedFailed <==> !w.embedOk
    ensures response == TopKLimit <==> w.embedOk && TopKIsRejected(r, w)
    ensures response.Panicked? || response.Results? ==> IsExpansion(r, w, expanded, chosen)
    ensures response.Panicked? || response.Results? ==>
      IsSearch(r, w, Searched(r, w)) && AddsTheMissing(w, Searched(r, w), expanded, chosen)
    ensures response.Panicked? ==> exists h :: h in expanded && h.groupId.None? && h.score <= -1.0
    ensures response.Results? ==>
      && !(exists h :: h in expanded && h.groupId.None? && h.score <= -1.0)
      && IsRanking(r, w, expanded, blocks, response.hits)
      && DistinctIds(response.hits)
      && AreTop(Passing(r, w, expanded), response.hits, if r.topK <= 0 then 5 else r.topK, w.now, w.decay)
  {
    SearchedIsSearch(r, w);
    expanded, chosen, blocks := [], [], [];
    if !w.embedOk {
      return EmbedFailed, expanded, chosen, blocks;
    }
    var hits;
    hits, chosen := Gather(r, w);
    if hits.None? {
      return TopKLimit, expanded, chosen, blocks;
    }
    expanded := hits.value;
    response, blocks := Rank(r, w, hits.value);
    if response.Results? {
      ResultsAreDistinct(r, w, expanded, chosen, blocks, response.hits);
      ResultsAreTop(r, w, expanded, blocks, response.hits);
    }
  }

  /** The expanded hits that no filter turns away. */
  ghost function Passing(r: Request, w: World, expanded: seq<Hit>): set<Hit> {
    set h | h in expanded && Matches(r.filters, h) && InScope(w.scope, w.filterNow, h)
  }

  /** The response is the best of what the filters let pass. */
  lemma ResultsAreTop(r: Request, w: World, expanded: seq<Hit>, blocks: seq<Block>, hits: seq<Hit>)
    requires IsRanking(r, w, expanded, blocks, hits)
    ensures AreTop(Passing(r, w, expanded), hits, TopK(r), w.now, w.decay)
  {
    var assembled := Flatten(blocks);
    var m, t := MetadataFilter(r.filters), TimeFilter(w.scope, w.filterNow);
    AssemblyTheorems.AssemblyIsPermutation(expanded, blocks);
    var survivors := Survivors(r, w, assembled);
    forall h: Hit ensures h in survivors <==> h in Passing(r, w, expanded) {
      RearrangedMembers(expanded, assembled, h);
      FilterMembers(Filter(assembled, m), t, h);
      FilterMembers(assembled, m, h);
    }
    assert (set h | h in survivors) == Passing(r, w, expanded);
    RankedIsTop(survivors, TopK(r), w.now, w.decay);
  }

  lemma ExpansionIsDistinct(r: Request, w: World, expanded: seq<Hit>, chosen: seq<GroupInfo>)
    requires IsExpansion(r, w, expanded, chosen)
    ensures DistinctIds(expanded)
  {
    var first := FirstOccurrences(Pool(Answers(r, w)));
    FirstOccurrencesAreDistinct(Pool(Answers(r, w)));
    StableSortSorts(first, ScoreOf);
    RearrangedDistinct(first, Searched(r, w), IdOf);
    ExpansionKeeps(Searched(r, w), chosen, w.search);
  }

  lemma ResultsAreDistinct(r: Request, w: World, expanded: seq<Hit>, chosen: seq<GroupInfo>, blocks: seq<Block>, hits: seq<Hit>)
    requires IsExpansion(r, w, expanded, chosen) && IsRanking(r, w, expanded, blocks, hits)
    ensures DistinctIds(hits)
  {
    var assembled := Flatten(blocks);
    ExpansionIsDistinct(r, w, expanded, chosen);
    AssemblyTheorems.AssemblyIsPermutation(expanded, blocks);
    RearrangedDistinct(expanded, assembled, IdOf);
    FilterKeepsDistinct(assembled, MetadataFilter(r.filters));
    FilterKeepsDistinct(Filter(assembled, MetadataFilter(r.filters)), TimeFilter(w.scope, w.filterNow));
    RankedKeepsDistinct(Survivors(r, w, assembled), w.now, w.decay);
  }

  /** Ranking everything first and filtering afterwards returns the same list. */
  lemma RankFirstIsTheSame(r: Request, w: World, blocks: seq<Block>)
    ensures
      var rankedAll := Ranked(Flatten(blocks), w.now, w.decay);
      Take(Ranked(Survivors(r, w, Flatten(blocks)), w.now, w.decay), TopK(r)) ==
      Take(Filter(Filter(rankedAll, TimeFilter(w.scope, w.filterNow)), MetadataFilter(r.filters)), TopK(r))
  {
    var m, t := MetadataFilter(r.filters), TimeFilter(w.scope, w.filterNow);
    FilterThenRankIsRankThenFilter(Flatten(blocks), r.filters, w.scope, w.filterNow, w.now, w.decay);
    FiltersCommute(Ranked(Flatten(blocks), w.now, w.decay), m, t);
  }
}
