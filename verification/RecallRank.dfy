/** The filters, the recency weighting and the final ranking of recall. */
module RecallRank {
  import opened Prelude
  import opened Hits
  import opened Ranking

  datatype Filters = Filters(domain: Option<string>, status: Option<string>, since: Option<string>)

  datatype TimeScope = LastWeek | LastMonth | LastQuarter | LastYear | AllTime

  const SECOND := 1_000_000_000
  const DAY := 24 * 3600 * SECOND

  /** Go's string order: bytewise, a proper prefix first. */
  predicate StrLess(s: string, t: string) {
    |t| > 0 && (|s| == 0 || s[0] < t[0] || (s[0] == t[0] && StrLess(s[1..], t[1..])))
  }

  /** A record without a timestamp string passes the since filter. */
  predicate Matches(f: Filters, h: Hit) {
    && (f.domain.Some? ==> h.domain == f.domain.value)
    && (f.status.Some? ==> h.status == f.status.value)
    && (f.since.Some? ==>
          var ts := if h.metadata.timestamp.Text? then h.metadata.timestamp.raw else "";
          ts == "" || !StrLess(ts, f.since.value))
  }

  function TimeRange(scope: TimeScope): Option<int> {
    match scope
    case LastWeek => Some(7 * DAY)
    case LastMonth => Some(30 * DAY)
    case LastQuarter => Some(90 * DAY)
    case LastYear => Some(365 * DAY)
    case AllTime => None
  }

  /** The instant of a hit, when its timestamp is one. */
  function InstantOf(h: Hit): Option<int> {
    match h.metadata.timestamp
    case NoStamp => None
    case Text(_, instant) => instant
    case Seconds(s) => Some(s * SECOND)
  }

  predicate InScope(scope: TimeScope, now: int, h: Hit) {
    TimeRange(scope).Some? && InstantOf(h).Some? ==> InstantOf(h).value >= now - TimeRange(scope).value
  }

  function MetadataFilter(f: Filters): Hit -> bool {
    (h: Hit) => Matches(f, h)
  }

  function TimeFilter(scope: TimeScope, now: int): Hit -> bool {
    (h: Hit) => InScope(scope, now, h)
  }

  /** One round of a filter loop. */
  lemma FilterRound(hits: seq<Hit>, p: Hit -> bool, i: nat)
    requires i < |hits|
    ensures Filter(hits[..i + 1], p) == Filter(hits[..i], p) + (if p(hits[i]) then [hits[i]] else [])
  {
    assert hits[..i + 1] == hits[..i] + [hits[i]];
    FilterConcat(hits[..i], [hits[i]], p);
  }

  method PassesFilters(h: Hit, f: Filters) returns (pass: bool)
    ensures pass == Matches(f, h)
    ensures pass <==>
      && (f.domain == None || f.domain == Some(h.domain))
      && (f.status == None || f.status == Some(h.status))
      && (f.since == None || !h.metadata.timestamp.Text? || h.metadata.timestamp.raw == ""
          || !StrLess(h.metadata.timestamp.raw, f.since.value))
  {
    if f.domain.Some? && h.domain != f.domain.value {
      return false;
    }
    if f.status.Some? && h.status != f.status.value {
      return false;
    }
    if f.since.Some? {
      var ts := "";
      if h.metadata.timestamp.Text? {
        ts := h.metadata.timestamp.raw;
      }
      if ts != "" && StrLess(ts, f.since.value) {
        return false;
      }
    }
    return true;
  }

  method ApplyMetadataFilters(results: seq<Hit>, f: Filters) returns (filtered: seq<Hit>)
    ensures filtered == Filter(results, MetadataFilter(f))
  {
    ghost var p := MetadataFilter(f);
    filtered := [];
    for i := 0 to |results|
      invariant filtered == Filter(results[..i], p)
    {
      FilterRound(results, p, i);
      var pass := PassesFilters(results[i], f);
      if pass {
        filtered := filtered + [results[i]];
      }
    }
    assert results[..|results|] == results;
  }

  method PassesCutoff(h: Hit, cutoff: int) returns (pass: bool)
    ensures pass == (InstantOf(h).Some? ==> InstantOf(h).value >= cutoff)
    ensures h.metadata.timestamp.NoStamp? ==> pass
    ensures h.metadata.timestamp.Text? ==>
      (pass <==> h.metadata.timestamp.instant == None || h.metadata.timestamp.instant.value >= cutoff)
    ensures h.metadata.timestamp.Seconds? ==> (pass <==> h.metadata.timestamp.seconds * 1_000_000_000 >= cutoff)
  {
    match h.metadata.timestamp {
      case Text(_, instant) =>
        if instant.Some? && instant.value < cutoff {
          return false;
        }
      case Seconds(s) =>
        if s * SECOND < cutoff {
          return false;
        }
      case NoStamp =>
    }
    return true;
  }

  method FilterByTime(hits: seq<Hit>, scope: TimeScope, now: int) returns (filtered: seq<Hit>)
    ensures filtered == Filter(hits, TimeFilter(scope, now))
  {
    var range := TimeRange(scope);
    ghost var p := TimeFilter(scope, now);
    if range.None? {
      FilterAll(hits, p);
      return hits;
    }
    var cutoff := now - range.value;
    filtered := [];
    for i := 0 to |hits|
      invariant filtered == Filter(hits[..i], p)
    {
      FilterRound(hits, p, i);
      var pass := PassesCutoff(hits[i], cutoff);
      if pass {
        filtered := filtered + [hits[i]];
      }
    }
    assert hits[..|hits|] == hits;
  }

  lemma {:induction false} FilterAll(hits: seq<Hit>, p: Hit -> bool)
    requires forall h :: p(h)
    ensures Filter(hits, p) == hits
  {
    if |hits| > 0 {
      FilterAll(hits[1..], p);
    }
  }

  /** Two different strings are ordered one way and not the other. */
  lemma {:induction false} StringOrderIsTotal(s: string, t: string)
    ensures s != t ==> StrLess(s, t) || StrLess(t, s)
    ensures !(StrLess(s, t) && StrLess(t, s))
    decreases |s| + |t|
  {
    if |s| > 0 && |t| > 0 && s[0] == t[0] {
      StringOrderIsTotal(s[1..], t[1..]);
      assert s == [s[0]] + s[1..] && t == [t[0]] + t[1..];
    }
  }

  lemma {:induction false} StringOrderIsTransitive(s: string, t: string, u: string)
    requires StrLess(s, t) && StrLess(t, u)
    ensures StrLess(s, u)
    decreases |s| + |t| + |u|
  {
    if |s| > 0 && s[0] == t[0] == u[0] {
      StringOrderIsTransitive(s[1..], t[1..], u[1..]);
    }
  }

  /** After k equal characters s ends or has the smaller one. */
  predicate LessAt(s: string, t: string, k: nat) {
    k <= |s| && k < |t| && s[..k] == t[..k] && (k == |s| || s[k] < t[k])
  }

  lemma {:induction false} LessSomewhere(s: string, t: string) returns (k: nat)
    requires StrLess(s, t)
    ensures LessAt(s, t, k)
  {
    if |s| == 0 || s[0] < t[0] {
      k := 0;
    } else {
      var rest := LessSomewhere(s[1..], t[1..]);
      k := rest + 1;
      assert s[..k] == [s[0]] + s[1..][..rest] && t[..k] == [t[0]] + t[1..][..rest];
    }
  }

  lemma {:induction false} SomewhereIsLess(s: string, t: string, k: nat)
    requires LessAt(s, t, k)
    ensures StrLess(s, t)
  {
    if k > 0 {
      assert s[0] == s[..k][0] == t[..k][0] == t[0];
      assert s[1..][..k - 1] == s[..k][1..] && t[1..][..k - 1] == t[..k][1..];
      SomewhereIsLess(s[1..], t[1..], k - 1);
    }
  }

  /** The first difference decides; without one the shorter string comes first. */
  lemma StringOrderIsLexical(s: string, t: string)
    ensures StrLess(s, t) <==> exists k: nat :: LessAt(s, t, k)
  {
    if StrLess(s, t) {
      var k := LessSomewhere(s, t);
    }
    if k: nat :| LessAt(s, t, k) {
      SomewhereIsLess(s, t, k);
    }
  }

  /** A since filter that starts later keeps no more. */
  lemma LaterSinceKeepsFewer(f: Filters, later: string, h: Hit)
    requires f.since.Some? && StrLess(f.since.value, later)
    ensures Matches(f.(since := Some(later)), h) ==> Matches(f, h)
  {
    if h.metadata.timestamp.Text? {
      var ts := h.metadata.timestamp.raw;
      if StrLess(ts, f.since.value) {
        StringOrderIsTransitive(ts, f.since.value, later);
      }
    }
  }

  predicate Narrower(a: TimeScope, b: TimeScope) {
    TimeRange(b).None? || (TimeRange(a).Some? && TimeRange(a).value <= TimeRange(b).value)
  }

  /** The scopes are nested in the order they are declared, and a wider one keeps what a narrower one keeps. */
  lemma ScopesAreNested(now: int, h: Hit)
    ensures Narrower(LastWeek, LastMonth) && Narrower(LastMonth, LastQuarter)
    ensures Narrower(LastQuarter, LastYear) && Narrower(LastYear, AllTime)
    ensures forall a, b: TimeScope | Narrower(a, b) && InScope(a, now, h) :: InScope(b, now, h)
    ensures InScope(AllTime, now, h)
  {
  }

  /** How far back each scope reaches, in nanoseconds: 7, 30, 90 and 365 days. */
  lemma ScopesReachBack(now: int, h: Hit)
    requires InstantOf(h).Some?
    ensures InScope(LastWeek, now, h) <==> now - InstantOf(h).value <= 604_800_000_000_000
    ensures InScope(LastMonth, now, h) <==> now - InstantOf(h).value <= 2_592_000_000_000_000
    ensures InScope(LastQuarter, now, h) <==> now - InstantOf(h).value <= 7_776_000_000_000_000
    ensures InScope(LastYear, now, h) <==> now - InstantOf(h).value <= 31_536_000_000_000_000
  {
  }

  /** Filtering by a wider scope first changes nothing about what a narrower one keeps. */
  lemma {:induction false} WiderScopeFirstIsTheSame(hits: seq<Hit>, a: TimeScope, b: TimeScope, now: int)
    requires Narrower(a, b)
    ensures Filter(Filter(hits, TimeFilter(b, now)), TimeFilter(a, now)) == Filter(hits, TimeFilter(a, now))
  {
    if |hits| > 0 {
      var h, rest := hits[0], hits[1..];
      assert hits == [h] + rest;
      WiderScopeFirstIsTheSame(rest, a, b, now);
      ScopesAreNested(now, h);
      FilterCons(h, rest, TimeFilter(a, now));
      FilterCons(h, rest, TimeFilter(b, now));
      FilterCons(h, Filter(rest, TimeFilter(b, now)), TimeFilter(a, now));
    }
  }

  // ------------------------------------------------------------------------ weighting

  /** Whole days since the record, never negative; zero when its time is unknown. */
  function AgeDays(h: Hit, now: int): nat {
    if InstantOf(h).None? || now < InstantOf(h).value then 0 else (now - InstantOf(h).value) / DAY
  }

  function StatusMultiplier(status: string): real {
    if status == "accepted" then 1.0
    else if status == "proposed" then 0.9
    else if status == "superseded" then 0.5
    else if status == "reverted" then 0.3
    else 1.0
  }

  /** decay gives the recency factor of an age in days. */
  function Weighed(h: Hit, now: int, decay: nat -> real): Hit {
    h.(adjusted := (0.7 * h.score + 0.3 * decay(AgeDays(h, now))) * StatusMultiplier(h.status))
  }

  /** The age is the number of whole days that have passed: a record from the future or without a time is new. */
  lemma AgeIsWholeDays(h: Hit, now: int, days: nat)
    requires InstantOf(h).Some?
    ensures now < InstantOf(h).value ==> AgeDays(h, now) == 0
    ensures 86_400_000_000_000 * days <= now - InstantOf(h).value < 86_400_000_000_000 * (days + 1) ==> AgeDays(h, now) == days
  {
  }

  /** Other things being equal an older record ranks no higher, when the recency factor never grows with age. */
  lemma OlderRanksNoHigher(h: Hit, older: Hit, now: int, decay: nat -> real)
    requires forall d: nat, e: nat | d <= e :: decay(d) >= decay(e)
    requires h.score == older.score && h.status == older.status
    requires InstantOf(h).Some? && InstantOf(older).Some? && InstantOf(older).value <= InstantOf(h).value
    ensures AgeDays(h, now) <= AgeDays(older, now)
    ensures Weighed(h, now, decay).adjusted >= Weighed(older, now, decay).adjusted
  {
    var x, y, m := decay(AgeDays(h, now)), decay(AgeDays(older, now)), StatusMultiplier(h.status);
    assert AgeDays(h, now) <= AgeDays(older, now);
    assert x >= y && m > 0.0;
    assert (0.7 * h.score + 0.3 * x) * m >= (0.7 * older.score + 0.3 * y) * m;
  }

  /** What each status leaves of 0.7 raw score and 0.3 recency. */
  lemma StatusWeighs(h: Hit, now: int, decay: nat -> real)
    ensures
      var full := 0.7 * h.score + 0.3 * decay(AgeDays(h, now));
      var adjusted := Weighed(h, now, decay).adjusted;
      && (h.status == "proposed" ==> adjusted == 0.9 * full)
      && (h.status == "superseded" ==> adjusted == 0.5 * full)
      && (h.status == "reverted" ==> adjusted == 0.3 * full)
      && (h.status !in {"proposed", "superseded", "reverted"} ==> adjusted == full)
    ensures Weighed(h, now, decay) == h.(adjusted := Weighed(h, now, decay).adjusted)
  {
  }

  /**
   * Between records of equal status, recency makes up for at most 3/7 of raw
   * score: one stays ahead exactly when its lead is at least 3/7 of what the
   * other gains in decay.
   */
  lemma RecencyMakesUpThreeSevenths(h: Hit, g: Hit, now: int, decay: nat -> real)
    requires h.status == g.status
    ensures Weighed(h, now, decay).adjusted >= Weighed(g, now, decay).adjusted <==>
      h.score - g.score >= 3.0 / 7.0 * (decay(AgeDays(g, now)) - decay(AgeDays(h, now)))
  {
    var x, y, m := decay(AgeDays(h, now)), decay(AgeDays(g, now)), StatusMultiplier(h.status);
    assert Weighed(h, now, decay).adjusted == (0.7 * h.score + 0.3 * x) * m;
    assert Weighed(g, now, decay).adjusted == (0.7 * g.score + 0.3 * y) * m;
  }

  function WeighAll(hits: seq<Hit>, now: int, decay: nat -> real): (r: seq<Hit>)
    ensures |r| == |hits|
    ensures forall i | 0 <= i < |hits| :: r[i] == Weighed(hits[i], now, decay)
  {
    if |hits| == 0 then [] else [Weighed(hits[0], now, decay)] + WeighAll(hits[1..], now, decay)
  }

  function Ranked(hits: seq<Hit>, now: int, decay: nat -> real): seq<Hit> {
    StableSort(WeighAll(hits, now, decay), AdjustedOf)
  }

  /** Scores every hit in place, then sorts the array in place. */
  method ApplyRecencyWeighting(hits: array<Hit>, now: int, decay: nat -> real)
    modifies hits
    ensures hits[..] == Ranked(old(hits[..]), now, decay)
  {
    ghost var was := hits[..];
    for i := 0 to hits.Length
      invariant forall k | 0 <= k < i :: hits[k] == Weighed(was[k], now, decay)
      invariant forall k | i <= k < hits.Length :: hits[k] == was[k]
    {
      hits[i] := Weighed(hits[i], now, decay);
    }
    assert hits[..] == WeighAll(was, now, decay);
    var sorted := StableSort(hits[..], AdjustedOf);
    StableSortSorts(hits[..], AdjustedOf);
    assert |sorted| == |multiset(sorted)| == |multiset(hits[..])| == hits.Length;
    forall i | 0 <= i < hits.Length {
      hits[i] := sorted[i];
    }
    assert hits[..] == sorted;
  }

  // ----------------------------------------------------------- ranking before filtering

  /** Weighting changes nothing a filter looks at. */
  ghost predicate IgnoresWeight(p: Hit -> bool) {
    forall h: Hit, a: real :: p(h.(adjusted := a)) == p(h)
  }

  lemma {:induction false} FilterWeighed(hits: seq<Hit>, p: Hit -> bool, now: int, decay: nat -> real)
    requires IgnoresWeight(p)
    ensures Filter(WeighAll(hits, now, decay), p) == WeighAll(Filter(hits, p), now, decay)
  {
    if |hits| > 0 {
      var h, rest := hits[0], hits[1..];
      assert hits == [h] + rest;
      FilterWeighed(rest, p, now, decay);
      var w := Weighed(h, now, decay);
      assert p(w) == p(h) by {
        assert w == h.(adjusted := w.adjusted);
      }
      assert WeighAll(hits, now, decay) == [w] + WeighAll(rest, now, decay);
      FilterCons(w, WeighAll(rest, now, decay), p);
      FilterCons(h, rest, p);
      if p(h) {
        assert ([h] + Filter(rest, p))[1..] == Filter(rest, p);
      }
    }
  }

  lemma FilterRanked(hits: seq<Hit>, p: Hit -> bool, now: int, decay: nat -> real)
    requires IgnoresWeight(p)
    ensures Ranked(Filter(hits, p), now, decay) == Filter(Ranked(hits, now, decay), p)
  {
    FilterWeighed(hits, p, now, decay);
    FilterSortCommute(WeighAll(hits, now, decay), p, AdjustedOf);
  }

  /** Both filters, in either order, before or after the ranking: the same hits in the same order. */
  lemma FilterThenRankIsRankThenFilter(hits: seq<Hit>, f: Filters, scope: TimeScope, filterNow: int, now: int, decay: nat -> real)
    ensures var m, t := MetadataFilter(f), TimeFilter(scope, filterNow);
      && Ranked(Filter(Filter(hits, m), t), now, decay) == Filter(Filter(Ranked(hits, now, decay), m), t)
      && Ranked(Filter(Filter(hits, t), m), now, decay) == Filter(Filter(Ranked(hits, now, decay), m), t)
  {
    var m, t := MetadataFilter(f), TimeFilter(scope, filterNow);
    FilterRanked(Filter(hits, m), t, now, decay);
    FilterRanked(hits, m, now, decay);
    FiltersCommute(hits, m, t);
  }

  /** The hits returned are the best of the survivors, and ties keep the order of the input. */
  lemma TopOfRanked(hits: seq<Hit>, now: int, decay: nat -> real, topK: nat)
    ensures var ranked := Ranked(hits, now, decay);
      && IsStableSort(WeighAll(hits, now, decay), ranked, AdjustedOf)
      && Take(ranked, topK) <= ranked
      && forall i, j | 0 <= i < |Take(ranked, topK)| <= j < |ranked| :: ranked[i].adjusted >= ranked[j].adjusted
  {
    StableSortIsStable(WeighAll(hits, now, decay), AdjustedOf);
    var ranked := Ranked(hits, now, decay);
    forall i, j | 0 <= i < |Take(ranked, topK)| <= j < |ranked| ensures ranked[i].adjusted >= ranked[j].adjusted {
      assert AdjustedOf(ranked[i]) >= AdjustedOf(ranked[j]);
    }
  }

  lemma {:induction false} WeighAllMembers(hits: seq<Hit>, now: int, decay: nat -> real)
    ensures forall g | g in hits :: Weighed(g, now, decay) in WeighAll(hits, now, decay)
    ensures forall h | h in WeighAll(hits, now, decay) :: exists g :: g in hits && h == Weighed(g, now, decay)
  {
    var weighed := WeighAll(hits, now, decay);
    forall g | g in hits ensures Weighed(g, now, decay) in weighed {
      var i :| 0 <= i < |hits| && hits[i] == g;
      assert weighed[i] == Weighed(g, now, decay);
    }
    forall h | h in weighed ensures exists g :: g in hits && h == Weighed(g, now, decay) {
      var i :| 0 <= i < |weighed| && weighed[i] == h;
      assert hits[i] in hits;
    }
  }

  /** Each of top is one of hits, weighed; one left out finds topK others that are no worse; best first. */
  ghost predicate AreTop(hits: set<Hit>, top: seq<Hit>, topK: nat, now: int, decay: nat -> real) {
    && Descending(top, AdjustedOf) && |top| <= topK
    && (forall h | h in top :: exists g :: g in hits && h == Weighed(g, now, decay))
    && (forall g | g in hits && Weighed(g, now, decay) !in top ::
          |top| == topK && forall h | h in top :: h.adjusted >= Weighed(g, now, decay).adjusted)
  }

  lemma LeftOutIsNoBetter(ranked: seq<Hit>, topK: nat, h: Hit, g: Hit)
    requires Descending(ranked, AdjustedOf) && h in Take(ranked, topK) && g in ranked && g !in Take(ranked, topK)
    ensures |Take(ranked, topK)| == topK && h.adjusted >= g.adjusted
  {
    assert forall k | 0 <= k < |Take(ranked, topK)| :: Take(ranked, topK)[k] == ranked[k] && ranked[k] in Take(ranked, topK);
    var i :| 0 <= i < |Take(ranked, topK)| && Take(ranked, topK)[i] == h;
    var j :| 0 <= j < |ranked| && ranked[j] == g;
    assert AdjustedOf(ranked[i]) >= AdjustedOf(ranked[j]);
  }

  lemma RankedIsTop(hits: seq<Hit>, topK: nat, now: int, decay: nat -> real)
    ensures AreTop((set h | h in hits), Take(Ranked(hits, now, decay), topK), topK, now, decay)
  {
    var weighed, ranked := WeighAll(hits, now, decay), Ranked(hits, now, decay);
    var top := Take(ranked, topK);
    StableSortSorts(weighed, AdjustedOf);
    WeighAllMembers(hits, now, decay);
    forall h: Hit ensures h in ranked <==> h in weighed {
      RearrangedMembers(weighed, ranked, h);
    }
    forall h | h in top ensures h in ranked {
      var k :| 0 <= k < |top| && top[k] == h;
      assert ranked[k] == h;
    }
    forall i, j | 0 <= i < j < |top| ensures AdjustedOf(top[i]) >= AdjustedOf(top[j]) {
      assert top[i] == ranked[i] && top[j] == ranked[j];
    }
    forall g | g in hits && Weighed(g, now, decay) !in top
      ensures |top| == topK && forall h | h in top :: h.adjusted >= Weighed(g, now, decay).adjusted
    {
      assert Weighed(g, now, decay) in ranked;
      forall h | h in top ensures h.adjusted >= Weighed(g, now, decay).adjusted {
        LeftOutIsNoBetter(ranked, topK, h, Weighed(g, now, decay));
      }
    }
  }

  // -------------------------------------------------------------- record IDs stay distinct

  lemma {:induction false} FilterKeepsDistinct(hits: seq<Hit>, p: Hit -> bool)
    requires DistinctIds(hits)
    ensures DistinctIds(Filter(hits, p))
  {
    if |hits| > 0 {
      var rest := Filter(hits[1..], p);
      FilterKeepsDistinct(hits[1..], p);
      forall j | 0 <= j < |rest| ensures IdOf(rest[j]) != IdOf(hits[0]) {
        var i := FilterIndex(hits[1..], p, j);
        assert IdOf(hits[0]) != IdOf(hits[i + 1]);
      }
    }
  }

  lemma RankedKeepsDistinct(hits: seq<Hit>, now: int, decay: nat -> real)
    requires DistinctIds(hits)
    ensures DistinctIds(Ranked(hits, now, decay))
  {
    var weighed := WeighAll(hits, now, decay);
    forall i, j | 0 <= i < j < |weighed| ensures IdOf(weighed[i]) != IdOf(weighed[j]) {
      assert IdOf(hits[i]) != IdOf(hits[j]);
    }
    StableSortSorts(weighed, AdjustedOf);
    RearrangedDistinct(weighed, Ranked(hits, now, decay), IdOf);
  }
}
