/**
 * Health probes that overlap. Loading the last uptime, invalidating the cache
 * and storing the new uptime are three atomic actions of one probe, and any
 * number of probes and Get calls may come in between.
 */
module InfoProbes {
  import opened Prelude
  import opened InfoCache
  import Runs

  /** wipedAt is where in the history the probe's own invalidation stands. */
  datatype Probe =
    | Answered(uptime: int)
    | Wiping(uptime: int, prev: int)
    | Storing(uptime: int, prev: int, wipedAt: Option<nat>)
    | Done(uptime: int, prev: int, wipedAt: Option<nat>)

  datatype Sys = Sys(lastUptime: int, history: History, probes: seq<Probe>)

  datatype Step =
    | Answer(uptime: int)        // some Health RPC answers
    | Act(probe: nat)            // that probe's next atomic action
    | Got(event: Event)          // a Get call, which holds the cache's mutex throughout

  predicate Regressed(uptime: int, prev: int) {
    prev > 0 && uptime < prev
  }

  predicate Enabled(s: Sys, step: Step) {
    match step
    case Answer(_) => true
    case Act(p) => p < |s.probes| && !s.probes[p].Done?
    case Got(e) => (e.Served? || e.Asked?) && Allowed(s.history, e)
  }

  function Apply(s: Sys, step: Step): Sys
    requires Enabled(s, step)
  {
    match step
    case Answer(uptime) => s.(probes := s.probes + [Answered(uptime)])
    case Got(e) => s.(history := s.history + [e])
    case Act(p) =>
      match s.probes[p]
      case Answered(uptime) =>
        var prev := s.lastUptime;
        s.(probes := s.probes[p := if Regressed(uptime, prev) then Wiping(uptime, prev) else Storing(uptime, prev, None)])
      case Wiping(uptime, prev) =>
        s.(history := s.history + [Invalidated], probes := s.probes[p := Storing(uptime, prev, Some(|s.history|))])
      case Storing(uptime, prev, wipedAt) =>
        s.(lastUptime := uptime, probes := s.probes[p := Done(uptime, prev, wipedAt)])
  }

  ghost predicate Next(s: Sys, s': Sys) {
    exists step :: Enabled(s, step) && s' == Apply(s, step)
  }

  ghost predicate IsRun(run: seq<Sys>) {
    Runs.IsPath(run, Next) && run[0] == Sys(0, [], [])
  }

  /** The position of the probe's own invalidation, if it has made one. */
  function WipeOf(p: Probe): Option<nat> {
    match p
    case Answered(_) => None
    case Wiping(_, _) => None
    case Storing(_, _, at) => at
    case Done(_, _, at) => at
  }

  /** A probe past its load has invalidated exactly when it loaded a higher uptime. */
  predicate Wiped(h: History, p: Probe) {
    && (WipeOf(p).Some? ==> WipeOf(p).value < |h| && h[WipeOf(p).value].Invalidated?)
    && (p.Wiping? ==> Regressed(p.uptime, p.prev))
    && (p.Storing? || p.Done? ==> (Regressed(p.uptime, p.prev) <==> p.wipedAt.Some?))
  }

  /** Some probe made the invalidation at w. */
  ghost predicate HasCause(probes: seq<Probe>, w: nat) {
    exists p :: 0 <= p < |probes| && WipeOf(probes[p]) == Some(w)
  }

  ghost predicate Inv(s: Sys) {
    && WellBehaved(s.history)
    && (forall p | 0 <= p < |s.probes| :: Wiped(s.history, s.probes[p]))
    && (forall w: nat | w < |s.history| && s.history[w].Invalidated? :: HasCause(s.probes, w))
  }

  lemma OneMoreEvent(h: History, e: Event)
    requires WellBehaved(h) && Allowed(h, e)
    ensures WellBehaved(h + [e])
    ensures forall p: Probe | Wiped(h, p) :: Wiped(h + [e], p)
  {
    var longer := h + [e];
    assert longer[..|h|] == h;
    forall i | 0 <= i < |longer| ensures Allowed(longer[..i], longer[i]) {
      if i < |h| {
        assert longer[..i] == h[..i];
      }
    }
  }

  lemma CausesKept(probes: seq<Probe>, probes': seq<Probe>, w: nat)
    requires HasCause(probes, w) && |probes| <= |probes'|
    requires forall p | 0 <= p < |probes| && WipeOf(probes[p]).Some? :: WipeOf(probes'[p]) == WipeOf(probes[p])
    ensures HasCause(probes', w)
  {
    var p :| 0 <= p < |probes| && WipeOf(probes[p]) == Some(w);
    assert WipeOf(probes'[p]) == Some(w);
  }

  lemma Keeps(s: Sys, step: Step)
    requires Inv(s) && Enabled(s, step)
    ensures Inv(Apply(s, step))
  {
    var s' := Apply(s, step);
    if step.Got? {
      OneMoreEvent(s.history, step.event);
    } else if step.Act? {
      OneMoreEvent(s.history, Invalidated);
    }
    forall w: nat | w < |s'.history| && s'.history[w].Invalidated? ensures HasCause(s'.probes, w) {
      if w < |s.history| {
        CausesKept(s.probes, s'.probes, w);
      } else {
        assert WipeOf(s'.probes[step.probe]) == Some(w);
      }
    }
  }

  lemma {:induction false} RunKeeps(run: seq<Sys>, i: nat)
    requires IsRun(run) && i < |run|
    ensures Inv(run[i])
  {
    if i > 0 {
      RunKeeps(run, i - 1);
      assert Next(run[i - 1], run[i]);
      var step :| Enabled(run[i - 1], step) && run[i] == Apply(run[i - 1], step);
      Keeps(run[i - 1], step);
    }
  }

  lemma LatestIsAfter(h: History, i: nat, j: nat, w: nat)
    requires i < j <= |h| && IsLatestAsked(h, i, j) && w < j && h[w].Invalidated?
    ensures w < i
  {
  }

  /** Between an invalidation and the next RPC nothing is served. */
  lemma NothingServed(h: History, w: nat, j: nat)
    requires WellBehaved(h) && w < j < |h| && h[w].Invalidated? && forall k | w < k < j :: !h[k].Asked?
    ensures !h[j].Served?
  {
    if h[j].Served? {
      var i := ServedIsLatest(h, j);
      LatestIsAfter(h, i, j, w);
    }
  }

  /**
   * However probes and Get calls interleave: when a probe that itself loaded
   * a higher uptime has returned, the cache has been wiped, and nothing was or
   * will be served from then to the next RPC.
   */
  lemma RegressionForcesRefetch(run: seq<Sys>, i: nat, p: nat, j: nat)
    requires IsRun(run) && i < |run| && p < |run[i].probes|
    requires run[i].probes[p].Done? && 0 < run[i].probes[p].prev && run[i].probes[p].uptime < run[i].probes[p].prev
    ensures var h, at := run[i].history, run[i].probes[p].wipedAt;
      && at.Some? && at.value < |h|
      && (at.value < j < |h| && (forall k | at.value < k < j :: !h[k].Asked?) ==> !h[j].Served?)
  {
    RunKeeps(run, i);
    var h, at := run[i].history, run[i].probes[p].wipedAt;
    assert Wiped(h, run[i].probes[p]);
    if at.value < j < |h| && forall k | at.value < k < j :: !h[k].Asked? {
      NothingServed(h, at.value, j);
    }
  }

  /**
   * A probe that has returned wiped the cache if and only if it loaded a higher
   * uptime itself, and every invalidation is that of such a probe.
   */
  lemma WipesAreLoadedRegressions(run: seq<Sys>, i: nat)
    requires IsRun(run) && i < |run|
    ensures forall p | 0 <= p < |run[i].probes| && run[i].probes[p].Done? ::
      run[i].probes[p].wipedAt.Some? <==> 0 < run[i].probes[p].prev && run[i].probes[p].uptime < run[i].probes[p].prev
    ensures forall w: nat | w < |run[i].history| && run[i].history[w].Invalidated? :: HasCause(run[i].probes, w)
  {
    RunKeeps(run, i);
    assert forall p | 0 <= p < |run[i].probes| :: Wiped(run[i].history, run[i].probes[p]);
  }

  lemma Extend(run: seq<Sys>, step: Step) returns (longer: seq<Sys>)
    requires IsRun(run) && Enabled(run[|run| - 1], step)
    ensures IsRun(longer) && longer == run + [Apply(run[|run| - 1], step)]
  {
    Runs.Extend(run, Apply(run[|run| - 1], step), Next);
    longer := run + [Apply(run[|run| - 1], step)];
  }

  /**
   * A regression that no probe loads goes unseen: the daemon answers 100,
   * restarts and answers 5, both probes load before either stores, and the
   * cache is never wiped.
   */
  lemma OverlapHidesRegression() returns (run: seq<Sys>)
    ensures IsRun(run)
    ensures var s := run[|run| - 1]; s.probes == [Done(100, 0, None), Done(5, 0, None)] && s.history == []
  {
    run := [Sys(0, [], [])];
    run := Extend(run, Answer(100));
    run := Extend(run, Answer(5));
    run := Extend(run, Act(0));
    run := Extend(run, Act(1));
    run := Extend(run, Act(0));
    run := Extend(run, Act(1));
  }
}
