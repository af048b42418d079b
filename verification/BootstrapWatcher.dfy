/**
 * The bootstrap watcher: at most one goroutine polls the embedder while it
 * downloads its model, and asks for a re-boot once, when it is ready.
 */
module BootstrapWatcher {
  import Runs

  // --------------------------------------------------------------- the running flag

  datatype Thread =
    | Starter                 // startBootstrapWatcher, before it takes the mutex
    | Spawning                // set the flag, about to start the goroutine
    | Watching                // the goroutine polls
    | Leaving                 // the poll loop returned, the deferred reset has not run
    | Done

  datatype Sys = Sys(running: bool, threads: seq<Thread>)

  datatype Step = Call | Run(thread: nat)

  predicate Enabled(s: Sys, step: Step) {
    step.Run? ==> step.thread < |s.threads|
  }

  function Apply(s: Sys, step: Step): Sys
    requires Enabled(s, step)
  {
    match step
    case Call => s.(threads := s.threads + [Starter])
    case Run(t) =>
      match s.threads[t]
      case Starter =>
        if s.running then s.(threads := s.threads[t := Done]) else Sys(true, s.threads[t := Spawning])
      case Spawning => s.(threads := s.threads[t := Done] + [Watching])
      case Watching => s.(threads := s.threads[t := Leaving])
      case Leaving => Sys(false, s.threads[t := Done])
      case Done => s
  }

  predicate Live(t: Thread) {
    t.Spawning? || t.Watching? || t.Leaving?
  }

  function LiveOnes(s: Sys): set<nat> {
    set t: nat | t < |s.threads| && Live(s.threads[t])
  }

  ghost predicate Inv(s: Sys) {
    && (forall t, u | 0 <= t < |s.threads| && 0 <= u < |s.threads| && Live(s.threads[t]) && Live(s.threads[u]) :: t == u)
    && (s.running <==> exists t :: 0 <= t < |s.threads| && Live(s.threads[t]))
  }

  lemma Keeps(s: Sys, step: Step)
    requires Inv(s) && Enabled(s, step)
    ensures Inv(Apply(s, step))
  {
    var s' := Apply(s, step);
    if step.Run? && Live(s.threads[step.thread]) {
      if |s'.threads| > |s.threads| {
        assert Live(s'.threads[|s.threads|]);
      } else if Live(s'.threads[step.thread]) {
      } else {
        assert forall u | 0 <= u < |s.threads| && u != step.thread :: !Live(s'.threads[u]);
      }
    } else if step.Run? && Live(s'.threads[step.thread]) {
    } else if s.running {
      var t :| 0 <= t < |s.threads| && Live(s.threads[t]);
      assert Live(s'.threads[t]);
    }
  }

  ghost predicate Next(s: Sys, s': Sys) {
    exists step :: Enabled(s, step) && s' == Apply(s, step)
  }

  ghost predicate IsRun(run: seq<Sys>) {
    Runs.IsPath(run, Next) && run[0] == Sys(false, [])
  }

  lemma {:induction false} RunKeeps(run: seq<Sys>, i: nat)
    requires IsRun(run) && i < |run|
    ensures Inv(run[i])
  {
    if i > 0 {
      RunKeeps(run, i - 1);
      var step :| Enabled(run[i - 1], step) && run[i] == Apply(run[i - 1], step);
      Keeps(run[i - 1], step);
    }
  }

  /** The flag is up exactly while one watcher is starting, polling or leaving. */
  lemma FlagIsOneWatcher(run: seq<Sys>, i: nat)
    requires IsRun(run) && i < |run|
    ensures |LiveOnes(run[i])| == if run[i].running then 1 else 0
  {
    RunKeeps(run, i);
    var s := run[i];
    if t :| 0 <= t < |s.threads| && Live(s.threads[t]) {
      assert LiveOnes(s) == {t};
    } else {
      assert LiveOnes(s) == {};
    }
  }

  // ------------------------------------------------------------------- the poll loop

  /** What one tick finds. */
  datatype Tick =
    | DeadlinePassed
    | NoEmbedder
    | HealthError
    | Healthy(status: Status)

  datatype Status = Ok | Idle | Loading | Degraded | ShuttingDown | Unspecified

  const MAX_ERRORS := 3

  /** A tick that leaves the watcher polling, unless it is the third error in a row. */
  predicate KeepsPolling(tick: Tick) {
    tick == HealthError || tick == Healthy(Loading)
  }

  predicate Ready(tick: Tick) {
    tick == Healthy(Ok) || tick == Healthy(Idle)
  }

  /** Only errors and LOADING so far, and never three errors in a row. */
  ghost predicate Patient(ticks: seq<Tick>) {
    && (forall i | 0 <= i < |ticks| :: KeepsPolling(ticks[i]))
    && (forall i | 0 <= i <= |ticks| - MAX_ERRORS :: !ThreeErrors(ticks, i))
  }

  predicate ThreeErrors(ticks: seq<Tick>, i: nat)
    requires i + MAX_ERRORS <= |ticks|
  {
    ticks[i] == HealthError && ticks[i + 1] == HealthError && ticks[i + 2] == HealthError
  }

  /** The ticks end in OK or IDLE after a patient wait. */
  ghost predicate EndsReady(ticks: seq<Tick>, k: nat) {
    k < |ticks| && Patient(ticks[..k]) && Ready(ticks[k])
  }

  /** k ticks of which each is an error or LOADING, and no three in a row are errors. */
  ghost predicate WaitsThrough(ticks: seq<Tick>, k: nat) {
    && k <= |ticks|
    && (forall i | 0 <= i < k :: ticks[i] == HealthError || ticks[i] == Healthy(Loading))
    && (forall i | 0 <= i < k - 2 :: !(ticks[i] == HealthError && ticks[i + 1] == HealthError && ticks[i + 2] == HealthError))
  }

  lemma PatientWaits(ticks: seq<Tick>, k: nat)
    requires k <= |ticks|
    ensures Patient(ticks[..k]) <==> WaitsThrough(ticks, k)
  {
    var front := ticks[..k];
    if Patient(front) {
      forall i | 0 <= i < k ensures ticks[i] == HealthError || ticks[i] == Healthy(Loading) {
        assert KeepsPolling(front[i]);
      }
      forall i | 0 <= i < k - 2
        ensures !(ticks[i] == HealthError && ticks[i + 1] == HealthError && ticks[i + 2] == HealthError)
      {
        assert !ThreeErrors(front, i);
      }
    }
  }

  /** A wait that ends well. */
  ghost predicate WaitEndsReady(ticks: seq<Tick>, k: nat) {
    k < |ticks| && WaitsThrough(ticks, k) && (ticks[k] == Healthy(Ok) || ticks[k] == Healthy(Idle))
  }

  lemma ReadyWaits(ticks: seq<Tick>)
    ensures (exists k :: EndsReady(ticks, k)) <==> exists k :: WaitEndsReady(ticks, k)
    ensures Patient(ticks) <==> WaitsThrough(ticks, |ticks|)
  {
    forall k: nat ensures EndsReady(ticks, k) <==> WaitEndsReady(ticks, k) {
      if k < |ticks| {
        PatientWaits(ticks, k);
      }
    }
    assert ticks[..|ticks|] == ticks;
    PatientWaits(ticks, |ticks|);
  }

  /** How many errors in a row end the ticks. */
  function Trailing(ticks: seq<Tick>): nat {
    if |ticks| == 0 || ticks[|ticks| - 1] != HealthError then 0 else 1 + Trailing(ticks[..|ticks| - 1])
  }

  lemma TrailingErrors(ticks: seq<Tick>)
    ensures Trailing(ticks) <= |ticks|
    ensures forall i | |ticks| - Trailing(ticks) <= i < |ticks| :: ticks[i] == HealthError
    ensures Trailing(ticks) < |ticks| ==> ticks[|ticks| - Trailing(ticks) - 1] != HealthError
  {
  }

  lemma PatientExtends(ticks: seq<Tick>, k: nat)
    requires k < |ticks| && Patient(ticks[..k]) && KeepsPolling(ticks[k])
    ensures Patient(ticks[..k + 1]) <==> Trailing(ticks[..k + 1]) < MAX_ERRORS
  {
    var longer := ticks[..k + 1];
    assert longer[..k] == ticks[..k];
    TrailingErrors(longer);
    if Trailing(longer) >= MAX_ERRORS {
      assert ThreeErrors(longer, k + 1 - MAX_ERRORS);
    } else {
      forall i | 0 <= i <= k + 1 - MAX_ERRORS ensures !ThreeErrors(longer, i) {
        if i <= k - MAX_ERRORS {
          assert !ThreeErrors(ticks[..k], i);
        }
      }
    }
  }

  lemma PatientPrefix(ticks: seq<Tick>, j: nat, k: nat)
    requires j <= k <= |ticks| && Patient(ticks[..k])
    ensures Patient(ticks[..j])
  {
    forall i | 0 <= i <= j - MAX_ERRORS ensures !ThreeErrors(ticks[..j], i) {
      assert !ThreeErrors(ticks[..k], i);
    }
  }

  /**
   * One watcher over the ticks its ticker delivers. It retriggers at most
   * once, exactly when a patient wait ends in OK or IDLE; then, or on any tick
   * that breaks the wait, it returns.
   */
  method RunBootstrapWatcher(ticks: seq<Tick>, hasState: bool) returns (retriggers: nat, returned: bool)
    ensures retriggers <= 1
    ensures retriggers == 1 <==> hasState && exists k :: EndsReady(ticks, k)
    ensures retriggers == 1 <==> hasState && exists k :: WaitEndsReady(ticks, k)
    ensures returned <==> !WaitsThrough(ticks, |ticks|)
  {
    ReadyWaits(ticks);
    var consecutiveErrors := 0;
    var k := 0;
    while k < |ticks|
      invariant k <= |ticks|
      invariant Patient(ticks[..k])
      invariant consecutiveErrors == Trailing(ticks[..k]) < MAX_ERRORS
    {
      assert ticks[..k + 1][..k] == ticks[..k];
      var stop, ready := true, false;
      match ticks[k] {
        case DeadlinePassed =>
        case NoEmbedder =>
        case HealthError =>
          consecutiveErrors := consecutiveErrors + 1;
          stop := consecutiveErrors >= MAX_ERRORS;
        case Healthy(status) =>
          consecutiveErrors := 0;
          stop := status != Loading;
          ready := status == Ok || status == Idle;
      }
      if KeepsPolling(ticks[k]) {
        PatientExtends(ticks, k);
      }
      if stop {
        StopDecides(ticks, k);
        return if hasState && ready then 1 else 0, true;
      }
      k := k + 1;
    }
    assert ticks[..k] == ticks;
    return 0, false;
  }

  /** The first tick that is not part of a patient wait settles the outcome. */
  lemma StopDecides(ticks: seq<Tick>, k: nat)
    requires k < |ticks| && Patient(ticks[..k]) && !Patient(ticks[..k + 1])
    ensures (exists j :: EndsReady(ticks, j)) <==> Ready(ticks[k])
    ensures !Patient(ticks)
  {
    assert ticks[..|ticks|] == ticks;
    if Patient(ticks) {
      PatientPrefix(ticks, k + 1, |ticks|);
    }
    if Ready(ticks[k]) {
      assert EndsReady(ticks, k);
    }
    forall j | 0 <= j < k ensures KeepsPolling(ticks[j]) {
      assert ticks[..k][j] == ticks[j];
    }
    forall j: nat | EndsReady(ticks, j) ensures j == k {
      if j > k {
        PatientPrefix(ticks, k + 1, j);
      }
    }
  }
}
