/**
 * EnsureDaemon across processes: a lock-free probe, a non-blocking file lock,
 * a second probe under the lock, the launch, and the poll that follows. Any
 * number of calls interleave with an environment in which the socket may
 * start to answer, stop answering, and launches may fail.
 *
 * The lock is released when the call returns, not when the launch does; that
 * is what the bound on launches rests on.
 */
module DaemonSpawn {
  import opened Prelude
  import Runs

  datatype Result = Nil | Failed

  datatype Call =
    | FirstProbe
    | TryLock
    | SecondProbe                         // holds the lock
    | Launching                           // holds the lock, second probe failed
    | Polling(locked: bool, launched: bool)
    | Returned(result: Result)

  datatype Sys = Sys(
    reachable: bool,              // the socket answers a probe
    lock: Option<nat>,            // the call that holds the file lock
    calls: seq<Call>,
    sawSocket: set<nat>,          // calls in which some probe succeeded
    launches: nat,                // times the daemon binary was executed
    gaveUp: nat,                  // calls that launched and returned an error
    settled: nat,                 // calls that launched and returned nil
    outages: nat)                 // times a reachable socket stopped answering

  datatype Step =
    | Arrive
    | Probe(call: nat)
    | Lock(call: nat, broken: bool)   // broken: the lock file could not be opened
    | Launch(call: nat, ok: bool)
    | GiveUp(call: nat)               // deadline passed or context cancelled while polling
    | SocketUp
    | SocketDown

  function Init(): Sys {
    Sys(false, None, [], {}, 0, 0, 0, 0)
  }

  predicate HasLock(c: Call) {
    c.SecondProbe? || c.Launching? || (c.Polling? && c.locked)
  }

  predicate HasLaunched(c: Call) {
    c.Polling? && c.launched
  }

  /** The launch section: from the second probe on, until the binary has run. */
  predicate InLaunchSection(c: Call) {
    c.SecondProbe? || c.Launching?
  }

  predicate Enabled(s: Sys, step: Step) {
    match step
    case Arrive => true
    case Probe(p) => p < |s.calls| && (s.calls[p].FirstProbe? || s.calls[p].SecondProbe? || s.calls[p].Polling?)
    case Lock(p, _) => p < |s.calls| && s.calls[p].TryLock?
    case Launch(p, _) => p < |s.calls| && s.calls[p].Launching?
    case GiveUp(p) => p < |s.calls| && s.calls[p].Polling?
    case SocketUp => !s.reachable
    case SocketDown => s.reachable
  }

  function To(s: Sys, p: nat, c: Call): Sys
    requires p < |s.calls|
  {
    s.(calls := s.calls[p := c])
  }

  /** A call returns: its deferred close drops the lock if it has it. */
  function Return(s: Sys, p: nat, r: Result): Sys
    requires p < |s.calls|
  {
    var launched := HasLaunched(s.calls[p]) || s.calls[p].Launching?;
    s.(calls := s.calls[p := Returned(r)],
       lock := if HasLock(s.calls[p]) then None else s.lock,
       gaveUp := s.gaveUp + (if launched && r == Failed then 1 else 0),
       settled := s.settled + (if launched && r == Nil then 1 else 0))
  }

  function ProbeStep(s: Sys, p: nat): Sys
    requires Enabled(s, Probe(p))
  {
    var s1 := if s.reachable then s.(sawSocket := s.sawSocket + {p}) else s;
    match s.calls[p]
    case FirstProbe => if s.reachable then Return(s1, p, Nil) else To(s1, p, TryLock)
    case SecondProbe => To(s1, p, if s.reachable then Polling(true, false) else Launching)
    case Polling(_, _) => if s.reachable then Return(s1, p, Nil) else s1
  }

  function Apply(s: Sys, step: Step): Sys
    requires Enabled(s, step)
  {
    match step
    case Arrive => s.(calls := s.calls + [FirstProbe])
    case Probe(p) => ProbeStep(s, p)
    case Lock(p, broken) =>
      if broken then Return(s, p, Failed)
      else if s.lock.None? then To(s.(lock := Some(p)), p, SecondProbe)
      else To(s, p, Polling(false, false))
    case Launch(p, ok) =>
      var s1 := s.(launches := s.launches + 1);
      if ok then To(s1, p, Polling(true, true)) else Return(s1, p, Failed)
    case GiveUp(p) => Return(s, p, Failed)
    case SocketUp => s.(reachable := true)
    case SocketDown => s.(reachable := false, outages := s.outages + 1)
  }

  ghost predicate Next(s: Sys, s': Sys) {
    exists step :: Enabled(s, step) && s' == Apply(s, step)
  }

  ghost predicate IsRun(run: seq<Sys>) {
    Runs.IsPath(run, Next) && run[0] == Init()
  }

  /** Some schedule leads from s to e. */
  ghost predicate Reaches(s: Sys, e: Sys) {
    Runs.Reaches(s, e, Next)
  }

  lemma ReachesNext(s: Sys, e: Sys, step: Step)
    requires Reaches(s, e) && Enabled(e, step)
    ensures Reaches(s, Apply(e, step))
  {
    assert Next(e, Apply(e, step));
    Runs.OneMore(s, e, Apply(e, step), Next);
  }

  /** Whether the lock holder, if any, has executed the binary. */
  predicate HolderLaunched(s: Sys) {
    s.lock.Some? && s.lock.value < |s.calls| && HasLaunched(s.calls[s.lock.value])
  }

  predicate HolderCommitted(s: Sys) {
    s.lock.Some? && s.lock.value < |s.calls| && (s.calls[s.lock.value].Launching? || HasLaunched(s.calls[s.lock.value]))
  }

  /** The part of the invariant about who holds the lock. */
  ghost predicate LockInv(s: Sys) {
    && (s.lock.Some? ==> s.lock.value < |s.calls|)
    && (forall p | 0 <= p < |s.calls| :: HasLock(s.calls[p]) <==> s.lock == Some(p))
    && (forall p | 0 <= p < |s.calls| && HasLaunched(s.calls[p]) :: HasLock(s.calls[p]))
    && (forall p | 0 <= p < |s.calls| && s.calls[p] == Returned(Nil) :: p in s.sawSocket)
  }

  /** The part of the invariant that counts launches. */
  ghost predicate CountInv(s: Sys) {
    && s.launches == s.gaveUp + s.settled + (if HolderLaunched(s) then 1 else 0)
    && s.settled <= s.outages + (if s.reachable then 1 else 0)
    && (HolderCommitted(s) ==> s.settled <= s.outages)
  }

  /** What one call's own step may do to the lock. */
  ghost predicate LockMove(s: Sys, s': Sys, p: nat)
    requires p < |s.calls|
  {
    && |s'.calls| == |s.calls|
    && (forall q | 0 <= q < |s.calls| && q != p :: s'.calls[q] == s.calls[q])
    && s.sawSocket <= s'.sawSocket
    && var c := s'.calls[p];
       && (HasLock(c) <==> s'.lock == Some(p))
       && (s'.lock == s.lock || (s.lock == None && s'.lock == Some(p)) || (s.lock == Some(p) && s'.lock == None))
       && (HasLaunched(c) ==> HasLock(c))
       && (c == Returned(Nil) ==> p in s'.sawSocket)
  }

  lemma CallIsLockMove(s: Sys, step: Step, p: nat)
    requires LockInv(s) && Enabled(s, step) && p < |s.calls|
    requires step == Probe(p) || (step.Lock? && step.call == p) || (step.Launch? && step.call == p) || step == GiveUp(p)
    ensures LockMove(s, Apply(s, step), p)
  {
    assert HasLock(s.calls[p]) <==> s.lock == Some(p);
    assert HasLaunched(s.calls[p]) ==> HasLock(s.calls[p]);
  }

  lemma LockMoveKeeps(s: Sys, s': Sys, p: nat)
    requires LockInv(s) && p < |s.calls| && LockMove(s, s', p)
    ensures LockInv(s')
  {
  }

  lemma LockKept(s: Sys, step: Step)
    requires LockInv(s) && Enabled(s, step)
    ensures LockInv(Apply(s, step))
  {
    if step.Arrive? {
      assert forall q | 0 <= q < |s.calls| :: Apply(s, step).calls[q] == s.calls[q];
    } else if !step.SocketUp? && !step.SocketDown? {
      CallIsLockMove(s, step, step.call);
      LockMoveKeeps(s, Apply(s, step), step.call);
    }
  }

  lemma CountKept(s: Sys, step: Step)
    requires LockInv(s) && CountInv(s) && Enabled(s, step)
    ensures CountInv(Apply(s, step))
  {
  }

  lemma {:induction false} RunKeeps(run: seq<Sys>, i: nat)
    requires IsRun(run) && i < |run|
    ensures LockInv(run[i]) && CountInv(run[i])
  {
    if i > 0 {
      RunKeeps(run, i - 1);
      var step :| Enabled(run[i - 1], step) && run[i] == Apply(run[i - 1], step);
      LockKept(run[i - 1], step);
      CountKept(run[i - 1], step);
    }
  }

  /** Call p launched the binary, or tried to, and returns r in this step. */
  predicate LauncherReturns(s: Sys, s': Sys, p: nat, r: Result)
    requires p < |s.calls| <= |s'.calls|
  {
    (s.calls[p].Launching? || (s.calls[p].Polling? && s.calls[p].launched)) && s'.calls[p] == Returned(r)
  }

  /** What the counters in the theorems count, step by step. */
  lemma CountersCount(s: Sys, step: Step)
    requires Enabled(s, step)
    ensures var s' := Apply(s, step);
      && s'.outages == s.outages + (if s.reachable && !s'.reachable then 1 else 0)
      && s'.launches == s.launches + (if step.Launch? then 1 else 0)
      && s'.sawSocket == s.sawSocket + (if step.Probe? && s.reachable then {step.call} else {})
      && (step.Arrive? || step.SocketUp? || step.SocketDown? ==> s'.gaveUp == s.gaveUp && s'.settled == s.settled)
      && (step.Probe? || step.Lock? || step.Launch? || step.GiveUp? ==>
            && s'.gaveUp == s.gaveUp + (if LauncherReturns(s, s', step.call, Failed) then 1 else 0)
            && s'.settled == s.settled + (if LauncherReturns(s, s', step.call, Nil) then 1 else 0))
  {
  }

  /** Two calls are never in the launch section together. */
  lemma LaunchSectionIsExclusive(run: seq<Sys>, i: nat, p: nat, q: nat)
    requires IsRun(run) && i < |run| && p < |run[i].calls| && q < |run[i].calls|
    requires InLaunchSection(run[i].calls[p]) && InLaunchSection(run[i].calls[q])
    ensures p == q
  {
    RunKeeps(run, i);
  }

  /**
   * The daemon is executed at most once, plus once for each lock holder that
   * launched and gave up, plus once for each time a reachable socket went away.
   * With a socket that stays reachable there are no outages.
   */
  lemma LaunchesAreBounded(run: seq<Sys>, i: nat)
    requires IsRun(run) && i < |run|
    ensures run[i].launches <= 1 + run[i].gaveUp + run[i].outages
  {
    RunKeeps(run, i);
  }

  /** A call that returns nil has seen the socket answer during that very call. */
  lemma NilMeansProbed(run: seq<Sys>, i: nat, p: nat)
    requires IsRun(run) && i < |run| && p < |run[i].calls| && run[i].calls[p] == Returned(Nil)
    ensures p in run[i].sawSocket
  {
    RunKeeps(run, i);
  }

  /** Once a launch has succeeded and the socket has not gone away for it, no call launches again. */
  lemma NoLaunchOnceSettled(run: seq<Sys>, i: nat, step: Step)
    requires IsRun(run) && i < |run| && Enabled(run[i], step)
    requires run[i].settled > run[i].outages
    ensures Apply(run[i], step).launches == run[i].launches
  {
    RunKeeps(run, i);
  }
}
