/**
 * EnsureDaemon as the sequential code of one call. The call carries along the
 * state of the protocol and takes one of its steps for every action, so that
 * what it does is a path of the state machine in DaemonSpawn.
 */
module SpawnCall {
  import opened Prelude
  import opened DaemonSpawn
  import Runs

  datatype LockAnswer = Broken | Taken | Acquired

  /** What one call meets: its probes in order, the lock, the launch, and how many failed polls it takes to give up. */
  datatype World = World(probe: nat -> bool, lock: LockAnswer, launchOk: bool, patience: nat)

  /** The environment makes the socket answer, or not; nothing happens when it already does as wanted. */
  function Facing(s: Sys, up: bool): Sys {
    if s.reachable == up then s else if up then Apply(s, SocketUp) else Apply(s, SocketDown)
  }

  /** A probe of call p that finds the socket as wanted. */
  lemma ReachesProbe(s: Sys, now: Sys, p: nat, up: bool)
    requires Reaches(s, now) && Enabled(now, Probe(p))
    ensures Enabled(Facing(now, up), Probe(p)) && Reaches(s, ProbeStep(Facing(now, up), p))
  {
    if now.reachable != up {
      ReachesNext(s, now, if up then SocketUp else SocketDown);
    }
    ReachesNext(s, Facing(now, up), Probe(p));
  }

  /** Some poll before the call gives up succeeds; the polls start with probe number first. */
  ghost predicate PollSucceeds(w: World, first: nat) {
    exists i: nat :: first <= i <= first + w.patience && w.probe(i)
  }

  /** was and now agree on everything but the socket and who has seen it. */
  predicate SameCalls(was: Sys, now: Sys) {
    now.calls == was.calls && now.launches == was.launches && now.lock == was.lock
  }

  /** Call p has returned, and the lock is free if it held it. */
  predicate HasReturned(was: Sys, now: Sys, p: nat, r: Result)
    requires p < |was.calls|
  {
    now.calls == was.calls[p := Returned(r)] && now.lock == if HasLock(was.calls[p]) then None else was.lock
  }

  /** Polls as waitForSocket does: probe, then give up or wait. */
  method WaitForSocket(w: World, first: nat, ghost s: Sys, ghost was: Sys, ghost p: nat) returns (r: Result, ghost now: Sys)
    requires Reaches(s, was) && p < |was.calls| && was.calls[p].Polling?
    ensures r == Nil <==> PollSucceeds(w, first)
    ensures Reaches(s, now) && HasReturned(was, now, p, r) && now.launches == was.launches
  {
    now := was;
    var k := 0;
    while k <= w.patience
      invariant k <= w.patience + 1
      invariant Reaches(s, now) && SameCalls(was, now)
      invariant forall i: nat :: first <= i < first + k ==> !w.probe(i)
    {
      ReachesProbe(s, now, p, w.probe(first + k));
      now := ProbeStep(Facing(now, w.probe(first + k)), p);
      if w.probe(first + k) {
        return Nil, now;
      }
      k := k + 1;
    }
    ReachesNext(s, now, GiveUp(p));
    now := Apply(now, GiveUp(p));
    r := Failed;
  }

  /** From the second probe on, with the lock held. */
  method HoldLock(w: World, ghost s: Sys, ghost was: Sys, ghost p: nat) returns (r: Result, ghost now: Sys)
    requires Reaches(s, was) && p < |was.calls| && was.calls[p] == SecondProbe
    ensures r == Nil <==> (w.probe(1) || w.launchOk) && PollSucceeds(w, 2)
    ensures Reaches(s, now) && HasReturned(was, now, p, r) && now.launches == was.launches + if w.probe(1) then 0 else 1
  {
    ReachesProbe(s, was, p, w.probe(1));
    now := ProbeStep(Facing(was, w.probe(1)), p);
    if !w.probe(1) {
      ReachesNext(s, now, Launch(p, w.launchOk));
      now := Apply(now, Launch(p, w.launchOk));
      if !w.launchOk {
        return Failed, now;
      }
    }
    r, now := WaitForSocket(w, 2, s, now, p);
  }

  /**
   * One call. It returns nil exactly when a probe of its own succeeded at one
   * of the points where it looks; it executes the binary exactly when both
   * probes failed and it got the lock; and the lock is as it was before when
   * the call returns.
   */
  method EnsureDaemon(binary: string, socket: string, lockPath: string, w: World, ghost s: Sys, ghost p: nat)
    returns (r: Result, ghost now: Sys)
    requires p < |s.calls| && s.calls[p] == FirstProbe
    requires w.lock == Acquired ==> s.lock == None
    requires w.lock == Taken ==> s.lock != None
    ensures binary == "" || socket == "" || lockPath == "" ==> r == Failed && now == s
    ensures binary != "" && socket != "" && lockPath != "" ==>
      && (r == Nil <==>
            || w.probe(0)
            || (w.lock == Taken && PollSucceeds(w, 1))
            || (w.lock == Acquired && (w.probe(1) || w.launchOk) && PollSucceeds(w, 2)))
      && Reaches(s, now) && now.calls == s.calls[p := Returned(r)] && now.lock == s.lock
      && now.launches == s.launches + (if !w.probe(0) && w.lock == Acquired && !w.probe(1) then 1 else 0)
  {
    now := s;
    if binary == "" {
      return Failed, now;
    }
    if socket == "" || lockPath == "" {
      return Failed, now;
    }
    Runs.Here(s, Next);
    ReachesProbe(s, now, p, w.probe(0));
    now := ProbeStep(Facing(now, w.probe(0)), p);
    if w.probe(0) {
      return Nil, now;
    }
    ReachesNext(s, now, Lock(p, w.lock == Broken));
    now := Apply(now, Lock(p, w.lock == Broken));
    if w.lock == Broken {
      return Failed, now;
    }
    if w.lock == Acquired {
      r, now := HoldLock(w, s, now, p);
    } else {
      r, now := WaitForSocket(w, 1, s, now, p);
    }
  }
}
