/**
 * The manager's state word and Retrigger as the object they are, for a caller
 * that nobody interrupts, and the lemma that ties that call to the interleaved
 * steps of the boot protocol.
 */
module BootManager {
  import opened BootProtocol

  class Manager {
    var state: Mode
    var reloadSet: bool
    var spawned: nat            // loops started through the reload callback

    constructor ()
      ensures state == Starting && !reloadSet && spawned == 0
    {
      state, reloadSet, spawned := Starting, false, 0;
    }

    method SetReloadFunc()
      modifies this`reloadSet
      ensures reloadSet
    {
      reloadSet := true;
    }

    /** What main does: the callback first, then the first loop. */
    method Wire()
      modifies this`reloadSet, this`spawned
      ensures reloadSet && spawned == old(spawned) + 1
    {
      SetReloadFunc();
      spawned := spawned + 1;
    }

    method SetState(m: Mode)
      modifies this`state
      ensures state == m
    {
      state := m;
    }

    method CompareAndSwap(from: Mode, to: Mode) returns (swapped: bool)
      modifies this`state
      ensures swapped == (old(state) == from)
      ensures state == if swapped then to else old(state)
    {
      swapped := state == from;
      if swapped {
        state := to;
      }
    }

    /** Spawns exactly from the two settled states, and never while a boot is under way. */
    method Retrigger()
      modifies this`state, this`spawned
      ensures spawned == old(spawned) + if reloadSet && (old(state) == Active || old(state) == Dormant) then 1 else 0
      ensures state == if reloadSet && (old(state) == Active || old(state) == Dormant) then Starting else old(state)
    {
      if !reloadSet {
        return;
      }
      var won := CompareAndSwap(Active, Starting);
      if !won {
        won := CompareAndSwap(Dormant, Starting);
        if !won {
          return;
        }
      }
      spawned := spawned + 1;
    }
  }

  /** Thread t runs n steps and nobody else moves. */
  function Alone(s: Sys, t: nat, n: nat): Sys
    requires t < |s.threads|
    decreases n
  {
    if n == 0 then s else Alone(RunThread(s, t, Success), t, n - 1)
  }

  /** The protocol starts as main does: the callback is there before the first loop, and the state stays Starting. */
  lemma MainAloneIsWire()
    ensures Alone(Init(), 0, 2) == Init().(reloadSet := true, threads := [Done, LoopSpawned])
  {
    var s1 := RunThread(Init(), 0, Success);
    assert s1.threads == [MainSpawn];
    var s2 := RunThread(s1, 0, Success);
    assert Alone(Init(), 0, 2) == Alone(s1, 0, 1) == s2;
    assert s2.threads == [Done] + [LoopSpawned];
  }

  /** An uninterrupted caller of the protocol has the effect of Manager.Retrigger. */
  lemma CallerAloneIsRetrigger(s: Sys, t: nat)
    requires t < |s.threads| && s.threads[t] == CallerLoad
    ensures var s' := Alone(s, t, 4);
      && s'.threads == s.threads[t := Done] + (if s.reloadSet && (s.mode == Active || s.mode == Dormant) then [LoopSpawned] else [])
      && s'.mode == (if s.reloadSet && (s.mode == Active || s.mode == Dormant) then Starting else s.mode)
      && s' == s.(mode := s'.mode, threads := s'.threads)
  {
    var s1 := RunThread(s, t, Success);
    var s2 := RunThread(s1, t, Success);
    var s3 := RunThread(s2, t, Success);
    var s4 := RunThread(s3, t, Success);
    assert Alone(s, t, 4) == Alone(s1, t, 3) == Alone(s2, t, 2) == Alone(s3, t, 1) == s4;
  }
}
