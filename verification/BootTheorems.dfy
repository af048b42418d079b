/** What the boot protocol guarantees in every reachable state, whatever the schedule. */
module BootTheorems {
  import opened BootProtocol
  import opened BootClients
  import Runs

  // ------------------------------------------------------------ one boot at a time

  /**
   * Won claims, unstarted loops and loops that have not published a terminal
   * state number exactly one while booting and none otherwise. Cancelling the
   * process context can only lose the token, never duplicate it.
   */
  lemma ExactlyOneToken(run: seq<Sys>, i: nat)
    requires IsRun(run) && i < |run|
    ensures |Holders(run[i])| <= 1
    ensures !run[i].cancelled ==> |Holders(run[i])| == if Booting(run[i].mode) then 1 else 0
    ensures !Booting(run[i].mode) ==> Holders(run[i]) == {}
  {
    RunKeeps(run, i);
    var s := run[i];
    if t :| 0 <= t < |s.threads| && HasToken(s.threads[t]) {
      assert Holders(s) == {t};
    } else {
      assert Holders(s) == {};
    }
  }

  /** The state word moves only along these edges. */
  predicate LegalMove(from: Mode, to: Mode) {
    match from
    case Starting => true
    case WaitingForVault => to != Starting
    case Active => to == Active || to == Starting
    case Dormant => to == Dormant || to == Starting
  }

  lemma ModesMoveLegally(run: seq<Sys>, i: nat)
    requires IsRun(run) && i + 1 < |run|
    ensures LegalMove(run[i].mode, run[i + 1].mode)
  {
    RunKeeps(run, i);
    var s := run[i];
    var step :| Enabled(s, step) && run[i + 1] == Apply(s, step);
    if step.Run? {
      RunIsTokenMove(s, step.thread, step.outcome);
      assert HasToken(s.threads[step.thread]) ==> Booting(s.mode);
      if s.mode == WaitingForVault {
        WaitingNeverRestarts(s, step.thread, step.outcome);
      }
    }
  }

  lemma WaitingNeverRestarts(s: Sys, t: nat, o: Outcome)
    requires TokenInv(s) && t < |s.threads| && s.mode == WaitingForVault
    ensures RunThread(s, t, o).mode != Starting
  {
    assert !BeforeLoop(s.threads[t]);
  }

  // ------------------------------------------------------------ where clients go

  /** Some live thread still has the only reference to c. */
  ghost predicate LocalToAThread(s: Sys, c: Client) {
    exists t :: 0 <= t < |s.threads| && c in Locals(s.threads[t])
  }

  /** How many of its five possible places client c is counted in. */
  ghost function PlaceCount(s: Sys, c: Client): nat {
    (if LocalToAThread(s, c) then 1 else 0) + (if Injected(s.books, c) then 1 else 0)
    + s.books.pending[c] + s.books.closed[c] + s.books.dropped[c]
  }

  lemma OnlyHoldersHaveLocals(s: Sys, t: nat)
    requires t < |s.threads| && Locals(s.threads[t]) != {}
    ensures HasToken(s.threads[t])
  {
  }

  /**
   * Conservation: a client ever created is local to the booting loop, injected,
   * awaiting its delayed close, closed or dropped, and only one of these.
   */
  lemma ExactlyOnePlace(run: seq<Sys>, i: nat, c: Client)
    requires IsRun(run) && i < |run|
    ensures PlaceCount(run[i], c) == if c in run[i].books.created then 1 else 0
  {
    RunKeeps(run, i);
    var s := run[i];
    forall t | 0 <= t < |s.threads| && c in Locals(s.threads[t]) ensures HasToken(s.threads[t]) {
      OnlyHoldersHaveLocals(s, t);
    }
    if t :| 0 <= t < |s.threads| && HasToken(s.threads[t]) {
      assert HolderInv(s.books, s.threads[t]);
      assert Places(s.books, Locals(s.threads[t]), c) == if c in s.books.created then 1 else 0;
      assert LocalToAThread(s, c) <==> c in Locals(s.threads[t]);
    } else {
      assert Places(s.books, {}, c) == if c in s.books.created then 1 else 0;
      assert !LocalToAThread(s, c);
    }
  }

  /** No client is ever closed twice, nor closed while it is still to be closed, injected or in use by the loop. */
  lemma ClosedOnce(run: seq<Sys>, i: nat, c: Client)
    requires IsRun(run) && i < |run|
    ensures var s := run[i];
      && s.books.closed[c] <= 1
      && (s.books.closed[c] == 1 ==> s.books.pending[c] == 0 && !Injected(s.books, c) && !LocalToAThread(s, c))
  {
    ExactlyOnePlace(run, i, c);
  }

  /** Every created client is still reachable by someone who will close or replace it, or is closed. */
  ghost predicate NothingDropped(s: Sys) {
    forall c | c in s.books.created :: PlaceCount(s, c) - s.books.dropped[c] == 1
  }

  /**
   * The one leak: a key directory that cannot be resolved returns without
   * closing the Vault client it holds. Without such a failure nothing leaks,
   * and each such failure leaks exactly one client.
   */
  lemma LeakedIffKeyDirFailed(run: seq<Sys>, i: nat)
    requires IsRun(run) && i < |run|
    ensures |run[i].books.dropped| == run[i].books.keyDirFailures
    ensures NothingDropped(run[i]) <==> run[i].books.keyDirFailures == 0
  {
    RunKeeps(run, i);
    var s := run[i];
    assert Named(s.books) by {
      if t :| 0 <= t < |s.threads| && HasToken(s.threads[t]) {
        assert HolderInv(s.books, s.threads[t]);
      }
    }
    forall c ensures PlaceCount(s, c) == if c in s.books.created then 1 else 0 {
      ExactlyOnePlace(run, i, c);
    }
    if s.books.keyDirFailures == 0 {
      assert forall c :: s.books.dropped[c] == 0;
    } else {
      var c :| c in s.books.dropped;
      assert c in s.books.created;
    }
  }

  // ------------------------------------------------------------ what Active means

  /**
   * While the state is Active, Deps and every service hold the three clients
   * and the bundle of the one attempt that published Active, and none of them
   * is closed, awaiting a close or lost.
   */
  lemma ActiveIsWhole(run: seq<Sys>, i: nat, kind: Kind)
    requires IsRun(run) && i < |run| && run[i].mode == Active
    ensures var b, c := run[i].books, Client(kind, run[i].winner);
      && FullyWired(b.wiring, run[i].winner)
      && c in b.created && b.closed[c] == 0 && b.pending[c] == 0 && b.dropped[c] == 0
  {
    RunKeeps(run, i);
    var s := run[i];
    assert forall t | 0 <= t < |s.threads| :: !HasToken(s.threads[t]);
    assert IdleInv(s);
    ExactlyOnePlace(run, i, Client(kind, s.winner));
  }

  /** No step taken in the Active state writes a client, a bundle or the attempt that owns them. */
  lemma ActiveIsFrozen(run: seq<Sys>, i: nat)
    requires IsRun(run) && i + 1 < |run| && run[i].mode == Active
    ensures run[i + 1].books.wiring == run[i].books.wiring
    ensures run[i + 1].books.created == run[i].books.created
    ensures run[i + 1].winner == run[i].winner
  {
    RunKeeps(run, i);
    var s := run[i];
    var step :| Enabled(s, step) && run[i + 1] == Apply(s, step);
    if step.Run? {
      assert !HasToken(s.threads[step.thread]);
      BystanderWritesNothing(s, step.thread, step.outcome);
    }
  }

  // ------------------------------------------------------------ what cancelling stops

  /** One step of thread t leaves the cancellation alone and takes a number, or none. */
  predicate Starts(s: Sys, s': Sys, starts: bool) {
    s'.cancelled == s.cancelled && s'.books.nextAttempt == s.books.nextAttempt + if starts then 1 else 0
  }

  lemma RetriggerStartsNone(s: Sys, t: nat)
    requires t < |s.threads| && InRetrigger(s.threads[t])
    ensures Starts(s, RetriggerStep(s, t), false)
  {
  }

  lemma LoopStarts(s: Sys, t: nat)
    requires t < |s.threads| && InLoop(s.threads[t])
    ensures Starts(s, LoopStep(s, t), s.threads[t] == LoopTop && !s.cancelled)
  {
  }

  lemma VaultPhaseStartsNone(s: Sys, t: nat, o: Outcome)
    requires t < |s.threads| && InVaultPhase(s.threads[t])
    ensures Starts(s, VaultPhaseStep(s, t, o), false)
  {
  }

  lemma WiringPhaseStartsNone(s: Sys, t: nat, o: Outcome)
    requires t < |s.threads| && InWiringPhase(s.threads[t])
    ensures Starts(s, WiringPhaseStep(s, t, o), false)
  {
  }

  lemma RunStarts(s: Sys, t: nat, o: Outcome)
    requires t < |s.threads|
    ensures Starts(s, RunThread(s, t, o), s.threads[t] == LoopTop && !s.cancelled)
  {
    var pc := s.threads[t];
    if InRetrigger(pc) {
      RetriggerStartsNone(s, t);
    } else if InLoop(pc) {
      LoopStarts(s, t);
    } else if InVaultPhase(pc) {
      VaultPhaseStartsNone(s, t, o);
    } else {
      WiringPhaseStartsNone(s, t, o);
    }
  }

  /** A step takes the next attempt number exactly when a loop runs between attempts of a process that is not cancelled. */
  lemma AttemptStartsIff(s: Sys, step: Step)
    requires Enabled(s, step)
    ensures
      var starts := step.Run? && s.threads[step.thread] == LoopTop && !s.cancelled;
      Apply(s, step).books.nextAttempt == s.books.nextAttempt + if starts then 1 else 0
    ensures Apply(s, step).cancelled <==> s.cancelled || step == Cancel
  {
    if step.Run? {
      RunStarts(s, step.thread, step.outcome);
    }
  }

  lemma CancelledStep(s: Sys, s': Sys)
    requires Next(s, s') && s.cancelled
    ensures s'.cancelled && s'.books.nextAttempt == s.books.nextAttempt
  {
    var step :| Enabled(s, step) && s' == Apply(s, step);
    AttemptStartsIff(s, step);
  }

  /** A cancelled process stays cancelled and never starts another attempt, whatever is scheduled afterwards. */
  lemma {:induction false} CancelledStartsNothing(run: seq<Sys>, i: nat, j: nat)
    requires IsRun(run) && i <= j < |run| && run[i].cancelled
    ensures run[j].cancelled && run[j].books.nextAttempt == run[i].books.nextAttempt
    decreases j - i
  {
    if i < j {
      CancelledStartsNothing(run, i, j - 1);
      CancelledStep(run[j - 1], run[j]);
    }
  }

  /** After a cancellation no client is created but those of attempts that had already begun. */
  lemma CancelledDialsNothingNew(run: seq<Sys>, i: nat, j: nat, c: Client)
    requires IsRun(run) && i <= j < |run| && run[i].cancelled
    ensures c in run[j].books.created ==> c.attempt < run[i].books.nextAttempt
  {
    CancelledStartsNothing(run, i, j);
    RunKeeps(run, j);
    var s := run[j];
    assert Named(s.books) by {
      if t :| 0 <= t < |s.threads| && HasToken(s.threads[t]) {
        assert HolderInv(s.books, s.threads[t]);
      }
    }
  }

  /** A loop that is between attempts when the context is cancelled returns at its next step, leaving everything else alone. */
  lemma CancelStopsLoop(s: Sys, t: nat, o: Outcome)
    requires t < |s.threads| && s.threads[t] == LoopTop
    ensures var stopped := Apply(Apply(s, Cancel), Run(t, o));
      stopped == s.(cancelled := true, threads := s.threads[t := Done])
  {
  }

  // ------------------------------------------------------------ two runs that do happen

  lemma Extend(run: seq<Sys>, step: Step) returns (longer: seq<Sys>)
    requires IsRun(run) && Enabled(run[|run| - 1], step)
    ensures IsRun(longer) && longer == run + [Apply(run[|run| - 1], step)]
  {
    Runs.Extend(run, Apply(run[|run| - 1], step), Next);
    longer := run + [Apply(run[|run| - 1], step)];
  }

  lemma StepsOf(run: seq<Sys>, t: nat, outcomes: seq<Outcome>) returns (longer: seq<Sys>)
    requires IsRun(run) && t < |run[|run| - 1].threads|
    ensures IsRun(longer) && longer[|longer| - 1] == Steps(run[|run| - 1], t, outcomes)
    decreases |outcomes|
  {
    if outcomes == [] {
      longer := run;
    } else {
      var once := Extend(run, Run(t, outcomes[0]));
      longer := StepsOf(once, t, outcomes[1..]);
    }
  }

  /** Thread t takes one step for each outcome. */
  function Steps(s: Sys, t: nat, outcomes: seq<Outcome>): Sys
    requires t < |s.threads|
    decreases |outcomes|
  {
    if outcomes == [] then s else Steps(RunThread(s, t, outcomes[0]), t, outcomes[1..])
  }

  /** A loop goroutine that has not returned. */
  predicate LoopLive(pc: Thread) {
    pc != Done && !(InRetrigger(pc))
  }

  /**
   * When a Retrigger caller has won its claim, the loops that have not
   * returned are exactly those in their tails.
   */
  lemma ClaimMeetsOnlyTails(run: seq<Sys>, i: nat, t: nat, u: nat)
    requires IsRun(run) && i < |run| && t < |run[i].threads| && u < |run[i].threads|
    requires run[i].threads[t] == CallerClaimed
    ensures LoopLive(run[i].threads[u]) <==> run[i].threads[u].Tail?
  {
    RunKeeps(run, i);
    assert HasToken(run[i].threads[t]);
    if u != t {
      assert !HasToken(run[i].threads[u]);
    }
  }

  ghost predicate SomeLoopLive(s: Sys) {
    exists u :: 0 <= u < |s.threads| && LoopLive(s.threads[u])
  }

  ghost predicate SomeTail(s: Sys) {
    exists u :: 0 <= u < |s.threads| && s.threads[u].Tail?
  }

  /** Retrigger's promise, that it spawns only when no loop is running, holds if and only if no loop is in its tail. */
  lemma ClaimMeetsNoLoopIff(run: seq<Sys>, i: nat, t: nat)
    requires IsRun(run) && i < |run| && t < |run[i].threads| && run[i].threads[t] == CallerClaimed
    ensures !SomeLoopLive(run[i]) <==> !SomeTail(run[i])
  {
    forall u | 0 <= u < |run[i].threads| ensures LoopLive(run[i].threads[u]) <==> run[i].threads[u].Tail? {
      ClaimMeetsOnlyTails(run, i, t, u);
    }
  }

  /** The first boot finds no configuration and publishes Dormant. */
  lemma DormantBoot() returns (run: seq<Sys>)
    ensures IsRun(run)
    ensures var s := run[|run| - 1]; s.threads == [Done, Tail(4)] && s.mode == Dormant && s.reloadSet
  {
    run := StepsOf([Init()], 0, [Success, Success]);
    run := StepsOf(run, 1, [Success, Success]);
    run := StepsOf(run, 1, [Unconfigured, Success]);
  }

  /**
   * Retrigger's promise that no loop is running when it spawns one is not what
   * happens: here the first loop still has diagnostics to store while the
   * second has begun.
   */
  lemma LoopsOverlap() returns (run: seq<Sys>)
    ensures IsRun(run)
    ensures var s := run[|run| - 1];
      exists t, u :: 0 <= t < u < |s.threads| && LoopLive(s.threads[t]) && LoopLive(s.threads[u])
  {
    run := DormantBoot();
    run := Extend(run, Arrive);
    run := StepsOf(run, 2, [Success, Success]);
    run := StepsOf(run, 2, [Success, Success]);
    assert run[|run| - 1].threads == [Done, Tail(4), Done, LoopSpawned];
    run := StepsOf(run, 3, [Success]);
    assert LoopLive(run[|run| - 1].threads[1]) && LoopLive(run[|run| - 1].threads[3]);
  }

  /** The first attempt has dialled Vault and is about to fetch the manifest. */
  lemma VaultDialled() returns (run: seq<Sys>)
    ensures IsRun(run)
    ensures var s := run[|run| - 1];
      s.threads == [Done, FetchManifest(0)] && s.books.dropped == multiset{} && s.books.keyDirFailures == 0
  {
    run := StepsOf([Init()], 0, [Success, Success]);
    run := StepsOf(run, 1, [Success, Success]);
    run := StepsOf(run, 1, [Success, Success]);
  }

  /** A run in which the Vault client of the first attempt is dropped without being closed. */
  lemma KeyDirLeaks() returns (run: seq<Sys>)
    ensures IsRun(run)
    ensures run[|run| - 1].books.dropped == multiset{Client(Vault, 0)}
    ensures !NothingDropped(run[|run| - 1])
  {
    run := VaultDialled();
    run := StepsOf(run, 1, [Success, Success]);
    run := StepsOf(run, 1, [Failure]);
    LeakedIffKeyDirFailed(run, |run| - 1);
  }
}
