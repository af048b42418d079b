/**
 * The boot and recovery protocol: every goroutine that touches the manager's
 * state word, as a state machine over atomic steps. A thread is a program
 * counter; one step runs one compare-and-swap, one atomic store, one field
 * write of an adapter injection, one spawn or one answer of the environment.
 *
 * The right to boot is a token. It passes from main (or from a Retrigger
 * caller whose compare-and-swap won) to the spawned loop, and the loop gives
 * it up at the very store that publishes Active or Dormant. What a loop runs
 * after that store is its tail, which may overlap with the next loop.
 */
module BootProtocol {
  import opened Prelude
  import Runs

  datatype Mode = Starting | WaitingForVault | Active | Dormant

  datatype Kind = Vault | Embedder | Envector

  /** Each attempt dials at most one client of each kind, so the pair names it. */
  datatype Client = Client(kind: Kind, attempt: nat)

  /** The four places that keep a copy of one kind of client. */
  datatype Slots = Slots(deps: Option<Client>, capture: Option<Client>, recall: Option<Client>, lifecycle: Option<Client>) {
    function Put(k: nat, c: Client): Slots {
      if k == 0 then this.(deps := Some(c))
      else if k == 1 then this.(capture := Some(c))
      else if k == 2 then this.(recall := Some(c))
      else this.(lifecycle := Some(c))
    }

    predicate Agree() {
      deps == capture == recall == lifecycle
    }
  }

  /** The first k owners hold c, the others still hold what was there before. */
  function Mixed(k: nat, c: Client, prev: Option<Client>): Slots {
    Slots(if k > 0 then Some(c) else prev, if k > 1 then Some(c) else prev,
          if k > 2 then Some(c) else prev, if k > 3 then Some(c) else prev)
  }

  /** Which attempt's bundle each of the three services holds. */
  datatype Bundles = Bundles(capture: Option<nat>, recall: Option<nat>, lifecycle: Option<nat>) {
    function Put(k: nat, a: nat): Bundles {
      if k == 0 then this.(capture := Some(a))
      else if k == 1 then this.(recall := Some(a))
      else this.(lifecycle := Some(a))
    }

    predicate Holds(k: nat, a: nat) {
      && (k > 0 ==> capture == Some(a))
      && (k > 1 ==> recall == Some(a))
      && (k > 2 ==> lifecycle == Some(a))
    }
  }

  datatype Wiring = Wiring(vault: Slots, embedder: Slots, envector: Slots, bundles: Bundles) {
    function Of(kind: Kind): Slots {
      match kind
      case Vault => vault
      case Embedder => embedder
      case Envector => envector
    }

    function With(kind: Kind, slots: Slots): Wiring {
      match kind
      case Vault => this.(vault := slots)
      case Embedder => this.(embedder := slots)
      case Envector => this.(envector := slots)
    }
  }

  datatype Thread =
    | MainSetReload                     // main is about to install the reload callback
    | MainSpawn                         // main is about to start the first loop
    | CallerLoad                        // Retrigger: read the callback
    | CallerCasActive                   // Retrigger: swap Active for Starting
    | CallerCasDormant                  // Retrigger: swap Dormant for Starting
    | CallerClaimed                     // Retrigger: a swap won, about to call the callback
    | LoopSpawned                       // a goroutine that has not run yet
    | LoopTop                           // between attempts
    | LoadConfig(attempt: nat)
    | StoreDormant                      // about to publish Dormant
    | DialVault(attempt: nat)
    | FetchManifest(attempt: nat)
    | StoreWaiting(drop: Option<Client>) // about to publish WaitingForVault, then close drop
    | SaveKey(attempt: nat)
    | ResolveKeyDir(attempt: nat)
    | CloseLocal(client: Client)        // about to close a client nobody else has seen
    | Inject(kind: Kind, attempt: nat, prev: Option<Client>, k: nat)
    | ApplyBundle(attempt: nat, k: nat)
    | NewEmbedder(attempt: nat)
    | NewEnvector(attempt: nat)
    | OpenIndex(attempt: nat)
    | StoreActive(attempt: nat)         // about to publish Active
    | Tail(left: nat)                   // terminal state published, diagnostics still to store (and ConfigMark to run)
    | Done

  /** Everything the protocol records about adapter clients. */
  datatype Books = Books(
    nextAttempt: nat,
    wiring: Wiring,
    created: set<Client>,
    pending: multiset<Client>,    // goroutines sleeping before they close a replaced client
    closed: multiset<Client>,     // one entry for each Close call
    dropped: multiset<Client>,    // last reference gone without a Close call
    keyDirFailures: nat)

  datatype Sys = Sys(
    mode: Mode,
    reloadSet: bool,
    cancelled: bool,
    threads: seq<Thread>,
    winner: nat,                  // the attempt that last published Active
    books: Books)

  /** What the environment answers to the step it is asked about. */
  datatype Outcome = Success | Failure | Unconfigured

  datatype Step =
    | Run(thread: nat, outcome: Outcome)
    | Arrive                      // some request, watcher or interceptor calls Retrigger
    | CloseDue(client: Client)    // a delayed close fires
    | Cancel                      // the process context is cancelled

  const NO_SLOTS := Slots(None, None, None, None)
  const NO_WIRING := Wiring(NO_SLOTS, NO_SLOTS, NO_SLOTS, Bundles(None, None, None))
  const NO_BOOKS := Books(0, NO_WIRING, {}, multiset{}, multiset{}, multiset{}, 0)

  function Init(): Sys {
    Sys(Starting, false, false, [MainSetReload], 0, NO_BOOKS)
  }

  function To(s: Sys, t: nat, pc: Thread): Sys
    requires t < |s.threads|
  {
    s.(threads := s.threads[t := pc])
  }

  function Record(s: Sys, t: nat, books: Books, pc: Thread): Sys
    requires t < |s.threads|
  {
    s.(books := books, threads := s.threads[t := pc])
  }

  function Spawn(s: Sys, t: nat): Sys
    requires t < |s.threads|
  {
    s.(threads := s.threads[t := Done] + [LoopSpawned])
  }

  /** Where an attempt continues once a client of this kind is injected. */
  function AfterInject(kind: Kind, a: nat): Thread {
    match kind
    case Vault => ApplyBundle(a, 0)
    case Embedder => NewEnvector(a)
    case Envector => StoreActive(a)
  }

  /** closeAfterInterval: nothing to close when there was no client or it did not change. */
  function Retire(pending: multiset<Client>, prev: Option<Client>, next: Client): multiset<Client> {
    if prev.None? || prev.value == next then pending else pending + multiset{prev.value}
  }

  /** One micro-step of an injection: read the old client, write four owners, schedule the close. */
  function InjectStep(s: Sys, t: nat): Sys
    requires t < |s.threads| && s.threads[t].Inject?
  {
    var Inject(kind, a, prev, k) := s.threads[t];
    var c := Client(kind, a);
    var slots := s.books.wiring.Of(kind);
    if k == 0 then To(s, t, Inject(kind, a, slots.deps, 1))
    else if k <= 4 then
      Record(s, t, s.books.(wiring := s.books.wiring.With(kind, slots.Put(k - 1, c))), Inject(kind, a, prev, k + 1))
    else Record(s, t, s.books.(pending := Retire(s.books.pending, prev, c)), AfterInject(kind, a))
  }

  /** main and Retrigger, up to the spawn of a loop. */
  predicate InRetrigger(pc: Thread) {
    pc.MainSetReload? || pc.MainSpawn? || pc.CallerLoad? || pc.CallerCasActive? || pc.CallerCasDormant? || pc.CallerClaimed?
  }

  function RetriggerStep(s: Sys, t: nat): Sys
    requires t < |s.threads| && InRetrigger(s.threads[t])
  {
    match s.threads[t]
    case MainSetReload => To(s.(reloadSet := true), t, MainSpawn)
    case MainSpawn => Spawn(s, t)
    case CallerLoad => To(s, t, if s.reloadSet then CallerCasActive else Done)
    case CallerCasActive =>
      if s.mode == Active then To(s.(mode := Starting), t, CallerClaimed) else To(s, t, CallerCasDormant)
    case CallerCasDormant =>
      if s.mode == Dormant then To(s.(mode := Starting), t, CallerClaimed) else To(s, t, Done)
    case CallerClaimed => Spawn(s, t)
  }

  /** RunBootLoop around its attempts. */
  predicate InLoop(pc: Thread) {
    pc.LoopSpawned? || pc.LoopTop? || pc.StoreActive? || pc.Tail? || pc.Done?
  }

  function LoopStep(s: Sys, t: nat): Sys
    requires t < |s.threads| && InLoop(s.threads[t])
  {
    match s.threads[t]
    case LoopSpawned => To(s.(mode := Starting), t, LoopTop)
    case LoopTop =>
      if s.cancelled then To(s, t, Done)
      else Record(s, t, s.books.(nextAttempt := s.books.nextAttempt + 1), LoadConfig(s.books.nextAttempt))
    case StoreActive(a) => To(s.(mode := Active, winner := a), t, Tail(3))
    case Tail(left) => To(s, t, if left == 0 then Done else Tail(left - 1))
    case Done => s
  }

  /** The part of one attempt that talks to the configuration and to Vault. */
  predicate InVaultPhase(pc: Thread) {
    || pc.LoadConfig? || pc.StoreDormant? || pc.DialVault? || pc.FetchManifest? || pc.StoreWaiting?
    || pc.SaveKey? || pc.ResolveKeyDir? || pc.CloseLocal?
  }

  function VaultPhaseStep(s: Sys, t: nat, o: Outcome): Sys
    requires t < |s.threads| && InVaultPhase(s.threads[t])
  {
    match s.threads[t]
    case LoadConfig(a) =>
      To(s, t, match o case Success => DialVault(a) case Failure => LoopTop case Unconfigured => StoreDormant)
    case StoreDormant => To(s.(mode := Dormant), t, Tail(4))
    case DialVault(a) =>
      if o == Success then Record(s, t, s.books.(created := s.books.created + {Client(Vault, a)}), FetchManifest(a))
      else To(s, t, StoreWaiting(None))
    case FetchManifest(a) =>
      To(s, t, if o == Success then SaveKey(a) else StoreWaiting(Some(Client(Vault, a))))
    case StoreWaiting(drop) =>
      To(s.(mode := WaitingForVault), t, if drop.Some? then CloseLocal(drop.value) else LoopTop)
    case SaveKey(a) =>
      To(s, t, if o == Success then ResolveKeyDir(a) else CloseLocal(Client(Vault, a)))
    case ResolveKeyDir(a) =>
      if o == Success then To(s, t, Inject(Vault, a, None, 0))
      else
        var lost := s.books.dropped + multiset{Client(Vault, a)};
        Record(s, t, s.books.(dropped := lost, keyDirFailures := s.books.keyDirFailures + 1), LoopTop)
    case CloseLocal(c) => Record(s, t, s.books.(closed := s.books.closed + multiset{c}), LoopTop)
  }

  /** The part of one attempt that wires adapters into the services. */
  predicate InWiringPhase(pc: Thread) {
    pc.Inject? || pc.ApplyBundle? || pc.NewEmbedder? || pc.NewEnvector? || pc.OpenIndex?
  }

  function WiringPhaseStep(s: Sys, t: nat, o: Outcome): Sys
    requires t < |s.threads| && InWiringPhase(s.threads[t])
  {
    match s.threads[t]
    case Inject(_, _, _, _) => InjectStep(s, t)
    case ApplyBundle(a, k) =>
      Record(s, t, s.books.(wiring := s.books.wiring.(bundles := s.books.wiring.bundles.Put(k, a))),
             if k < 2 then ApplyBundle(a, k + 1) else NewEmbedder(a))
    case NewEmbedder(a) =>
      if o == Success then Record(s, t, s.books.(created := s.books.created + {Client(Embedder, a)}), Inject(Embedder, a, None, 0))
      else To(s, t, LoopTop)
    case NewEnvector(a) =>
      if o == Success then Record(s, t, s.books.(created := s.books.created + {Client(Envector, a)}), OpenIndex(a))
      else To(s, t, LoopTop)
    case OpenIndex(a) =>
      To(s, t, if o == Success then Inject(Envector, a, None, 0) else CloseLocal(Client(Envector, a)))
  }

  function RunThread(s: Sys, t: nat, o: Outcome): Sys
    requires t < |s.threads|
  {
    var pc := s.threads[t];
    if InRetrigger(pc) then RetriggerStep(s, t)
    else if InLoop(pc) then LoopStep(s, t)
    else if InVaultPhase(pc) then VaultPhaseStep(s, t, o)
    else WiringPhaseStep(s, t, o)
  }

  predicate Enabled(s: Sys, step: Step) {
    match step
    case Run(t, _) => t < |s.threads|
    case Arrive => true
    case CloseDue(c) => c in s.books.pending
    case Cancel => true
  }

  function Apply(s: Sys, step: Step): Sys
    requires Enabled(s, step)
  {
    match step
    case Run(t, o) => RunThread(s, t, o)
    case Arrive => s.(threads := s.threads + [CallerLoad])
    case CloseDue(c) =>
      s.(books := s.books.(pending := s.books.pending - multiset{c}, closed := s.books.closed + multiset{c}))
    case Cancel => s.(cancelled := true)
  }

  ghost predicate Next(s: Sys, s': Sys) {
    exists step :: Enabled(s, step) && s' == Apply(s, step)
  }

  /** Every interleaving: any schedule of any number of callers, loops and closes. */
  ghost predicate IsRun(run: seq<Sys>) {
    Runs.IsPath(run, Next) && run[0] == Init()
  }

  /** Some schedule leads from s to e. */
  ghost predicate Reaches(s: Sys, e: Sys) {
    Runs.Reaches(s, e, Next)
  }

  lemma ReachesNext(s: Sys, e: Sys, step: Step)
    requires Reaches(s, e) && Enabled(e, step)
    ensures Reaches(s, Apply(e, step))
  {
    assert Next(e, Apply(e, step));
    Runs.OneMore(s, e, Apply(e, step), Next);
  }

  // ---------------------------------------------------------------- the token

  /** Threads that own the right to boot. */
  predicate HasToken(pc: Thread) {
    match pc
    case CallerLoad => false
    case CallerCasActive => false
    case CallerCasDormant => false
    case Tail(_) => false
    case Done => false
    case _ => true
  }

  /** Token holders whose loop has not begun. */
  predicate BeforeLoop(pc: Thread) {
    pc.MainSetReload? || pc.MainSpawn? || pc.CallerClaimed? || pc.LoopSpawned?
  }

  predicate Booting(m: Mode) {
    m == Starting || m == WaitingForVault
  }

  function Holders(s: Sys): set<nat> {
    set t: nat | t < |s.threads| && HasToken(s.threads[t])
  }

  ghost predicate TokenInv(s: Sys) {
    && (forall t, u | 0 <= t < |s.threads| && 0 <= u < |s.threads| && HasToken(s.threads[t]) && HasToken(s.threads[u]) :: t == u)
    && (forall t | 0 <= t < |s.threads| && HasToken(s.threads[t]) :: Booting(s.mode))
    && (forall t | 0 <= t < |s.threads| && BeforeLoop(s.threads[t]) :: s.mode == Starting)
    && (!s.cancelled && Booting(s.mode) ==> exists t :: 0 <= t < |s.threads| && HasToken(s.threads[t]))
  }

  /** What one thread's step may do to the token: keep it, hand it to a fresh loop, give it up, or claim it. */
  ghost predicate TokenMove(s: Sys, s': Sys, t: nat)
    requires t < |s.threads|
  {
    && |s.threads| <= |s'.threads| <= |s.threads| + 1
    && s'.cancelled == s.cancelled
    && (forall u | 0 <= u < |s.threads| && u != t :: s'.threads[u] == s.threads[u])
    && var before, after := s.threads[t], s'.threads[t];
       var spawned := |s'.threads| > |s.threads|;
       && (spawned ==> HasToken(before) && !HasToken(after) && s'.threads[|s.threads|] == LoopSpawned && s'.mode == s.mode == Starting)
       && (HasToken(before) && HasToken(after) ==> Booting(s'.mode) && (BeforeLoop(after) ==> s'.mode == Starting))
       && (HasToken(before) && !HasToken(after) && !spawned ==> s.cancelled || !Booting(s'.mode))
       && (!HasToken(before) && HasToken(after) ==> !Booting(s.mode) && s'.mode == Starting)
       && (!HasToken(before) && !HasToken(after) ==> s'.mode == s.mode)
  }

  lemma RetriggerIsTokenMove(s: Sys, t: nat)
    requires TokenInv(s) && t < |s.threads| && InRetrigger(s.threads[t])
    ensures TokenMove(s, RetriggerStep(s, t), t)
  {
    assert HasToken(s.threads[t]) ==> Booting(s.mode);
    assert BeforeLoop(s.threads[t]) ==> s.mode == Starting;
  }

  lemma LoopIsTokenMove(s: Sys, t: nat)
    requires TokenInv(s) && t < |s.threads| && InLoop(s.threads[t])
    ensures TokenMove(s, LoopStep(s, t), t)
    ensures HasToken(s.threads[t]) && !HasToken(LoopStep(s, t).threads[t]) ==> s.cancelled || LoopStep(s, t).mode == Active
  {
    assert HasToken(s.threads[t]) ==> Booting(s.mode);
    assert BeforeLoop(s.threads[t]) ==> s.mode == Starting;
  }

  /** The steps of this phase that write the state word. */
  predicate StoresMode(pc: Thread) {
    pc.StoreDormant? || pc.StoreWaiting?
  }

  lemma VaultPhaseStaysPut(s: Sys, t: nat, o: Outcome)
    requires t < |s.threads| && InVaultPhase(s.threads[t]) && !StoresMode(s.threads[t])
    ensures var s' := VaultPhaseStep(s, t, o);
      && s'.mode == s.mode && s'.cancelled == s.cancelled && |s'.threads| == |s.threads|
      && s'.threads == s.threads[t := s'.threads[t]]
      && HasToken(s'.threads[t]) && !BeforeLoop(s'.threads[t])
  {
  }

  lemma VaultPhaseIsTokenMove(s: Sys, t: nat, o: Outcome)
    requires TokenInv(s) && t < |s.threads| && InVaultPhase(s.threads[t])
    ensures TokenMove(s, VaultPhaseStep(s, t, o), t)
    ensures HasToken(VaultPhaseStep(s, t, o).threads[t]) <==> VaultPhaseStep(s, t, o).mode != Dormant
  {
    assert HasToken(s.threads[t]) && Booting(s.mode);
    if !StoresMode(s.threads[t]) {
      VaultPhaseStaysPut(s, t, o);
    }
  }

  lemma WiringPhaseIsTokenMove(s: Sys, t: nat, o: Outcome)
    requires TokenInv(s) && t < |s.threads| && InWiringPhase(s.threads[t])
    ensures TokenMove(s, WiringPhaseStep(s, t, o), t)
    ensures HasToken(WiringPhaseStep(s, t, o).threads[t]) && WiringPhaseStep(s, t, o).mode == s.mode
  {
    assert HasToken(s.threads[t]) ==> Booting(s.mode);
    assert BeforeLoop(s.threads[t]) ==> s.mode == Starting;
  }

  lemma RunIsTokenMove(s: Sys, t: nat, o: Outcome)
    requires TokenInv(s) && t < |s.threads|
    ensures TokenMove(s, RunThread(s, t, o), t)
  {
    var pc := s.threads[t];
    if InRetrigger(pc) {
      RetriggerIsTokenMove(s, t);
    } else if InLoop(pc) {
      LoopIsTokenMove(s, t);
    } else if InVaultPhase(pc) {
      VaultPhaseIsTokenMove(s, t, o);
    } else {
      WiringPhaseIsTokenMove(s, t, o);
    }
  }

  lemma TokenMoveKeeps(s: Sys, s': Sys, t: nat)
    requires TokenInv(s) && t < |s.threads| && TokenMove(s, s', t)
    ensures TokenInv(s')
  {
    if !s'.cancelled && Booting(s'.mode) && !HasToken(s'.threads[t]) {
      if HasToken(s.threads[t]) {
        assert HasToken(s'.threads[|s.threads|]);
      } else {
        var u :| 0 <= u < |s.threads| && HasToken(s.threads[u]);
        assert HasToken(s'.threads[u]);
      }
    }
  }

  lemma TokenStep(s: Sys, step: Step)
    requires TokenInv(s) && Enabled(s, step)
    ensures TokenInv(Apply(s, step))
  {
    var s' := Apply(s, step);
    if step.Run? {
      RunIsTokenMove(s, step.thread, step.outcome);
      TokenMoveKeeps(s, s', step.thread);
    } else {
      assert forall u | 0 <= u < |s.threads| :: s'.threads[u] == s.threads[u];
      if !s'.cancelled && Booting(s'.mode) {
        var u :| 0 <= u < |s.threads| && HasToken(s.threads[u]);
        assert HasToken(s'.threads[u]);
      }
    }
  }
}
