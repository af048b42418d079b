/**
 * What becomes of the clients a boot attempt creates, over every run of the
 * boot protocol: where each one is, how often it is closed, and what the
 * services hold while the state is Active.
 */
module BootClients {
  import opened Prelude
  import opened BootProtocol

  /** Clients only the given thread can reach. */
  function Locals(pc: Thread): set<Client> {
    match pc
    case FetchManifest(a) => {Client(Vault, a)}
    case SaveKey(a) => {Client(Vault, a)}
    case ResolveKeyDir(a) => {Client(Vault, a)}
    case StoreWaiting(drop) => if drop.Some? then {drop.value} else {}
    case CloseLocal(c) => {c}
    case Inject(kind, a, prev, k) =>
      if k <= 1 then {Client(kind, a)} else if prev.Some? then {prev.value} else {}
    case OpenIndex(a) => {Client(Envector, a)}
    case _ => {}
  }

  predicate Injected(b: Books, c: Client) {
    b.wiring.Of(c.kind).deps == Some(c)
  }

  /** In how many of its possible places a client is: local, injected, awaiting close, closed, dropped. */
  function Places(b: Books, local: set<Client>, c: Client): nat {
    (if c in local then 1 else 0) + (if Injected(b, c) then 1 else 0) + b.pending[c] + b.closed[c] + b.dropped[c]
  }

  /** Every created client is in exactly one place, and nothing else is anywhere. */
  ghost predicate Balanced(b: Books, local: set<Client>) {
    forall c: Client :: Places(b, local, c) == if c in b.created then 1 else 0
  }

  predicate OfKind(o: Option<Client>, kind: Kind) {
    o.Some? ==> o.value.kind == kind
  }

  /** Slots hold clients of their own kind, attempt numbers are fresh, and each dropped client is a failed key directory. */
  ghost predicate Named(b: Books) {
    && OfKind(b.wiring.vault.deps, Vault) && OfKind(b.wiring.embedder.deps, Embedder) && OfKind(b.wiring.envector.deps, Envector)
    && (forall c | c in b.created :: c.attempt < b.nextAttempt)
    && |b.dropped| == b.keyDirFailures
  }

  predicate FullyWired(w: Wiring, a: nat) {
    && w.vault == Mixed(4, Client(Vault, a), None)
    && w.embedder == Mixed(4, Client(Embedder, a), None)
    && w.envector == Mixed(4, Client(Envector, a), None)
    && w.bundles == Bundles(Some(a), Some(a), Some(a))
  }

  predicate VaultWired(w: Wiring, a: nat) {
    w.vault == Mixed(4, Client(Vault, a), None) && w.bundles == Bundles(Some(a), Some(a), Some(a))
  }

  predicate AllAgree(w: Wiring) {
    w.vault.Agree() && w.embedder.Agree() && w.envector.Agree()
  }

  predicate AgreeExcept(w: Wiring, kind: Kind) {
    (kind.Vault? || w.vault.Agree()) && (kind.Embedder? || w.embedder.Agree()) && (kind.Envector? || w.envector.Agree())
  }

  /** Attempt a has not dialled this kind of client, nor any that come after it. */
  predicate Undialled(b: Books, a: nat, kind: Kind) {
    && a < b.nextAttempt
    && Client(Envector, a) !in b.created
    && (kind.Envector? || Client(Embedder, a) !in b.created)
    && (kind.Vault? ==> Client(Vault, a) !in b.created)
  }

  /** What is known at each point of an attempt. */
  ghost predicate Progress(b: Books, pc: Thread) {
    match pc
    case LoadConfig(a) => AllAgree(b.wiring) && Undialled(b, a, Vault)
    case DialVault(a) => AllAgree(b.wiring) && Undialled(b, a, Vault)
    case FetchManifest(a) => AllAgree(b.wiring) && Undialled(b, a, Embedder)
    case SaveKey(a) => AllAgree(b.wiring) && Undialled(b, a, Embedder)
    case ResolveKeyDir(a) => AllAgree(b.wiring) && Undialled(b, a, Embedder)
    case Inject(kind, a, prev, k) =>
      && k <= 5
      && OfKind(prev, kind)
      && (if k == 0 then AllAgree(b.wiring) && prev.None? else b.wiring.Of(kind) == Mixed(k - 1, Client(kind, a), prev))
      && AgreeExcept(b.wiring, kind)
      && (kind.Vault? ==> Undialled(b, a, Embedder))
      && (kind.Embedder? ==> Undialled(b, a, Envector) && VaultWired(b.wiring, a))
      && (kind.Envector? ==> VaultWired(b.wiring, a) && b.wiring.embedder == Mixed(4, Client(Embedder, a), None))
    case ApplyBundle(a, k) =>
      && k <= 2 && AllAgree(b.wiring) && Undialled(b, a, Embedder)
      && b.wiring.vault == Mixed(4, Client(Vault, a), None) && b.wiring.bundles.Holds(k, a)
    case NewEmbedder(a) => AllAgree(b.wiring) && Undialled(b, a, Embedder) && VaultWired(b.wiring, a)
    case NewEnvector(a) =>
      && AllAgree(b.wiring) && Undialled(b, a, Envector) && VaultWired(b.wiring, a)
      && b.wiring.embedder == Mixed(4, Client(Embedder, a), None)
    case OpenIndex(a) =>
      AllAgree(b.wiring) && VaultWired(b.wiring, a) && b.wiring.embedder == Mixed(4, Client(Embedder, a), None)
    case StoreActive(a) => FullyWired(b.wiring, a)
    case _ => AllAgree(b.wiring)
  }

  ghost predicate HolderInv(b: Books, pc: Thread) {
    Balanced(b, Locals(pc)) && Named(b) && Progress(b, pc)
  }

  /** What holds while nobody has the right to boot. */
  ghost predicate IdleInv(s: Sys) {
    Balanced(s.books, {}) && Named(s.books) && AllAgree(s.books.wiring) && (s.mode == Active ==> FullyWired(s.books.wiring, s.winner))
  }

  ghost predicate ClientInv(s: Sys) {
    && (forall t | 0 <= t < |s.threads| && HasToken(s.threads[t]) :: HolderInv(s.books, s.threads[t]))
    && ((forall t | 0 <= t < |s.threads| :: !HasToken(s.threads[t])) ==> IdleInv(s))
  }

  // ------------------------------------------------ moves between the places

  lemma Dialled(b: Books, local: set<Client>, c: Client)
    requires Balanced(b, local) && c !in b.created
    ensures Balanced(b.(created := b.created + {c}), local + {c})
  {
    var b' := b.(created := b.created + {c});
    assert Places(b, local, c) == 0;
    forall d: Client
      ensures Places(b', local + {c}, d) == if d in b'.created then 1 else 0
    {
      assert Places(b, local, d) == if d in b.created then 1 else 0;
    }
  }

  lemma Closed(b: Books, local: set<Client>, c: Client)
    requires Balanced(b, local) && c in local
    ensures Balanced(b.(closed := b.closed + multiset{c}), local - {c})
  {
    var b' := b.(closed := b.closed + multiset{c});
    forall d: Client
      ensures Places(b', local - {c}, d) == if d in b'.created then 1 else 0
    {
      assert Places(b, local, d) == if d in b.created then 1 else 0;
    }
  }

  lemma Dropped(b: Books, local: set<Client>, c: Client)
    requires Balanced(b, local) && c in local
    ensures Balanced(b.(dropped := b.dropped + multiset{c}, keyDirFailures := b.keyDirFailures + 1), local - {c})
  {
    var b' := b.(dropped := b.dropped + multiset{c}, keyDirFailures := b.keyDirFailures + 1);
    forall d: Client
      ensures Places(b', local - {c}, d) == if d in b'.created then 1 else 0
    {
      assert Places(b, local, d) == if d in b.created then 1 else 0;
    }
  }

  lemma FellDue(b: Books, local: set<Client>, c: Client)
    requires Balanced(b, local) && c in b.pending
    ensures Balanced(b.(pending := b.pending - multiset{c}, closed := b.closed + multiset{c}), local)
  {
    var b' := b.(pending := b.pending - multiset{c}, closed := b.closed + multiset{c});
    forall d: Client
      ensures Places(b', local, d) == if d in b'.created then 1 else 0
    {
      assert Places(b, local, d) == if d in b.created then 1 else 0;
    }
  }

  function Just(o: Option<Client>): set<Client> {
    if o.Some? then {o.value} else {}
  }

  /** Writing the owning slot swaps the new client for the one it replaces. */
  lemma Swapped(b: Books, c: Client)
    requires Balanced(b, {c})
    requires OfKind(b.wiring.Of(c.kind).deps, c.kind)
    ensures
      var slots := b.wiring.Of(c.kind);
      Balanced(b.(wiring := b.wiring.With(c.kind, slots.Put(0, c))), Just(slots.deps))
  {
    var slots := b.wiring.Of(c.kind);
    var b' := b.(wiring := b.wiring.With(c.kind, slots.Put(0, c)));
    assert Places(b, {c}, c) <= 1;
    forall d: Client
      ensures Places(b', Just(slots.deps), d) == if d in b'.created then 1 else 0
    {
      assert Places(b, {c}, d) == if d in b.created then 1 else 0;
    }
  }

  lemma Scheduled(b: Books, prev: Option<Client>, c: Client)
    requires Balanced(b, Just(prev)) && Injected(b, c)
    ensures Balanced(b.(pending := Retire(b.pending, prev, c)), {})
  {
    var b' := b.(pending := Retire(b.pending, prev, c));
    assert Places(b, Just(prev), c) <= 1;
    forall d: Client
      ensures Places(b', {}, d) == if d in b'.created then 1 else 0
    {
      assert Places(b, Just(prev), d) == if d in b.created then 1 else 0;
    }
  }

  /** Writes that leave the owning slots alone move nothing. */
  lemma Untouched(b: Books, b': Books, local: set<Client>)
    requires Balanced(b, local)
    requires b' == b.(wiring := b'.wiring)
    requires b'.wiring.vault.deps == b.wiring.vault.deps
    requires b'.wiring.embedder.deps == b.wiring.embedder.deps
    requires b'.wiring.envector.deps == b.wiring.envector.deps
    ensures Balanced(b', local)
  {
    forall d: Client
      ensures Places(b', local, d) == if d in b'.created then 1 else 0
    {
      assert Places(b, local, d) == if d in b.created then 1 else 0;
    }
  }

  // ------------------------------------------------------------- one attempt

  lemma InjectWriteBalances(b: Books, kind: Kind, a: nat, prev: Option<Client>, k: nat)
    requires 1 <= k <= 4 && Named(b) && Progress(b, Inject(kind, a, prev, k))
    requires Balanced(b, Locals(Inject(kind, a, prev, k)))
    ensures
      var b' := b.(wiring := b.wiring.With(kind, b.wiring.Of(kind).Put(k - 1, Client(kind, a))));
      Balanced(b', Locals(Inject(kind, a, prev, k + 1)))
  {
    var b' := b.(wiring := b.wiring.With(kind, b.wiring.Of(kind).Put(k - 1, Client(kind, a))));
    assert Locals(Inject(kind, a, prev, k + 1)) == Just(prev);
    if k == 1 {
      Swapped(b, Client(kind, a));
    } else {
      assert Locals(Inject(kind, a, prev, k)) == Just(prev);
      Untouched(b, b', Just(prev));
    }
  }

  lemma InjectEndBalances(b: Books, kind: Kind, a: nat, prev: Option<Client>)
    requires Progress(b, Inject(kind, a, prev, 5)) && Balanced(b, Locals(Inject(kind, a, prev, 5)))
    ensures Balanced(b.(pending := Retire(b.pending, prev, Client(kind, a))), Locals(AfterInject(kind, a)))
  {
    assert Locals(Inject(kind, a, prev, 5)) == Just(prev) && Locals(AfterInject(kind, a)) == {};
    Scheduled(b, prev, Client(kind, a));
  }

  lemma InjectBalances(s: Sys, t: nat)
    requires t < |s.threads| && s.threads[t].Inject?
    requires Named(s.books) && Progress(s.books, s.threads[t]) && Balanced(s.books, Locals(s.threads[t]))
    ensures var s' := InjectStep(s, t); Balanced(s'.books, Locals(s'.threads[t]))
  {
    var Inject(kind, a, prev, k) := s.threads[t];
    if 1 <= k <= 4 {
      InjectWriteBalances(s.books, kind, a, prev, k);
    } else if k == 5 {
      InjectEndBalances(s.books, kind, a, prev);
    }
  }

  lemma InjectReads(b: Books, kind: Kind, a: nat)
    requires Named(b) && Progress(b, Inject(kind, a, None, 0))
    ensures Progress(b, Inject(kind, a, b.wiring.Of(kind).deps, 1))
  {
  }

  lemma InjectWrites(b: Books, kind: Kind, a: nat, prev: Option<Client>, k: nat)
    requires 1 <= k <= 4 && Named(b) && Progress(b, Inject(kind, a, prev, k))
    ensures
      var b' := b.(wiring := b.wiring.With(kind, b.wiring.Of(kind).Put(k - 1, Client(kind, a))));
      Named(b') && Progress(b', Inject(kind, a, prev, k + 1))
  {
    assert Mixed(k - 1, Client(kind, a), prev).Put(k - 1, Client(kind, a)) == Mixed(k, Client(kind, a), prev);
  }

  lemma InjectEnds(b: Books, kind: Kind, a: nat, prev: Option<Client>)
    requires Named(b) && Progress(b, Inject(kind, a, prev, 5))
    ensures
      var b' := b.(pending := Retire(b.pending, prev, Client(kind, a)));
      Named(b') && Progress(b', AfterInject(kind, a))
  {
    assert Mixed(4, Client(kind, a), prev) == Mixed(4, Client(kind, a), None);
  }

  lemma InjectProgresses(s: Sys, t: nat)
    requires t < |s.threads| && s.threads[t].Inject? && Named(s.books) && Progress(s.books, s.threads[t])
    ensures var s' := InjectStep(s, t); Named(s'.books) && Progress(s'.books, s'.threads[t])
  {
    var Inject(kind, a, prev, k) := s.threads[t];
    if k == 0 {
      InjectReads(s.books, kind, a);
    } else if k <= 4 {
      InjectWrites(s.books, kind, a, prev, k);
    } else {
      InjectEnds(s.books, kind, a, prev);
    }
  }

  /** The steps of this phase that dial, close or lose a client. */
  predicate MovesVault(pc: Thread, o: Outcome) {
    (pc.DialVault? && o == Success) || (pc.ResolveKeyDir? && o != Success) || pc.CloseLocal?
  }

  lemma VaultPhaseElsewhere(s: Sys, t: nat, o: Outcome)
    requires t < |s.threads| && InVaultPhase(s.threads[t]) && !MovesVault(s.threads[t], o)
    ensures var s' := VaultPhaseStep(s, t, o); s'.books == s.books && Locals(s'.threads[t]) == Locals(s.threads[t])
  {
  }

  lemma VaultMoveBalances(s: Sys, t: nat, o: Outcome)
    requires t < |s.threads| && MovesVault(s.threads[t], o) && Balanced(s.books, Locals(s.threads[t]))
    requires s.threads[t].DialVault? ==> Client(Vault, s.threads[t].attempt) !in s.books.created
    ensures var s' := VaultPhaseStep(s, t, o); Balanced(s'.books, Locals(s'.threads[t]))
  {
    var pc := s.threads[t];
    var after := Locals(VaultPhaseStep(s, t, o).threads[t]);
    if pc.DialVault? {
      Dialled(s.books, {}, Client(Vault, pc.attempt));
      assert after == {} + {Client(Vault, pc.attempt)};
    } else if pc.ResolveKeyDir? {
      Dropped(s.books, Locals(pc), Client(Vault, pc.attempt));
      assert after == Locals(pc) - {Client(Vault, pc.attempt)};
    } else {
      Closed(s.books, Locals(pc), pc.client);
      assert after == Locals(pc) - {pc.client};
    }
  }

  lemma VaultPhaseBalances(s: Sys, t: nat, o: Outcome)
    requires t < |s.threads| && InVaultPhase(s.threads[t]) && Balanced(s.books, Locals(s.threads[t]))
    requires s.threads[t].DialVault? ==> Client(Vault, s.threads[t].attempt) !in s.books.created
    ensures var s' := VaultPhaseStep(s, t, o); Balanced(s'.books, Locals(s'.threads[t]))
  {
    if MovesVault(s.threads[t], o) {
      VaultMoveBalances(s, t, o);
    } else {
      VaultPhaseElsewhere(s, t, o);
    }
  }

  lemma VaultPhaseProgresses(s: Sys, t: nat, o: Outcome)
    requires t < |s.threads| && InVaultPhase(s.threads[t]) && Named(s.books) && Progress(s.books, s.threads[t])
    ensures var s' := VaultPhaseStep(s, t, o); Named(s'.books) && Progress(s'.books, s'.threads[t])
  {
  }

  /** The steps of this phase that dial a client. */
  predicate Dials(pc: Thread, o: Outcome) {
    (pc.NewEmbedder? || pc.NewEnvector?) && o == Success
  }

  lemma WiringPhaseElsewhere(s: Sys, t: nat, o: Outcome)
    requires t < |s.threads| && InWiringPhase(s.threads[t]) && !s.threads[t].Inject? && !Dials(s.threads[t], o)
    ensures var s' := WiringPhaseStep(s, t, o);
      && s'.books == s.books.(wiring := s'.books.wiring) && Locals(s'.threads[t]) == Locals(s.threads[t])
      && s'.books.wiring == s.books.wiring.(bundles := s'.books.wiring.bundles)
  {
  }

  lemma DialBalances(s: Sys, t: nat, o: Outcome)
    requires t < |s.threads| && Dials(s.threads[t], o) && Balanced(s.books, Locals(s.threads[t]))
    requires s.threads[t].NewEmbedder? ==> Client(Embedder, s.threads[t].attempt) !in s.books.created
    requires s.threads[t].NewEnvector? ==> Client(Envector, s.threads[t].attempt) !in s.books.created
    ensures var s' := WiringPhaseStep(s, t, o); Balanced(s'.books, Locals(s'.threads[t]))
  {
    var pc := s.threads[t];
    var c := Client(if pc.NewEmbedder? then Embedder else Envector, pc.attempt);
    Dialled(s.books, {}, c);
    assert Locals(WiringPhaseStep(s, t, o).threads[t]) == {} + {c};
  }

  lemma WiringPhaseBalances(s: Sys, t: nat, o: Outcome)
    requires t < |s.threads| && InWiringPhase(s.threads[t]) && !s.threads[t].Inject? && Balanced(s.books, Locals(s.threads[t]))
    requires s.threads[t].NewEmbedder? ==> Client(Embedder, s.threads[t].attempt) !in s.books.created
    requires s.threads[t].NewEnvector? ==> Client(Envector, s.threads[t].attempt) !in s.books.created
    ensures var s' := WiringPhaseStep(s, t, o); Balanced(s'.books, Locals(s'.threads[t]))
  {
    if Dials(s.threads[t], o) {
      DialBalances(s, t, o);
    } else {
      WiringPhaseElsewhere(s, t, o);
      Untouched(s.books, WiringPhaseStep(s, t, o).books, Locals(s.threads[t]));
    }
  }

  lemma BundleProgresses(s: Sys, t: nat, o: Outcome)
    requires t < |s.threads| && s.threads[t].ApplyBundle? && Named(s.books) && Progress(s.books, s.threads[t])
    ensures var s' := WiringPhaseStep(s, t, o); Named(s'.books) && Progress(s'.books, s'.threads[t])
  {
  }

  lemma DialProgresses(s: Sys, t: nat, o: Outcome)
    requires t < |s.threads| && (s.threads[t].NewEmbedder? || s.threads[t].NewEnvector? || s.threads[t].OpenIndex?)
    requires Named(s.books) && Progress(s.books, s.threads[t])
    ensures var s' := WiringPhaseStep(s, t, o); Named(s'.books) && Progress(s'.books, s'.threads[t])
  {
  }

  lemma WiringPhaseProgresses(s: Sys, t: nat, o: Outcome)
    requires t < |s.threads| && InWiringPhase(s.threads[t]) && !s.threads[t].Inject?
    requires Named(s.books) && Progress(s.books, s.threads[t])
    ensures var s' := WiringPhaseStep(s, t, o); Named(s'.books) && Progress(s'.books, s'.threads[t])
  {
    if s.threads[t].ApplyBundle? {
      BundleProgresses(s, t, o);
    } else {
      DialProgresses(s, t, o);
    }
  }

  lemma AttemptNumbered(b: Books, local: set<Client>)
    requires Balanced(b, local) && Named(b)
    ensures
      var b' := b.(nextAttempt := b.nextAttempt + 1);
      Balanced(b', local) && Named(b') && Undialled(b', b.nextAttempt, Vault)
  {
    var b' := b.(nextAttempt := b.nextAttempt + 1);
    forall d: Client
      ensures Places(b', local, d) == if d in b'.created then 1 else 0
    {
      assert Places(b, local, d) == if d in b.created then 1 else 0;
    }
  }

  /** Where the token is after thread t moved. */
  ghost predicate HandedOn(s: Sys, s': Sys, t: nat)
    requires t < |s.threads| <= |s'.threads|
  {
    if |s'.threads| > |s.threads| then HolderInv(s'.books, LoopSpawned)
    else if HasToken(s'.threads[t]) then HolderInv(s'.books, s'.threads[t])
    else IdleInv(s')
  }

  lemma RetriggerMoves(s: Sys, t: nat)
    requires t < |s.threads| && HasToken(s.threads[t]) && HolderInv(s.books, s.threads[t]) && InRetrigger(s.threads[t])
    ensures |s.threads| <= |RetriggerStep(s, t).threads| && HandedOn(s, RetriggerStep(s, t), t)
  {
    assert Locals(s.threads[t]) == {} == Locals(LoopSpawned);
  }

  lemma LoopMoves(s: Sys, t: nat)
    requires t < |s.threads| && HasToken(s.threads[t]) && HolderInv(s.books, s.threads[t]) && Booting(s.mode) && InLoop(s.threads[t])
    ensures |s.threads| == |LoopStep(s, t).threads| && HandedOn(s, LoopStep(s, t), t)
  {
    var s' := LoopStep(s, t);
    assert Locals(s.threads[t]) == {} == Locals(s'.threads[t]);
    if s.threads[t].LoopTop? && !s.cancelled {
      AttemptNumbered(s.books, {});
      assert HolderInv(s'.books, s'.threads[t]);
    } else {
      assert s'.books == s.books;
    }
  }

  lemma VaultPhaseHolds(s: Sys, t: nat, o: Outcome)
    requires t < |s.threads| && InVaultPhase(s.threads[t]) && HolderInv(s.books, s.threads[t])
    ensures var s' := VaultPhaseStep(s, t, o); HolderInv(s'.books, s'.threads[t])
  {
    VaultPhaseBalances(s, t, o);
    VaultPhaseProgresses(s, t, o);
  }

  lemma StillHolds(s: Sys, s': Sys, t: nat)
    requires t < |s.threads| == |s'.threads| && HasToken(s'.threads[t]) && HolderInv(s'.books, s'.threads[t])
    ensures HandedOn(s, s', t)
  {
  }

  lemma VaultPhaseMoves(s: Sys, t: nat, o: Outcome)
    requires t < |s.threads| && InVaultPhase(s.threads[t]) && HolderInv(s.books, s.threads[t])
    ensures var s' := VaultPhaseStep(s, t, o); |s.threads| == |s'.threads| && HandedOn(s, s', t)
  {
    VaultPhaseHolds(s, t, o);
    var s' := VaultPhaseStep(s, t, o);
    if s.threads[t].StoreDormant? {
      assert s'.threads[t] == Tail(4) && Locals(Tail(4)) == {};
    } else {
      assert HasToken(s'.threads[t]);
      StillHolds(s, s', t);
    }
  }

  lemma WiringPhaseHolds(s: Sys, t: nat, o: Outcome)
    requires t < |s.threads| && InWiringPhase(s.threads[t]) && HolderInv(s.books, s.threads[t])
    ensures var s' := WiringPhaseStep(s, t, o); HolderInv(s'.books, s'.threads[t])
  {
    if s.threads[t].Inject? {
      InjectBalances(s, t);
      InjectProgresses(s, t);
    } else {
      WiringPhaseBalances(s, t, o);
      WiringPhaseProgresses(s, t, o);
    }
  }

  lemma WiringPhaseKeepsToken(s: Sys, t: nat, o: Outcome)
    requires t < |s.threads| && InWiringPhase(s.threads[t])
    ensures var s' := WiringPhaseStep(s, t, o); |s.threads| == |s'.threads| && HasToken(s'.threads[t])
  {
  }

  lemma WiringPhaseMoves(s: Sys, t: nat, o: Outcome)
    requires t < |s.threads| && InWiringPhase(s.threads[t]) && HolderInv(s.books, s.threads[t])
    ensures var s' := WiringPhaseStep(s, t, o); |s.threads| == |s'.threads| && HandedOn(s, s', t)
  {
    WiringPhaseHolds(s, t, o);
    WiringPhaseKeepsToken(s, t, o);
    StillHolds(s, WiringPhaseStep(s, t, o), t);
  }

  lemma BystanderWritesNothing(s: Sys, t: nat, o: Outcome)
    requires t < |s.threads| && !HasToken(s.threads[t])
    ensures RunThread(s, t, o).books == s.books && RunThread(s, t, o).winner == s.winner
  {
  }

  lemma HolderKeeps(s: Sys, s': Sys, t: nat)
    requires TokenInv(s) && t < |s.threads| && HasToken(s.threads[t]) && TokenMove(s, s', t) && HandedOn(s, s', t)
    ensures ClientInv(s')
  {
    if |s'.threads| > |s.threads| {
      assert HasToken(s'.threads[|s.threads|]);
    }
  }

  lemma BystanderKeeps(s: Sys, s': Sys, t: nat)
    requires TokenInv(s) && ClientInv(s) && t < |s.threads| && !HasToken(s.threads[t]) && TokenMove(s, s', t)
    requires s'.books == s.books && s'.winner == s.winner
    requires HasToken(s'.threads[t]) ==> s'.threads[t] == CallerClaimed
    ensures ClientInv(s')
  {
    if HasToken(s'.threads[t]) {
      assert forall u | 0 <= u < |s.threads| :: !HasToken(s.threads[u]);
      assert IdleInv(s);
    } else {
      assert forall u | 0 <= u < |s.threads| :: HasToken(s'.threads[u]) == HasToken(s.threads[u]);
    }
  }

  lemma ClientStep(s: Sys, step: Step)
    requires TokenInv(s) && ClientInv(s) && step.Run? && Enabled(s, step)
    ensures ClientInv(Apply(s, step))
  {
    var t, o := step.thread, step.outcome;
    var s' := RunThread(s, t, o);
    RunIsTokenMove(s, t, o);
    if !HasToken(s.threads[t]) {
      BystanderWritesNothing(s, t, o);
      BystanderKeeps(s, s', t);
    } else {
      if InRetrigger(s.threads[t]) {
        RetriggerMoves(s, t);
      } else if InLoop(s.threads[t]) {
        LoopMoves(s, t);
      } else if InVaultPhase(s.threads[t]) {
        VaultPhaseMoves(s, t, o);
      } else {
        WiringPhaseMoves(s, t, o);
      }
      HolderKeeps(s, s', t);
    }
  }

  function AfterClose(b: Books, c: Client): Books {
    b.(pending := b.pending - multiset{c}, closed := b.closed + multiset{c})
  }

  lemma CloseKeepsHolder(b: Books, c: Client, pc: Thread)
    requires c in b.pending && HolderInv(b, pc)
    ensures HolderInv(AfterClose(b, c), pc)
  {
    FellDue(b, Locals(pc), c);
    assert AfterClose(b, c).wiring == b.wiring && AfterClose(b, c).created == b.created;
  }

  lemma CloseDueStep(s: Sys, c: Client)
    requires ClientInv(s) && c in s.books.pending
    ensures ClientInv(s.(books := AfterClose(s.books, c)))
  {
    var s' := s.(books := AfterClose(s.books, c));
    forall t | 0 <= t < |s.threads| && HasToken(s.threads[t]) ensures HolderInv(s'.books, s'.threads[t]) {
      CloseKeepsHolder(s.books, c, s.threads[t]);
    }
    if forall t | 0 <= t < |s.threads| :: !HasToken(s.threads[t]) {
      FellDue(s.books, {}, c);
    }
  }

  lemma EnvironmentStep(s: Sys, step: Step)
    requires ClientInv(s) && !step.Run? && Enabled(s, step)
    ensures ClientInv(Apply(s, step))
  {
    if step.CloseDue? {
      CloseDueStep(s, step.client);
    } else {
      var s' := Apply(s, step);
      assert s'.books == s.books && forall t | 0 <= t < |s.threads| :: s'.threads[t] == s.threads[t];
    }
  }

  lemma InitiallyBalanced()
    ensures ClientInv(Init()) && TokenInv(Init())
  {
    assert forall c: Client :: Places(NO_BOOKS, {}, c) == 0;
    assert Init().threads[0] == MainSetReload && Locals(MainSetReload) == {};
  }

  lemma StepKeeps(s: Sys, step: Step)
    requires TokenInv(s) && ClientInv(s) && Enabled(s, step)
    ensures TokenInv(Apply(s, step)) && ClientInv(Apply(s, step))
  {
    TokenStep(s, step);
    if step.Run? {
      ClientStep(s, step);
    } else {
      EnvironmentStep(s, step);
    }
  }

  lemma {:induction false} RunKeeps(run: seq<Sys>, i: nat)
    requires IsRun(run) && i < |run|
    ensures TokenInv(run[i]) && ClientInv(run[i])
  {
    if i == 0 {
      InitiallyBalanced();
    } else {
      RunKeeps(run, i - 1);
      assert Next(run[i - 1], run[i]);
      var step :| Enabled(run[i - 1], step) && run[i] == Apply(run[i - 1], step);
      StepKeeps(run[i - 1], step);
    }
  }
}
