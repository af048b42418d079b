/**
 * A loop that nobody interrupts takes the interleaved protocol through exactly
 * what the sequential code computes, and what every attempt does with the
 * clients it dials.
 */
module BootRefinement {
  import opened Prelude
  import opened BootProtocol
  import opened BootClients
  import opened AdapterDeps
  import opened BootLoop
  import Runs

  /** The answer the environment gives to the step a thread is about to take. */
  function AnswerTo(pc: Thread, ans: Answers): Outcome {
    var ok :=
      match pc
      case DialVault(_) => ans.dial
      case FetchManifest(_) => ans.manifest
      case SaveKey(_) => ans.save
      case ResolveKeyDir(_) => ans.keyDir
      case NewEmbedder(_) => ans.embedder
      case NewEnvector(_) => ans.envector
      case OpenIndex(_) => ans.index
      case _ => true;
    if pc.LoadConfig? then ans.config else if ok then Success else Failure
  }

  predicate InAttempt(pc: Thread) {
    InVaultPhase(pc) || InWiringPhase(pc)
  }

  /** Bounds the steps left in an attempt. */
  function Left(pc: Thread): nat {
    match pc
    case LoadConfig(_) => 60
    case DialVault(_) => 59
    case FetchManifest(_) => 58
    case SaveKey(_) => 57
    case ResolveKeyDir(_) => 56
    case Inject(kind, _, _, k) => (match kind case Vault => 45 case Embedder => 30 case Envector => 15) + (if k <= 5 then 6 - k else 0)
    case ApplyBundle(_, k) => 41 + (if k <= 2 then 3 - k else 0)
    case NewEmbedder(_) => 40
    case NewEnvector(_) => 25
    case OpenIndex(_) => 24
    case StoreDormant => 3
    case StoreWaiting(_) => 2
    case CloseLocal(_) => 1
    case _ => 0
  }

  lemma VaultPhaseDescends(s: Sys, t: nat, o: Outcome)
    requires t < |s.threads| && InVaultPhase(s.threads[t])
    ensures var s' := VaultPhaseStep(s, t, o); |s'.threads| == |s.threads| && Left(s'.threads[t]) < Left(s.threads[t])
  {
  }

  lemma InjectDescends(s: Sys, t: nat)
    requires t < |s.threads| && s.threads[t].Inject?
    ensures var s' := InjectStep(s, t); |s'.threads| == |s.threads| && Left(s'.threads[t]) < Left(s.threads[t])
  {
  }

  lemma WiringPhaseDescends(s: Sys, t: nat, o: Outcome)
    requires t < |s.threads| && InWiringPhase(s.threads[t])
    ensures var s' := WiringPhaseStep(s, t, o); |s'.threads| == |s.threads| && Left(s'.threads[t]) < Left(s.threads[t])
  {
    if s.threads[t].Inject? {
      InjectDescends(s, t);
    }
  }

  /** The next step of an attempt. */
  function AttemptStep(s: Sys, t: nat, ans: Answers): (s': Sys)
    requires t < |s.threads| && InAttempt(s.threads[t])
    ensures |s'.threads| == |s.threads| && Left(s'.threads[t]) < Left(s.threads[t])
  {
    var o := AnswerTo(s.threads[t], ans);
    if InVaultPhase(s.threads[t]) then
      VaultPhaseDescends(s, t, o);
      VaultPhaseStep(s, t, o)
    else
      WiringPhaseDescends(s, t, o);
      WiringPhaseStep(s, t, o)
  }

  lemma AttemptStepIsRun(s: Sys, t: nat, ans: Answers)
    requires t < |s.threads| && InAttempt(s.threads[t])
    ensures AttemptStep(s, t, ans) == RunThread(s, t, AnswerTo(s.threads[t], ans))
  {
  }

  /** Thread t runs its attempt to the end while nobody else moves. */
  function Finish(s: Sys, t: nat, ans: Answers): (s': Sys)
    requires t < |s.threads|
    ensures |s'.threads| == |s.threads|
    decreases Left(s.threads[t])
  {
    if InAttempt(s.threads[t]) then Finish(AttemptStep(s, t, ans), t, ans) else s
  }

  /** s with thread t elsewhere and this mode and these books. */
  function At(s: Sys, t: nat, mode: Mode, books: Books, pc: Thread): Sys
    requires t < |s.threads|
  {
    s.(mode := mode, books := books, threads := s.threads[t := pc])
  }

  /** Where the loop stands after an attempt with this result. */
  function Where(result: Result, a: nat): Thread {
    match result
    case Retry => LoopTop
    case BootActive => StoreActive(a)
    case BootDormant => Tail(4)
  }

  function Ended(s: Sys, t: nat, r: After, a: nat): Sys
    requires t < |s.threads|
  {
    At(s, t, r.mode, r.books, Where(r.result, a))
  }

  // --------------------------------------------------------- runs of micro-steps

  lemma {:induction false} FinishAfterInject(s: Sys, t: nat, ans: Answers, n: nat)
    requires t < |s.threads|
    ensures |InjectSteps(s, t, n).threads| == |s.threads|
    ensures Finish(s, t, ans) == Finish(InjectSteps(s, t, n), t, ans)
    decreases n
  {
    if n > 0 && s.threads[t].Inject? {
      FinishAfterInject(InjectStep(s, t), t, ans, n - 1);
    }
  }

  lemma FinishInject(s: Sys, t: nat, kind: Kind, a: nat, ans: Answers)
    requires t < |s.threads| && s.threads[t] == Inject(kind, a, None, 0)
    ensures Finish(s, t, ans) == Finish(At(s, t, s.mode, Wire(s.books, Client(kind, a)), AfterInject(kind, a)), t, ans)
  {
    FinishAfterInject(s, t, ans, 6);
    MicroStepsAreInjectAll(s, t, kind, a);
    assert InjectSteps(s, t, 6) == At(s, t, s.mode, Wire(s.books, Client(kind, a)), AfterInject(kind, a));
  }

  lemma FinishBundle(s: Sys, t: nat, a: nat, ans: Answers)
    requires t < |s.threads| && s.threads[t] == ApplyBundle(a, 0)
    ensures Finish(s, t, ans) ==
      Finish(At(s, t, s.mode, s.books.(wiring := BundleAll(s.books.wiring, a)), NewEmbedder(a)), t, ans)
  {
    var s1 := AttemptStep(s, t, ans);
    var s2 := AttemptStep(s1, t, ans);
    var s3 := AttemptStep(s2, t, ans);
    assert Finish(s, t, ans) == Finish(s1, t, ans) == Finish(s2, t, ans) == Finish(s3, t, ans);
    assert s3 == At(s, t, s.mode, s.books.(wiring := BundleAll(s.books.wiring, a)), NewEmbedder(a));
  }

  // ------------------------------------------------------------ one attempt, backwards

  /** Closing its own client is the last thing an attempt does. */
  lemma CloseEnds(s: Sys, t: nat, c: Client, ans: Answers)
    requires t < |s.threads| && s.threads[t] == CloseLocal(c)
    ensures Finish(s, t, ans) == At(s, t, s.mode, CloseNow(s.books, c), LoopTop)
  {
    var s1 := AttemptStep(s, t, ans);
    assert Finish(s, t, ans) == Finish(s1, t, ans) == s1;
  }

  lemma IndexOpens(s: Sys, t: nat, a: nat, ans: Answers)
    requires t < |s.threads| && s.threads[t] == OpenIndex(a) && ans.index
    ensures Finish(s, t, ans) == At(s, t, s.mode, Wire(s.books, Client(Envector, a)), StoreActive(a))
  {
    var s1 := To(s, t, Inject(Envector, a, None, 0));
    assert AttemptStep(s, t, ans) == s1;
    FinishInject(s1, t, Envector, a, ans);
  }

  lemma IndexFails(s: Sys, t: nat, a: nat, ans: Answers)
    requires t < |s.threads| && s.threads[t] == OpenIndex(a) && !ans.index
    ensures Finish(s, t, ans) == At(s, t, s.mode, CloseNow(s.books, Client(Envector, a)), LoopTop)
  {
    var s1 := To(s, t, CloseLocal(Client(Envector, a)));
    assert AttemptStep(s, t, ans) == s1;
    CloseEnds(s1, t, Client(Envector, a), ans);
  }

  lemma FinishEnvector(s: Sys, t: nat, a: nat, ans: Answers)
    requires t < |s.threads| && s.threads[t] == NewEnvector(a)
    ensures Finish(s, t, ans) == Ended(s, t, EnvectorPart(s.mode, s.books, a, ans), a)
  {
    var s1 := AttemptStep(s, t, ans);
    assert Finish(s, t, ans) == Finish(s1, t, ans);
    if ans.envector {
      assert s1 == At(s, t, s.mode, Dial(s.books, Client(Envector, a)), OpenIndex(a));
      if ans.index {
        IndexOpens(s1, t, a, ans);
      } else {
        IndexFails(s1, t, a, ans);
      }
    }
  }

  lemma FinishEmbedder(s: Sys, t: nat, a: nat, ans: Answers)
    requires t < |s.threads| && s.threads[t] == NewEmbedder(a)
    ensures Finish(s, t, ans) == Ended(s, t, EmbedderPart(s.mode, s.books, a, ans), a)
  {
    var s1 := AttemptStep(s, t, ans);
    assert Finish(s, t, ans) == Finish(s1, t, ans);
    if ans.embedder {
      FinishInject(s1, t, Embedder, a, ans);
      var s2 := At(s1, t, s.mode, Wire(s1.books, Client(Embedder, a)), NewEnvector(a));
      FinishEnvector(s2, t, a, ans);
    }
  }

  lemma FinishVault(s: Sys, t: nat, a: nat, ans: Answers)
    requires t < |s.threads| && s.threads[t] == FetchManifest(a)
    ensures Finish(s, t, ans) == Ended(s, t, VaultPart(s.mode, s.books, a, ans), a)
  {
    var s1 := AttemptStep(s, t, ans);
    assert Finish(s, t, ans) == Finish(s1, t, ans);
    if !ans.manifest {
      var s2 := AttemptStep(s1, t, ans);
      assert Finish(s1, t, ans) == Finish(s2, t, ans);
      CloseEnds(s2, t, Client(Vault, a), ans);
    } else {
      FinishKeys(s1, t, a, ans);
    }
  }

  lemma SaveFails(s: Sys, t: nat, a: nat, ans: Answers)
    requires t < |s.threads| && s.threads[t] == SaveKey(a) && !ans.save
    ensures Finish(s, t, ans) == At(s, t, s.mode, CloseNow(s.books, Client(Vault, a)), LoopTop)
  {
    var s1 := To(s, t, CloseLocal(Client(Vault, a)));
    assert AttemptStep(s, t, ans) == s1;
    CloseEnds(s1, t, Client(Vault, a), ans);
  }

  lemma KeyDirFails(s: Sys, t: nat, a: nat, ans: Answers)
    requires t < |s.threads| && s.threads[t] == ResolveKeyDir(a) && !ans.keyDir
    ensures Finish(s, t, ans) == At(s, t, s.mode, Lose(s.books, Client(Vault, a)), LoopTop)
  {
    var s1 := AttemptStep(s, t, ans);
    assert Finish(s, t, ans) == Finish(s1, t, ans) == s1;
  }

  lemma FinishKeys(s: Sys, t: nat, a: nat, ans: Answers)
    requires t < |s.threads| && s.threads[t] == SaveKey(a) && ans.manifest
    ensures Finish(s, t, ans) == Ended(s, t, VaultPart(s.mode, s.books, a, ans), a)
  {
    if !ans.save {
      SaveFails(s, t, a, ans);
    } else {
      var s1 := To(s, t, ResolveKeyDir(a));
      assert AttemptStep(s, t, ans) == s1;
      if ans.keyDir {
        var s2 := To(s1, t, Inject(Vault, a, None, 0));
        assert AttemptStep(s1, t, ans) == s2;
        FinishWiring(s2, t, a, ans);
      } else {
        KeyDirFails(s1, t, a, ans);
      }
    }
  }

  lemma FinishWiring(s: Sys, t: nat, a: nat, ans: Answers)
    requires t < |s.threads| && s.threads[t] == Inject(Vault, a, None, 0)
    ensures
      var wired := Wire(s.books, Client(Vault, a));
      Finish(s, t, ans) == Ended(s, t, EmbedderPart(s.mode, wired.(wiring := BundleAll(wired.wiring, a)), a, ans), a)
  {
    FinishInject(s, t, Vault, a, ans);
    var wired := Wire(s.books, Client(Vault, a));
    var s1 := At(s, t, s.mode, wired, ApplyBundle(a, 0));
    FinishBundle(s1, t, a, ans);
    var s2 := At(s1, t, s.mode, wired.(wiring := BundleAll(wired.wiring, a)), NewEmbedder(a));
    FinishEmbedder(s2, t, a, ans);
  }

  lemma FinishAttempt(s: Sys, t: nat, a: nat, ans: Answers)
    requires t < |s.threads| && s.threads[t] == LoadConfig(a)
    ensures Finish(s, t, ans) == Ended(s, t, Attempt(s.mode, s.books, a, ans), a)
  {
    var s1 := AttemptStep(s, t, ans);
    assert Finish(s, t, ans) == Finish(s1, t, ans);
    match ans.config
    case Failure => assert Finish(s1, t, ans) == s1;
    case Unconfigured =>
      var s2 := AttemptStep(s1, t, ans);
      assert Finish(s1, t, ans) == Finish(s2, t, ans) == s2;
    case Success =>
      var s2 := AttemptStep(s1, t, ans);
      assert Finish(s1, t, ans) == Finish(s2, t, ans);
      if ans.dial {
        FinishVault(s2, t, a, ans);
      } else {
        var s3 := AttemptStep(s2, t, ans);
        assert Finish(s2, t, ans) == Finish(s3, t, ans) == s3;
      }
  }

  /** Finishing an attempt is a schedule of the protocol. */
  lemma {:induction false} FinishReaches(s: Sys, e: Sys, t: nat, ans: Answers)
    requires t < |e.threads| && Reaches(s, e)
    ensures Reaches(s, Finish(e, t, ans))
    decreases Left(e.threads[t])
  {
    if InAttempt(e.threads[t]) {
      AttemptStepIsRun(e, t, ans);
      ReachesNext(s, e, Run(t, AnswerTo(e.threads[t], ans)));
      FinishReaches(s, AttemptStep(e, t, ans), t, ans);
    }
  }

  /** An attempt that nobody interrupts is a schedule of the protocol, and leads where BootOnce does. */
  lemma AttemptAloneIsBootOnce(s: Sys, t: nat, a: nat, ans: Answers)
    requires t < |s.threads| && s.threads[t] == LoadConfig(a)
    ensures Reaches(s, Finish(s, t, ans))
    ensures Finish(s, t, ans) == Ended(s, t, Attempt(s.mode, s.books, a, ans), a)
  {
    Runs.Here(s, Next);
    FinishReaches(s, s, t, ans);
    FinishAttempt(s, t, a, ans);
  }

  // ------------------------------------------------------------------- the whole loop

  function Publish(s: Sys, t: nat): (s': Sys)
    requires t < |s.threads|
    ensures |s'.threads| == |s.threads|
  {
    if s.threads[t].StoreActive? then LoopStep(s, t) else s
  }

  /** From the top of the loop through one attempt, and through the store of Active if that is what it comes to. */
  function Round(s: Sys, t: nat, ans: Answers): (s': Sys)
    requires t < |s.threads| && s.threads[t] == LoopTop && !s.cancelled
    ensures |s'.threads| == |s.threads|
  {
    Publish(Finish(LoopStep(s, t), t, ans), t)
  }

  /** The loop from its top, alone, with one element of answers for each attempt. */
  function AttemptsAlone(s: Sys, t: nat, answers: seq<Answers>): (s': Sys)
    requires t < |s.threads|
    ensures |s'.threads| == |s.threads|
    decreases |answers|
  {
    if |answers| == 0 then s
    else
      var s1 := AttemptsAlone(s, t, answers[..|answers| - 1]);
      if s1.threads[t] == LoopTop && !s1.cancelled then Round(s1, t, answers[|answers| - 1]) else s1
  }

  lemma LoopStepReaches(s: Sys, e: Sys, t: nat)
    requires t < |e.threads| && InLoop(e.threads[t]) && Reaches(s, e)
    ensures Reaches(s, LoopStep(e, t))
  {
    ReachesNext(s, e, Run(t, Success));
  }

  lemma RoundReaches(s: Sys, e: Sys, t: nat, ans: Answers)
    requires t < |e.threads| && e.threads[t] == LoopTop && !e.cancelled && Reaches(s, e)
    ensures Reaches(s, Round(e, t, ans))
  {
    LoopStepReaches(s, e, t);
    var top := LoopStep(e, t);
    FinishReaches(s, top, t, ans);
    var end := Finish(top, t, ans);
    if end.threads[t].StoreActive? {
      LoopStepReaches(s, end, t);
    }
  }

  lemma {:induction false} AttemptsReach(s: Sys, e: Sys, t: nat, answers: seq<Answers>)
    requires t < |e.threads| && Reaches(s, e)
    ensures Reaches(s, AttemptsAlone(e, t, answers))
    decreases |answers|
  {
    if |answers| > 0 {
      var n := |answers| - 1;
      AttemptsReach(s, e, t, answers[..n]);
      var last := AttemptsAlone(e, t, answers[..n]);
      if last.threads[t] == LoopTop && !last.cancelled {
        RoundReaches(s, last, t, answers[n]);
      }
    }
  }

  /** Where the loop stands when it has published its result. */
  function Published(result: Result): Thread {
    match result
    case Retry => LoopTop
    case BootActive => Tail(3)
    case BootDormant => Tail(4)
  }

  /** Mode, books and cancellation of s' as thread t leaves them with this outcome. */
  predicate Leaves(s: Sys, s': Sys, t: nat, r: After)
    requires t < |s'.threads|
  {
    s'.mode == r.mode && s'.books == r.books && s'.threads[t] == Published(r.result) && s'.cancelled == s.cancelled
  }

  lemma EndedLeaves(s: Sys, t: nat, r: After, a: nat)
    requires t < |s.threads|
    ensures Leaves(s, Publish(Ended(s, t, r, a), t), t, Settled(r))
  {
  }

  lemma RoundIsAttempt(s: Sys, t: nat, ans: Answers)
    requires t < |s.threads| && s.threads[t] == LoopTop && !s.cancelled
    ensures Leaves(s, Round(s, t, ans), t, Settled(Attempt(s.mode, Numbered(s.books), s.books.nextAttempt, ans)))
  {
    var s0 := LoopStep(s, t);
    var a := s.books.nextAttempt;
    assert s0.mode == s.mode && s0.books == Numbered(s.books) && s0.cancelled == s.cancelled && s0.threads[t] == LoadConfig(a);
    var r := AttemptEnds(s0, t, a, ans);
    EndedLeaves(s0, t, r, a);
  }

  lemma AttemptEnds(s: Sys, t: nat, a: nat, ans: Answers) returns (r: After)
    requires t < |s.threads| && s.threads[t] == LoadConfig(a)
    ensures r == Attempt(s.mode, s.books, a, ans) && Finish(s, t, ans) == Ended(s, t, r, a)
  {
    r := Attempt(s.mode, s.books, a, ans);
    FinishAttempt(s, t, a, ans);
  }

  lemma {:induction false} AttemptsAloneAreLoop(s: Sys, t: nat, answers: seq<Answers>)
    requires t < |s.threads| && s.threads[t] == LoopTop && !s.cancelled
    ensures Leaves(s, AttemptsAlone(s, t, answers), t, Loop(s.mode, s.books, answers))
    decreases |answers|
  {
    if |answers| > 0 {
      var n := |answers| - 1;
      AttemptsAloneAreLoop(s, t, answers[..n]);
      var s1 := AttemptsAlone(s, t, answers[..n]);
      if s1.threads[t] == LoopTop {
        RoundIsAttempt(s1, t, answers[n]);
      }
    }
  }

  /**
   * A spawned loop that nobody interrupts is a schedule of the protocol, and
   * leaves the state and the books that RunBootLoop leaves.
   */
  lemma LoopAloneIsRunBootLoop(s: Sys, t: nat, answers: seq<Answers>)
    requires t < |s.threads| && s.threads[t] == LoopSpawned && !s.cancelled
    ensures var s' := AttemptsAlone(LoopStep(s, t), t, answers);
      Reaches(s, s') && Leaves(s, s', t, Loop(Starting, s.books, answers))
  {
    Runs.Here(s, Next);
    LoopStepReaches(s, s, t);
    AttemptsReach(s, LoopStep(s, t), t, answers);
    AttemptsAloneAreLoop(LoopStep(s, t), t, answers);
  }

  // ----------------------------------------------------- what an attempt leaves behind

  lemma WireBalances(b: Books, c: Client)
    requires Balanced(b, {c}) && OfKind(b.wiring.Of(c.kind).deps, c.kind)
    ensures Balanced(Wire(b, c), {})
  {
    var b' := Wire(b, c);
    assert Places(b, {c}, c) <= 1;
    forall d: Client
      ensures Places(b', {}, d) == if d in b'.created then 1 else 0
    {
      assert Places(b, {c}, d) == if d in b.created then 1 else 0;
    }
  }

  /** Dialling a client and wiring it into the services. */
  lemma DialAndWire(b: Books, c: Client)
    requires Balanced(b, {}) && c !in b.created && OfKind(b.wiring.Of(c.kind).deps, c.kind)
    ensures Balanced(Wire(Dial(b, c), c), {})
  {
    Dialled(b, {}, c);
    assert {} + {c} == {c};
    WireBalances(Dial(b, c), c);
  }

  /** Dialling a client and closing it at once. */
  lemma DialAndClose(b: Books, c: Client)
    requires Balanced(b, {}) && c !in b.created
    ensures Balanced(CloseNow(Dial(b, c), c), {}) && Balanced(Lose(Dial(b, c), c), {})
  {
    Dialled(b, {}, c);
    assert {} + {c} == {c} && {c} - {c} == {};
    Closed(Dial(b, c), {c}, c);
    Dropped(Dial(b, c), {c}, c);
  }

  lemma EnvectorPartBalances(mode: Mode, b: Books, a: nat, ans: Answers)
    requires Balanced(b, {}) && Client(Envector, a) !in b.created && OfKind(b.wiring.envector.deps, Envector)
    ensures Balanced(EnvectorPart(mode, b, a, ans).books, {})
  {
    DialAndWire(b, Client(Envector, a));
    DialAndClose(b, Client(Envector, a));
  }

  lemma EmbedderPartBalances(mode: Mode, b: Books, a: nat, ans: Answers)
    requires Balanced(b, {}) && Client(Embedder, a) !in b.created && Client(Envector, a) !in b.created
    requires OfKind(b.wiring.embedder.deps, Embedder) && OfKind(b.wiring.envector.deps, Envector)
    ensures Balanced(EmbedderPart(mode, b, a, ans).books, {})
  {
    var c := Client(Embedder, a);
    DialAndWire(b, c);
    if ans.embedder {
      EnvectorPartBalances(mode, Wire(Dial(b, c), c), a, ans);
    }
  }

  /** The answers with which an attempt ends at the key directory. */
  predicate LosesVault(ans: Answers) {
    ans.config == Success && ans.dial && ans.manifest && ans.save && !ans.keyDir
  }

  /**
   * However an attempt ends, it keeps no client to itself: each one it dialled
   * is injected, closed or awaiting its close, unless the key directory could
   * not be resolved; and it succeeds exactly when every answer is good.
   */
  lemma AttemptKeepsNothing(mode: Mode, b: Books, a: nat, ans: Answers)
    requires Balanced(b, {}) && Named(b) && Undialled(b, a, Vault)
    ensures var r := Attempt(mode, b, a, ans);
      && Balanced(r.books, {})
      && r.books.dropped == (if LosesVault(ans) then b.dropped + multiset{Client(Vault, a)} else b.dropped)
      && (r.result == BootActive ==> FullyWired(r.books.wiring, a))
      && (r.result == BootActive <==>
            ans.config == Success && ans.dial && ans.manifest && ans.save && ans.keyDir && ans.embedder && ans.envector && ans.index)
  {
    var c := Client(Vault, a);
    DialAndWire(b, c);
    DialAndClose(b, c);
    if ans.config == Success && ans.dial && ans.manifest && ans.save && ans.keyDir {
      var wired := Wire(Dial(b, c), c);
      var bundled := wired.(wiring := BundleAll(wired.wiring, a));
      Untouched(wired, bundled, {});
      EmbedderPartBalances(mode, bundled, a, ans);
    }
  }

  /** The answers with which an attempt stores the key and goes on. */
  predicate KeySaved(ans: Answers) {
    ans.config == Success && ans.dial && ans.manifest && ans.save
  }

  /** Every client dialled between the two has been closed. */
  ghost predicate ClosedAll(before: Books, after: Books) {
    forall c | c in after.created && c !in before.created :: after.closed[c] == 1
  }

  lemma NotYetClosed(b: Books, c: Client)
    requires Balanced(b, {}) && c !in b.created
    ensures b.closed[c] == 0 && !Injected(b, c)
  {
    assert Places(b, {}, c) == 0;
  }

  /** A client the wiring has injected stays open through the rest of the attempt. */
  lemma WiringClosesNoVault(mode: Mode, b: Books, a: nat, ans: Answers)
    ensures var r := EmbedderPart(mode, b, a, ans);
      r.books.closed[Client(Vault, a)] == b.closed[Client(Vault, a)] && b.created <= r.books.created
  {
  }

  /**
   * RunBootLoop promises that an attempt that fails closes what it dialled
   * before it is tried again. That holds if and only if it fails before the
   * key is stored: from then on the Vault client is open when the attempt ends.
   */
  lemma FailedAttemptClosesIff(mode: Mode, b: Books, a: nat, ans: Answers)
    requires Balanced(b, {}) && Named(b) && Undialled(b, a, Vault)
    requires Attempt(mode, b, a, ans).result != BootActive
    ensures ClosedAll(b, Attempt(mode, b, a, ans).books) <==> !KeySaved(ans)
  {
    var c, r := Client(Vault, a), Attempt(mode, b, a, ans);
    NotYetClosed(b, c);
    if KeySaved(ans) {
      var wired := Wire(Dial(b, c), c);
      WiringClosesNoVault(mode, wired.(wiring := BundleAll(wired.wiring, a)), a, ans);
      assert c in r.books.created && r.books.closed[c] == 0;
    } else {
      assert forall d | d in r.books.created && d !in b.created :: d == c;
    }
  }

  /** What a failed attempt leaves open is injected, unless it is the Vault client of a failed key directory. */
  lemma LeftOpenIsInjected(mode: Mode, b: Books, a: nat, ans: Answers, c: Client)
    requires Balanced(b, {}) && Named(b) && Undialled(b, a, Vault)
    requires c in Attempt(mode, b, a, ans).books.created && c !in b.created
    ensures var after := Attempt(mode, b, a, ans).books;
      after.closed[c] == 0 && after.pending[c] == 0 <==> Injected(after, c) || (LosesVault(ans) && c == Client(Vault, a))
  {
    var after := Attempt(mode, b, a, ans).books;
    AttemptKeepsNothing(mode, b, a, ans);
    NotYetClosed(b, c);
    assert Places(b, {}, c) == 0;
    assert Places(after, {}, c) == 1;
  }

  const NO_BUNDLE := Bundle(0, "", [], "", "", "")

  /** The first attempt fails to open the index: two clients stay injected and open, and the attempt is retried. */
  lemma IndexFailureKeepsTwoOpen()
    ensures
      var ans := Answers(Success, true, true, NO_BUNDLE, true, true, true, true, false);
      var r := Attempt(Starting, Numbered(NO_BOOKS), 0, ans);
      && r.result == Retry && r.books.closed == multiset{Client(Envector, 0)}
      && r.books.pending == multiset{} && r.books.dropped == multiset{}
      && Injected(r.books, Client(Vault, 0)) && Injected(r.books, Client(Embedder, 0))
  {
  }

  lemma AttemptStartsBalanced(run: seq<Sys>, i: nat, t: nat, a: nat)
    requires IsRun(run) && i < |run| && t < |run[i].threads| && run[i].threads[t] == LoadConfig(a)
    ensures Balanced(run[i].books, {}) && Named(run[i].books) && Undialled(run[i].books, a, Vault)
  {
    RunKeeps(run, i);
    assert HasToken(run[i].threads[t]);
    assert HolderInv(run[i].books, run[i].threads[t]);
  }

  /**
   * The promise of RunBootLoop over runs: from any attempt that any run has
   * reached, the attempt can go on to fail, and when it has, the clients it
   * dialled are all closed if and only if the key was not stored; those left
   * open are injected, but for the Vault client of a failed key directory.
   */
  lemma FailedAttemptOfRun(run: seq<Sys>, i: nat, t: nat, a: nat, ans: Answers)
    requires IsRun(run) && i < |run| && t < |run[i].threads| && run[i].threads[t] == LoadConfig(a)
    ensures var before, s := run[i].books, Finish(run[i], t, ans);
      && Reaches(run[i], s) && Reaches(Init(), s)
      && (s.threads[t] == LoopTop ==> (ClosedAll(before, s.books) <==> !KeySaved(ans)))
      && forall c | c in s.books.created && c !in before.created ::
           s.books.closed[c] == 0 && s.books.pending[c] == 0 <==>
           Injected(s.books, c) || (LosesVault(ans) && c == Client(Vault, a))
  {
    AttemptStartsBalanced(run, i, t, a);
    AttemptAloneIsBootOnce(run[i], t, a, ans);
    Runs.Here(Init(), Next);
    Runs.PathThen(Init(), run, i, Next);
    Runs.Compose(Init(), run[i], Finish(run[i], t, ans), Next);
    var before, r := run[i].books, Attempt(run[i].mode, run[i].books, a, ans);
    if r.result != BootActive {
      FailedAttemptClosesIff(run[i].mode, before, a, ans);
    }
    forall c | c in r.books.created && c !in before.created
      ensures r.books.closed[c] == 0 && r.books.pending[c] == 0 <==>
              Injected(r.books, c) || (LosesVault(ans) && c == Client(Vault, a))
    {
      LeftOpenIsInjected(run[i].mode, before, a, ans, c);
    }
  }
}
