/**
 * bootOnce and RunBootLoop as the sequential code they are, over the Manager
 * and Deps objects. BootRefinement ties them to the interleaved protocol.
 */
module BootLoop {
  import opened Prelude
  import opened BootProtocol
  import opened BootClients
  import opened AdapterDeps
  import BootManager

  /** What configuration, Vault, key store and the other daemons answer during one attempt. */
  datatype Answers = Answers(
    config: Outcome,          // Unconfigured: missing, not active, or without Vault credentials
    dial: bool,
    manifest: bool,
    bundle: Bundle,
    save: bool,
    keyDir: bool,
    embedder: bool,
    envector: bool,
    index: bool)

  datatype Result = Retry | BootActive | BootDormant

  datatype After = After(mode: Mode, books: Books, result: Result)

  function Dial(b: Books, c: Client): Books {
    b.(created := b.created + {c})
  }

  function CloseNow(b: Books, c: Client): Books {
    b.(closed := b.closed + multiset{c})
  }

  function Lose(b: Books, c: Client): Books {
    b.(dropped := b.dropped + multiset{c}, keyDirFailures := b.keyDirFailures + 1)
  }

  function Wire(b: Books, c: Client): Books {
    b.(wiring := InjectAll(b.wiring, c), pending := Retire(b.pending, b.wiring.Of(c.kind).deps, c))
  }

  function EnvectorPart(mode: Mode, b: Books, a: nat, ans: Answers): After {
    var c := Client(Envector, a);
    if !ans.envector then After(mode, b, Retry)
    else if !ans.index then After(mode, CloseNow(Dial(b, c), c), Retry)
    else After(mode, Wire(Dial(b, c), c), BootActive)
  }

  function EmbedderPart(mode: Mode, b: Books, a: nat, ans: Answers): After {
    var c := Client(Embedder, a);
    if !ans.embedder then After(mode, b, Retry) else EnvectorPart(mode, Wire(Dial(b, c), c), a, ans)
  }

  function VaultPart(mode: Mode, b: Books, a: nat, ans: Answers): After {
    var c := Client(Vault, a);
    if !ans.manifest then After(WaitingForVault, CloseNow(b, c), Retry)
    else if !ans.save then After(mode, CloseNow(b, c), Retry)
    else if !ans.keyDir then After(mode, Lose(b, c), Retry)
    else
      var wired := Wire(b, c);
      EmbedderPart(mode, wired.(wiring := BundleAll(wired.wiring, a)), a, ans)
  }

  /** What one attempt comes to. */
  function Attempt(mode: Mode, b: Books, a: nat, ans: Answers): After {
    match ans.config
    case Unconfigured => After(Dormant, b, BootDormant)
    case Failure => After(mode, b, Retry)
    case Success =>
      if !ans.dial then After(WaitingForVault, b, Retry) else VaultPart(mode, Dial(b, Client(Vault, a)), a, ans)
  }

  function Numbered(b: Books): Books {
    b.(nextAttempt := b.nextAttempt + 1)
  }

  /** The loop publishes Active itself. */
  function Settled(r: After): After {
    if r.result == BootActive then r.(mode := Active) else r
  }

  /** What the loop comes to with these attempts before its context is cancelled; the first that is no retry ends it. */
  function Loop(mode: Mode, b: Books, answers: seq<Answers>): After
    decreases |answers|
  {
    if |answers| == 0 then After(mode, b, Retry)
    else
      var n := |answers| - 1;
      var r := Loop(mode, b, answers[..n]);
      if r.result != Retry then r
      else Settled(Attempt(r.mode, Numbered(r.books), r.books.nextAttempt, answers[n]))
  }

  lemma OneMoreAttempt(mode: Mode, b: Books, answers: seq<Answers>, k: nat)
    requires k < |answers| && Loop(mode, b, answers[..k]).result == Retry
    ensures var r := Loop(mode, b, answers[..k]);
      Loop(mode, b, answers[..k + 1]) == Settled(Attempt(r.mode, Numbered(r.books), r.books.nextAttempt, answers[k]))
  {
    assert answers[..k + 1][..k] == answers[..k];
  }

  lemma {:induction false} LoopEnds(mode: Mode, b: Books, answers: seq<Answers>, k: nat)
    requires k <= |answers| && Loop(mode, b, answers[..k]).result != Retry
    ensures Loop(mode, b, answers) == Loop(mode, b, answers[..k])
    decreases |answers|
  {
    if k == |answers| {
      assert answers[..k] == answers;
    } else {
      var shorter := answers[..|answers| - 1];
      assert shorter[..k] == answers[..k];
      LoopEnds(mode, b, shorter, k);
    }
  }

  /** Vault could not be dialled or did not send the manifest. */
  predicate VaultDown(ans: Answers) {
    ans.config == Success && (!ans.dial || !ans.manifest)
  }

  predicate AllGood(ans: Answers) {
    ans.config == Success && ans.dial && ans.manifest && ans.save && ans.keyDir && ans.embedder && ans.envector && ans.index
  }

  /** Nothing is left to retry after such an attempt. */
  predicate IsTerminal(ans: Answers) {
    ans.config == Unconfigured || AllGood(ans)
  }

  lemma AttemptOutcome(mode: Mode, b: Books, a: nat, ans: Answers)
    ensures var r := Attempt(mode, b, a, ans);
      && r.result == (if ans.config == Unconfigured then BootDormant else if AllGood(ans) then BootActive else Retry)
      && r.mode == (if ans.config == Unconfigured then Dormant else if VaultDown(ans) then WaitingForVault else mode)
      && r.books.nextAttempt == b.nextAttempt
  {
  }

  /** The answers with which an attempt reaches the injection of Vault, and the opening of the index. */
  predicate VaultReady(ans: Answers) {
    ans.config == Success && ans.dial && ans.manifest && ans.save && ans.keyDir
  }

  predicate Connected(ans: Answers) {
    VaultReady(ans) && ans.embedder && ans.envector
  }

  function Only(c: Client, when: bool): set<Client> {
    if when then {c} else {}
  }

  function OnlyOnce(c: Client, when: bool): multiset<Client> {
    if when then multiset{c} else multiset{}
  }

  lemma RestDials(mode: Mode, b: Books, a: nat, ans: Answers)
    ensures var after := EmbedderPart(mode, b, a, ans).books;
      && after.created == b.created + Only(Client(Embedder, a), ans.embedder) + Only(Client(Envector, a), ans.embedder && ans.envector)
      && after.closed ==
           b.closed + OnlyOnce(Client(Envector, a), ans.embedder && ans.envector && !ans.index)
  {
  }

  /** Which clients one attempt dials, and which of them it closes itself. */
  lemma AttemptDials(mode: Mode, b: Books, a: nat, ans: Answers)
    ensures
      var after, dialled := Attempt(mode, b, a, ans).books, ans.config == Success && ans.dial;
      && after.created == b.created + Only(Client(Vault, a), dialled)
           + Only(Client(Embedder, a), VaultReady(ans) && ans.embedder) + Only(Client(Envector, a), Connected(ans))
      && after.closed == b.closed + OnlyOnce(Client(Vault, a), dialled && (!ans.manifest || !ans.save))
           + OnlyOnce(Client(Envector, a), Connected(ans) && !ans.index)
  {
    if VaultReady(ans) {
      var wired := Wire(Dial(b, Client(Vault, a)), Client(Vault, a));
      RestDials(mode, wired.(wiring := BundleAll(wired.wiring, a)), a, ans);
    }
  }

  lemma RestWires(mode: Mode, b: Books, a: nat, ans: Answers)
    ensures var w := EmbedderPart(mode, b, a, ans).books.wiring;
      && w.vault == b.wiring.vault && w.bundles == b.wiring.bundles
      && w.embedder.deps == (if ans.embedder then Some(Client(Embedder, a)) else b.wiring.embedder.deps)
      && w.envector.deps ==
           (if ans.embedder && ans.envector && ans.index then Some(Client(Envector, a)) else b.wiring.envector.deps)
  {
  }

  /** Which clients one attempt puts into Deps, failed or not: each as soon as it is there. */
  lemma AttemptWires(mode: Mode, b: Books, a: nat, ans: Answers)
    ensures var w := Attempt(mode, b, a, ans).books.wiring;
      && w.vault.deps == (if VaultReady(ans) then Some(Client(Vault, a)) else b.wiring.vault.deps)
      && w.bundles == (if VaultReady(ans) then Bundles(Some(a), Some(a), Some(a)) else b.wiring.bundles)
      && w.embedder.deps == (if VaultReady(ans) && ans.embedder then Some(Client(Embedder, a)) else b.wiring.embedder.deps)
      && w.envector.deps == (if Connected(ans) && ans.index then Some(Client(Envector, a)) else b.wiring.envector.deps)
  {
    if VaultReady(ans) {
      var wired := Wire(Dial(b, Client(Vault, a)), Client(Vault, a));
      RestWires(mode, wired.(wiring := BundleAll(wired.wiring, a)), a, ans);
    }
  }

  /** n attempts of which none is terminal. */
  predicate AllRetried(answers: seq<Answers>, n: nat)
    requires n <= |answers|
  {
    forall k | 0 <= k < n :: !IsTerminal(answers[k])
  }

  /** Vault was down in one of the first n attempts. */
  predicate EverDown(answers: seq<Answers>, n: nat)
    requires n <= |answers|
  {
    exists k :: 0 <= k < n && VaultDown(answers[k])
  }

  predicate LoopEndedBy(r: After, b: Books, ans: Answers, n: nat) {
    && r.books.nextAttempt == b.nextAttempt + n + 1
    && if ans.config == Unconfigured then r.result == BootDormant && r.mode == Dormant
       else r.result == BootActive && r.mode == Active
  }

  /** A terminal attempt is the last of its loop. */
  lemma LoopEndsAt(mode: Mode, b: Books, answers: seq<Answers>, n: nat)
    requires n < |answers| && AllRetried(answers, n) && IsTerminal(answers[n])
    ensures LoopEndedBy(Loop(mode, b, answers), b, answers[n], n)
  {
    assert answers[..n][..n] == answers[..n];
    LoopGoesOn(mode, b, answers[..n]);
    OneMoreAttempt(mode, b, answers, n);
    var before := Loop(mode, b, answers[..n]);
    AttemptOutcome(before.mode, Numbered(before.books), before.books.nextAttempt, answers[n]);
    LoopEnds(mode, b, answers, n + 1);
  }

  /** Any other attempt is followed by the next, and the state waits for Vault from the first time it was down. */
  lemma {:induction false} LoopGoesOn(mode: Mode, b: Books, answers: seq<Answers>)
    requires AllRetried(answers, |answers|)
    ensures var r := Loop(mode, b, answers);
      && r.result == Retry
      && r.mode == (if EverDown(answers, |answers|) then WaitingForVault else mode)
      && r.books.nextAttempt == b.nextAttempt + |answers|
  {
    if |answers| > 0 {
      var n := |answers| - 1;
      var front := answers[..n];
      LoopGoesOn(mode, b, front);
      var before := Loop(mode, b, front);
      AttemptOutcome(before.mode, Numbered(before.books), before.books.nextAttempt, answers[n]);
      assert EverDown(answers, n + 1) <==> EverDown(front, n) || VaultDown(answers[n]) by {
        if EverDown(front, n) {
          var k :| 0 <= k < n && VaultDown(front[k]);
          assert VaultDown(answers[k]);
        }
        if EverDown(answers, n + 1) && !VaultDown(answers[n]) {
          var k :| 0 <= k <= n && VaultDown(answers[k]);
          assert VaultDown(front[k]);
        }
      }
    }
  }

  // ------------------------------------------------------------------ the code itself

  /** Where clients come from and where they are closed. */
  class Adapters {
    var attempts: nat
    ghost var created: set<Client>
    ghost var closed: multiset<Client>
    ghost var dropped: multiset<Client>
    ghost var keyDirFailures: nat

    method New(kind: Kind, a: nat, ok: bool) returns (c: Option<Client>)
      modifies this`created
      ensures c == if ok then Some(Client(kind, a)) else None
      ensures created == old(created) + Just(c)
    {
      c := if ok then Some(Client(kind, a)) else None;
      created := created + Just(c);
    }

    method Close(c: Client)
      modifies this`closed
      ensures closed == old(closed) + multiset{c}
    {
      closed := closed + multiset{c};
    }

    /** The last reference goes away and nobody closed it. */
    ghost method Lose(c: Client)
      modifies this`dropped, this`keyDirFailures
      ensures dropped == old(dropped) + multiset{c} && keyDirFailures == old(keyDirFailures) + 1
    {
      dropped := dropped + multiset{c};
      keyDirFailures := keyDirFailures + 1;
    }
  }

  ghost function BooksOf(d: Deps, x: Adapters): Books
    requires d.Complete()
    reads d, d.capture, d.recall, d.lifecycle, x
  {
    Books(x.attempts, d.View(), x.created, d.pending, x.closed, x.dropped, x.keyDirFailures)
  }

  /** From the dial of envector on. */
  method WireEnvector(d: Deps, x: Adapters, a: nat, ans: Answers, ghost mode: Mode) returns (result: Result)
    requires d.Complete()
    modifies d, d.capture, d.recall, d.lifecycle, x
    ensures After(mode, BooksOf(d, x), result) == EnvectorPart(mode, old(BooksOf(d, x)), a, ans)
  {
    var envector := x.New(Envector, a, ans.envector);
    if envector.None? {
      return Retry;
    }
    if !ans.index {
      x.Close(envector.value);
      return Retry;
    }
    d.InjectEnvector(envector.value);
    result := BootActive;
  }

  /** From the dial of the embedder on. */
  method WireRest(d: Deps, x: Adapters, a: nat, ans: Answers, ghost mode: Mode) returns (result: Result)
    requires d.Complete()
    modifies d, d.capture, d.recall, d.lifecycle, x
    ensures After(mode, BooksOf(d, x), result) == EmbedderPart(mode, old(BooksOf(d, x)), a, ans)
  {
    var embedder := x.New(Embedder, a, ans.embedder);
    if embedder.None? {
      return Retry;
    }
    d.InjectEmbedder(embedder.value);
    result := WireEnvector(d, x, a, ans, mode);
  }

  /** From the agent manifest on; vault is the client that was just dialled. */
  method UseVault(m: BootManager.Manager, d: Deps, x: Adapters, vault: Client, a: nat, ans: Answers) returns (result: Result)
    requires d.Complete() && vault == Client(Vault, a)
    modifies m`state, d, d.capture, d.recall, d.lifecycle, x
    ensures After(m.state, BooksOf(d, x), result) == VaultPart(old(m.state), old(BooksOf(d, x)), a, ans)
  {
    if !ans.manifest {
      m.SetState(WaitingForVault);
      x.Close(vault);
      return Retry;
    }
    if !ans.save {
      x.Close(vault);
      return Retry;
    }
    if !ans.keyDir {
      x.Lose(vault);
      return Retry;
    }
    d.InjectVault(vault);
    d.ApplyVaultBundle(Some(ans.bundle.(attempt := a)));
    result := WireRest(d, x, a, ans, m.state);
  }

  method BootOnce(m: BootManager.Manager, d: Deps, x: Adapters, a: nat, ans: Answers) returns (result: Result)
    requires d.Complete()
    modifies m`state, d, d.capture, d.recall, d.lifecycle, x
    ensures After(m.state, BooksOf(d, x), result) == Attempt(old(m.state), old(BooksOf(d, x)), a, ans)
    ensures result == BootDormant <==> ans.config == Unconfigured
    ensures result == BootActive <==>
      ans.config == Success && ans.dial && ans.manifest && ans.save && ans.keyDir && ans.embedder && ans.envector && ans.index
    ensures m.state ==
      if ans.config == Unconfigured then Dormant
      else if ans.config == Success && (!ans.dial || !ans.manifest) then WaitingForVault
      else old(m.state)
  {
    AttemptOutcome(m.state, BooksOf(d, x), a, ans);
    match ans.config {
      case Unconfigured =>
        m.SetState(Dormant);
        return BootDormant;
      case Failure =>
        return Retry;
      case Success =>
    }
    var vault := x.New(Vault, a, ans.dial);
    if vault.None? {
      m.SetState(WaitingForVault);
      return Retry;
    }
    result := UseVault(m, d, x, vault.value, a, ans);
  }

  /** One turn of the loop: the attempt, and the store of Active if that is what it came to. */
  method Turn(m: BootManager.Manager, d: Deps, x: Adapters, ghost b: Books, answers: seq<Answers>, k: nat) returns (result: Result)
    requires d.Complete() && k < |answers|
    requires After(m.state, BooksOf(d, x), Retry) == Loop(Starting, b, answers[..k])
    modifies m`state, d, d.capture, d.recall, d.lifecycle, x
    ensures After(m.state, BooksOf(d, x), result) == Loop(Starting, b, answers[..k + 1])
  {
    ghost var mode, books := m.state, BooksOf(d, x);
    var a := x.attempts;
    x.attempts := a + 1;
    assert BooksOf(d, x) == Numbered(books);
    result := BootOnce(m, d, x, a, answers[k]);
    ghost var r := After(m.state, BooksOf(d, x), result);
    if result == BootActive {
      m.SetState(Active);
    }
    assert After(m.state, BooksOf(d, x), result) == Settled(r);
    NextTurn(b, answers, k, After(mode, books, Retry), r);
  }

  lemma NextTurn(b: Books, answers: seq<Answers>, k: nat, before: After, r: After)
    requires k < |answers| && before == Loop(Starting, b, answers[..k]) && before.result == Retry
    requires r == Attempt(before.mode, Numbered(before.books), before.books.nextAttempt, answers[k])
    ensures Loop(Starting, b, answers[..k + 1]) == Settled(r)
  {
    OneMoreAttempt(Starting, b, answers, k);
  }

  /** One element of answers for each attempt before the context is cancelled. */
  method RunBootLoop(m: BootManager.Manager, d: Deps, x: Adapters, answers: seq<Answers>) returns (ghost how: Result)
    requires d.Complete()
    modifies m`state, d, d.capture, d.recall, d.lifecycle, x
    ensures After(m.state, BooksOf(d, x), how) == Loop(Starting, old(BooksOf(d, x)), answers)
    ensures AllRetried(answers, |answers|) ==>
      && how == Retry && x.attempts == old(x.attempts) + |answers|
      && m.state == if EverDown(answers, |answers|) then WaitingForVault else Starting
    ensures forall n | 0 <= n < |answers| && AllRetried(answers, n) && IsTerminal(answers[n]) ::
      && x.attempts == old(x.attempts) + n + 1
      && if answers[n].config == Unconfigured then how == BootDormant && m.state == Dormant
         else how == BootActive && m.state == Active
  {
    m.SetState(Starting);
    ghost var b := BooksOf(d, x);
    forall n | 0 <= n < |answers| && AllRetried(answers, n) && IsTerminal(answers[n])
      ensures LoopEndedBy(Loop(Starting, b, answers), b, answers[n], n)
    {
      LoopEndsAt(Starting, b, answers, n);
    }
    if AllRetried(answers, |answers|) {
      LoopGoesOn(Starting, b, answers);
    }
    var result := Retry;
    var k := 0;
    while k < |answers| && result == Retry
      invariant k <= |answers|
      invariant After(m.state, BooksOf(d, x), result) == Loop(Starting, b, answers[..k])
    {
      result := Turn(m, d, x, b, answers, k);
      k := k + 1;
    }
    how := result;
    AllTurns(b, answers, k, how);
  }

  /** After the last turn nothing is left to do: the answers are used up or the loop has ended. */
  lemma AllTurns(b: Books, answers: seq<Answers>, k: nat, how: Result)
    requires k <= |answers| && Loop(Starting, b, answers[..k]).result == how
    requires k == |answers| || how != Retry
    ensures Loop(Starting, b, answers) == Loop(Starting, b, answers[..k])
  {
    if k == |answers| {
      assert answers[..k] == answers;
    } else {
      LoopEnds(Starting, b, answers, k);
    }
  }
}
