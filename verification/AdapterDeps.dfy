/**
 * The Deps object the boot loop writes through: each injection overwrites a
 * client field of Deps and of the three services and schedules the close of
 * the client it replaced. The contracts speak of the Wiring that the boot
 * protocol's state machine keeps, and a lemma at the end shows that the six
 * micro-steps of the protocol add up to what one uninterrupted call does.
 */
module AdapterDeps {
  import opened Prelude
  import opened BootProtocol

  /** The agent manifest, as far as Deps hands it on. */
  datatype Bundle = Bundle(attempt: nat, agentId: string, agentDek: seq<bv8>, indexName: string, keyId: string, encKey: string)

  class CaptureService {
    var vault: Option<Client>
    var embedder: Option<Client>
    var envector: Option<Client>
    ghost var bundle: Option<nat>   // the attempt whose manifest was applied
    var agentId: string
    var agentDek: seq<bv8>
    var indexName: string
  }

  class RecallService {
    var vault: Option<Client>
    var embedder: Option<Client>
    var envector: Option<Client>
    ghost var bundle: Option<nat>   // the attempt whose manifest was applied
    var indexName: string
  }

  class LifecycleService {
    var vault: Option<Client>
    var embedder: Option<Client>
    var envector: Option<Client>
    ghost var bundle: Option<nat>   // the attempt whose manifest was applied
    var indexName: string
    var keyId: string
    var agentDek: seq<bv8>
    var encKeyLoaded: bool
  }

  /** The wiring after one whole injection. */
  function InjectAll(w: Wiring, c: Client): Wiring {
    w.With(c.kind, Mixed(4, c, None))
  }

  function BundleAll(w: Wiring, a: nat): Wiring {
    w.(bundles := Bundles(Some(a), Some(a), Some(a)))
  }

  class Deps {
    var vault: Option<Client>
    var embedder: Option<Client>
    var envector: Option<Client>
    const capture: CaptureService?
    const recall: RecallService?
    const lifecycle: LifecycleService?
    ghost var pending: multiset<Client>   // goroutines started by closeAfterInterval

    constructor (capture: CaptureService?, recall: RecallService?, lifecycle: LifecycleService?)
      ensures this.capture == capture && this.recall == recall && this.lifecycle == lifecycle
      ensures vault == embedder == envector == None && pending == multiset{}
    {
      this.capture := capture;
      this.recall := recall;
      this.lifecycle := lifecycle;
      vault, embedder, envector := None, None, None;
      pending := multiset{};
    }

    /** main builds Deps with all three services. */
    predicate Complete() {
      capture != null && recall != null && lifecycle != null
    }

    ghost function View(): Wiring
      requires Complete()
      reads this, capture, recall, lifecycle
    {
      Wiring(
        Slots(vault, capture.vault, recall.vault, lifecycle.vault),
        Slots(embedder, capture.embedder, recall.embedder, lifecycle.embedder),
        Slots(envector, capture.envector, recall.envector, lifecycle.envector),
        Bundles(capture.bundle, recall.bundle, lifecycle.bundle))
    }

    /** The per-token fields the services hold besides their clients. */
    ghost function Metadata(): (Option<(string, seq<bv8>, string)>, Option<string>, Option<(string, string, seq<bv8>, bool)>)
      reads this, capture, recall, lifecycle
    {
      (if capture == null then None else Some((capture.agentId, capture.agentDek, capture.indexName)),
       if recall == null then None else Some(recall.indexName),
       if lifecycle == null then None
       else Some((lifecycle.indexName, lifecycle.keyId, lifecycle.agentDek, lifecycle.encKeyLoaded)))
    }

    method InjectVault(client: Client)
      requires client.kind == Vault
      modifies this, capture, recall, lifecycle
      ensures vault == Some(client)
      ensures capture != null ==> capture.vault == Some(client)
      ensures recall != null ==> recall.vault == Some(client)
      ensures lifecycle != null ==> lifecycle.vault == Some(client)
      ensures Metadata() == old(Metadata())
      ensures pending == Retire(old(pending), old(vault), client)
      ensures Complete() ==> View() == InjectAll(old(View()), client)
    {
      var prev := vault;
      vault := Some(client);
      if capture != null { capture.vault := Some(client); }
      if recall != null { recall.vault := Some(client); }
      if lifecycle != null { lifecycle.vault := Some(client); }
      CloseAfterInterval(prev, client);
    }

    method InjectEmbedder(client: Client)
      requires client.kind == Embedder
      modifies this, capture, recall, lifecycle
      ensures embedder == Some(client)
      ensures capture != null ==> capture.embedder == Some(client)
      ensures recall != null ==> recall.embedder == Some(client)
      ensures lifecycle != null ==> lifecycle.embedder == Some(client)
      ensures Metadata() == old(Metadata())
      ensures pending == Retire(old(pending), old(embedder), client)
      ensures Complete() ==> View() == InjectAll(old(View()), client)
    {
      var prev := embedder;
      embedder := Some(client);
      if capture != null { capture.embedder := Some(client); }
      if recall != null { recall.embedder := Some(client); }
      if lifecycle != null { lifecycle.embedder := Some(client); }
      CloseAfterInterval(prev, client);
    }

    method InjectEnvector(client: Client)
      requires client.kind == Envector
      modifies this, capture, recall, lifecycle
      ensures envector == Some(client)
      ensures capture != null ==> capture.envector == Some(client)
      ensures recall != null ==> recall.envector == Some(client)
      ensures lifecycle != null ==> lifecycle.envector == Some(client)
      ensures Metadata() == old(Metadata())
      ensures pending == Retire(old(pending), old(envector), client)
      ensures Complete() ==> View() == InjectAll(old(View()), client)
    {
      var prev := envector;
      envector := Some(client);
      if capture != null { capture.envector := Some(client); }
      if recall != null { recall.envector := Some(client); }
      if lifecycle != null { lifecycle.envector := Some(client); }
      CloseAfterInterval(prev, client);
    }

    method CloseAfterInterval(prev: Option<Client>, next: Client)
      modifies this`pending
      ensures pending == Retire(old(pending), prev, next)
      ensures pending == if prev == None || prev == Some(next) then old(pending) else old(pending) + multiset{prev.value}
    {
      if prev.None? || prev.value == next {
        return;
      }
      pending := pending + multiset{prev.value};
    }

    method ApplyVaultBundle(b: Option<Bundle>)
      modifies capture, recall, lifecycle
      ensures b.None? ==> Metadata() == old(Metadata())
      ensures b.None? && Complete() ==> View() == old(View())
      ensures b.Some? && Complete() ==> View() == BundleAll(old(View()), b.value.attempt)
      ensures b.Some? && capture != null ==>
        capture.agentId == b.value.agentId && capture.agentDek == b.value.agentDek && capture.indexName == b.value.indexName
      ensures b.Some? && recall != null ==> recall.indexName == b.value.indexName
      ensures b.Some? && lifecycle != null ==>
        && lifecycle.indexName == b.value.indexName && lifecycle.keyId == b.value.keyId
        && lifecycle.agentDek == b.value.agentDek && lifecycle.encKeyLoaded == (|b.value.encKey| > 0)
    {
      if b.None? {
        return;
      }
      var bundle := b.value;
      if capture != null {
        capture.bundle := Some(bundle.attempt);
        capture.agentId := bundle.agentId;
        capture.agentDek := bundle.agentDek;
        capture.indexName := bundle.indexName;
      }
      if recall != null {
        recall.bundle := Some(bundle.attempt);
        recall.indexName := bundle.indexName;
      }
      if lifecycle != null {
        lifecycle.bundle := Some(bundle.attempt);
        lifecycle.indexName := bundle.indexName;
        lifecycle.keyId := bundle.keyId;
        lifecycle.agentDek := bundle.agentDek;
        lifecycle.encKeyLoaded := |bundle.encKey| > 0;
      }
    }
  }

  /** Thread t runs n micro-steps of its injection and nobody else writes in between. */
  function InjectSteps(s: Sys, t: nat, n: nat): Sys
    requires t < |s.threads|
    decreases n
  {
    if n == 0 || !s.threads[t].Inject? then s else InjectSteps(InjectStep(s, t), t, n - 1)
  }

  /** The protocol's micro-steps do together what the method does in one call. */
  lemma MicroStepsAreInjectAll(s: Sys, t: nat, kind: Kind, a: nat)
    requires t < |s.threads| && s.threads[t] == Inject(kind, a, None, 0)
    ensures
      var s', c := InjectSteps(s, t, 6), Client(kind, a);
      && s'.books.wiring == InjectAll(s.books.wiring, c)
      && s'.books.pending == Retire(s.books.pending, s.books.wiring.Of(kind).deps, c)
      && s'.threads == s.threads[t := AfterInject(kind, a)]
      && s' == s.(threads := s'.threads, books := s.books.(wiring := s'.books.wiring, pending := s'.books.pending))
  {
    var s1 := InjectStep(s, t);
    var s2 := InjectStep(s1, t);
    var s3 := InjectStep(s2, t);
    var s4 := InjectStep(s3, t);
    var s5 := InjectStep(s4, t);
    var s6 := InjectStep(s5, t);
    assert InjectSteps(s, t, 6) == InjectSteps(s1, t, 5) == InjectSteps(s2, t, 4) == InjectSteps(s3, t, 3);
    assert InjectSteps(s3, t, 3) == InjectSteps(s4, t, 2) == InjectSteps(s5, t, 1) == s6;
    assert s6.threads == s.threads[t := AfterInject(kind, a)];
  }
}
