/**
 * insertWithRecovery against a vector store that deduplicates on a non-empty
 * request ID, and that may commit a batch and still report an error, at once
 * or only after the caller has been told.
 */
module InsertRecovery {

  type Batch = seq<string>

  datatype Reply =
    | Stored(itemIds: seq<string>)
    | AlreadyExists
    | Retryable
    | Fatal

  /** When the batch of one call reaches the store: by the time of the next call, after the last call, or not at all. */
  datatype Landing = Never | Now | Late

  datatype Choice = Choice(landing: Landing, reply: Reply)

  /**
   * A duplicate of a known request is never stored again. Stored is only
   * reported for a batch that is in the store, AlreadyExists only for a
   * request known before the call.
   */
  predicate Possible(known: bool, id: string, c: Choice) {
    && (known && id != "" ==> !c.landing.Now?)
    && (c.reply.Stored? ==> c.landing.Now? || (known && id != ""))
    && (c.reply.AlreadyExists? ==> known && id != "")
  }

  /** Copies of one request's batch in the store after a call. */
  function Commit(copies: nat, c: Choice): nat {
    if c.landing.Now? then copies + 1 else copies
  }

  /** A late batch lands unless the store knows its request by then. */
  function LandLate(copies: nat, id: string, c: Choice): nat {
    if c.landing.Late? && (id == "" || copies == 0) then copies + 1 else copies
  }

  predicate Succeeds(r: Reply) {
    r.Stored? || r.AlreadyExists?
  }

  /** copies when the caller is told, eventually when everything late has landed. */
  datatype Outcome = Outcome(calls: nat, ok: bool, copies: nat, eventually: nat)

  /** What a fresh request comes to: one call, and a second after a retryable error if the pipelines came back. */
  function Play(id: string, hasState: bool, active: bool, first: Choice, second: Choice): Outcome {
    var copies := Commit(0, first);
    if Succeeds(first.reply) || !hasState || !first.reply.Retryable? || !active then
      Outcome(1, Succeeds(first.reply), copies, LandLate(copies, id, first))
    else
      var both := Commit(copies, second);
      Outcome(2, Succeeds(second.reply), both, LandLate(LandLate(both, id, first), id, second))
  }

  /** Both choices are ones the store may make for a fresh request with this ID. */
  predicate PossiblePair(id: string, first: Choice, second: Choice) {
    Possible(false, id, first) && Possible(first.landing.Now?, id, second)
  }

  /** At most two calls; success means stored exactly once, an error at most once, also in the long run. */
  predicate ExactlyOnce(o: Outcome) {
    o.calls <= 2 && (if o.ok then o.copies == o.eventually == 1 else o.eventually <= 1)
  }

  /** Success means stored, and never more copies than calls. */
  predicate AtLeastOnce(o: Outcome) {
    o.calls <= 2 && o.copies <= o.eventually <= o.calls && (o.ok ==> o.copies >= 1)
  }

  class Store {
    var committed: seq<(string, Batch)>
    var calls: nat
    const first: Choice
    const second: Choice
    const id: string

    constructor (id: string, first: Choice, second: Choice)
      ensures this.id == id && this.first == first && this.second == second
      ensures committed == [] && calls == 0
    {
      this.id, this.first, this.second := id, first, second;
      committed, calls := [], 0;
    }

    method Insert(batch: Batch) returns (reply: Reply)
      modifies this
      ensures calls == old(calls) + 1
      ensures var c := if old(calls) == 0 then first else second;
        reply == c.reply && committed == old(committed) + (if c.landing.Now? then [(id, batch)] else [])
    {
      var c := if calls == 0 then first else second;
      calls := calls + 1;
      if c.landing.Now? {
        committed := committed + [(id, batch)];
      }
      reply := c.reply;
    }

    /** Copies once every call made so far has landed. */
    function Eventually(): nat
      reads this
    {
      var once := LandLate(|committed|, id, first);
      if calls <= 1 then once else LandLate(once, id, second)
    }
  }

  /** active is what WaitForActive answers, if it is asked. */
  method InsertWithRecovery(store: Store, batch: Batch, hasState: bool, active: bool) returns (ok: bool, itemIds: seq<string>)
    requires store.calls == 0 && store.committed == []
    modifies store
    ensures Outcome(store.calls, ok, |store.committed|, store.Eventually()) ==
      Play(store.id, hasState, active, store.first, store.second)
    ensures store.calls == 2 <==> store.first.reply.Retryable? && hasState && active
    ensures store.calls != 2 ==> store.calls == 1
    ensures var last := if store.calls == 1 then store.first.reply else store.second.reply;
      ok <==> last.Stored? || last.AlreadyExists?
    ensures |store.committed| ==
      (if store.first.landing.Now? then 1 else 0) + (if store.calls == 2 && store.second.landing.Now? then 1 else 0)
    ensures forall i | 0 <= i < |store.committed| :: store.committed[i] == (store.id, batch)
    ensures var last := if store.calls == 1 then store.first.reply else store.second.reply;
      itemIds == if last.Stored? then last.itemIds else []
    ensures store.first == Choice(Never, Retryable) && hasState && active
            && store.second.landing.Now? && store.second.reply.Stored? ==>
      ok && store.committed == [(store.id, batch)] && store.Eventually() == 1
    ensures store.id != "" && PossiblePair(store.id, store.first, store.second) ==>
      && store.calls <= 2 && store.Eventually() <= 1 && (ok ==> |store.committed| == store.Eventually() == 1)
  {
    var reply := store.Insert(batch);
    if reply.Stored? {
      return true, reply.itemIds;
    }
    if reply.AlreadyExists? {
      return true, [];
    }
    if !hasState || !reply.Retryable? {
      return false, [];
    }
    if !active {
      return false, [];
    }
    reply := store.Insert(batch);
    if reply.Stored? {
      return true, reply.itemIds;
    }
    if reply.AlreadyExists? {
      return true, [];
    }
    return false, [];
  }

  /**
   * The generator returns the empty ID when the random source fails, and then
   * the store cannot deduplicate. Exactly-once holds against every store
   * behaviour if and only if the ID is not empty; without an ID a success
   * still means stored, once or twice.
   */
  lemma ExactlyOnceIffIdentified(id: string)
    ensures id != "" <==>
      forall hasState, active, first, second | PossiblePair(id, first, second) ::
        ExactlyOnce(Play(id, hasState, active, first, second))
    ensures forall hasState, active, first, second | PossiblePair(id, first, second) ::
      AtLeastOnce(Play(id, hasState, active, first, second))
  {
    if id == "" {
      var lost, again := Choice(Now, Retryable), Choice(Now, Stored([]));
      assert PossiblePair(id, lost, again);
      assert Play(id, true, true, lost, again) == Outcome(2, true, 2, 2);
    }
  }
}
