/**
 * The embedder client's Info cache and the Health probe that invalidates it.
 * The cache keeps four fields; History keeps what happened. The invariant says
 * that the fields are exactly the memory of the last RPC since the last
 * invalidation, and the trace properties are about the history alone.
 */
module InfoCache {
  import opened Prelude

  type Snapshot = string
  type Error = string

  /** What the Info RPC answered. */
  datatype Answer = Loaded(snap: Snapshot) | Refused(err: Error)

  /** Served is what Get returned without asking; Asked is an RPC, started at a time. */
  datatype Event =
    | Served(at: int, answer: Answer)
    | Asked(checked: int, started: int, answer: Answer)
    | Invalidated
    | Probed(uptime: int)

  type History = seq<Event>

  const COOLDOWN := 3_000_000_000   // infoRetryCooldown, in nanoseconds

  /** The last RPC that no invalidation has wiped out. */
  function LastAsked(h: History): (r: Option<Event>)
    ensures r.Some? ==> r.value.Asked?
  {
    if |h| == 0 then None
    else
      var e := h[|h| - 1];
      match e
      case Asked(_, _, _) => Some(e)
      case Invalidated => None
      case _ => LastAsked(h[..|h| - 1])
  }

  /** The uptime of the last successful Health probe; zero before the first. */
  function LastUptime(h: History): int {
    if |h| == 0 then 0
    else if h[|h| - 1].Probed? then h[|h| - 1].uptime
    else LastUptime(h[..|h| - 1])
  }

  /** What the cache may do next, told from the history alone. */
  predicate Allowed(h: History, e: Event) {
    match e
    case Served(at, answer) =>
      && LastAsked(h).Some?
      && answer == LastAsked(h).value.answer
      && (answer.Refused? ==> at - LastAsked(h).value.started < COOLDOWN)
    case Asked(checked, started, answer) =>
      && checked <= started
      && (LastAsked(h).Some? ==>
            LastAsked(h).value.answer.Refused? && checked - LastAsked(h).value.started >= COOLDOWN)
    case Invalidated => true
    case Probed(uptime) => 0 < LastUptime(h) && uptime < LastUptime(h) ==> LastAsked(h) == None
  }

  ghost predicate WellBehaved(h: History) {
    forall i | 0 <= i < |h| :: Allowed(h[..i], h[i])
  }

  class Client {
    var loaded: bool
    var snap: Snapshot
    var lastErr: Option<Error>
    var lastAttempt: Option<int>    // None is the zero time
    var lastUptime: int
    ghost var history: History

    ghost predicate Valid()
      reads this
    {
      && WellBehaved(history)
      && lastUptime == LastUptime(history)
      && match LastAsked(history)
         case None => !loaded && lastErr == None && lastAttempt == None
         case Some(e) =>
           && e.Asked? && lastAttempt == Some(e.started)
           && (match e.answer
               case Loaded(s) => loaded && snap == s && lastErr == None
               case Refused(err) => !loaded && lastErr == Some(err))
    }

    constructor ()
      ensures Valid() && history == []
    {
      loaded, snap, lastErr, lastAttempt, lastUptime := false, "", None, None, 0;
      history := [];
    }

    /**
     * Get at time now; started is the clock read just before the RPC, and rpc
     * is what the daemon would answer if asked.
     */
    method Get(now: int, started: int, rpc: Answer) returns (answer: Answer)
      requires Valid() && now <= started
      modifies this
      ensures Valid() && lastUptime == old(lastUptime)
      ensures
        || history == old(history) + [Served(now, answer)]
        || (history == old(history) + [Asked(now, started, rpc)] && answer == rpc)
      ensures history == old(history) + [Asked(now, started, rpc)] <==>
        !old(loaded) && (old(lastAttempt) == None || now - old(lastAttempt).value >= 3_000_000_000)
    {
      if loaded {
        answer := Loaded(snap);
        Note(Served(now, answer));
        return;
      }
      if lastAttempt.Some? && now - lastAttempt.value < COOLDOWN {
        answer := Refused(lastErr.value);
        Note(Served(now, answer));
        return;
      }
      lastAttempt := Some(started);
      answer := rpc;
      match rpc {
        case Refused(err) =>
          lastErr := Some(err);
        case Loaded(s) =>
          snap := s;
          loaded := true;
          lastErr := None;
      }
      Note(Asked(now, started, rpc));
    }

    method Invalidate()
      requires Valid()
      modifies this
      ensures Valid() && history == old(history) + [Invalidated] && lastUptime == old(lastUptime)
    {
      loaded := false;
      snap := "";
      lastErr := None;
      lastAttempt := None;
      Note(Invalidated);
    }

    /** A Health RPC that answered with this uptime. A failed one changes nothing. */
    method Health(uptime: int)
      requires Valid()
      modifies this
      ensures Valid()
      ensures history == old(history)
        + (if 0 < old(lastUptime) && uptime < old(lastUptime) then [Invalidated, Probed(uptime)] else [Probed(uptime)])
    {
      if lastUptime > 0 && uptime < lastUptime {
        Invalidate();
      }
      lastUptime := uptime;
      Note(Probed(uptime));
    }

    ghost method Note(e: Event)
      requires WellBehaved(history) && Allowed(history, e)
      modifies this`history
      ensures history == old(history) + [e] && WellBehaved(history)
      ensures LastAsked(history) == if e.Asked? then Some(e) else if e.Invalidated? then None else LastAsked(old(history))
      ensures LastUptime(history) == if e.Probed? then e.uptime else LastUptime(old(history))
    {
      var h := history + [e];
      assert h[..|history|] == history;
      forall i | 0 <= i < |h| ensures Allowed(h[..i], h[i]) {
        if i < |history| {
          assert h[..i] == history[..i];
        }
      }
      history := h;
    }
  }

  // ------------------------------------------------------------ properties of traces

  predicate NoneInvalidated(h: History, i: nat, j: nat)
    requires i <= j <= |h|
  {
    forall k | i <= k < j :: !h[k].Invalidated?
  }

  /** With no invalidation after an RPC, the last RPC known is that one or a later one. */
  lemma {:induction false} LastAskedSince(h: History, i: nat, j: nat)
    requires WellBehaved(h) && i < j <= |h| && h[i].Asked? && NoneInvalidated(h, i, j)
    ensures LastAsked(h[..j]).Some? && LastAsked(h[..j]).value.Asked?
    ensures LastAsked(h[..j]).value.started >= h[i].started
    ensures h[i].answer.Loaded? ==> LastAsked(h[..j]).value == h[i]
    decreases j
  {
    assert h[..j][..j - 1] == h[..j - 1];
    if i < j - 1 {
      LastAskedSince(h, i, j - 1);
      assert Allowed(h[..j - 1], h[j - 1]);
    }
  }

  /** No RPC follows a success before an invalidation. */
  lemma SuccessSticks(h: History, i: nat, j: nat)
    requires WellBehaved(h) && i < j < |h| && NoneInvalidated(h, i, j)
    requires h[i].Asked? && h[i].answer.Loaded?
    ensures !h[j].Asked?
    ensures h[j].Served? ==> h[j].answer == h[i].answer
  {
    LastAskedSince(h, i, j);
    assert Allowed(h[..j], h[j]);
  }

  /** Two RPCs with no invalidation between them start at least the cooldown apart. */
  lemma RetriesAreSpaced(h: History, i: nat, j: nat)
    requires WellBehaved(h) && i < j < |h| && NoneInvalidated(h, i, j)
    requires h[i].Asked? && h[j].Asked?
    ensures h[j].started - h[i].started >= 3_000_000_000
  {
    LastAskedSince(h, i, j);
    assert Allowed(h[..j], h[j]);
  }

  /** Nothing but an invalidation and a probe may stand between an answer and the RPC it came from. */
  predicate IsLatestAsked(h: History, i: nat, j: nat)
    requires i < j <= |h|
  {
    h[i].Asked? && forall k | i < k < j :: !h[k].Asked? && !h[k].Invalidated?
  }

  lemma {:induction false} LastAskedIsLatest(h: History, j: nat) returns (i: nat)
    requires j <= |h| && LastAsked(h[..j]).Some?
    ensures i < j && IsLatestAsked(h, i, j) && LastAsked(h[..j]).value == h[i]
    decreases j
  {
    assert h[..j][..j - 1] == h[..j - 1];
    if h[j - 1].Asked? {
      i := j - 1;
    } else {
      i := LastAskedIsLatest(h, j - 1);
    }
  }

  /** An answer served without asking is that of the latest RPC, and a served error is younger than the cooldown. */
  lemma ServedIsLatest(h: History, j: nat) returns (i: nat)
    requires WellBehaved(h) && j < |h| && h[j].Served?
    ensures i < j && IsLatestAsked(h, i, j) && h[j].answer == h[i].answer
    ensures h[j].answer.Refused? ==> h[j].at - h[i].started < 3_000_000_000
  {
    assert Allowed(h[..j], h[j]);
    i := LastAskedIsLatest(h, j);
  }

  /** An uptime lower than the one before it makes the next Get ask again. */
  lemma RestartForcesRefetch(h: History, p: nat, q: nat, j: nat)
    requires WellBehaved(h) && p < q < j < |h|
    requires h[p].Probed? && h[q].Probed? && 0 < h[p].uptime && h[q].uptime < h[p].uptime
    requires forall k | p < k < q :: !h[k].Probed?
    requires forall k | q < k < j :: !h[k].Asked?
    ensures !h[j].Served?
  {
    UptimeSince(h, p, q);
    assert Allowed(h[..q], h[q]);
    if h[j].Served? {
      var i := ServedIsLatest(h, j);
      LastAskedSurvives(h, i, q);
    }
  }

  lemma {:induction false} UptimeSince(h: History, p: nat, q: nat)
    requires p < q <= |h| && h[p].Probed? && forall k | p < k < q :: !h[k].Probed?
    ensures LastUptime(h[..q]) == h[p].uptime
    decreases q
  {
    assert h[..q][..q - 1] == h[..q - 1];
    if p < q - 1 {
      UptimeSince(h, p, q - 1);
    }
  }

  lemma {:induction false} LastAskedSurvives(h: History, i: nat, q: nat)
    requires i < q <= |h| && IsLatestAsked(h, i, q)
    ensures LastAsked(h[..q]) == Some(h[i])
    decreases q
  {
    assert h[..q][..q - 1] == h[..q - 1];
    if i < q - 1 {
      LastAskedSurvives(h, i, q - 1);
    }
  }
}
