/**
 * From metadata entries to hits: classification, the batch decrypt of the
 * encrypted ones, the per-entry fallback when the batch fails, and the
 * conversion. classify and parse stand for the JSON and base64 readers.
 */
module RecallResolve {
  import opened Prelude
  import opened Hits
  import Positions

  /** What classifyMetadata makes of one entry. */
  datatype Class = Encrypted | Plain(metadata: Option<Metadata>) | Unrecognized

  datatype Reply<T> = Ok(value: T) | Failed

  type Classifier = string -> Class
  type Parser = string -> Option<Metadata>

  /** The positions of the encrypted entries among the first n. */
  function EncryptedAt(entries: seq<string>, classify: Classifier, n: nat): seq<nat>
    requires n <= |entries|
  {
    if n == 0 then []
    else EncryptedAt(entries, classify, n - 1) + (if classify(entries[n - 1]).Encrypted? then [n - 1] else [])
  }

  /** Rank of entry i among the encrypted ones. */
  function Rank(entries: seq<string>, classify: Classifier, i: nat): nat
    requires i <= |entries|
  {
    |EncryptedAt(entries, classify, i)|
  }

  function ScoreAt(scores: seq<real>, i: nat): real {
    if i < |scores| then scores[i] else 0.0
  }

  /** The j-th plaintext of the route taken: from the batch, or from a call of its own when the batch failed. */
  function PlaintextAt(batch: Reply<seq<string>>, single: string -> Reply<seq<string>>, raw: string, j: nat): Option<string> {
    match batch
    case Ok(decrypted) => if j < |decrypted| then Some(decrypted[j]) else None
    case Failed =>
      var reply := single(raw);
      if reply.Ok? && |reply.value| > 0 then Some(reply.value[0]) else None
  }

  /** The plaintext entry i ends up with. */
  function PlaintextOf(entries: seq<string>, classify: Classifier,
                       batch: Reply<seq<string>>, single: string -> Reply<seq<string>>, i: nat): Option<string>
    requires i < |entries|
  {
    PlaintextAt(batch, single, entries[i], Rank(entries, classify, i))
  }

  /** The metadata of entry i, if it can be read. hasVault is false before a Vault client is injected. */
  function MetadataOf(entries: seq<string>, classify: Classifier, parse: Parser, hasVault: bool,
                      batch: Reply<seq<string>>, single: string -> Reply<seq<string>>, i: nat): Option<Metadata>
    requires i < |entries|
  {
    match classify(entries[i])
    case Plain(m) => m
    case Unrecognized => None
    case Encrypted =>
      if !hasVault then None
      else
        var text := PlaintextOf(entries, classify, batch, single, i);
        if text.Some? then parse(text.value) else None
  }

  /** The hit entry i gives, if any: its own metadata with its own score. */
  function HitAt(metas: seq<Option<Metadata>>, scores: seq<real>): nat -> Option<Hit> {
    (i: nat) => if i < |metas| && metas[i].Some? then Some(ToSearchHit(metas[i].value, ScoreAt(scores, i))) else None
  }

  /** The hits of the first n entries, in entry order. */
  function HitsOf(metas: seq<Option<Metadata>>, scores: seq<real>, n: nat): seq<Hit> {
    Positions.Kept(n, HitAt(metas, scores))
  }

  function AllMetadata(entries: seq<string>, classify: Classifier, parse: Parser, hasVault: bool,
                       batch: Reply<seq<string>>, single: string -> Reply<seq<string>>): seq<Option<Metadata>>
  {
    seq(|entries|, i requires 0 <= i < |entries| => MetadataOf(entries, classify, parse, hasVault, batch, single, i))
  }

  datatype Item = Item(kind: Class, metadata: Option<Metadata>, raw: string, score: real)

  lemma {:induction false} RankIsPosition(entries: seq<string>, classify: Classifier, n: nat, k: nat)
    requires k < n <= |entries| && classify(entries[k]).Encrypted?
    ensures Rank(entries, classify, k) < Rank(entries, classify, n)
    ensures EncryptedAt(entries, classify, n)[Rank(entries, classify, k)] == k
    decreases n
  {
    if k < n - 1 {
      RankIsPosition(entries, classify, n - 1, k);
    }
  }

  lemma {:induction false} EncryptedPositions(entries: seq<string>, classify: Classifier, n: nat)
    requires n <= |entries|
    ensures forall j | 0 <= j < Rank(entries, classify, n) :: EncryptedAt(entries, classify, n)[j] < n
    ensures forall j | 0 <= j < Rank(entries, classify, n) :: classify(entries[EncryptedAt(entries, classify, n)[j]]).Encrypted?
    ensures forall i, j | 0 <= i < j < Rank(entries, classify, n) ::
      EncryptedAt(entries, classify, n)[i] < EncryptedAt(entries, classify, n)[j]
  {
    if n > 0 {
      EncryptedPositions(entries, classify, n - 1);
    }
  }

  /** Item k as the classification leaves it. */
  function Classified(entries: seq<string>, scores: seq<real>, classify: Classifier, k: nat): Item
    requires k < |entries|
  {
    Item(classify(entries[k]), Own(classify(entries[k])), entries[k], ScoreAt(scores, k))
  }

  method ClassifyEntries(entries: seq<string>, scores: seq<real>, classify: Classifier, items: array<Item>)
    returns (aesIndices: seq<nat>, aesList: seq<string>)
    requires items.Length == |entries|
    modifies items
    ensures aesIndices == EncryptedAt(entries, classify, |entries|) && |aesList| == |aesIndices|
    ensures forall j | 0 <= j < |aesIndices| :: aesIndices[j] < |entries| && aesList[j] == entries[aesIndices[j]]
    ensures forall k | 0 <= k < |entries| :: items[k] == Classified(entries, scores, classify, k)
  {
    aesIndices, aesList := [], [];
    for i := 0 to |entries|
      invariant aesIndices == EncryptedAt(entries, classify, i) && |aesList| == |aesIndices|
      invariant forall j | 0 <= j < |aesIndices| :: aesIndices[j] < i && aesList[j] == entries[aesIndices[j]]
      invariant forall k | 0 <= k < i :: items[k] == Classified(entries, scores, classify, k)
    {
      var score := 0.0;
      if i < |scores| {
        score := scores[i];
      }
      var kind := classify(entries[i]);
      items[i] := Item(kind, Own(kind), entries[i], score);
      if kind.Encrypted? {
        aesIndices := aesIndices + [i];
        aesList := aesList + [entries[i]];
      }
    }
  }

  method DecryptItems(items: array<Item>, parse: Parser, batch: Reply<seq<string>>, single: string -> Reply<seq<string>>,
                      aesIndices: seq<nat>, aesList: seq<string>)
    requires |aesList| == |aesIndices|
    requires forall j | 0 <= j < |aesIndices| :: aesIndices[j] < items.Length
    requires forall i, j | 0 <= i < j < |aesIndices| :: aesIndices[i] != aesIndices[j]
    modifies items
    ensures forall k | 0 <= k < items.Length && k !in aesIndices :: items[k] == old(items[k])
    ensures forall j | 0 <= j < |aesIndices| ::
      var text := PlaintextAt(batch, single, aesList[j], j);
      items[aesIndices[j]] ==
        if text.Some? then old(items[aesIndices[j]]).(metadata := parse(text.value)) else old(items[aesIndices[j]])
  {
    for j := 0 to |aesIndices|
      invariant forall k | 0 <= k < items.Length && k !in aesIndices[..j] :: items[k] == old(items[k])
      invariant forall i | 0 <= i < j ::
        var text := PlaintextAt(batch, single, aesList[i], i);
        items[aesIndices[i]] ==
          if text.Some? then old(items[aesIndices[i]]).(metadata := parse(text.value)) else old(items[aesIndices[i]])
    {
      var at := aesIndices[j];
      var text: Option<string> := None;
      match batch {
        case Ok(decrypted) =>
          if j < |decrypted| {
            text := Some(decrypted[j]);
          }
        case Failed =>
          var reply := single(aesList[j]);
          if reply.Ok? && |reply.value| > 0 {
            text := Some(reply.value[0]);
          }
      }
      assert at !in aesIndices[..j];
      if text.Some? {
        items[at] := items[at].(metadata := parse(text.value));
      }
      assert aesIndices[..j + 1] == aesIndices[..j] + [at];
    }
  }

  method ReadEntries(entries: seq<string>, scores: seq<real>, classify: Classifier, parse: Parser, hasVault: bool,
                     batch: Reply<seq<string>>, single: string -> Reply<seq<string>>) returns (items: array<Item>)
    ensures fresh(items) && items.Length == |entries|
    ensures forall k | 0 <= k < |entries| :: items[k].score == ScoreAt(scores, k)
    ensures forall k | 0 <= k < |entries| :: items[k].metadata == MetadataOf(entries, classify, parse, hasVault, batch, single, k)
  {
    items := new Item[|entries|](_ => Item(Unrecognized, None, "", 0.0));
    var aesIndices, aesList := ClassifyEntries(entries, scores, classify, items);
    EncryptedPositions(entries, classify, |entries|);
    label classified:
    if |aesList| > 0 && hasVault {
      DecryptItems(items, parse, batch, single, aesIndices, aesList);
    }
    forall k | 0 <= k < |entries|
      ensures items[k].score == ScoreAt(scores, k)
      ensures items[k].metadata == MetadataOf(entries, classify, parse, hasVault, batch, single, k)
    {
      assert old@classified(items[k]) == Classified(entries, scores, classify, k);
      if classify(entries[k]).Encrypted? {
        RankIsPosition(entries, classify, |entries|, k);
        assert aesIndices[Rank(entries, classify, k)] == k;
      } else {
        assert k !in aesIndices;
      }
    }
  }

  method ResolveMetadata(entries: seq<string>, scores: seq<real>, classify: Classifier, parse: Parser, hasVault: bool,
                         batch: Reply<seq<string>>, single: string -> Reply<seq<string>>) returns (hits: seq<Hit>)
    ensures hits == HitsOf(AllMetadata(entries, classify, parse, hasVault, batch, single), scores, |entries|)
  {
    var items := ReadEntries(entries, scores, classify, parse, hasVault, batch, single);
    ghost var metas := AllMetadata(entries, classify, parse, hasVault, batch, single);
    hits := [];
    for i := 0 to |entries|
      invariant hits == HitsOf(metas, scores, i)
    {
      if items[i].metadata.None? {
        continue;
      }
      hits := hits + [ToSearchHit(items[i].metadata.value, items[i].score)];
    }
  }

  function Own(kind: Class): Option<Metadata> {
    if kind.Plain? then kind.metadata else None
  }

  /** A call for one envelope answers with this plaintext first. */
  predicate Answers(reply: Reply<seq<string>>, text: string) {
    reply.Ok? && |reply.value| > 0 && reply.value[0] == text
  }

  /** The j-th plaintext of the batch is what a call for the j-th envelope alone answers. */
  ghost predicate SameAnswers(entries: seq<string>, classify: Classifier,
                              decrypted: seq<string>, single: string -> Reply<seq<string>>)
  {
    var at := EncryptedAt(entries, classify, |entries|);
    && |decrypted| == |at|
    && forall j | 0 <= j < |at| && at[j] < |entries| :: Answers(single(entries[at[j]]), decrypted[j])
  }

  lemma SamePlaintext(entries: seq<string>, classify: Classifier, decrypted: seq<string>, single: string -> Reply<seq<string>>, i: nat)
    requires SameAnswers(entries, classify, decrypted, single) && i < |entries| && classify(entries[i]).Encrypted?
    ensures PlaintextOf(entries, classify, Ok(decrypted), single, i) == PlaintextOf(entries, classify, Failed, single, i)
  {
    var j := Rank(entries, classify, i);
    RankIsPosition(entries, classify, |entries|, i);
    assert EncryptedAt(entries, classify, |entries|)[j] == i;
    assert Answers(single(entries[i]), decrypted[j]);
  }

  /** With the same answer for every envelope, the fallback gives the hits the batch would have given. */
  lemma FallbackIsBatch(entries: seq<string>, scores: seq<real>, classify: Classifier, parse: Parser, hasVault: bool,
                        decrypted: seq<string>, single: string -> Reply<seq<string>>)
    requires SameAnswers(entries, classify, decrypted, single)
    ensures
      HitsOf(AllMetadata(entries, classify, parse, hasVault, Ok(decrypted), single), scores, |entries|) ==
      HitsOf(AllMetadata(entries, classify, parse, hasVault, Failed, single), scores, |entries|)
  {
    forall i: nat | i < |entries|
      ensures MetadataOf(entries, classify, parse, hasVault, Ok(decrypted), single, i)
           == MetadataOf(entries, classify, parse, hasVault, Failed, single, i)
    {
      if classify(entries[i]).Encrypted? {
        SamePlaintext(entries, classify, decrypted, single, i);
      }
    }
    assert AllMetadata(entries, classify, parse, hasVault, Ok(decrypted), single)
        == AllMetadata(entries, classify, parse, hasVault, Failed, single);
  }

  lemma {:induction false} RankCounts(entries: seq<string>, classify: Classifier, n: nat)
    requires n <= |entries|
    ensures Rank(entries, classify, n) == |set k | 0 <= k < n && classify(entries[k]).Encrypted?|
  {
    if n > 0 {
      RankCounts(entries, classify, n - 1);
      var last := if classify(entries[n - 1]).Encrypted? then {n - 1} else {};
      assert (set k | 0 <= k < n && classify(entries[k]).Encrypted?)
          == (set k | 0 <= k < n - 1 && classify(entries[k]).Encrypted?) + last;
    }
  }

  /**
   * Plain entries are read where they stand. An encrypted one takes the
   * plaintext whose number in the batch is the count of encrypted entries
   * before it, or the first of its own call when there is no batch; without
   * Vault it is not read at all.
   */
  lemma EntryIsRead(entries: seq<string>, classify: Classifier, parse: Parser, hasVault: bool,
                    batch: Reply<seq<string>>, single: string -> Reply<seq<string>>, i: nat)
    requires i < |entries|
    ensures
      var metadata := AllMetadata(entries, classify, parse, hasVault, batch, single)[i];
      var before := |set k | 0 <= k < i && classify(entries[k]).Encrypted?|;
      && (classify(entries[i]).Plain? ==> metadata == classify(entries[i]).metadata)
      && (classify(entries[i]).Unrecognized? ==> metadata == None)
      && (classify(entries[i]).Encrypted? ==>
            && (!hasVault ==> metadata == None)
            && (hasVault && batch.Ok? ==> metadata == if before < |batch.value| then parse(batch.value[before]) else None)
            && (hasVault && batch.Failed? ==>
                  var own := single(entries[i]);
                  metadata == if own.Ok? && |own.value| > 0 then parse(own.value[0]) else None))
  {
    RankCounts(entries, classify, i);
  }

  /** An entry gives a hit exactly when it is read, with its own score; one without a score counts as zero. */
  lemma HitOfEntry(metas: seq<Option<Metadata>>, scores: seq<real>, i: nat)
    requires i < |metas|
    ensures HitAt(metas, scores)(i).Some? <==> metas[i].Some?
    ensures metas[i].Some? ==>
      var h := HitAt(metas, scores)(i).value;
      h.metadata == metas[i].value && h.score == if i < |scores| then scores[i] else 0.0
  {
    if metas[i].Some? {
      HitFields(metas[i].value, ScoreAt(scores, i));
    }
  }

  /** The hits are those of the entries that give one: each from its own entry, in entry order. */
  lemma HitsAreAligned(metas: seq<Option<Metadata>>, scores: seq<real>, n: nat) returns (at: seq<nat>)
    ensures Positions.Picks(at, HitsOf(metas, scores, n), n, HitAt(metas, scores))
  {
    at := Positions.KeptIsPicked(n, HitAt(metas, scores));
  }
}
