/**
 * The AES-256-CTR metadata envelope. The block function is a parameter, CTR
 * mode is section 6.5 of NIST SP 800-38A over it, and the JSON object is the
 * pair of its two fields. Writing and reading a JSON string replaces bytes
 * that are not valid UTF-8.
 */
module Envelope {
  import opened Prelude
  import Base64
  import Utf8

  type Bytes = seq<bv8>

  const BLOCK := 16
  const KEY := 32

  /** A block function under a key: any function from blocks to blocks. */
  type BlockCipher = (Bytes, Bytes) -> Bytes

  ghost predicate IsBlockCipher(e: BlockCipher) {
    forall key, block :: |e(key, block)| == BLOCK
  }

  type Text = Utf8.Bytes

  datatype Sealed = Sealed(a: Text, c: Bytes)

  datatype Error = BadKeySize | NoRandom | BadJson | WrongAgent | BadBase64 | TooShort

  datatype Result<T> = Ok(value: T) | Err(error: Error)

  /** The standard incrementing function over the whole block, big-endian. */
  function Increment(block: Bytes): (next: Bytes)
    ensures |next| == |block|
  {
    if |block| == 0 then []
    else
      var last := |block| - 1;
      if block[last] == 255 then Increment(block[..last]) + [0] else block[..last] + [block[last] + 1]
  }

  /** The counter block for the j-th block of a message. */
  function Counter(iv: Bytes, j: nat): (block: Bytes)
    ensures |block| == |iv|
  {
    if j == 0 then iv else Increment(Counter(iv, j - 1))
  }

  // ------------------------------------------------------------ what the counter blocks are


  /** A block read as a big-endian number. */
  function BigEndian(block: Bytes): nat {
    if |block| == 0 then 0 else 256 * BigEndian(block[..|block| - 1]) + block[|block| - 1] as nat
  }

  function Pow256(n: nat): (p: nat)
    ensures p > 0
  {
    if n == 0 then 1 else 256 * Pow256(n - 1)
  }

  /** The last byte is the one that counts. */
  lemma IncrementReads()
    ensures Increment([0xFE, 0xFF]) == [0xFF, 0x00] && Increment([0x01, 0x02]) == [0x01, 0x03]
    ensures BigEndian([0x01, 0x02]) == 258
  {
    var two: Bytes := [0xFE, 0xFF];
    assert two[..1] == [0xFE] && two[..1][..0] == [];
    assert Increment([0xFE]) == [0xFF];
    var one: Bytes := [0x01, 0x02];
    assert one[..1] == [0x01] && one[..1][..0] == [];
    assert BigEndian([0x01]) == 1;
  }

  lemma {:induction false} BigEndianBound(block: Bytes)
    ensures BigEndian(block) < Pow256(|block|)
  {
    if |block| > 0 {
      BigEndianBound(block[..|block| - 1]);
    }
  }

  lemma ByteIncrement(b: bv8)
    requires b != 255
    ensures (b + 1) as nat == b as nat + 1
  {
  }

  lemma BigEndianSnoc(front: Bytes, b: bv8)
    ensures BigEndian(front + [b]) == 256 * BigEndian(front) + b as nat
  {
    assert (front + [b])[..|front|] == front;
  }

  lemma IncrementLast(front: Bytes, last: bv8)
    requires last != 255
    ensures Increment(front + [last]) == front + [last + 1]
  {
    assert (front + [last])[..|front|] == front;
  }

  lemma LastByteGrows(front: Bytes, last: bv8)
    requires last != 255
    ensures BigEndian(Increment(front + [last])) == BigEndian(front + [last]) + 1
  {
    IncrementLast(front, last);
    BigEndianSnoc(front, last);
    BigEndianSnoc(front, last + 1);
    ByteIncrement(last);
  }

  lemma LastByteCarries(front: Bytes)
    ensures BigEndian(Increment(front + [255])) == 256 * BigEndian(Increment(front))
    ensures BigEndian(front + [255]) == 256 * BigEndian(front) + 255
  {
    assert (front + [255])[..|front|] == front;
    BigEndianSnoc(Increment(front), 0);
  }

  /** Incrementing adds one modulo the size of the block. */
  lemma {:induction false} IncrementAddsOne(block: Bytes)
    ensures BigEndian(Increment(block)) == if BigEndian(block) + 1 == Pow256(|block|) then 0 else BigEndian(block) + 1
  {
    if |block| > 0 {
      var front, last := block[..|block| - 1], block[|block| - 1];
      assert block == front + [last];
      if last == 255 {
        IncrementAddsOne(front);
        LastByteCarries(front);
      } else {
        LastByteGrows(front, last);
        BigEndianBound(Increment(block));
      }
    }
  }

  lemma {:induction false} Multiples(a: nat, b: nat, m: nat)
    requires a < b
    ensures a * m + m <= b * m
    decreases b
  {
    if a + 1 < b {
      Multiples(a, b - 1, m);
    }
    assert b * m == (b - 1) * m + m;
  }

  lemma DividedBy(x: nat, q: nat, r: nat, m: nat)
    requires r < m && x == q * m + r
    ensures x % m == r
  {
    var p := x / m;
    assert x == p * m + x % m;
    if p < q {
      Multiples(p, q, m);
    } else if q < p {
      Multiples(q, p, m);
    }
  }

  lemma ModStep(x: nat, m: nat)
    requires m > 0
    ensures (x + 1) % m == if x % m + 1 == m then 0 else x % m + 1
  {
    var q, r := x / m, x % m;
    if r + 1 == m {
      assert x + 1 == (q + 1) * m + 0;
      DividedBy(x + 1, q + 1, 0, m);
    } else {
      assert x + 1 == q * m + (r + 1);
      DividedBy(x + 1, q, r + 1, m);
    }
  }

  lemma SumsDiffer(x: nat, i: nat, j: nat, m: nat, a: nat, b: nat)
    requires i < j < m && a == (x + i) % m && b == (x + j) % m
    ensures a != b
  {
    var q, p := (x + i) / m, (x + j) / m;
    assert x + i == q * m + (x + i) % m && x + j == p * m + (x + j) % m;
    if q < p {
      Multiples(q, p, m);
    } else if p < q {
      Multiples(p, q, m);
    }
  }

  lemma NextCounterValue(iv: Bytes, j: nat)
    requires j > 0
    ensures var before := BigEndian(Counter(iv, j - 1));
      BigEndian(Counter(iv, j)) == if before + 1 == Pow256(|iv|) then 0 else before + 1
  {
    IncrementAddsOne(Counter(iv, j - 1));
  }

  /** The j-th counter block is the IV plus j, modulo the number of blocks there are. */
  lemma {:induction false} CounterValue(iv: Bytes, j: nat)
    ensures BigEndian(Counter(iv, j)) == (BigEndian(iv) + j) % Pow256(|iv|)
  {
    if j == 0 {
      BigEndianBound(iv);
      DividedBy(BigEndian(iv), 0, BigEndian(iv), Pow256(|iv|));
    } else {
      CounterValue(iv, j - 1);
      NextCounterValue(iv, j);
      ModStep(BigEndian(iv) + j - 1, Pow256(|iv|));
    }
  }

  /** Within one message of fewer than 2^128 blocks, no counter block is used twice. */
  lemma CountersAreDistinct(iv: Bytes, i: nat, j: nat)
    requires i < j < Pow256(|iv|)
    ensures Counter(iv, i) != Counter(iv, j)
  {
    CounterValue(iv, i);
    CounterValue(iv, j);
    SumsDiffer(BigEndian(iv), i, j, Pow256(|iv|), BigEndian(Counter(iv, i)), BigEndian(Counter(iv, j)));
  }

  /** A number has one block of a given length. */
  lemma {:induction false} BigEndianIsInjective(a: Bytes, b: Bytes)
    requires |a| == |b| && BigEndian(a) == BigEndian(b)
    ensures a == b
  {
    if |a| > 0 {
      BigEndianIsInjective(a[..|a| - 1], b[..|b| - 1]);
      assert a == a[..|a| - 1] + [a[|a| - 1]] && b == b[..|b| - 1] + [b[|b| - 1]];
    }
  }

  // ---------------------------------------------------------------------- the key stream

  /** A key stream, one block at a time. */
  type KeyStream = nat -> Bytes

  ghost predicate IsKeyStream(ks: KeyStream) {
    forall j :: |ks(j)| == BLOCK
  }

  /** The key stream of CTR mode: block j is the enciphered j-th counter block. */
  function Ctr(e: BlockCipher, key: Bytes, iv: Bytes): KeyStream {
    (j: nat) => e(key, Counter(iv, j))
  }

  lemma CtrIsKeyStream(e: BlockCipher, key: Bytes, iv: Bytes)
    requires IsBlockCipher(e)
    ensures IsKeyStream(Ctr(e, key, iv))
  {
    forall j: nat ensures |Ctr(e, key, iv)(j)| == BLOCK {
      assert Ctr(e, key, iv)(j) == e(key, Counter(iv, j));
    }
  }

  function StreamByte(ks: KeyStream, i: nat): bv8 {
    if i % BLOCK < |ks(i / BLOCK)| then ks(i / BLOCK)[i % BLOCK] else 0
  }

  function Xored(ks: KeyStream, text: Bytes): Bytes {
    seq(|text|, i requires 0 <= i < |text| => text[i] ^ StreamByte(ks, i))
  }

  lemma StreamByteAt(ks: KeyStream, block: nat, offset: nat)
    requires IsKeyStream(ks) && offset < BLOCK
    ensures StreamByte(ks, BLOCK * block + offset) == ks(block)[offset]
  {
    assert (BLOCK * block + offset) / BLOCK == block && (BLOCK * block + offset) % BLOCK == offset;
  }

  /** Fetches the stream a block at a time and uses each byte of it once. */
  method XorKeyStream(ks: KeyStream, dst: array<bv8>, src: Bytes)
    requires IsKeyStream(ks) && dst.Length == |src|
    modifies dst
    ensures dst[..] == Xored(ks, src)
  {
    var stream: Bytes := [];
    var used, fetched := 0, 0;
    var i := 0;
    while i < |src|
      invariant 0 <= i <= |src|
      invariant if fetched == 0 then stream == [] && used == i == 0
                else stream == ks(fetched - 1) && i == BLOCK * (fetched - 1) + used && used <= BLOCK
      invariant forall k | 0 <= k < i :: dst[k] == src[k] ^ StreamByte(ks, k)
    {
      if used == |stream| {
        stream, used, fetched := ks(fetched), 0, fetched + 1;
      }
      StreamByteAt(ks, fetched - 1, used);
      dst[i] := src[i] ^ stream[used];
      used, i := used + 1, i + 1;
    }
  }

  /** The block whose number is the IV plus j, modulo 2^128. */
  ghost predicate IsCounterBlock(iv: Bytes, j: nat, block: Bytes) {
    |block| == 16 && BigEndian(block) == (BigEndian(iv) + j) % Pow256(|block|)
  }

  /** A byte is combined with byte k of the j-th enciphered counter block. */
  ghost predicate EncipheredAt(e: BlockCipher, key: Bytes, iv: Bytes, j: nat, k: nat, before: bv8, after: bv8) {
    exists block: Bytes ::
      IsCounterBlock(iv, j, block) && k < |e(key, block)| == 16 && after == before ^ e(key, block)[k]
  }

  ghost predicate IsCtrMode(e: BlockCipher, key: Bytes, iv: Bytes, text: Bytes, out: Bytes) {
    |out| == |text| && forall i | 0 <= i < |text| :: EncipheredAt(e, key, iv, i / 16, i % 16, text[i], out[i])
  }

  lemma CounterEnciphers(e: BlockCipher, key: Bytes, iv: Bytes, j: nat, k: nat, before: bv8)
    requires |iv| == BLOCK && k < |e(key, Counter(iv, j))| == BLOCK
    ensures EncipheredAt(e, key, iv, j, k, before, before ^ e(key, Counter(iv, j))[k])
  {
    assert IsCounterBlock(iv, j, Counter(iv, j)) by {
      CounterValue(iv, j);
    }
  }

  lemma XoredIsCtrMode(e: BlockCipher, key: Bytes, iv: Bytes, text: Bytes)
    requires IsBlockCipher(e) && |iv| == BLOCK
    ensures IsCtrMode(e, key, iv, text, Xored(Ctr(e, key, iv), text))
  {
    var out := Xored(Ctr(e, key, iv), text);
    forall i | 0 <= i < |text| ensures EncipheredAt(e, key, iv, i / 16, i % 16, text[i], out[i]) {
      assert Ctr(e, key, iv)(i / BLOCK) == e(key, Counter(iv, i / BLOCK));
      CounterEnciphers(e, key, iv, i / BLOCK, i % BLOCK, text[i]);
    }
  }

  /** CTR mode leaves no choice: the IV, the key and the text determine the result. */
  lemma CtrModeIsUnique(e: BlockCipher, key: Bytes, iv: Bytes, text: Bytes, out: Bytes, other: Bytes)
    requires IsCtrMode(e, key, iv, text, out) && IsCtrMode(e, key, iv, text, other)
    ensures out == other
  {
    forall i | 0 <= i < |text| ensures out[i] == other[i] {
      OneByte(e, key, iv, i / 16, i % 16, text[i], out[i], other[i]);
    }
  }

  lemma OneByte(e: BlockCipher, key: Bytes, iv: Bytes, j: nat, k: nat, before: bv8, after: bv8, other: bv8)
    requires EncipheredAt(e, key, iv, j, k, before, after) && EncipheredAt(e, key, iv, j, k, before, other)
    ensures after == other
  {
    var b: Bytes :| IsCounterBlock(iv, j, b) && k < |e(key, b)| == 16 && after == before ^ e(key, b)[k];
    var c: Bytes :| IsCounterBlock(iv, j, c) && k < |e(key, c)| == 16 && other == before ^ e(key, c)[k];
    BigEndianIsInjective(b, c);
  }

  method CtrCrypt(e: BlockCipher, key: Bytes, iv: Bytes, text: Bytes) returns (out: Bytes)
    requires IsBlockCipher(e) && |iv| == BLOCK
    ensures out == Xored(Ctr(e, key, iv), text)
    ensures IsCtrMode(e, key, iv, text, out)
  {
    var buffer := new bv8[|text|];
    CtrIsKeyStream(e, key, iv);
    XorKeyStream(Ctr(e, key, iv), buffer, text);
    out := buffer[..];
    XoredIsCtrMode(e, key, iv, text);
  }

  /** The decoded field is the IV followed by the text in CTR mode. */
  ghost predicate HoldsCtr(e: BlockCipher, key: Bytes, iv: Bytes, text: Bytes, field: Option<Bytes>) {
    && field.Some? && |field.value| == 16 + |text|
    && field.value[..16] == iv && IsCtrMode(e, key, iv, text, field.value[16..])
  }

  /** random is what the random source delivers when sixteen bytes are read from it. */
  method Seal(e: BlockCipher, dek: Bytes, agentId: Text, plaintext: Bytes, random: Option<Bytes>) returns (r: Result<Sealed>)
    requires IsBlockCipher(e)
    requires random.Some? ==> |random.value| == BLOCK
    ensures r.Ok? <==> |dek| == 32 && random.Some?
    ensures |dek| != 32 ==> r == Err(BadKeySize)
    ensures |dek| == 32 && random.None? ==> r == Err(NoRandom)
    ensures r.Ok? ==> r.value == SealedWith(e, dek, agentId, plaintext, random.value)
    ensures r.Ok? ==> r.value.a == Utf8.Coerced(agentId)
    ensures r.Ok? ==> HoldsCtr(e, dek, random.value, plaintext, Base64.Decode(r.value.c))
  {
    if |dek| != KEY {
      return Err(BadKeySize);
    }
    if random.None? {
      return Err(NoRandom);
    }
    var iv := random.value;
    var ct := CtrCrypt(e, dek, iv, plaintext);
    var combined := iv + ct;
    Base64.RoundTrip(combined);
    assert combined[..16] == iv && combined[16..] == ct;
    r := Ok(Sealed(Utf8.Coerced(agentId), Base64.Encode(combined)));
  }

  function SealedWith(e: BlockCipher, dek: Bytes, agentId: Text, plaintext: Bytes, iv: Bytes): Sealed {
    Sealed(Utf8.Coerced(agentId), Base64.Encode(iv + Xored(Ctr(e, dek, iv), plaintext)))
  }

  /** What opening comes to; envelope is None when the text is not a JSON object of this shape. */
  function Opened(e: BlockCipher, dek: Bytes, agentId: Text, envelope: Option<Sealed>): Result<Bytes> {
    if |dek| != KEY then Err(BadKeySize)
    else if envelope.None? then Err(BadJson)
    else if Utf8.Coerced(envelope.value.a) != agentId then Err(WrongAgent)
    else
      var combined := Base64.Decode(envelope.value.c);
      if combined.None? then Err(BadBase64)
      else if |combined.value| < BLOCK then Err(TooShort)
      else Ok(Xored(Ctr(e, dek, combined.value[..BLOCK]), combined.value[BLOCK..]))
  }

  method Open(e: BlockCipher, dek: Bytes, agentId: Text, envelope: Option<Sealed>) returns (r: Result<Bytes>)
    requires IsBlockCipher(e)
    ensures r == Opened(e, dek, agentId, envelope)
    ensures r == Err(BadKeySize) <==> |dek| != 32
    ensures r.Ok? <==>
      && |dek| == 32 && envelope.Some? && Utf8.Coerced(envelope.value.a) == agentId
      && Base64.Decode(envelope.value.c).Some? && |Base64.Decode(envelope.value.c).value| >= 16
    ensures r.Ok? ==> var field := Base64.Decode(envelope.value.c).value;
      IsCtrMode(e, dek, field[..16], field[16..], r.value)
  {
    if |dek| != KEY {
      return Err(BadKeySize);
    }
    if envelope.None? {
      return Err(BadJson);
    }
    if Utf8.Coerced(envelope.value.a) != agentId {
      return Err(WrongAgent);
    }
    var combined := Base64.Decode(envelope.value.c);
    if combined.None? {
      return Err(BadBase64);
    }
    if |combined.value| < BLOCK {
      return Err(TooShort);
    }
    var plaintext := CtrCrypt(e, dek, combined.value[..BLOCK], combined.value[BLOCK..]);
    r := Ok(plaintext);
  }

  lemma XorTwice(x: bv8, k: bv8)
    ensures (x ^ k) ^ k == x
  {
  }

  lemma XoredTwice(ks: KeyStream, text: Bytes)
    ensures Xored(ks, Xored(ks, text)) == text
  {
    var once := Xored(ks, text);
    forall i | 0 <= i < |text| ensures once[i] ^ StreamByte(ks, i) == text[i] {
      XorTwice(text[i], StreamByte(ks, i));
    }
  }

  /**
   * Opening what was sealed gives the plaintext back, for every key, IV and
   * plaintext, to exactly the agent whose ID the JSON text holds; any other
   * agent is turned away.
   */
  lemma OpenUndoesSeal(e: BlockCipher, dek: Bytes, agentId: Text, opener: Text, plaintext: Bytes, iv: Bytes)
    requires |dek| == KEY && |iv| == BLOCK
    ensures Opened(e, dek, opener, Some(SealedWith(e, dek, agentId, plaintext, iv))) ==
      if opener == Utf8.Coerced(agentId) then Ok(plaintext) else Err(WrongAgent)
  {
    var ct := Xored(Ctr(e, dek, iv), plaintext);
    Base64.RoundTrip(iv + ct);
    assert (iv + ct)[..BLOCK] == iv && (iv + ct)[BLOCK..] == ct;
    XoredTwice(Ctr(e, dek, iv), plaintext);
    Utf8.CoercedIsValid(agentId);
  }

  /** The agent that sealed gets the plaintext back if and only if its ID is valid UTF-8. */
  lemma OwnSealOpensIff(e: BlockCipher, dek: Bytes, agentId: Text, plaintext: Bytes, iv: Bytes)
    requires |dek| == KEY && |iv| == BLOCK
    ensures Opened(e, dek, agentId, Some(SealedWith(e, dek, agentId, plaintext, iv))) == Ok(plaintext) <==> Utf8.Valid(agentId)
  {
    OpenUndoesSeal(e, dek, agentId, agentId, plaintext, iv);
    Utf8.CoercedIsSameIff(agentId);
  }

  /** The encoded field has four characters for every started group of three bytes. */
  lemma SealedLength(e: BlockCipher, dek: Bytes, agentId: Text, plaintext: Bytes, iv: Bytes)
    requires |iv| == BLOCK
    ensures |SealedWith(e, dek, agentId, plaintext, iv).c| == 4 * ((BLOCK + |plaintext| + 2) / 3)
  {
    Base64.RoundTrip(iv + Xored(Ctr(e, dek, iv), plaintext));
  }
}
