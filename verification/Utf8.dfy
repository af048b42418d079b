/**
 * The two rune truncations of the repository. One scans bytes and cuts at an
 * offset; the other decodes the whole string, cuts the rune slice and encodes
 * it again. Decoding follows the table of section 3 of RFC 3629: a byte that
 * starts no valid sequence is read as U+FFFD with width one.
 */
module Utf8 {

  newtype byte = x: int | 0 <= x < 256

  type Bytes = seq<byte>
  type Rune = nat

  const REPLACEMENT: Rune := 0xFFFD

  predicate Tail(b: byte) {
    0x80 <= b <= 0xBF
  }

  /** Width of the valid sequence s starts with; zero when there is none. */
  function ValidWidth(s: Bytes): (w: nat)
    ensures w <= 4 && w <= |s|
  {
    if |s| >= 1 && s[0] < 0x80 then 1
    else if |s| >= 2 && 0xC2 <= s[0] <= 0xDF && Tail(s[1]) then 2
    else if |s| >= 3 && Leads3(s[0], s[1]) && Tail(s[2]) then 3
    else if |s| >= 4 && Leads4(s[0], s[1]) && Tail(s[2]) && Tail(s[3]) then 4
    else 0
  }

  predicate Leads3(a: byte, b: byte) {
    || (a == 0xE0 && 0xA0 <= b <= 0xBF)
    || (0xE1 <= a <= 0xEC && Tail(b))
    || (a == 0xED && 0x80 <= b <= 0x9F)
    || (0xEE <= a <= 0xEF && Tail(b))
  }

  predicate Leads4(a: byte, b: byte) {
    || (a == 0xF0 && 0x90 <= b <= 0xBF)
    || (0xF1 <= a <= 0xF3 && Tail(b))
    || (a == 0xF4 && 0x80 <= b <= 0x8F)
  }

  /** How far one step of a range loop over s moves. */
  function Width(s: Bytes): (w: nat)
    requires |s| > 0
    ensures 1 <= w <= |s|
  {
    if ValidWidth(s) == 0 then 1 else ValidWidth(s)
  }

  function FirstRune(s: Bytes): Rune
    requires |s| > 0
  {
    match ValidWidth(s)
    case 0 => REPLACEMENT
    case 1 => s[0] as nat
    case 2 => (s[0] as int - 0xC0) * 64 + (s[1] as int - 0x80)
    case 3 => (s[0] as int - 0xE0) * 4096 + (s[1] as int - 0x80) * 64 + (s[2] as int - 0x80)
    case _ => (s[0] as int - 0xF0) * 262144 + (s[1] as int - 0x80) * 4096 + (s[2] as int - 0x80) * 64 + (s[3] as int - 0x80)
  }

  function EncodeRune(r: Rune): Bytes {
    if r < 0x80 then [r as byte]
    else if r < 0x800 then [(0xC0 + r / 64) as byte, (0x80 + r % 64) as byte]
    else if r < 0x10000 && !(0xD800 <= r <= 0xDFFF) then
      [(0xE0 + r / 4096) as byte, (0x80 + r / 64 % 64) as byte, (0x80 + r % 64) as byte]
    else if 0x10000 <= r <= 0x10FFFF then
      [(0xF0 + r / 262144) as byte, (0x80 + r / 4096 % 64) as byte, (0x80 + r / 64 % 64) as byte, (0x80 + r % 64) as byte]
    else [0xEF, 0xBF, 0xBD]
  }

  function Decode(s: Bytes): seq<Rune> {
    if |s| == 0 then [] else [FirstRune(s)] + Decode(s[Width(s)..])
  }

  function Encode(rs: seq<Rune>): Bytes {
    if |rs| == 0 then [] else EncodeRune(rs[0]) + Encode(rs[1..])
  }

  predicate Valid(s: Bytes) {
    |s| == 0 || (ValidWidth(s) > 0 && Valid(s[Width(s)..]))
  }

  function RuneCount(s: Bytes): nat {
    if |s| == 0 then 0 else 1 + RuneCount(s[Width(s)..])
  }

  /** Byte offset of the n-th rune, or the length when there are fewer. */
  function Offset(s: Bytes, n: nat): (k: nat)
    ensures k <= |s|
  {
    if n == 0 || |s| == 0 then 0 else Width(s) + Offset(s[Width(s)..], n - 1)
  }

  /** The first n runes of s, as the bytes they came from. */
  function Prefix(s: Bytes, n: nat): Bytes {
    s[..Offset(s, n)]
  }

  // ------------------------------------------------------------- the byte-scanning form

  lemma {:induction false} RuneCountBound(s: Bytes)
    ensures RuneCount(s) <= |s|
    decreases |s|
  {
    if |s| > 0 {
      RuneCountBound(s[Width(s)..]);
    }
  }

  lemma {:induction false} OffsetIsEnd(s: Bytes, n: nat)
    ensures Offset(s, n) == |s| <==> RuneCount(s) <= n
    decreases |s|
  {
    if |s| > 0 && n > 0 {
      OffsetIsEnd(s[Width(s)..], n - 1);
    }
  }

  lemma SuffixShift(s: Bytes, k: nat)
    requires |s| > 0
    ensures var rest := s[Width(s)..];
      Offset(s, k + 1) == Width(s) + Offset(rest, k) && s[Offset(s, k + 1)..] == rest[Offset(rest, k)..]
  {
    var rest := s[Width(s)..];
    assert s[Width(s) + Offset(rest, k)..] == rest[Offset(rest, k)..];
  }

  lemma OffsetStep(s: Bytes, n: nat) returns (rest: Bytes, own: nat)
    requires |s| > 0
    ensures |rest| < |s| && |s| == own + |rest|
    ensures Offset(s, n + 1) == own + Offset(rest, n) && Offset(s, n + 2) == own + Offset(rest, n + 1)
    ensures s[Offset(s, n + 1)..] == rest[Offset(rest, n)..]
  {
    rest, own := s[Width(s)..], Width(s);
    SuffixShift(s, n);
    SuffixShift(s, n + 1);
  }

  /** One more rune moves the offset by the width of the rune that starts there. */
  lemma {:induction false} OffsetMoves(s: Bytes, n: nat)
    requires Offset(s, n) < |s|
    ensures Offset(s, n + 1) == Offset(s, n) + Width(s[Offset(s, n)..])
    decreases |s|
  {
    if n == 0 {
      assert s[0..] == s;
    } else {
      var rest, own := OffsetStep(s, n - 1);
      OffsetMoves(rest, n - 1);
    }
  }

  method TruncRunesBytes(s: Bytes, maxRunes: int) returns (r: Bytes)
    ensures r == if maxRunes <= 0 then [] else Prefix(s, maxRunes)
    ensures r <= s && (maxRunes <= 0 ==> r == [])
    ensures maxRunes > 0 ==> Decode(r) == if |Decode(s)| > maxRunes then Decode(s)[..maxRunes] else Decode(s)
  {
    if maxRunes > 0 {
      PrefixDecodes(s, maxRunes);
    }
    if maxRunes <= 0 {
      return [];
    }
    if |s| <= maxRunes {
      RuneCountBound(s);
      OffsetIsEnd(s, maxRunes);
      return s;
    }
    var count, i := 0, 0;
    while i < |s|
      invariant 0 <= count <= maxRunes
      invariant i == Offset(s, count)
      decreases |s| - i
    {
      if count == maxRunes {
        return s[..i];
      }
      OffsetMoves(s, count);
      count, i := count + 1, i + Width(s[i..]);
    }
    OffsetIsEnd(s, count);
    OffsetIsEnd(s, maxRunes);
    return s;
  }

  // --------------------------------------------------------------- the rune-slice form

  function Cut(rs: seq<Rune>, n: nat): seq<Rune> {
    if |rs| > n then rs[..n] else rs
  }

  /** A negative bound would slice out of range. */
  function TruncRunesSlice(s: Bytes, maxRunes: nat): Bytes {
    Encode(Cut(Decode(s), maxRunes))
  }

  // ---------------------------------------------------------------- they agree when

  lemma Valid1RoundTrips(s: Bytes)
    requires ValidWidth(s) == 1
    ensures EncodeRune(FirstRune(s)) == s[..1]
  {
  }

  lemma Valid2RoundTrips(s: Bytes)
    requires ValidWidth(s) == 2
    ensures EncodeRune(FirstRune(s)) == s[..2]
  {
    var a, b := s[0] as int - 0xC0, s[1] as int - 0x80;
    var r := FirstRune(s);
    assert r == a * 64 + b && 0x80 <= r < 0x800;
    assert r / 64 == a && r % 64 == b;
  }

  lemma Valid3RoundTrips(s: Bytes)
    requires ValidWidth(s) == 3
    ensures EncodeRune(FirstRune(s)) == s[..3]
  {
    var a, b, c := s[0] as int - 0xE0, s[1] as int - 0x80, s[2] as int - 0x80;
    var r := FirstRune(s);
    assert r == (a * 64 + b) * 64 + c && 0x800 <= r < 0x10000 && !(0xD800 <= r <= 0xDFFF);
    assert r / 64 == a * 64 + b && r % 64 == c;
    assert r / 4096 == a && r / 64 % 64 == b;
  }

  lemma Valid4RoundTrips(s: Bytes)
    requires ValidWidth(s) == 4
    ensures EncodeRune(FirstRune(s)) == s[..4]
  {
    var a, b, c, d := s[0] as int - 0xF0, s[1] as int - 0x80, s[2] as int - 0x80, s[3] as int - 0x80;
    var r := FirstRune(s);
    assert r == ((a * 64 + b) * 64 + c) * 64 + d && 0x10000 <= r <= 0x10FFFF;
    assert r / 64 == (a * 64 + b) * 64 + c && r % 64 == d;
    assert r / 4096 == a * 64 + b && r / 64 % 64 == c;
    assert r / 262144 == a && r / 4096 % 64 == b;
  }

  /** A valid sequence decodes and encodes to itself; an invalid byte grows to three. */
  lemma FirstRuneRoundTrips(s: Bytes)
    requires |s| > 0
    ensures ValidWidth(s) > 0 ==> EncodeRune(FirstRune(s)) == s[..Width(s)]
    ensures ValidWidth(s) == 0 ==> |EncodeRune(FirstRune(s))| == 3 && Width(s) == 1
  {
    match ValidWidth(s)
    case 0 =>
    case 1 => Valid1RoundTrips(s);
    case 2 => Valid2RoundTrips(s);
    case 3 => Valid3RoundTrips(s);
    case _ => Valid4RoundTrips(s);
  }

  /** The code points of section 3 of RFC 3629: all but the surrogates. */
  predicate Scalar(r: Rune) {
    r < 0xD800 || 0xE000 <= r <= 0x10FFFF
  }

  lemma Scalar2(r: Rune)
    requires 0x80 <= r < 0x800
    ensures ValidWidth(EncodeRune(r)) == 2 && FirstRune(EncodeRune(r)) == r
  {
    var a, b := r / 64, r % 64;
    assert r == a * 64 + b && 2 <= a < 32;
  }

  lemma Scalar3(r: Rune)
    requires 0x800 <= r < 0x10000 && Scalar(r)
    ensures ValidWidth(EncodeRune(r)) == 3 && FirstRune(EncodeRune(r)) == r
  {
    var a, b, c := r / 4096, r / 64 % 64, r % 64;
    assert r / 64 == a * 64 + b && r == (a * 64 + b) * 64 + c;
  }

  lemma Scalar4(r: Rune)
    requires 0x10000 <= r <= 0x10FFFF
    ensures ValidWidth(EncodeRune(r)) == 4 && FirstRune(EncodeRune(r)) == r
  {
    var a, b, c, d := r / 262144, r / 4096 % 64, r / 64 % 64, r % 64;
    assert r / 4096 == a * 64 + b && r / 64 == (a * 64 + b) * 64 + c && r == ((a * 64 + b) * 64 + c) * 64 + d;
  }

  /** Every code point is encoded to a valid sequence that decodes to it. */
  lemma ScalarRoundTrips(r: Rune)
    requires Scalar(r)
    ensures ValidWidth(EncodeRune(r)) == |EncodeRune(r)| && FirstRune(EncodeRune(r)) == r
  {
    if 0x80 <= r < 0x800 {
      Scalar2(r);
    } else if 0x800 <= r < 0x10000 {
      Scalar3(r);
    } else if r >= 0x10000 {
      Scalar4(r);
    }
  }

  /** Section 7 of RFC 3629: an identity sign, a Hangul syllable, a Kanji and a stump of tree. */
  lemma KnownSequences()
    ensures EncodeRune(0x2262) == [0xE2, 0x89, 0xA2] && EncodeRune(0xD55C) == [0xED, 0x95, 0x9C]
    ensures EncodeRune(0x65E5) == [0xE6, 0x97, 0xA5] && EncodeRune(0x233B4) == [0xF0, 0xA3, 0x8E, 0xB4]
    ensures EncodeRune(0x391) == [0xCE, 0x91] && EncodeRune(0x41) == [0x41] && EncodeRune(0xFFFD) == [0xEF, 0xBF, 0xBD]
  {
  }

  lemma {:induction false} DecodeCounts(s: Bytes)
    ensures |Decode(s)| == RuneCount(s)
    decreases |s|
  {
    if |s| > 0 {
      DecodeCounts(s[Width(s)..]);
    }
  }

  /** The width of the first sequence is decided by the bytes of that sequence. */
  lemma WidthIsLocal(s: Bytes, k: nat)
    requires |s| > 0 && Width(s) <= k <= |s|
    ensures ValidWidth(s[..k]) == ValidWidth(s)
  {
  }

  lemma PrefixStep(s: Bytes, n: nat)
    requires |s| > 0 && n > 0
    ensures var rest := s[Width(s)..];
      && Prefix(s, n) == s[..Width(s)] + Prefix(rest, n - 1)
      && (Valid(Prefix(s, n)) <==> ValidWidth(s) > 0 && Valid(Prefix(rest, n - 1)))
      && RuneCount(Prefix(s, n)) == 1 + RuneCount(Prefix(rest, n - 1))
  {
    WidthIsLocal(s, Offset(s, n));
    assert Prefix(s, n)[Width(s)..] == Prefix(s[Width(s)..], n - 1);
  }

  /** A cut between runes keeps the runes before it as they were read. */
  lemma {:induction false} PrefixDecodes(s: Bytes, n: nat)
    ensures Decode(Prefix(s, n)) == Cut(Decode(s), n)
    decreases |s|
  {
    if |s| > 0 && n > 0 {
      var rest := s[Width(s)..];
      PrefixDecodes(rest, n - 1);
      PrefixStep(s, n);
      FirstIsLocal(s, Offset(s, n));
      assert Prefix(s, n)[Width(s)..] == Prefix(rest, n - 1);
      CutStep(FirstRune(s), Decode(rest), n);
    }
  }

  lemma FirstIsLocal(s: Bytes, k: nat)
    requires |s| > 0 && Width(s) <= k <= |s|
    ensures Width(s[..k]) == Width(s) && FirstRune(s[..k]) == FirstRune(s)
  {
    WidthIsLocal(s, k);
  }

  lemma CutStep(r: Rune, rest: seq<Rune>, n: nat)
    requires n > 0
    ensures Cut([r] + rest, n) == [r] + Cut(rest, n - 1)
  {
  }

  /** code is what the first rune is encoded to: its own bytes when they are valid, more bytes when not. */
  lemma KeptStep(s: Bytes, n: nat) returns (code: Bytes)
    requires |s| > 0 && n > 0
    ensures TruncRunesSlice(s, n) == code + TruncRunesSlice(s[Width(s)..], n - 1)
    ensures if ValidWidth(s) > 0 then code == s[..Width(s)] else |code| > Width(s)
  {
    var cut, rest := Cut(Decode(s), n), Decode(s[Width(s)..]);
    assert Decode(s) == [FirstRune(s)] + rest;
    assert cut[0] == FirstRune(s) && cut[1..] == Cut(rest, n - 1);
    code := EncodeRune(FirstRune(s));
    FirstRuneRoundTrips(s);
  }

  lemma {:induction false} ValidIsKept(s: Bytes, n: nat)
    requires Valid(Prefix(s, n))
    ensures TruncRunesSlice(s, n) == Prefix(s, n)
    decreases |s|
  {
    if |s| > 0 && n > 0 {
      PrefixStep(s, n);
      ValidIsKept(s[Width(s)..], n - 1);
      var code := KeptStep(s, n);
    }
  }

  /** By how much both truncations grow with the first rune. */
  lemma LengthStep(s: Bytes, n: nat) returns (rest: Bytes, own: nat, code: nat, valid: bool)
    requires |s| > 0 && n > 0
    ensures |rest| < |s| && if valid then code == own else code > own
    ensures |Prefix(s, n)| == own + |Prefix(rest, n - 1)| && |TruncRunesSlice(s, n)| == code + |TruncRunesSlice(rest, n - 1)|
    ensures Valid(Prefix(s, n)) <==> valid && Valid(Prefix(rest, n - 1))
  {
    PrefixStep(s, n);
    var c := KeptStep(s, n);
    rest, own, code, valid := s[Width(s)..], Width(s), |c|, ValidWidth(s) > 0;
  }

  lemma {:induction false} InvalidGrows(s: Bytes, n: nat)
    ensures |TruncRunesSlice(s, n)| >= |Prefix(s, n)|
    ensures !Valid(Prefix(s, n)) ==> |TruncRunesSlice(s, n)| > |Prefix(s, n)|
    decreases |s|
  {
    if |s| == 0 || n == 0 {
      assert TruncRunesSlice(s, n) == [] && Prefix(s, n) == [];
    } else {
      var rest, own, code, valid := LengthStep(s, n);
      InvalidGrows(rest, n - 1);
    }
  }

  lemma {:induction false} PrefixCounts(s: Bytes, n: nat)
    ensures Valid(s) ==> Valid(Prefix(s, n))
    ensures RuneCount(Prefix(s, n)) == if RuneCount(s) < n then RuneCount(s) else n
    decreases |s|
  {
    if |s| > 0 && n > 0 {
      PrefixCounts(s[Width(s)..], n - 1);
      PrefixStep(s, n);
    }
  }

  /**
   * On valid UTF-8 the two truncations return the same bytes: a valid prefix
   * of min(n, rune count) code points.
   */
  lemma TruncationsAgree(s: Bytes, n: nat)
    requires Valid(s)
    ensures TruncRunesSlice(s, n) == Prefix(s, n)
    ensures Prefix(s, n) <= s && Valid(Prefix(s, n))
    ensures RuneCount(Prefix(s, n)) == if RuneCount(s) < n then RuneCount(s) else n
  {
    PrefixCounts(s, n);
    ValidIsKept(s, n);
  }

  /** The k-th rune of s is read from a valid sequence. */
  predicate StartsValid(s: Bytes, k: nat) {
    ValidWidth(s[Offset(s, k)..]) > 0
  }

  /** Each of the runes a truncation to n keeps is read from a valid sequence. */
  ghost predicate KeepsValid(s: Bytes, n: nat) {
    forall k: nat | k < n && k < RuneCount(s) :: StartsValid(s, k)
  }

  lemma StartsValidShift(s: Bytes, k: nat)
    requires |s| > 0
    ensures StartsValid(s, k + 1) == StartsValid(s[Width(s)..], k)
  {
    SuffixShift(s, k);
  }

  lemma KeepsValidStep(s: Bytes, n: nat)
    requires |s| > 0 && n > 0
    ensures KeepsValid(s, n) <==> StartsValid(s, 0) && KeepsValid(s[Width(s)..], n - 1)
  {
    var rest := s[Width(s)..];
    forall k: nat ensures StartsValid(s, k + 1) == StartsValid(rest, k) {
      StartsValidShift(s, k);
    }
    if StartsValid(s, 0) && KeepsValid(rest, n - 1) {
      forall k: nat | k < n && k < RuneCount(s) ensures StartsValid(s, k) {
        if k > 0 {
          assert StartsValid(rest, k - 1);
        }
      }
    }
    if KeepsValid(s, n) {
      forall k: nat | k < n - 1 && k < RuneCount(rest) ensures StartsValid(rest, k) {
        assert StartsValid(s, k + 1);
      }
    }
  }

  lemma ValidityStep(s: Bytes, n: nat) returns (rest: Bytes, valid: bool)
    requires |s| > 0 && n > 0
    ensures |rest| < |s|
    ensures Valid(Prefix(s, n)) <==> valid && Valid(Prefix(rest, n - 1))
    ensures KeepsValid(s, n) <==> valid && KeepsValid(rest, n - 1)
  {
    rest, valid := s[Width(s)..], ValidWidth(s) > 0;
    PrefixStep(s, n);
    KeepsValidStep(s, n);
    assert s[0..] == s;
  }

  lemma {:induction false} PrefixIsValidIff(s: Bytes, n: nat)
    ensures Valid(Prefix(s, n)) <==> KeepsValid(s, n)
    decreases |s|
  {
    if |s| == 0 || n == 0 {
      assert Prefix(s, n) == [];
    } else {
      var rest, valid := ValidityStep(s, n);
      PrefixIsValidIff(rest, n - 1);
    }
  }

  /** On any bytes at all they agree exactly when each of the first n runes there are is read from a valid sequence. */
  lemma TruncationsAgreeIff(s: Bytes, n: nat)
    ensures TruncRunesSlice(s, n) == Prefix(s, n) <==> KeepsValid(s, n)
    ensures KeepsValid(s, n) <==> Valid(Prefix(s, n))
  {
    PrefixIsValidIff(s, n);
    InvalidGrows(s, n);
    if Valid(Prefix(s, n)) {
      ValidIsKept(s, n);
    }
  }

  /** A lone 0xFF: the byte scan keeps it, the rune slice writes U+FFFD. */
  lemma LoneByteDiffers()
    ensures Prefix([0xFF], 1) == [0xFF] && TruncRunesSlice([0xFF], 1) == [0xEF, 0xBF, 0xBD]
  {
    var s: Bytes := [0xFF];
    assert s[1..] == [];
    assert Decode(s) == [REPLACEMENT] + Decode(s[1..]);
  }

  /** Decoding and encoding again, as encoders do that write no invalid UTF-8. */
  function Coerced(s: Bytes): Bytes {
    Encode(Decode(s))
  }

  lemma PrefixOfAll(s: Bytes)
    ensures Prefix(s, |s|) == s && TruncRunesSlice(s, |s|) == Coerced(s)
  {
    RuneCountBound(s);
    OffsetIsEnd(s, |s|);
    DecodeCounts(s);
  }

  /** Exactly valid UTF-8 comes through unchanged. */
  lemma CoercedIsSameIff(s: Bytes)
    ensures Coerced(s) == s <==> Valid(s)
  {
    PrefixOfAll(s);
    TruncationsAgreeIff(s, |s|);
  }

  lemma FirstRuneIsScalar(s: Bytes)
    requires |s| > 0
    ensures Scalar(FirstRune(s))
  {
  }

  /** What follows a code point does not change how it is read. */
  lemma EncodedFirst(r: Rune, rest: Bytes)
    requires Scalar(r)
    ensures var s := EncodeRune(r) + rest; |s| > 0 && ValidWidth(s) == |EncodeRune(r)| > 0 && s[Width(s)..] == rest
  {
    ScalarRoundTrips(r);
    var s := EncodeRune(r) + rest;
    assert s[..|EncodeRune(r)|] == EncodeRune(r);
    SameStart(EncodeRune(r), s);
  }

  lemma SameStart(head: Bytes, s: Bytes)
    requires ValidWidth(head) == |head| > 0 && |head| <= |s| && s[..|head|] == head
    ensures ValidWidth(s) == |head|
  {
    assert forall i | 0 <= i < |head| :: s[i] == s[..|head|][i];
  }

  lemma {:induction false} EncodedIsValid(rs: seq<Rune>)
    requires forall i | 0 <= i < |rs| :: Scalar(rs[i])
    ensures Valid(Encode(rs))
  {
    if |rs| > 0 {
      EncodedIsValid(rs[1..]);
      EncodedFirst(rs[0], Encode(rs[1..]));
    }
  }

  lemma {:induction false} DecodedIsScalar(s: Bytes)
    ensures forall i | 0 <= i < |Decode(s)| :: Scalar(Decode(s)[i])
    decreases |s|
  {
    if |s| > 0 {
      DecodedIsScalar(s[Width(s)..]);
      FirstRuneIsScalar(s);
    }
  }

  /** What comes out is valid, so coercing again changes nothing. */
  lemma CoercedIsValid(s: Bytes)
    ensures Valid(Coerced(s)) && Coerced(Coerced(s)) == Coerced(s)
  {
    DecodedIsScalar(s);
    EncodedIsValid(Decode(s));
    CoercedIsSameIff(Coerced(s));
  }
}
