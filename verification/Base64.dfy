/** Standard base64 with padding, section 4 of RFC 4648, as the decoder of the envelope reads it. */
module Base64 {
  import opened Prelude

  type Bytes = seq<bv8>

  const PAD: bv8 := 61

  /** The alphabet, from a six-bit value to its ASCII code. */
  function Digit(v: bv8): bv8 {
    if v < 26 then v + 65
    else if v < 52 then v + 71
    else if v < 62 then v - 4
    else if v == 62 then 43
    else 47
  }

  function Value(c: bv8): Option<bv8> {
    if 65 <= c <= 90 then Some(c - 65)
    else if 97 <= c <= 122 then Some(c - 71)
    else if 48 <= c <= 57 then Some(c + 4)
    else if c == 43 then Some(62)
    else if c == 47 then Some(63)
    else None
  }

  function First(a: bv8): bv8 { a >> 2 }
  function Second(a: bv8, b: bv8): bv8 { ((a & 3) << 4) | (b >> 4) }
  function Third(b: bv8, c: bv8): bv8 { ((b & 15) << 2) | (c >> 6) }
  function Fourth(c: bv8): bv8 { c & 63 }

  function Byte0(w: bv8, x: bv8): bv8 { (w << 2) | (x >> 4) }
  function Byte1(x: bv8, y: bv8): bv8 { (x << 4) | (y >> 2) }
  function Byte2(y: bv8, z: bv8): bv8 { (y << 6) | z }

  function Encode(s: Bytes): Bytes {
    if |s| == 0 then []
    else if |s| == 1 then [Digit(First(s[0])), Digit(Second(s[0], 0)), PAD, PAD]
    else if |s| == 2 then [Digit(First(s[0])), Digit(Second(s[0], s[1])), Digit(Third(s[1], 0)), PAD]
    else
      [Digit(First(s[0])), Digit(Second(s[0], s[1])), Digit(Third(s[1], s[2])), Digit(Fourth(s[2]))] + Encode(s[3..])
  }

  /** The decoder skips line breaks wherever they stand. */
  function WithoutBreaks(s: Bytes): Bytes {
    if |s| == 0 then []
    else (if s[0] == 10 || s[0] == 13 then [] else [s[0]]) + WithoutBreaks(s[1..])
  }

  /** Four characters at a time; only the last four may end in padding. */
  function DecodeQuads(s: Bytes): Option<Bytes> {
    if |s| == 0 then Some([])
    else if |s| < 4 then None
    else
      var w, x, y, z := Value(s[0]), Value(s[1]), Value(s[2]), Value(s[3]);
      if w.None? || x.None? then None
      else if s[2] == PAD then
        if s[3] == PAD && |s| == 4 then Some([Byte0(w.value, x.value)]) else None
      else if y.None? then None
      else if s[3] == PAD then
        if |s| == 4 then Some([Byte0(w.value, x.value), Byte1(x.value, y.value)]) else None
      else if z.None? then None
      else
        var rest := DecodeQuads(s[4..]);
        if rest.None? then None
        else Some([Byte0(w.value, x.value), Byte1(x.value, y.value), Byte2(y.value, z.value)] + rest.value)
  }

  function Decode(s: Bytes): Option<Bytes> {
    DecodeQuads(WithoutBreaks(s))
  }

  /** Table 1 of RFC 4648: A to Z, a to z, 0 to 9, plus and slash, in this order. */
  lemma AlphabetInOrder(v: bv8)
    ensures Digit(0) == 65 && Digit(25) == 90 && Digit(26) == 97 && Digit(51) == 122
    ensures Digit(52) == 48 && Digit(61) == 57 && Digit(62) == 43 && Digit(63) == 47
    ensures v < 61 && v != 25 && v != 51 ==> Digit(v + 1) == Digit(v) + 1
  {
  }

  /** The four six-bit digits of three bytes are the same 24 bits, most significant first. */
  lemma SameBits(a: bv8, b: bv8, c: bv8)
    ensures
      ((First(a) as bv24) << 18) | ((Second(a, b) as bv24) << 12) | ((Third(b, c) as bv24) << 6) | (Fourth(c) as bv24) ==
      ((a as bv24) << 16) | ((b as bv24) << 8) | (c as bv24)
  {
  }

  /** Section 10 of RFC 4648: "f", "fo" and "foo" become "Zg==", "Zm8=" and "Zm9v". */
  lemma TestVectors()
    ensures Encode([102]) == [90, 103, 61, 61]
    ensures Encode([102, 111]) == [90, 109, 56, 61]
    ensures Encode([102, 111, 111]) == [90, 109, 57, 118]
  {
  }

  lemma DigitInverts(v: bv8)
    requires v < 64
    ensures Value(Digit(v)) == Some(v)
    ensures Digit(v) != PAD && Digit(v) != 10 && Digit(v) != 13
  {
  }

  lemma TripleInverts(a: bv8, b: bv8, c: bv8)
    ensures First(a) < 64 && Second(a, b) < 64 && Third(b, c) < 64 && Fourth(c) < 64
    ensures Byte0(First(a), Second(a, b)) == a
    ensures Byte1(Second(a, b), Third(b, c)) == b
    ensures Byte2(Third(b, c), Fourth(c)) == c
  {
  }

  predicate NoBreaks(s: Bytes) {
    forall i | 0 <= i < |s| :: s[i] != 10 && s[i] != 13
  }

  lemma {:induction false} NothingToSkip(s: Bytes)
    requires NoBreaks(s)
    ensures WithoutBreaks(s) == s
    decreases |s|
  {
    if |s| > 0 {
      NothingToSkip(s[1..]);
    }
  }

  lemma DigitsInvert(a: bv8, b: bv8, c: bv8)
    ensures
      && Value(Digit(First(a))) == Some(First(a)) && Value(Digit(Second(a, b))) == Some(Second(a, b))
      && Value(Digit(Third(b, c))) == Some(Third(b, c)) && Value(Digit(Fourth(c))) == Some(Fourth(c))
    ensures Digit(Third(b, c)) != PAD && Digit(Fourth(c)) != PAD
    ensures NoBreaks([Digit(First(a)), Digit(Second(a, b)), Digit(Third(b, c)), Digit(Fourth(c))])
  {
    TripleInverts(a, b, c);
    DigitInverts(First(a));
    DigitInverts(Second(a, b));
    DigitInverts(Third(b, c));
    DigitInverts(Fourth(c));
  }

  ghost predicate RoundTrips(s: Bytes) {
    DecodeQuads(Encode(s)) == Some(s) && NoBreaks(Encode(s))
  }

  lemma LastQuadRoundTrips(s: Bytes)
    requires 0 < |s| < 3
    ensures RoundTrips(s)
  {
    var a, b := s[0], if |s| > 1 then s[1] else 0;
    DigitsInvert(a, b, 0);
    TripleInverts(a, b, 0);
    assert s == if |s| == 1 then [a] else [a, b];
  }

  lemma FullQuadRoundTrips(s: Bytes)
    requires |s| >= 3 && RoundTrips(s[3..])
    ensures RoundTrips(s)
  {
    DigitsInvert(s[0], s[1], s[2]);
    TripleInverts(s[0], s[1], s[2]);
    assert Encode(s)[4..] == Encode(s[3..]);
    assert s == [s[0], s[1], s[2]] + s[3..];
  }

  lemma {:induction false} QuadsRoundTrip(s: Bytes)
    ensures RoundTrips(s)
    decreases |s|
  {
    if |s| >= 3 {
      QuadsRoundTrip(s[3..]);
      FullQuadRoundTrips(s);
    } else if |s| > 0 {
      LastQuadRoundTrips(s);
    }
  }

  lemma {:induction false} EncodedLength(s: Bytes)
    ensures |Encode(s)| == 4 * ((|s| + 2) / 3)
    decreases |s|
  {
    if |s| >= 3 {
      EncodedLength(s[3..]);
      assert |Encode(s)| == 4 + |Encode(s[3..])|;
    }
  }

  /** Decoding undoes encoding, and the length is four for every started group of three. */
  lemma RoundTrip(s: Bytes)
    ensures Decode(Encode(s)) == Some(s)
    ensures |Encode(s)| == 4 * ((|s| + 2) / 3)
  {
    QuadsRoundTrip(s);
    EncodedLength(s);
    NothingToSkip(Encode(s));
  }
}
