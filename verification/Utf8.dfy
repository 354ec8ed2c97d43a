/**
 * UTF-8 as section 3 of RFC 3629 defines it. Shifts and masks of the source are
 * written as division and remainder; `BitForms` shows they are the same.
 */
module Utf8 {
  import opened Common

  predicate Surrogate(c: int) {
    0xD800 <= c <= 0xDFFF
  }

  predicate SurrogateFree(cps: seq<codepoint>) {
    forall c | c in cps :: !Surrogate(c)
  }

  function EncodeOne(c: codepoint): (r: seq<byte>)
    ensures 1 <= |r| <= 4
  {
    if c < 0x80 then [c]
    else if c < 0x800 then [0xC0 + c / 64, 0x80 + c % 64]
    else if c < 0x10000 then [0xE0 + c / 64 / 64, 0x80 + c / 64 % 64, 0x80 + c % 64]
    else [0xF0 + c / 64 / 64 / 64, 0x80 + c / 64 / 64 % 64, 0x80 + c / 64 % 64, 0x80 + c % 64]
  }

  function Encode(cps: seq<codepoint>): seq<byte> {
    if cps == [] then [] else EncodeOne(cps[0]) + Encode(cps[1..])
  }

  // ---- the same bytes by shifts and masks ------------------------------------------------------

  /** The lowest six bits of a number. */
  function SixBits(c: nat): (r: bv8)
    ensures r < 64 && r as int == c % 64
  {
    SixFits(c % 64);
    (c % 64) as bv8
  }

  lemma SixFits(d: nat)
    requires d < 64
    ensures d as bv8 < 64 && (d as bv8) as int == d
  {}

  function Join(t: bv8, s: bv8, r: bv8, p: bv8): bv32 {
    ((t as bv32) << 18) | ((s as bv32) << 12) | ((r as bv32) << 6) | (p as bv32)
  }

  /** The machine word of a code point, put together six bits at a time. */
  function WordOf(c: codepoint): bv32 {
    Join(SixBits(c / 64 / 64 / 64), SixBits(c / 64 / 64), SixBits(c / 64), SixBits(c))
  }

  /** A cast to a byte keeps the lowest eight bits. */
  function Low8(w: bv32): bv8 {
    (w & 0xFF) as bv8
  }

  function AsByte(b: bv8): byte {
    b as int
  }

  function Bytes(s: seq<bv8>): (r: seq<byte>)
    ensures |r| == |s| && forall k | 0 <= k < |s| :: r[k] == AsByte(s[k])
  {
    seq(|s|, k requires 0 <= k < |s| => AsByte(s[k]))
  }

  // The tag bits of a first byte, by the length of the form, and of a continuation byte.

  function Lead2(b: bv8): bv8 {
    0xC0 | b
  }

  function Lead3(b: bv8): bv8 {
    0xE0 | b
  }

  function Lead4(b: bv8): bv8 {
    0xF0 | b
  }

  function Cont(b: bv8): bv8 {
    0x80 | b
  }

  /** What is stored for the word of a character, by shifts and masks. */
  function Stored(w: bv32): seq<bv8> {
    if w < 0x80 then [Low8(w)]
    else if w < 0x800 then [Lead2(Low8(w >> 6)), Cont(Low8(w & 0x3F))]
    else if w < 0x10000 then [Lead3(Low8(w >> 12)), Cont(Low8((w >> 6) & 0x3F)), Cont(Low8(w & 0x3F))]
    else [Lead4(Low8(w >> 18)), Cont(Low8((w >> 12) & 0x3F)), Cont(Low8((w >> 6) & 0x3F)), Cont(Low8(w & 0x3F))]
  }

  /** Shifting and masking `w` gives the pieces, and its size tells which of them are zero. */
  predicate HasFields(w: bv32, t: bv8, s: bv8, r: bv8, p: bv8) {
    && Low8(w & 0x3F) == p && Low8((w >> 6) & 0x3F) == r && Low8((w >> 12) & 0x3F) == s && Low8(w >> 18) == t
    && (t == 0 ==> Low8(w >> 12) == s)
    && (t == 0 && s == 0 ==> Low8(w >> 6) == r)
    && (t == 0 && s == 0 && r < 2 ==> Low8(w) == 64 * r + p)
    && (w < 0x80 <==> t == 0 && s == 0 && r < 2)
    && (w < 0x800 <==> t == 0 && s == 0 && r < 32)
    && (w < 0x10000 <==> t == 0 && s < 16)
  }

  lemma Fields(t: bv8, s: bv8, r: bv8, p: bv8)
    requires t < 5 && s < 64 && r < 64 && p < 64
    ensures var w := Join(t, s, r, p);
            && Low8(w & 0x3F) == p && Low8((w >> 6) & 0x3F) == r && Low8((w >> 12) & 0x3F) == s && Low8(w >> 18) == t
            && (t == 0 ==> Low8(w >> 12) == s)
            && (t == 0 && s == 0 ==> Low8(w >> 6) == r)
            && (t == 0 && s == 0 && r < 2 ==> Low8(w) == 64 * r + p)
            && (w < 0x80 <==> t == 0 && s == 0 && r < 2)
            && (w < 0x800 <==> t == 0 && s == 0 && r < 32)
            && (w < 0x10000 <==> t == 0 && s < 16)
  {}

  lemma FieldsHold(t: bv8, s: bv8, r: bv8, p: bv8)
    requires t < 5 && s < 64 && r < 64 && p < 64
    ensures HasFields(Join(t, s, r, p), t, s, r, p)
  {
    hide Join, Low8;
    Fields(t, s, r, p);
  }

  /** The stored bytes in terms of the character's pieces. */
  function Pieces(t: bv8, s: bv8, r: bv8, p: bv8): seq<bv8> {
    if t == 0 && s == 0 && r < 2 then [64 * r + p]
    else if t == 0 && s == 0 && r < 32 then [Lead2(r), Cont(p)]
    else if t == 0 && s < 16 then [Lead3(s), Cont(r), Cont(p)]
    else [Lead4(t), Cont(s), Cont(r), Cont(p)]
  }

  lemma PiecesOfFields(w: bv32, t: bv8, s: bv8, r: bv8, p: bv8)
    requires HasFields(w, t, s, r, p)
    ensures Stored(w) == Pieces(t, s, r, p)
  {
    hide Low8, Lead2, Lead3, Lead4, Cont;
  }

  lemma StoredPieces(t: bv8, s: bv8, r: bv8, p: bv8)
    requires t < 5 && s < 64 && r < 64 && p < 64
    ensures Stored(Join(t, s, r, p)) == Pieces(t, s, r, p)
  {
    hide Join, HasFields, Stored, Pieces;
    FieldsHold(t, s, r, p);
    PiecesOfFields(Join(t, s, r, p), t, s, r, p);
  }

  lemma Tagged(q: bv8)
    ensures q < 64 ==> Cont(q) as int == 0x80 + q as int
    ensures q < 32 ==> Lead2(q) as int == 0xC0 + q as int
    ensures q < 16 ==> Lead3(q) as int == 0xE0 + q as int
    ensures q < 8 ==> Lead4(q) as int == 0xF0 + q as int
    ensures (q == 0 <==> q as int == 0) && (q < 2 <==> q as int < 2) && (q < 5 <==> q as int < 5)
    ensures (q < 16 <==> q as int < 16) && (q < 32 <==> q as int < 32)
  {}

  lemma AsciiPieces(r: bv8, p: bv8)
    requires r < 2 && p < 64
    ensures (64 * r + p) as int == 64 * r as int + p as int
  {}

  /** A code point of four base-64 digits, encoded. */
  function EncodeDigits(t: nat, s: nat, r: nat, p: nat): seq<int> {
    if t == 0 && s == 0 && r < 2 then [64 * r + p]
    else if t == 0 && s == 0 && r < 32 then [0xC0 + r, 0x80 + p]
    else if t == 0 && s < 16 then [0xE0 + s, 0x80 + r, 0x80 + p]
    else [0xF0 + t, 0x80 + s, 0x80 + r, 0x80 + p]
  }

  lemma PiecesAreDigits(t: bv8, s: bv8, r: bv8, p: bv8)
    requires t < 5 && s < 64 && r < 64 && p < 64
    ensures Bytes(Pieces(t, s, r, p)) == EncodeDigits(t as int, s as int, r as int, p as int)
  {
    hide Lead2, Lead3, Lead4, Cont;
    Tagged(t);
    Tagged(s);
    Tagged(r);
    Tagged(p);
    if r < 2 { AsciiPieces(r, p); }
  }

  lemma Digits64(c: codepoint)
    ensures var t, s, r, p := c / 64 / 64 / 64, c / 64 / 64 % 64, c / 64 % 64, c % 64;
            && c == ((t * 64 + s) * 64 + r) * 64 + p && t % 64 == t < 5
            && c / 64 == (t * 64 + s) * 64 + r && c / 64 / 64 == t * 64 + s
  {}

  lemma EncodeOneDigits(c: codepoint)
    ensures EncodeOne(c) == EncodeDigits(c / 64 / 64 / 64, c / 64 / 64 % 64, c / 64 % 64, c % 64)
  {
    Digits64(c);
  }

  /** Shifting and masking the word of a code point gives the bytes of its UTF-8 form. */
  lemma BitForms(c: codepoint)
    ensures Bytes(Stored(WordOf(c))) == EncodeOne(c)
  {
    hide Join, Pieces, Stored, EncodeOne, EncodeDigits, Bytes;
    var t, s, r, p := SixBits(c / 64 / 64 / 64), SixBits(c / 64 / 64), SixBits(c / 64), SixBits(c);
    Digits64(c);
    Tagged(t);
    StoredPieces(t, s, r, p);
    PiecesAreDigits(t, s, r, p);
    EncodeOneDigits(c);
  }

  function Form2(w: bv32): seq<byte> {
    [AsByte(Lead2(Low8(w >> 6))), AsByte(Cont(Low8(w & 0x3F)))]
  }

  function Form3(w: bv32): seq<byte> {
    [AsByte(Lead3(Low8(w >> 12))), AsByte(Cont(Low8((w >> 6) & 0x3F))), AsByte(Cont(Low8(w & 0x3F)))]
  }

  function Form4(w: bv32): seq<byte> {
    [AsByte(Lead4(Low8(w >> 18))), AsByte(Cont(Low8((w >> 12) & 0x3F))), AsByte(Cont(Low8((w >> 6) & 0x3F))),
     AsByte(Cont(Low8(w & 0x3F)))]
  }

  /** The forms of the source, one for each length. */
  lemma BitFormsByLength(c: codepoint)
    ensures 0x80 <= c < 0x800 ==> EncodeOne(c) == Form2(WordOf(c))
    ensures 0x800 <= c < 0x10000 ==> EncodeOne(c) == Form3(WordOf(c))
    ensures 0x10000 <= c ==> EncodeOne(c) == Form4(WordOf(c))
  {
    hide WordOf, Low8, AsByte, EncodeOne, Lead2, Lead3, Lead4, Cont;
    BitForms(c);
    EncodedLength(c);
  }

  lemma EncodedLength(c: codepoint)
    ensures |EncodeOne(c)| == if c < 0x80 then 1 else if c < 0x800 then 2 else if c < 0x10000 then 3 else 4
  {}

  predicate Continuation(b: byte) {
    0x80 <= b <= 0xBF
  }

  /** The bits a continuation byte carries. */
  function Payload(b: byte): int {
    b - 0x80
  }

  /**
   * Decodes the character that starts at `i` by the syntax of section 4 of
   * RFC 3629, giving it and the index after it.
   */
  function DecodeAt(s: seq<byte>, i: nat): (r: Option<(codepoint, nat)>)
    ensures r.Some? ==> i < r.value.1 <= |s|
  {
    if i >= |s| then None
    else
      var b0: int := s[i];
      if b0 <= 0x7F then Some((b0, i + 1))
      else if 0xC2 <= b0 <= 0xDF then
        if i + 1 < |s| && Continuation(s[i + 1]) then
          Some(((b0 - 0xC0) * 64 + Payload(s[i + 1]), i + 2))
        else None
      else if 0xE0 <= b0 <= 0xEF then
        if i + 2 < |s| && Continuation(s[i + 1]) && Continuation(s[i + 2])
           && (b0 == 0xE0 ==> 0xA0 <= s[i + 1]) && (b0 == 0xED ==> s[i + 1] <= 0x9F) then
          Some((((b0 - 0xE0) * 64 + Payload(s[i + 1])) * 64 + Payload(s[i + 2]), i + 3))
        else None
      else if 0xF0 <= b0 <= 0xF4 then
        if i + 3 < |s| && Continuation(s[i + 1]) && Continuation(s[i + 2]) && Continuation(s[i + 3])
           && (b0 == 0xF0 ==> 0x90 <= s[i + 1]) && (b0 == 0xF4 ==> s[i + 1] <= 0x8F) then
          Some(((((b0 - 0xF0) * 64 + Payload(s[i + 1])) * 64 + Payload(s[i + 2])) * 64 + Payload(s[i + 3]), i + 4))
        else None
      else None
  }

  lemma SplitBits(q: int, r: int)
    requires 0 <= r < 64
    ensures (q * 64 + r) / 64 == q && (q * 64 + r) % 64 == r
  {}

  /** Decoding is the inverse of encoding on every character UTF-8 can carry. */
  lemma DecodeAtInvertsEncodeOne(c: codepoint, s: seq<byte>, i: nat)
    requires !Surrogate(c) && At(s, i, EncodeOne(c))
    ensures DecodeAt(s, i) == Some((c, i + |EncodeOne(c)|))
  {
    var t := EncodeOne(c);
    AtIndex(s, i, t, 0);
    if 0x80 <= c { AtIndex(s, i, t, 1); }
    if 0x800 <= c { AtIndex(s, i, t, 2); }
    if 0x10000 <= c { AtIndex(s, i, t, 3); }
  }

  lemma Recode1(p: int)
    requires 0 <= p < 0x80
    ensures EncodeOne(p) == [p]
  {}

  lemma Recode2(p: int, q: int)
    requires 2 <= p < 32 && 0 <= q < 64
    ensures p * 64 + q < 0x800 && EncodeOne(p * 64 + q) == [0xC0 + p, 0x80 + q]
  {
    SplitBits(p, q);
  }

  lemma Recode3(p: int, q: int, r: int)
    requires 0 <= p < 16 && 0 <= q < 64 && 0 <= r < 64 && (p == 0 ==> 32 <= q)
    ensures 0x800 <= (p * 64 + q) * 64 + r < 0x10000
    ensures EncodeOne((p * 64 + q) * 64 + r) == [0xE0 + p, 0x80 + q, 0x80 + r]
  {
    SplitBits(p * 64 + q, r);
    SplitBits(p, q);
  }

  lemma Recode4(p: int, q: int, r: int, t: int)
    requires 0 <= p <= 4 && 0 <= q < 64 && 0 <= r < 64 && 0 <= t < 64 && (p == 0 ==> 16 <= q) && (p == 4 ==> q < 16)
    ensures 0x10000 <= ((p * 64 + q) * 64 + r) * 64 + t <= 0x10FFFF
    ensures EncodeOne(((p * 64 + q) * 64 + r) * 64 + t) == [0xF0 + p, 0x80 + q, 0x80 + r, 0x80 + t]
  {
    SplitBits((p * 64 + q) * 64 + r, t);
    SplitBits(p * 64 + q, r);
    SplitBits(p, q);
  }

  /** It accepts nothing else: whatever it reads is the encoding of what it returns. */
  lemma DecodeAtYieldsEncoding(s: seq<byte>, i: nat)
    requires DecodeAt(s, i).Some?
    ensures var (c, j) := DecodeAt(s, i).value; !Surrogate(c) && s[i..j] == EncodeOne(c)
  {
    hide EncodeOne;
    var (c, j) := DecodeAt(s, i).value;
    var b0: int := s[i];
    if j == i + 1 {
      Recode1(b0);
    } else if j == i + 2 {
      Recode2(b0 - 0xC0, Payload(s[i + 1]));
    } else if j == i + 3 {
      Recode3(b0 - 0xE0, Payload(s[i + 1]), Payload(s[i + 2]));
    } else {
      Recode4(b0 - 0xF0, Payload(s[i + 1]), Payload(s[i + 2]), Payload(s[i + 3]));
    }
  }

  function DecodeFrom(s: seq<byte>, i: nat): Option<seq<codepoint>>
    requires i <= |s|
    decreases |s| - i
  {
    if i == |s| then Some([])
    else match DecodeAt(s, i)
      case None => None
      case Some((c, j)) =>
        match DecodeFrom(s, j)
        case None => None
        case Some(rest) => Some([c] + rest)
  }

  /** The code points of a UTF-8 text, or nothing if it is not well-formed. */
  function Decode(s: seq<byte>): Option<seq<codepoint>> {
    DecodeFrom(s, 0)
  }

  lemma {:induction false} DecodeFromEncode(cps: seq<codepoint>, s: seq<byte>, i: nat)
    requires SurrogateFree(cps) && i <= |s| && s[i..] == Encode(cps)
    ensures DecodeFrom(s, i) == Some(cps)
    decreases |cps|
  {
    hide EncodeOne, DecodeAt;
    if cps != [] {
      var t := EncodeOne(cps[0]);
      assert s[i..] == t + Encode(cps[1..]);
      assert s[i..i + |t|] == s[i..][..|t|] == t;
      DecodeAtInvertsEncodeOne(cps[0], s, i);
      assert s[i + |t|..] == s[i..][|t|..] == Encode(cps[1..]);
      DecodeFromEncode(cps[1..], s, i + |t|);
      assert cps == [cps[0]] + cps[1..];
    }
  }

  lemma {:induction false} EncodeDecodeFrom(s: seq<byte>, i: nat)
    requires i <= |s| && DecodeFrom(s, i).Some?
    ensures var cps := DecodeFrom(s, i).value; SurrogateFree(cps) && Encode(cps) == s[i..]
    decreases |s| - i
  {
    if i < |s| {
      var (c, j) := DecodeAt(s, i).value;
      DecodeAtYieldsEncoding(s, i);
      EncodeDecodeFrom(s, j);
      assert s[i..] == s[i..j] + s[j..];
      assert DecodeFrom(s, i).value[1..] == DecodeFrom(s, j).value;
    }
  }

  /** A text is the UTF-8 of `cps` exactly when it decodes to `cps`. */
  lemma DecodeIffEncode(s: seq<byte>, cps: seq<codepoint>)
    ensures Decode(s) == Some(cps) <==> SurrogateFree(cps) && s == Encode(cps)
  {
    if SurrogateFree(cps) && s == Encode(cps) { DecodeFromEncode(cps, s, 0); }
    if Decode(s) == Some(cps) { EncodeDecodeFrom(s, 0); }
  }

  // ---- order ---------------------------------------------------------------

  /** Three-way lexicographic comparison: negative, zero or positive. */
  function Compare(a: seq<int>, b: seq<int>): int {
    if a == [] then (if b == [] then 0 else -1)
    else if b == [] then 1
    else if a[0] != b[0] then (if a[0] < b[0] then -1 else 1)
    else Compare(a[1..], b[1..])
  }

  /** Up to `k` the two are the same, and there `a` has the smaller number. */
  predicate SmallerAt(a: seq<int>, b: seq<int>, k: nat) {
    k < |a| && k < |b| && a[..k] == b[..k] && a[k] < b[k]
  }

  /** The order of texts: a proper prefix comes first, and otherwise the smaller number where two texts first differ. */
  ghost predicate Before(a: seq<int>, b: seq<int>) {
    a < b || exists k: nat :: SmallerAt(a, b, k)
  }

  /** `a` may stand in front of `b`. */
  ghost predicate NotAfter(a: seq<int>, b: seq<int>) {
    a == b || Before(a, b)
  }

  /** The comparison is lexicographic, with a proper prefix first. */
  lemma {:induction false} CompareIsLexicographic(a: seq<int>, b: seq<int>)
    ensures Compare(a, b) < 0 <==> a < b || exists k: nat :: k < |a| && k < |b| && a[..k] == b[..k] && a[k] < b[k]
    ensures Compare(a, b) < 0 <==> Before(a, b)
    ensures Compare(a, b) == 0 <==> a == b
  {
    CompareIsBefore(a, b);
    if k: nat :| k < |a| && k < |b| && a[..k] == b[..k] && a[k] < b[k] {
      assert SmallerAt(a, b, k);
    }
    if k: nat :| SmallerAt(a, b, k) {
      assert a[..k] == b[..k] && a[k] < b[k];
    }
  }

  lemma {:induction false} CompareIsBefore(a: seq<int>, b: seq<int>)
    ensures Compare(a, b) < 0 <==> Before(a, b)
    ensures Compare(a, b) == 0 <==> a == b
  {
    hide SmallerAt;
    if a != [] && b != [] {
      FirstTells(a, b);
      if a[0] == b[0] {
        CompareIsBefore(a[1..], b[1..]);
        TailBefore(a, b);
      }
    } else {
      EmptyBefore(a, b);
    }
  }

  lemma EmptyBefore(a: seq<int>, b: seq<int>)
    requires a == [] || b == []
    ensures Before(a, b) <==> a == [] && b != []
  {}

  /** Where the first numbers differ, they decide. */
  lemma FirstTells(a: seq<int>, b: seq<int>)
    requires a != [] && b != []
    ensures a[0] < b[0] ==> Before(a, b)
    ensures a[0] > b[0] ==> !Before(a, b)
  {
    if a[0] < b[0] {
      assert SmallerAt(a, b, 0);
    } else if a[0] > b[0] {
      forall k: nat ensures !SmallerAt(a, b, k) {
        assert 0 < k <= |a| && k <= |b| ==> a[..k][0] != b[..k][0];
      }
    }
  }

  lemma TailBefore(a: seq<int>, b: seq<int>)
    requires a != [] && b != [] && a[0] == b[0]
    ensures Before(a, b) <==> Before(a[1..], b[1..])
    ensures a == b <==> a[1..] == b[1..]
  {
    hide SmallerAt;
    TailPrefix(a, b);
    TailSmaller(a, b, 0);
    if k: nat :| SmallerAt(a, b, k) {
      TailSmaller(a, b, k - 1);
    }
    if k: nat :| SmallerAt(a[1..], b[1..], k) {
      TailSmaller(a, b, k);
    }
  }

  lemma TailPrefix(a: seq<int>, b: seq<int>)
    requires a != [] && b != [] && a[0] == b[0]
    ensures a < b <==> a[1..] < b[1..]
    ensures a == b <==> a[1..] == b[1..]
  {
    assert a == [a[0]] + a[1..] && b == [b[0]] + b[1..];
  }

  lemma TailSmaller(a: seq<int>, b: seq<int>, k: nat)
    requires a != [] && b != [] && a[0] == b[0]
    ensures !SmallerAt(a, b, 0)
    ensures SmallerAt(a, b, k + 1) <==> SmallerAt(a[1..], b[1..], k)
  {
    if k < |a| && k < |b| {
      assert a[..k + 1] == [a[0]] + a[1..][..k] && b[..k + 1] == [b[0]] + b[1..][..k];
    }
  }

  lemma {:induction false} CompareSkipsCommonPrefix(p: seq<int>, a: seq<int>, b: seq<int>)
    ensures Compare(p + a, p + b) == Compare(a, b)
  {
    if p == [] {
      assert p + a == a && p + b == b;
    } else {
      assert (p + a)[1..] == p[1..] + a && (p + b)[1..] == p[1..] + b;
      CompareSkipsCommonPrefix(p[1..], a, b);
    }
  }

  /** Different characters differ inside their encodings, in the order of the characters. */
  lemma EncodingsOrdered(c: codepoint, d: codepoint, x: seq<int>, y: seq<int>)
    requires c < d
    ensures Compare(EncodeOne(c) + x, EncodeOne(d) + y) == -1
    ensures Compare(EncodeOne(d) + y, EncodeOne(c) + x) == 1
  {
    hide EncodeOne, Compare;
    var k := FirstDifference(c, d);
    DifferAt(EncodeOne(c), EncodeOne(d), k, x, y);
  }

  /** Two sequences are ordered as where they first differ. */
  lemma DifferAt(e: seq<int>, f: seq<int>, k: nat, x: seq<int>, y: seq<int>)
    requires k < |e| && k < |f| && e[..k] == f[..k] && e[k] < f[k]
    ensures Compare(e + x, f + y) == -1 && Compare(f + y, e + x) == 1
  {
    var p, e', f' := e[..k], [e[k]] + (e[k + 1..] + x), [f[k]] + (f[k + 1..] + y);
    SplitAt(e, k, x);
    SplitAt(f, k, y);
    CompareSkipsCommonPrefix(p, e', f');
    CompareSkipsCommonPrefix(p, f', e');
  }

  lemma SplitAt(e: seq<int>, k: nat, x: seq<int>)
    requires k < |e|
    ensures e + x == e[..k] + ([e[k]] + (e[k + 1..] + x))
  {}

  /** The smaller number has the smaller digit where they first differ. */
  lemma DigitsOrdered(t: nat, s: nat, r: nat, p: nat, t': nat, s': nat, r': nat, p': nat)
    requires s < 64 && r < 64 && p < 64 && s' < 64 && r' < 64 && p' < 64
    requires ((t * 64 + s) * 64 + r) * 64 + p < ((t' * 64 + s') * 64 + r') * 64 + p'
    ensures t < t' || (t == t' && (s < s' || (s == s' && (r < r' || (r == r' && p < p')))))
  {}

  lemma FirstDifferentDigit(t: nat, s: nat, r: nat, p: nat, t': nat, s': nat, r': nat, p': nat) returns (k: nat)
    requires t < 5 && s < 64 && r < 64 && p < 64 && t' < 5 && s' < 64 && r' < 64 && p' < 64
    requires t < t' || (t == t' && (s < s' || (s == s' && (r < r' || (r == r' && p < p')))))
    ensures var e, f := EncodeDigits(t, s, r, p), EncodeDigits(t', s', r', p');
            k < |e| && k < |f| && e[..k] == f[..k] && e[k] < f[k]
  {
    var e, f := EncodeDigits(t, s, r, p), EncodeDigits(t', s', r', p');
    if e[0] != f[0] { k := 0; }
    else if e[1] != f[1] { k := 1; }
    else if e[2] != f[2] { k := 2; }
    else { k := 3; }
  }

  lemma FirstDifference(c: codepoint, d: codepoint) returns (k: nat)
    requires c < d
    ensures k < |EncodeOne(c)| && k < |EncodeOne(d)|
    ensures EncodeOne(c)[..k] == EncodeOne(d)[..k] && EncodeOne(c)[k] < EncodeOne(d)[k]
  {
    hide EncodeOne, EncodeDigits;
    Digits64(c);
    Digits64(d);
    EncodeOneDigits(c);
    EncodeOneDigits(d);
    var t, s, r, p := c / 64 / 64 / 64, c / 64 / 64 % 64, c / 64 % 64, c % 64;
    var t', s', r', p' := d / 64 / 64 / 64, d / 64 / 64 % 64, d / 64 % 64, d % 64;
    DigitsOrdered(t, s, r, p, t', s', r', p');
    k := FirstDifferentDigit(t, s, r, p, t', s', r', p');
  }

  /** Byte order of UTF-8 is code-point order, as section 1 of RFC 3629 promises. */
  lemma {:induction false} OrderPreserved(a: seq<codepoint>, b: seq<codepoint>)
    ensures Compare(Encode(a), Encode(b)) == Compare(a, b)
    ensures Before(Encode(a), Encode(b)) <==> Before(a, b)
  {
    CompareIsLexicographic(Encode(a), Encode(b));
    CompareIsLexicographic(a, b);
    if a != [] && b != [] {
      if a[0] < b[0] {
        EncodingsOrdered(a[0], b[0], Encode(a[1..]), Encode(b[1..]));
      } else if b[0] < a[0] {
        EncodingsOrdered(b[0], a[0], Encode(b[1..]), Encode(a[1..]));
      } else {
        CompareSkipsCommonPrefix(EncodeOne(a[0]), Encode(a[1..]), Encode(b[1..]));
        OrderPreserved(a[1..], b[1..]);
      }
    }
  }
}
