/**
 * Writing a `str` as a quoted JSON string (src/encode.rs): the two writers, the scan
 * they share, and the text both are proved to append.
 */
module Strings {
  import opened Common
  import opened Out
  import opened Utf8
  import opened Swar

  const BACKSLASH: byte := 0x5C

  // ---- the text --------------------------------------------------------------

  /** 0 for a byte that is copied through, otherwise its escape letter; `u` (0x75) is the `\u00XX` form. */
  function EscapeCode(b: byte): byte {
    if b == 0x08 then 0x62
    else if b == 0x09 then 0x74
    else if b == 0x0A then 0x6E
    else if b == 0x0C then 0x66
    else if b == 0x0D then 0x72
    else if b == QUOTE || b == BACKSLASH then b
    else if b < 0x20 then 0x75
    else 0
  }

  /** The bytes with an escape letter are exactly those the word test finds. */
  lemma EscapeCodeIsSpecial(b: byte)
    ensures EscapeCode(b) != 0 <==> Special(b)
    ensures EscapeCode(b) != 0 <==> b < 0x20 || b == 0x22 || b == 0x5C
  {}

  function HexDigit(d: int): byte
    requires 0 <= d < 16
  {
    if d < 10 then 0x30 + d else 0x57 + d
  }

  function EscapeSeq(b: byte): (r: seq<byte>)
    ensures 2 <= |r| <= 6
  {
    if EscapeCode(b) == 0x75 then [BACKSLASH, 0x75, 0x30, 0x30, HexDigit(b / 16), HexDigit(b % 16)]
    else [BACKSLASH, EscapeCode(b)]
  }

  /** The short escapes are those of section 7 of RFC 8259 but for the slash; the others have two lower-case hexadecimal digits. */
  lemma EscapeForms(b: byte)
    requires Special(b)
    ensures EscapeSeq(0x22) == [0x5C, 0x22] && EscapeSeq(0x5C) == [0x5C, 0x5C]
    ensures EscapeSeq(0x08) == [0x5C, 0x62] && EscapeSeq(0x0C) == [0x5C, 0x66] && EscapeSeq(0x0A) == [0x5C, 0x6E]
    ensures EscapeSeq(0x0D) == [0x5C, 0x72] && EscapeSeq(0x09) == [0x5C, 0x74]
    ensures b !in {0x22, 0x5C, 0x08, 0x0C, 0x0A, 0x0D, 0x09} ==>
              |EscapeSeq(b)| == 6 && EscapeSeq(b)[..4] == [0x5C, 0x75, 0x30, 0x30]
              && b == 16 * HexMeans(EscapeSeq(b)[4]) + HexMeans(EscapeSeq(b)[5])
  {}

  /** The number a lower-case hexadecimal digit stands for, -1 for any other byte. */
  function HexMeans(d: byte): int {
    if 0x30 <= d <= 0x39 then d - 0x30
    else if 0x61 <= d <= 0x66 then d - 0x61 + 10
    else -1
  }

  function EscapeByte(b: byte): seq<byte> {
    if Special(b) then EscapeSeq(b) else [b]
  }

  /** The escaped form of a text given as bytes. */
  function EscapeBytes(s: seq<byte>): seq<byte> {
    if s == [] then [] else EscapeByte(s[0]) + EscapeBytes(s[1..])
  }

  function EscapeCp(c: codepoint): (r: seq<byte>)
    ensures |r| >= 1
  {
    if c < 0x80 then EscapeByte(c) else EncodeOne(c)
  }

  /** The escaped UTF-8 form of a text given as code points. */
  function EscapeText(cps: seq<codepoint>): seq<byte> {
    if cps == [] then [] else EscapeCp(cps[0]) + EscapeText(cps[1..])
  }

  function Quoted(cps: seq<codepoint>): seq<byte> {
    [QUOTE] + EscapeText(cps) + [QUOTE]
  }

  lemma {:induction false} EscapeBytesConcat(a: seq<byte>, b: seq<byte>)
    ensures EscapeBytes(a + b) == EscapeBytes(a) + EscapeBytes(b)
  {
    hide EscapeByte;
    if a == [] {
      assert a + b == b;
    } else {
      assert (a + b)[1..] == a[1..] + b;
      EscapeBytesConcat(a[1..], b);
      assert EscapeBytes(a) == EscapeByte(a[0]) + EscapeBytes(a[1..]);
    }
  }

  lemma EscapeBytesOne(b: byte)
    ensures EscapeBytes([b]) == EscapeByte(b)
  {
    assert [b][1..] == [];
  }

  lemma {:induction false} EscapeBytesPlain(s: seq<byte>)
    requires forall k | 0 <= k < |s| :: !Special(s[k])
    ensures EscapeBytes(s) == s
  {
    if s != [] {
      EscapeBytesPlain(s[1..]);
      assert s == [s[0]] + s[1..];
    }
  }

  lemma EscapeBytesOfCharacter(c: codepoint)
    ensures EscapeBytes(EncodeOne(c)) == EscapeCp(c)
  {
    if c < 0x80 {
      EscapeBytesOne(c);
    } else {
      LeadAndContinuation(c);
      EscapeBytesPlain(EncodeOne(c));
    }
  }

  lemma LeadAndContinuation(c: codepoint)
    requires c >= 0x80
    ensures forall k | 0 <= k < |EncodeOne(c)| :: EncodeOne(c)[k] >= 0x80
  {}

  /** Escaping the bytes of a UTF-8 text and escaping its characters give the same text. */
  lemma {:induction false} EscapeBytesOfEncode(cps: seq<codepoint>)
    ensures EscapeBytes(Encode(cps)) == EscapeText(cps)
  {
    hide EscapeCp, EncodeOne;
    if cps != [] {
      EscapeBytesConcat(EncodeOne(cps[0]), Encode(cps[1..]));
      EscapeBytesOfCharacter(cps[0]);
      EscapeBytesOfEncode(cps[1..]);
    }
  }

  lemma {:induction false} EscapeTextConcat(a: seq<codepoint>, b: seq<codepoint>)
    ensures EscapeText(a + b) == EscapeText(a) + EscapeText(b)
  {
    hide EscapeCp;
    if a == [] {
      assert a + b == b;
    } else {
      assert (a + b)[1..] == a[1..] + b;
      EscapeTextConcat(a[1..], b);
      assert EscapeText(a) == EscapeCp(a[0]) + EscapeText(a[1..]);
    }
  }

  lemma EscapeTextSnoc(s: seq<codepoint>, i: nat)
    requires i < |s|
    ensures EscapeText(s[..i + 1]) == EscapeText(s[..i]) + EscapeCp(s[i])
  {
    hide EscapeCp;
    assert s[..i + 1] == s[..i] + [s[i]];
    EscapeTextConcat(s[..i], [s[i]]);
    assert [s[i]][1..] == [];
    assert EscapeText([s[i]]) == EscapeCp(s[i]);
  }

  // ---- the shared scan -------------------------------------------------------

  /** The lane test of the 16-byte step: `min(v, 0x1f) == v`, or a quote, or a backslash. */
  predicate LaneHit(v: byte) {
    (if v < 0x1F then v else 0x1F) == v || v == QUOTE || v == BACKSLASH
  }

  /** Stores 16 bytes and gives the index in `s` of the first lane that is hit, or the end of the block. */
  method StoreBlock(s: seq<byte>, i: nat, base: array<byte>, dst: nat) returns (hit: nat)
    requires i + 16 <= |s| && dst + 16 <= base.Length
    modifies base
    ensures i <= hit <= i + 16
    ensures forall k | i <= k < hit :: !Special(s[k])
    ensures hit < i + 16 ==> Special(s[hit])
    ensures base[..dst] == old(base[..dst])
    ensures base[dst..dst + 16] == s[i..i + 16]
    ensures base[dst + 16..] == old(base[dst + 16..])
  {
    forall k | 0 <= k < 16 {
      base[dst + k] := s[i + k];
    }
    ghost var block, source := base[dst..dst + 16], s[i..i + 16];
    assert forall k | 0 <= k < 16 :: block[k] == source[k];
    assert block == source;
    hit := i;
    while hit < i + 16 && !LaneHit(s[hit])
      invariant i <= hit <= i + 16
      invariant forall k | i <= k < hit :: !LaneHit(s[k])
    {
      hit := hit + 1;
    }
  }

  /** Stores one word. */
  method StoreWord(s: seq<byte>, i: nat, base: array<byte>, dst: nat)
    requires i + 8 <= |s| && dst + 8 <= base.Length
    modifies base
    ensures base[..dst] == old(base[..dst])
    ensures base[dst..dst + 8] == s[i..i + 8]
    ensures base[dst + 8..] == old(base[dst + 8..])
  {
    forall k | 0 <= k < 8 {
      base[dst + k] := s[i + k];
    }
  }

  /** Where the first byte at or after `i` that needs escaping is, or the end. */
  function Scan(s: seq<byte>, i: nat): (j: nat)
    requires i <= |s|
    ensures i <= j <= |s|
    ensures forall k | i <= k < j :: !Special(s[k])
    ensures j < |s| ==> Special(s[j])
    decreases |s| - i
  {
    if i < |s| && !Special(s[i]) then Scan(s, i + 1) else i
  }

  lemma {:induction false} ScanIs(s: seq<byte>, i: nat, j: nat)
    requires i <= j <= |s|
    requires forall k | i <= k < j :: !Special(s[k])
    requires j < |s| ==> Special(s[j])
    ensures Scan(s, i) == j
    decreases j - i
  {
    hide Special;
    if i < j { ScanIs(s, i + 1, j); }
  }

  /**
   * `base` is `before` with `s[i..j]` copied to `dst`, and possibly other changes
   * between there and `limit`.
   */
  ghost predicate Copied(base: seq<byte>, before: seq<byte>, dst: nat, s: seq<byte>, i: nat, j: nat, limit: nat)
    requires i <= j <= |s| && dst + (j - i) <= limit <= |base| == |before|
  {
    && base[..dst] == before[..dst]
    && base[dst..dst + (j - i)] == s[i..j]
    && base[limit..] == before[limit..]
  }

  lemma CopiedNothing(base: seq<byte>, dst: nat, s: seq<byte>, i: nat, limit: nat)
    requires i <= |s| && dst <= limit <= |base|
    ensures Copied(base, base, dst, s, i, i, limit)
  {
    assert base[dst..dst] == s[i..i];
  }

  /** One more block stored at the end of what was copied, of which `m` bytes are kept. */
  lemma CopiedMore(base: seq<byte>, mid: seq<byte>, before: seq<byte>, dst: nat, s: seq<byte>,
                   i: nat, j: nat, w: nat, m: nat, limit: nat)
    requires i <= j <= j + w <= |s| && m <= w
    requires dst + (j + w - i) <= limit <= |base| == |mid| == |before|
    requires Copied(mid, before, dst, s, i, j, limit)
    requires base[..dst + (j - i)] == mid[..dst + (j - i)]
    requires base[dst + (j - i)..dst + (j - i) + w] == s[j..j + w]
    requires base[dst + (j - i) + w..] == mid[dst + (j - i) + w..]
    ensures Copied(base, before, dst, s, i, j + m, limit)
  {
    var d := dst + (j - i);
    SamePrefix(base, mid, d, dst);
    SameWindow(base, s, d, j, w, m);
    Glue(base, s, dst, d, d + m, i, j, j + m);
    SameTail(base, mid, d + w, limit);
  }

  lemma SamePrefix(a: seq<byte>, b: seq<byte>, d: nat, k: nat)
    requires k <= d <= |a| && d <= |b| && a[..d] == b[..d]
    ensures a[..k] == b[..k] && a[k..d] == b[k..d]
  {
    assert a[..d][..k] == a[..k] && b[..d][..k] == b[..k];
    assert a[..d][k..] == a[k..d] && b[..d][k..] == b[k..d];
  }

  lemma SameTail(a: seq<byte>, b: seq<byte>, e: nat, limit: nat)
    requires e <= limit <= |a| == |b| && a[e..] == b[e..]
    ensures a[limit..] == b[limit..]
  {
    assert a[e..][limit - e..] == a[limit..] && b[e..][limit - e..] == b[limit..];
  }

  lemma SameWindow(a: seq<byte>, s: seq<byte>, d: nat, j: nat, w: nat, m: nat)
    requires m <= w && d + w <= |a| && j + w <= |s| && a[d..d + w] == s[j..j + w]
    ensures a[d..d + m] == s[j..j + m]
  {
    assert a[d..d + w][..m] == a[d..d + m] && s[j..j + w][..m] == s[j..j + m];
  }

  lemma Glue(a: seq<byte>, s: seq<byte>, x: nat, y: nat, z: nat, i: nat, j: nat, k: nat)
    requires x <= y <= z <= |a| && i <= j <= k <= |s| && a[x..y] == s[i..j] && a[y..z] == s[j..k]
    ensures a[x..z] == s[i..k]
  {
    assert a[x..z] == a[x..y] + a[y..z] && s[i..k] == s[i..j] + s[j..k];
  }

  /** The 16-byte steps: up to the first hit, or until less than a block is left. */
  method CopyBlocks(s: seq<byte>, i: nat, base: array<byte>, dst: nat) returns (j: nat, found: bool)
    requires i <= |s| && dst + (|s| - i) <= base.Length
    modifies base
    ensures i <= j <= |s|
    ensures forall k | i <= k < j :: !Special(s[k])
    ensures found ==> j < |s| && Special(s[j])
    ensures Copied(base[..], old(base[..]), dst, s, i, j, dst + (|s| - i))
  {
    hide Special, Copied;
    ghost var before, limit := base[..], dst + (|s| - i);
    j, found := i, false;
    CopiedNothing(before, dst, s, i, limit);
    while j + 16 <= |s|
      invariant i <= j <= |s|
      invariant forall k | i <= k < j :: !Special(s[k])
      invariant Copied(base[..], before, dst, s, i, j, limit)
    {
      ghost var mid := base[..];
      var hit := StoreBlock(s, j, base, dst + (j - i));
      CopiedMore(base[..], mid, before, dst, s, i, j, 16, hit - j, limit);
      if hit < j + 16 {
        return hit, true;
      }
      j := j + 16;
    }
  }

  /** What has been copied so far: the plain bytes `s[i..j]`, nothing outside the room of the rest of `s`. */
  ghost predicate CopiedPlain(base: seq<byte>, before: seq<byte>, dst: nat, s: seq<byte>, i: nat, j: nat) {
    && i <= j <= |s| && dst + (|s| - i) <= |base| == |before|
    && (forall k | i <= k < j :: !Special(s[k]))
    && Copied(base, before, dst, s, i, j, dst + (|s| - i))
  }

  lemma CopiedPlainMore(base: seq<byte>, mid: seq<byte>, before: seq<byte>, dst: nat, s: seq<byte>, i: nat, j: nat, n: nat)
    requires CopiedPlain(mid, before, dst, s, i, j) && j + n <= |s| && |base| == |mid| == |before|
    requires dst + (|s| - i) <= |base|
    requires forall k | j <= k < j + n :: !Special(s[k])
    requires var d := dst + (j - i);
             base[..d] == mid[..d] && base[d..d + n] == s[j..j + n] && base[d + n..] == mid[d + n..]
    ensures CopiedPlain(base, before, dst, s, i, j + n)
  {
    hide Special, Copied;
    CopiedMore(base, mid, before, dst, s, i, j, n, n, dst + (|s| - i));
  }

  /** Eight bytes at a time, up to the first word with a special byte. */
  method CopyWords(s: seq<byte>, i: nat, base: array<byte>, dst: nat, j0: nat, ghost before: seq<byte>) returns (j: nat)
    requires i <= |s| && dst + (|s| - i) <= base.Length == |before| && CopiedPlain(base[..], before, dst, s, i, j0)
    modifies base
    ensures CopiedPlain(base[..], before, dst, s, i, j)
  {
    hide Special, HasSpecial, Load, CopiedPlain;
    j := j0;
    CopiedBounds(base[..], before, dst, s, i, j);
    while j + 8 <= |s|
      invariant i <= j <= |s| && CopiedPlain(base[..], before, dst, s, i, j)
    {
      HasSpecialExact(s, j);
      if HasSpecial(Load(s, j)) {
        break;
      }
      ghost var mid := base[..];
      StoreWord(s, j, base, dst + (j - i));
      CopiedPlainMore(base[..], mid, before, dst, s, i, j, 8);
      j := j + 8;
    }
  }

  lemma CopiedBounds(base: seq<byte>, before: seq<byte>, dst: nat, s: seq<byte>, i: nat, j: nat)
    requires CopiedPlain(base, before, dst, s, i, j)
    ensures i <= j <= |s|
  {}

  /** Byte by byte, up to the first special one. */
  method CopyBytes(s: seq<byte>, i: nat, base: array<byte>, dst: nat, j0: nat, ghost before: seq<byte>) returns (j: nat)
    requires i <= |s| && dst + (|s| - i) <= base.Length == |before| && CopiedPlain(base[..], before, dst, s, i, j0)
    modifies base
    ensures CopiedPlain(base[..], before, dst, s, i, j) && (j < |s| ==> Special(s[j]))
  {
    hide Special, EscapeCode, CopiedPlain;
    j := j0;
    CopiedBounds(base[..], before, dst, s, i, j);
    while j < |s| && EscapeCode(s[j]) == 0
      invariant i <= j <= |s| && CopiedPlain(base[..], before, dst, s, i, j)
    {
      EscapeCodeIsSpecial(s[j]);
      ghost var mid := base[..];
      base[dst + (j - i)] := s[j];
      CopiedPlainMore(base[..], mid, before, dst, s, i, j, 1);
      j := j + 1;
    }
    if j < |s| { EscapeCodeIsSpecial(s[j]); }
  }

  /**
   * Copies `s[i..]` to `dst` up to the first byte that needs escaping, in steps of
   * 16, 8 and 1 bytes. It stores no byte past the room of the rest of `s`, so the
   * slack its callers reserve is never touched.
   */
  method CopyPlain(s: seq<byte>, i: nat, base: array<byte>, dst: nat) returns (j: nat, end: nat)
    requires i <= |s| && dst + (|s| - i) <= base.Length
    modifies base
    ensures j == Scan(s, i) && end == dst + (j - i)
    ensures Copied(base[..], old(base[..]), dst, s, i, j, dst + (|s| - i))
  {
    hide Special, Copied, Scan;
    ghost var before := base[..];
    var found;
    j, found := CopyBlocks(s, i, base, dst);
    if !found {
      j := CopyWords(s, i, base, dst, j, before);
      j := CopyBytes(s, i, base, dst, j, before);
    }
    ScanIs(s, i, j);
    end := dst + (j - i);
  }

  /** Writes the escape for `b`, whose letter `e` is not 0, and gives the end; at most 6 bytes. */
  method PutEscape(base: array<byte>, dst: nat, b: byte, e: byte) returns (end: nat)
    requires e == EscapeCode(b) && e != 0 && dst + 6 <= base.Length
    modifies base
    ensures end == dst + |EscapeSeq(b)|
    ensures base[..dst] == old(base[..dst]) && base[dst..end] == EscapeSeq(b)
  {
    if e == 0x75 {
      base[dst], base[dst + 1], base[dst + 2], base[dst + 3] := BACKSLASH, 0x75, 0x30, 0x30;
      base[dst + 4], base[dst + 5] := HexDigit(b / 16), HexDigit(b % 16);
      end := dst + 6;
    } else {
      base[dst], base[dst + 1] := BACKSLASH, e;
      end := dst + 2;
    }
  }

  // ---- the UTF-8 writer ------------------------------------------------------

  lemma EscapeBytesCopies(s: seq<byte>, i: nat, j: nat)
    requires i <= j <= |s|
    requires forall k | i <= k < j :: !Special(s[k])
    ensures EscapeBytes(s[..j]) == EscapeBytes(s[..i]) + s[i..j]
  {
    hide Special;
    assert s[..j] == s[..i] + s[i..j];
    EscapeBytesConcat(s[..i], s[i..j]);
    EscapeBytesPlain(s[i..j]);
  }

  lemma EscapeBytesEscapes(s: seq<byte>, i: nat)
    requires i < |s| && Special(s[i])
    ensures EscapeBytes(s[..i + 1]) == EscapeBytes(s[..i]) + EscapeSeq(s[i])
  {
    assert s[..i + 1] == s[..i] + [s[i]];
    EscapeBytesConcat(s[..i], [s[i]]);
    EscapeBytesOne(s[i]);
  }

  /** The block up to `dst` holds `head` and the escaped form of the first `i` bytes of `s`. */
  ghost predicate Written(base: seq<byte>, dst: nat, head: seq<byte>, s: seq<byte>, i: nat)
    requires i <= |s| && dst <= |base|
  {
    base[..dst] == head + EscapeBytes(s[..i])
  }

  lemma WrittenAfterCopy(base: seq<byte>, mid: seq<byte>, dst: nat, head: seq<byte>, s: seq<byte>, i: nat, j: nat)
    requires i <= j <= |s| && dst + (|s| - i) <= |base| == |mid|
    requires Written(mid, dst, head, s, i) && j == Scan(s, i)
    requires Copied(base, mid, dst, s, i, j, dst + (|s| - i))
    ensures Written(base, dst + (j - i), head, s, j)
  {
    hide EscapeBytes, Scan;
    EscapeBytesCopies(s, i, j);
    assert base[..dst + (j - i)] == base[..dst] + base[dst..dst + (j - i)];
  }

  lemma WrittenAfterEscape(base: seq<byte>, mid: seq<byte>, dst: nat, end: nat, head: seq<byte>, s: seq<byte>, i: nat)
    requires i < |s| && dst <= end <= |base| == |mid|
    requires Written(mid, dst, head, s, i) && Special(s[i])
    requires base[..dst] == mid[..dst] && base[dst..end] == EscapeSeq(s[i])
    ensures Written(base, end, head, s, i + 1)
  {
    hide EscapeBytes, EscapeSeq, Special;
    EscapeBytesEscapes(s, i);
    assert base[..end] == base[..dst] + base[dst..end];
  }

  lemma WrittenMoves(base: seq<byte>, before: seq<byte>, dst: nat, head: seq<byte>, s: seq<byte>, i: nat)
    requires i <= |s| && dst <= |base| && dst <= |before|
    requires Written(before, dst, head, s, i) && base[..dst] == before[..dst]
    ensures Written(base, dst, head, s, i)
  {}

  lemma StartsWritten(base: seq<byte>, dst: nat, head: seq<byte>, s: seq<byte>)
    requires dst <= |base| && base[..dst] == head
    ensures Written(base, dst, head, s, 0)
  {
    assert s[..0] == [];
    assert head + [] == head;
  }

  lemma EndsWritten(base: seq<byte>, before: seq<byte>, dst: nat, head: seq<byte>, s: seq<byte>)
    requires dst < |base| == |before|
    requires Written(before, dst, head, s, |s|) && base == before[dst := QUOTE]
    ensures base[..dst + 1] == head + EscapeBytes(s) + [QUOTE]
  {
    hide EscapeBytes;
    assert s[..|s|] == s;
    assert base[..dst + 1] == before[..dst] + [QUOTE];
  }

  /**
   * One escape and the plain run after it. Escapes grow the text, so what was written
   * is declared and room is made for the rest, one more escape, the closing quote and
   * the slack before the copy goes on.
   */
  method EscapeThenCopy(out: OutputBuffer, s: seq<byte>, i: nat, dst: nat, ghost head: seq<byte>)
    returns (j: nat, end: nat)
    requires out.Valid() && i < |s| && Special(s[i])
    requires dst + (|s| - i) + 1 + 16 <= out.mem.Length
    requires Written(out.mem[..], dst, head, s, i)
    modifies out.Repr
    ensures out.Valid() && fresh(out.Repr - old(out.Repr))
    ensures i < j <= |s| && (j < |s| ==> Special(s[j]))
    ensures end + (|s| - j) + 1 + 16 <= out.mem.Length
    ensures Written(out.mem[..], end, head, s, j)
  {
    hide Special, EscapeCode, EscapeSeq, Written, Copied, Scan, EscapeBytes;
    EscapeCodeIsSpecial(s[i]);
    ghost var mid := out.mem[..];
    var esc := PutEscape(out.mem, dst, s[i], EscapeCode(s[i]));
    WrittenAfterEscape(out.mem[..], mid, dst, esc, head, s, i);
    mid := out.mem[..];
    out.SetLen(esc);
    out.Reserve(|s| - (i + 1) + 6 + 1 + 16);
    WrittenMoves(out.mem[..], mid, esc, head, s, i + 1);
    mid := out.mem[..];
    j, end := CopyPlain(s, i + 1, out.mem, esc);
    WrittenAfterCopy(out.mem[..], mid, esc, head, s, i + 1, j);
  }

  /** Appends `s`, a UTF-8 text, as a quoted JSON string. */
  method WriteEscaped(out: OutputBuffer, s: seq<byte>)
    requires out.Valid()
    modifies out.Repr
    ensures out.Valid() && fresh(out.Repr - old(out.Repr))
    ensures out.Contents() == old(out.Contents()) + [QUOTE] + EscapeBytes(s) + [QUOTE]
  {
    hide Special, Written, Copied, Scan, EscapeBytes;
    ghost var head := out.Contents() + [QUOTE];
    // two quotes and 16 bytes of slack for full-width stores
    out.Reserve(|s| + 2 + 16);
    var dst: nat := out.len;
    out.mem[dst] := QUOTE;
    dst := dst + 1;
    StartsWritten(out.mem[..], dst, head, s);
    ghost var mid := out.mem[..];
    var i;
    i, dst := CopyPlain(s, 0, out.mem, dst);
    WrittenAfterCopy(out.mem[..], mid, dst - i, head, s, 0, i);
    while i < |s|
      invariant i <= |s| && out.Valid()
      invariant fresh(out.Repr - old(out.Repr))
      invariant i < |s| ==> Special(s[i])
      invariant dst + (|s| - i) + 1 + 16 <= out.mem.Length
      invariant Written(out.mem[..], dst, head, s, i)
    {
      i, dst := EscapeThenCopy(out, s, i, dst, head);
    }
    mid := out.mem[..];
    out.mem[dst] := QUOTE;
    EndsWritten(out.mem[..], mid, dst, head, s);
    out.SetLen(dst + 1);
  }

  // ---- the code-unit writer --------------------------------------------------

  /** Bytes of UTF-8 that a code unit of a kind can need at most. */
  predicate FitsWidth(c: codepoint, width: nat) {
    (width == 2 && c <= 0xFF) || (width == 3 && c <= 0xFFFF) || width == 4
  }

  /** The block up to `dst` holds `head` and the escaped form of the first `i` characters of `s`. */
  ghost predicate WrittenText(base: seq<byte>, dst: nat, head: seq<byte>, s: seq<codepoint>, i: nat)
    requires i <= |s| && dst <= |base|
  {
    base[..dst] == head + EscapeText(s[..i])
  }

  lemma WrittenTextStarts(base: seq<byte>, dst: nat, head: seq<byte>, s: seq<codepoint>)
    requires dst <= |base| && base[..dst] == head
    ensures WrittenText(base, dst, head, s, 0)
  {
    assert s[..0] == [];
    assert head + [] == head;
  }

  lemma WrittenTextMoves(base: seq<byte>, before: seq<byte>, dst: nat, head: seq<byte>, s: seq<codepoint>, i: nat)
    requires i <= |s| && dst <= |base| && dst <= |before|
    requires WrittenText(before, dst, head, s, i) && base[..dst] == before[..dst]
    ensures WrittenText(base, dst, head, s, i)
  {}

  lemma WrittenTextMore(base: seq<byte>, mid: seq<byte>, dst: nat, end: nat, head: seq<byte>, s: seq<codepoint>, i: nat)
    requires i < |s| && dst <= end <= |base| == |mid|
    requires WrittenText(mid, dst, head, s, i)
    requires base[..dst] == mid[..dst] && base[dst..end] == EscapeCp(s[i])
    ensures WrittenText(base, end, head, s, i + 1)
  {
    hide EscapeText, EscapeCp;
    EscapeTextSnoc(s, i);
    assert base[..end] == base[..dst] + base[dst..end];
  }

  lemma WrittenTextEnds(base: seq<byte>, before: seq<byte>, dst: nat, head: seq<byte>, s: seq<codepoint>)
    requires dst < |base| == |before|
    requires WrittenText(before, dst, head, s, |s|) && base == before[dst := QUOTE]
    ensures base[..dst + 1] == head + EscapeText(s) + [QUOTE]
  {
    hide EscapeText;
    assert s[..|s|] == s;
    assert base[..dst + 1] == before[..dst] + [QUOTE];
  }

  method Put2(base: array<byte>, dst: nat, w: bv32)
    requires dst + 2 <= base.Length
    modifies base
    ensures base[..dst] == old(base[..dst]) && base[dst..dst + 2] == Form2(w)
  {
    hide AsByte, Low8, Lead2, Lead3, Lead4, Cont;
    base[dst] := AsByte(Lead2(Low8(w >> 6)));
    base[dst + 1] := AsByte(Cont(Low8(w & 0x3F)));
  }

  method Put3(base: array<byte>, dst: nat, w: bv32)
    requires dst + 3 <= base.Length
    modifies base
    ensures base[..dst] == old(base[..dst]) && base[dst..dst + 3] == Form3(w)
  {
    hide AsByte, Low8, Lead2, Lead3, Lead4, Cont;
    base[dst] := AsByte(Lead3(Low8(w >> 12)));
    base[dst + 1] := AsByte(Cont(Low8((w >> 6) & 0x3F)));
    base[dst + 2] := AsByte(Cont(Low8(w & 0x3F)));
  }

  method Put4(base: array<byte>, dst: nat, w: bv32)
    requires dst + 4 <= base.Length
    modifies base
    ensures base[..dst] == old(base[..dst]) && base[dst..dst + 4] == Form4(w)
  {
    hide AsByte, Low8, Lead2, Lead3, Lead4, Cont;
    base[dst] := AsByte(Lead4(Low8(w >> 18)));
    base[dst + 1] := AsByte(Cont(Low8((w >> 12) & 0x3F)));
    base[dst + 2] := AsByte(Cont(Low8((w >> 6) & 0x3F)));
    base[dst + 3] := AsByte(Cont(Low8(w & 0x3F)));
  }

  /** The bytes of a character of two to four bytes, by shifts and masks of its word. */
  method PutMultibyte(base: array<byte>, dst: nat, c: codepoint) returns (end: nat)
    requires c >= 0x80 && dst + |EncodeOne(c)| <= base.Length
    modifies base
    ensures end == dst + |EncodeOne(c)|
    ensures base[..dst] == old(base[..dst]) && base[dst..end] == EncodeOne(c)
  {
    hide WordOf, Form2, Form3, Form4, EncodeOne;
    BitFormsByLength(c);
    EncodedLength(c);
    if c < 0x800 {
      Put2(base, dst, WordOf(c));
      end := dst + 2;
    } else if c < 0x10000 {
      Put3(base, dst, WordOf(c));
      end := dst + 3;
    } else {
      Put4(base, dst, WordOf(c));
      end := dst + 4;
    }
  }

  lemma WidthBounds(c: codepoint, width: nat)
    requires FitsWidth(c, width)
    ensures |EncodeOne(c)| <= width
  {}

  /** What `k` units may need. */
  function Room(k: nat, width: nat): nat {
    k * width
  }

  lemma RoomSplits(k: nat, width: nat)
    requires k >= 1
    ensures Room(k, width) == Room(k - 1, width) + width
  {}

  lemma QuotedAfter(start: seq<byte>, cps: seq<codepoint>)
    ensures start + [QUOTE] + EscapeText(cps) + [QUOTE] == start + Quoted(cps)
  {}

  lemma AllIndicesFree(s: seq<codepoint>)
    requires forall k | 0 <= k < |s| :: !Surrogate(s[k])
    ensures SurrogateFree(s)
  {}

  lemma HasOne(s: seq<codepoint>, i: nat)
    requires i < |s| && Surrogate(s[i])
    ensures !SurrogateFree(s)
  {
    assert s[i] in s;
  }

  /** One character of the loop below; `ok` is false exactly at a surrogate. */
  method WriteUnit(out: OutputBuffer, s: seq<codepoint>, i: nat, width: nat, dst: nat, ghost head: seq<byte>)
    returns (ok: bool, end: nat)
    requires out.Valid() && i < |s| && FitsWidth(s[i], width) && out.len <= dst
    requires dst + Room(|s| - i, width) + 1 <= out.mem.Length
    requires WrittenText(out.mem[..], dst, head, s, i)
    modifies out.Repr
    ensures out.Valid() && fresh(out.Repr - old(out.Repr))
    ensures out.len <= dst && old(out.Contents()) <= out.Contents()
    ensures ok <==> !Surrogate(s[i])
    ensures ok ==> dst < end && end + Room(|s| - i - 1, width) + 1 <= out.mem.Length
    ensures ok ==> WrittenText(out.mem[..], end, head, s, i + 1)
  {
    hide EscapeCode, EscapeSeq, WrittenText, EscapeText, EncodeOne, Room;
    RoomSplits(|s| - i, width);
    WidthBounds(s[i], width);
    var c := s[i];
    ok, end := true, dst;
    ghost var mid := out.mem[..];
    if c < 0x80 {
      var e := EscapeCode(c);
      EscapeCodeIsSpecial(c);
      if e == 0 {
        out.mem[dst] := c;
        end := dst + 1;
      } else {
        // room for the escape itself, the units still to come and the closing quote
        out.SetLen(dst);
        out.Reserve(Room(|s| - i, width) + 6 + 1);
        WrittenTextMoves(out.mem[..], mid, dst, head, s, i);
        mid := out.mem[..];
        end := PutEscape(out.mem, dst, c, e);
      }
    } else if 0xD800 <= c <= 0xDFFF {
      return false, dst;
    } else {
      end := PutMultibyte(out.mem, dst, c);
    }
    WrittenTextMore(out.mem[..], mid, dst, end, head, s, i);
  }

  /**
   * Appends the code units `s`, each of at most `width` bytes in UTF-8, as a quoted
   * JSON string. It fails exactly when a surrogate is present; the text then holds a
   * partial string that the caller discards.
   */
  method WriteEscapedUcs(out: OutputBuffer, s: seq<codepoint>, width: nat) returns (ok: bool)
    requires out.Valid() && forall k | 0 <= k < |s| :: FitsWidth(s[k], width)
    modifies out.Repr
    ensures out.Valid() && fresh(out.Repr - old(out.Repr))
    ensures ok <==> SurrogateFree(s)
    ensures ok ==> out.Contents() == old(out.Contents()) + Quoted(s)
    ensures old(out.Contents()) <= out.Contents()
  {
    hide WrittenText, EscapeText, FitsWidth, Surrogate, Quoted, SurrogateFree, Room;
    ghost var start := out.Contents();
    ghost var head := start + [QUOTE];
    out.Reserve(Room(|s|, width) + 2);
    var dst: nat := out.len;
    out.mem[dst] := QUOTE;
    dst := dst + 1;
    WrittenTextStarts(out.mem[..], dst, head, s);
    for i := 0 to |s|
      invariant out.Valid() && fresh(out.Repr - old(out.Repr))
      invariant out.len <= dst && start <= out.Contents()
      invariant forall k | 0 <= k < i :: !Surrogate(s[k])
      invariant dst + Room(|s| - i, width) + 1 <= out.mem.Length
      invariant WrittenText(out.mem[..], dst, head, s, i)
    {
      var more, end := WriteUnit(out, s, i, width, dst, head);
      if !more {
        assert !SurrogateFree(s) by { HasOne(s, i); }
        return false;
      }
      dst := end;
    }
    ghost var mid := out.mem[..];
    out.mem[dst] := QUOTE;
    WrittenTextEnds(out.mem[..], mid, dst, head, s);
    out.SetLen(dst + 1);
    QuotedAfter(start, s);
    assert SurrogateFree(s) by { AllIndicesFree(s); }
    ok := true;
  }

  // ---- the four text forms ---------------------------------------------------

  /** The characters of a `str`, in whichever form CPython holds them (src/strfast.rs). */
  datatype StrText =
    | Utf8(bytes: seq<byte>)
    | Latin1(units: seq<codepoint>)
    | Ucs2(units: seq<codepoint>)
    | Ucs4(units: seq<codepoint>)

  function Width(t: StrText): nat {
    match t
    case Utf8(_) => 1
    case Latin1(_) => 2
    case Ucs2(_) => 3
    case Ucs4(_) => 4
  }

  /** `t` is a form in which CPython may hold the code points `cps`. */
  ghost predicate Holds(t: StrText, cps: seq<codepoint>) {
    match t
    case Utf8(b) => SurrogateFree(cps) && b == Encode(cps)
    case _ => t.units == cps && forall k | 0 <= k < |cps| :: FitsWidth(cps[k], Width(t))
  }

  predicate HasSurrogate(t: StrText) {
    match t
    case Utf8(_) => false
    case Latin1(_) => false
    case Ucs2(s) => exists c | c in s :: Surrogate(c)
    case Ucs4(s) => exists c | c in s :: Surrogate(c)
  }

  /** Whatever form a text is held in, it has a surrogate exactly when its characters do. */
  lemma HasSurrogateOfText(t: StrText, cps: seq<codepoint>)
    requires Holds(t, cps)
    ensures HasSurrogate(t) <==> !SurrogateFree(cps)
  {
    if t.Latin1? {
      forall c | c in cps ensures !Surrogate(c) {
        var k :| 0 <= k < |cps| && cps[k] == c;
        assert FitsWidth(cps[k], 2);
      }
    }
  }

  /**
   * Writes a `str` whose characters are `cps`. All four forms append the same bytes;
   * it fails, whatever the form, exactly when there is a surrogate.
   */
  method WriteStr(out: OutputBuffer, t: StrText, ghost cps: seq<codepoint>) returns (ok: bool)
    requires out.Valid() && Holds(t, cps)
    modifies out.Repr
    ensures out.Valid() && fresh(out.Repr - old(out.Repr))
    ensures ok <==> SurrogateFree(cps)
    ensures ok ==> out.Contents() == old(out.Contents()) + Quoted(cps)
    ensures old(out.Contents()) <= out.Contents()
  {
    hide EscapeText, EscapeBytes, Encode, SurrogateFree, FitsWidth, Quoted;
    ghost var start := out.Contents();
    match t
    case Utf8(b) =>
      WriteEscaped(out, b);
      EscapeBytesOfEncode(cps);
      QuotedAfter(start, cps);
      ok := true;
    case Latin1(s) => ok := WriteEscapedUcs(out, s, 2);
    case Ucs2(s) => ok := WriteEscapedUcs(out, s, 3);
    case Ucs4(s) => ok := WriteEscapedUcs(out, s, 4);
  }
}
