/** Word-at-a-time scanning (src/swar.rs): eight bytes in one 64-bit word, least significant first. */
module Swar {
  import opened Common

  const LO: bv64 := 0x0101_0101_0101_0101
  const HI: bv64 := 0x8080_8080_8080_8080

  function HasZero(w: bv64): bv64 {
    (w - LO) & !w & HI
  }

  predicate HasSpecial(w: bv64) {
    var ctrl := (w - LO * 0x20) & !w & HI;
    ctrl | HasZero(w ^ (LO * 0x22)) | HasZero(w ^ (LO * 0x5C)) != 0
  }

  /** A byte that a JSON string must escape: a control character, a quote or a backslash. */
  predicate Special(b: byte) {
    b < 0x20 || b == 0x22 || b == 0x5C
  }

  function Widen(b: byte): bv64 {
    (b as bv8) as bv64
  }

  function Word(b0: bv64, b1: bv64, b2: bv64, b3: bv64, b4: bv64, b5: bv64, b6: bv64, b7: bv64): bv64 {
    b0 | (b1 << 8) | (b2 << 16) | (b3 << 24) | (b4 << 32) | (b5 << 40) | (b6 << 48) | (b7 << 56)
  }

  function Load(s: seq<byte>, at: nat): bv64
    requires at + 8 <= |s|
  {
    Word(Widen(s[at]), Widen(s[at + 1]), Widen(s[at + 2]), Widen(s[at + 3]),
         Widen(s[at + 4]), Widen(s[at + 5]), Widen(s[at + 6]), Widen(s[at + 7]))
  }

  /** `Special` on a byte that has been widened into its lane. */
  predicate SpecialLane(b: bv64) {
    b < 0x20 || b == 0x22 || b == 0x5C
  }

  lemma LaneOfByte(b: byte)
    ensures Widen(b) < 0x100
    ensures SpecialLane(Widen(b)) <==> Special(b)
    ensures Widen(b) & 0x80 != 0 <==> b >= 0x80
  {}

  /** Borrows cross byte boundaries, yet the test has no false positive and no false negative. */
  lemma HasSpecialByLane(b0: bv64, b1: bv64, b2: bv64, b3: bv64, b4: bv64, b5: bv64, b6: bv64, b7: bv64)
    requires b0 < 0x100 && b1 < 0x100 && b2 < 0x100 && b3 < 0x100
    requires b4 < 0x100 && b5 < 0x100 && b6 < 0x100 && b7 < 0x100
    ensures HasSpecial(Word(b0, b1, b2, b3, b4, b5, b6, b7)) <==>
              SpecialLane(b0) || SpecialLane(b1) || SpecialLane(b2) || SpecialLane(b3) ||
              SpecialLane(b4) || SpecialLane(b5) || SpecialLane(b6) || SpecialLane(b7)
  {}

  /** The highest bits of a word are clear exactly when every lane is below 0x80. */
  lemma HighBitsByLane(b0: bv64, b1: bv64, b2: bv64, b3: bv64, b4: bv64, b5: bv64, b6: bv64, b7: bv64)
    requires b0 < 0x100 && b1 < 0x100 && b2 < 0x100 && b3 < 0x100
    requires b4 < 0x100 && b5 < 0x100 && b6 < 0x100 && b7 < 0x100
    ensures Word(b0, b1, b2, b3, b4, b5, b6, b7) & HI == 0 <==>
              b0 & 0x80 == 0 && b1 & 0x80 == 0 && b2 & 0x80 == 0 && b3 & 0x80 == 0 &&
              b4 & 0x80 == 0 && b5 & 0x80 == 0 && b6 & 0x80 == 0 && b7 & 0x80 == 0
  {}

  /** The word test is exact: it holds exactly when one of the eight bytes needs escaping. */
  lemma HasSpecialExact(s: seq<byte>, at: nat)
    requires at + 8 <= |s|
    ensures HasSpecial(Load(s, at)) <==> exists k | at <= k < at + 8 :: Special(s[k])
  {
    hide Special, SpecialLane, Widen, HasSpecial, Word;
    var b0, b1, b2, b3 := s[at], s[at + 1], s[at + 2], s[at + 3];
    var b4, b5, b6, b7 := s[at + 4], s[at + 5], s[at + 6], s[at + 7];
    LaneOfByte(b0); LaneOfByte(b1); LaneOfByte(b2); LaneOfByte(b3);
    LaneOfByte(b4); LaneOfByte(b5); LaneOfByte(b6); LaneOfByte(b7);
    HasSpecialByLane(Widen(b0), Widen(b1), Widen(b2), Widen(b3), Widen(b4), Widen(b5), Widen(b6), Widen(b7));
  }

  lemma HighBitsExact(s: seq<byte>, at: nat)
    requires at + 8 <= |s|
    ensures Load(s, at) & HI != 0 <==> exists k | at <= k < at + 8 :: s[k] >= 0x80
  {
    hide Special, SpecialLane, Widen, HasSpecial, Word;
    var b0, b1, b2, b3 := s[at], s[at + 1], s[at + 2], s[at + 3];
    var b4, b5, b6, b7 := s[at + 4], s[at + 5], s[at + 6], s[at + 7];
    LaneOfByte(b0); LaneOfByte(b1); LaneOfByte(b2); LaneOfByte(b3);
    LaneOfByte(b4); LaneOfByte(b5); LaneOfByte(b6); LaneOfByte(b7);
    HighBitsByLane(Widen(b0), Widen(b1), Widen(b2), Widen(b3), Widen(b4), Widen(b5), Widen(b6), Widen(b7));
  }

  /** Whether every byte is ASCII, eight bytes per step and then one by one. */
  method IsAscii(s: seq<byte>) returns (ascii: bool)
    ensures ascii <==> Ascii(s)
  {
    hide Load;
    var i := 0;
    while i + 8 <= |s|
      invariant i <= |s|
      invariant forall k | 0 <= k < i :: s[k] < 0x80
    {
      HighBitsExact(s, i);
      if Load(s, i) & HI != 0 {
        return false;
      }
      i := i + 8;
    }
    while i < |s|
      invariant i <= |s|
      invariant forall k | 0 <= k < i :: s[k] < 0x80
    {
      if s[i] >= 0x80 {
        return false;
      }
      i := i + 1;
    }
    return true;
  }
}
