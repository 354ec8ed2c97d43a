/** Types and sequence facts shared by every component. */
module Common {

  type byte = x: int | 0 <= x < 256

  /** A code point of a Python `str`; surrogates are included. */
  type codepoint = x: int | 0 <= x <= 0x10FFFF

  datatype Option<+T> = None | Some(value: T)

  /** The option bits of `dumps` that change what is written. */
  datatype Opts = Opts(
    indent2: bool, naiveUtc: bool, omitMicroseconds: bool, serializeNumpy: bool, sortKeys: bool,
    strictInteger: bool, utcZ: bool, passthroughSubclass: bool, passthroughDatetime: bool, appendNewline: bool)

  predicate Ascii(s: seq<byte>) {
    forall k | 0 <= k < |s| :: s[k] < 0x80
  }

  /** `t` occupies positions `i .. i + |t|` of `s`. */
  predicate At(s: seq<byte>, i: nat, t: seq<byte>) {
    i + |t| <= |s| && s[i..i + |t|] == t
  }

  predicate ByteAt(s: seq<byte>, i: nat, b: byte) {
    i < |s| && s[i] == b
  }

  predicate IsDigit(b: byte) {
    0x30 <= b <= 0x39
  }

  function DigitValue(b: byte): nat
    requires IsDigit(b)
  {
    b - 0x30
  }

  const QUOTE: byte := 0x22

  lemma AtConcat(s: seq<byte>, i: nat, a: seq<byte>, b: seq<byte>)
    ensures At(s, i, a + b) <==> At(s, i, a) && At(s, i + |a|, b)
  {
    if At(s, i, a + b) {
      assert s[i..i + |a|] == (a + b)[..|a|];
      assert s[i + |a|..i + |a| + |b|] == (a + b)[|a|..];
    }
    if At(s, i, a) && At(s, i + |a|, b) {
      assert s[i..i + |a| + |b|] == s[i..i + |a|] + s[i + |a|..i + |a| + |b|];
    }
  }

  /** The byte found at a given place of a text that lies in `s`. */
  lemma AtIndex(s: seq<byte>, i: nat, t: seq<byte>, k: nat)
    requires At(s, i, t) && k < |t|
    ensures i + k < |s| && s[i + k] == t[k]
  {
    assert s[i..i + |t|][k] == s[i + k];
  }
}
