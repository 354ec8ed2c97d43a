/** Making a `str` from UTF-8 without decoding it twice, and byte offsets as character offsets (src/decode.rs). */
module PyStr {
  import opened Common
  import opened Utf8

  /** The mask test of the source is the test for a continuation byte. */
  lemma MaskForm(b: bv8)
    ensures b & 0xC0 == 0x80 <==> 0x80 <= b <= 0xBF
  {}

  /** The bytes that start a character. */
  function Starts(s: seq<byte>): nat {
    if s == [] then 0 else (if Continuation(s[0]) then 0 else 1) + Starts(s[1..])
  }

  function Highest(s: seq<byte>): (r: byte)
    ensures forall b | b in s :: b <= r
    ensures s != [] ==> r in s
    ensures s == [] ==> r == 0
  {
    if s == [] then 0
    else
      var rest := Highest(s[1..]);
      assert s == [s[0]] + s[1..];
      if s[0] >= rest then s[0] else rest
  }

  lemma {:induction false} StartsConcat(s: seq<byte>, t: seq<byte>)
    ensures Starts(s + t) == Starts(s) + Starts(t)
  {
    if s == [] {
      assert s + t == t;
    } else {
      assert (s + t)[1..] == s[1..] + t;
      StartsConcat(s[1..], t);
    }
  }

  lemma {:induction false} HighestConcat(s: seq<byte>, t: seq<byte>)
    ensures Highest(s + t) == if Highest(s) >= Highest(t) then Highest(s) else Highest(t)
  {
    if s == [] {
      assert s + t == t;
    } else {
      assert (s + t)[1..] == s[1..] + t;
      HighestConcat(s[1..], t);
    }
  }

  /** One character has one starting byte, and the highest byte tells how wide it is. */
  lemma OneCharacter(c: codepoint)
    ensures Starts(EncodeOne(c)) == 1
    ensures Highest(EncodeOne(c)) >= 0x80 <==> c > 0x7F
    ensures Highest(EncodeOne(c)) >= 0xC4 <==> c > 0xFF
    ensures Highest(EncodeOne(c)) >= 0xF0 <==> c > 0xFFFF
  {
    hide Starts, Highest;
    var s := EncodeOne(c);
    assert s[0] in s;
    if c < 0x80 {
      StartsOf([], s);
    } else if c < 0x800 {
      assert c / 64 >= 4 <==> c > 0xFF;
      StartsOf([s[1]], s);
    } else if c < 0x10000 {
      StartsOf([s[1], s[2]], s);
    } else {
      StartsOf([s[1], s[2], s[3]], s);
    }
  }

  lemma StartsOf(tail: seq<byte>, s: seq<byte>)
    requires |tail| <= 3 && s != [] && s[1..] == tail && !Continuation(s[0])
    requires forall b | b in tail :: Continuation(b)
    ensures Starts(s) == 1
  {
    NoStarts(tail);
  }

  lemma {:induction false} NoStarts(tail: seq<byte>)
    requires forall b | b in tail :: Continuation(b)
    ensures Starts(tail) == 0
  {
    if tail != [] { NoStarts(tail[1..]); }
  }

  /** The starting bytes count the characters, and the highest byte tells the widest of them. */
  lemma {:induction false} StartsCountCharacters(cps: seq<codepoint>)
    ensures Starts(Encode(cps)) == |cps|
    ensures Highest(Encode(cps)) >= 0x80 <==> exists c | c in cps :: c > 0x7F
    ensures Highest(Encode(cps)) >= 0xC4 <==> exists c | c in cps :: c > 0xFF
    ensures Highest(Encode(cps)) >= 0xF0 <==> exists c | c in cps :: c > 0xFFFF
  {
    hide EncodeOne, Starts, Highest;
    if cps == [] {
      Nothing();
    } else {
      OneCharacter(cps[0]);
      StartsCountCharacters(cps[1..]);
      StartsConcat(EncodeOne(cps[0]), Encode(cps[1..]));
      HighestConcat(EncodeOne(cps[0]), Encode(cps[1..]));
      Wider(cps, 0x7F);
      Wider(cps, 0xFF);
      Wider(cps, 0xFFFF);
    }
  }

  lemma Nothing()
    ensures Starts([]) == 0 && Highest([]) == 0
  {}

  lemma Wider(cps: seq<codepoint>, limit: int)
    requires cps != []
    ensures (exists c | c in cps :: c > limit) <==> cps[0] > limit || exists c | c in cps[1..] :: c > limit
  {
    if c :| c in cps && c > limit {
      assert cps == [cps[0]] + cps[1..];
    }
    if cps[0] > limit {
      assert cps[0] in cps;
    }
    if c :| c in cps[1..] && c > limit {
      assert c in cps;
    }
  }

  // ---- the kinds of a str -----------------------------------------------------------------------

  datatype Kind = OneByte | TwoBytes | FourBytes

  /** The largest character of a kind. */
  function Limit(k: Kind): int {
    match k
    case OneByte => 0xFF
    case TwoBytes => 0xFFFF
    case FourBytes => 0x10FFFF
  }

  /** A cast to the unit of a kind. */
  function Narrow(c: codepoint, k: Kind): codepoint {
    match k
    case OneByte => c % 0x100
    case TwoBytes => c % 0x1_0000
    case FourBytes => c
  }

  /** Every character fits, and some character fits no narrower kind. */
  ghost predicate Narrowest(k: Kind, cps: seq<codepoint>) {
    && (forall c | c in cps :: c <= Limit(k))
    && (k.TwoBytes? ==> exists c | c in cps :: c > Limit(OneByte))
    && (k.FourBytes? ==> exists c | c in cps :: c > Limit(TwoBytes))
  }

  /** Fills a new string character by character; none is changed by the cast, and no place is left. */
  method NewOfKind(s: seq<byte>, chars: nat, k: Kind, ghost cps: seq<codepoint>) returns (units: array<codepoint>)
    requires Decode(s) == Some(cps) && chars == |cps| && forall c | c in cps :: c <= Limit(k)
    ensures fresh(units) && units.Length == |cps|
    ensures forall j | 0 <= j < |cps| :: units[j] == cps[j]
  {
    hide DecodeAt;
    units := new codepoint[chars];
    var at, i := 0, 0;
    while at < |s|
      invariant at <= |s| && i <= |cps| && DecodeFrom(s, at) == Some(cps[i..])
      invariant forall j | 0 <= j < i :: units[j] == cps[j]
      decreases |s| - at
    {
      var (c, next) := DecodeAt(s, at).value;
      assert c == cps[i..][0] == cps[i] && cps[i] in cps;
      assert DecodeFrom(s, next).value == cps[i..][1..] == cps[i + 1..];
      units[i] := Narrow(c, k);
      at, i := next, i + 1;
    }
  }

  /**
   * The kind CPython itself would pick, from the bytes alone: as many places as there are
   * characters, each exactly its character, in the narrowest kind that can hold them all.
   */
  method NewNonAscii(s: seq<byte>, ghost cps: seq<codepoint>) returns (k: Kind, units: array<codepoint>)
    requires Decode(s) == Some(cps) && !Ascii(s)
    ensures Narrowest(k, cps) && fresh(units) && units.Length == |cps|
    ensures forall j | 0 <= j < |cps| :: units[j] == cps[j]
  {
    hide Decode, Encode, Starts, Highest;
    var chars, highest := CountAndHighest(s);
    DecodeIffEncode(s, cps);
    StartsCountCharacters(cps);
    if chars == 1 && highest < 0xC4 {
      // one Latin-1 character: the string CPython shares
      units := NewOfKind(s, 1, OneByte, cps);
      return OneByte, units;
    }
    k := if highest >= 0xF0 then FourBytes else if highest >= 0xC4 then TwoBytes else OneByte;
    units := NewOfKind(s, chars, k, cps);
  }

  method CountAndHighest(s: seq<byte>) returns (chars: nat, highest: byte)
    ensures chars == Starts(s) && highest == Highest(s)
  {
    hide Starts, Highest;
    chars, highest := 0, 0;
    Nothing();
    for i := 0 to |s|
      invariant chars == Starts(s[..i]) && highest == Highest(s[..i])
    {
      assert s[..i + 1] == s[..i] + [s[i]];
      StartsConcat(s[..i], [s[i]]);
      HighestConcat(s[..i], [s[i]]);
      OneByteOnly(s[i]);
      chars := chars + if Continuation(s[i]) then 0 else 1;
      highest := if highest >= s[i] then highest else s[i];
    }
    assert s[..|s|] == s;
  }

  lemma OneByteOnly(b: byte)
    ensures Starts([b]) == (if Continuation(b) then 0 else 1) && Highest([b]) == b
  {
    assert [b][1..] == [];
  }

  // ---- the position of an error -------------------------------------------------------------------

  /** A byte offset, beyond the end or not, as the number of characters that start before it. */
  method CharPos(input: seq<byte>, bytePos: nat) returns (pos: nat)
    ensures pos == Starts(input[..if bytePos <= |input| then bytePos else |input|])
  {
    hide Starts, Highest;
    var upto := input[..if bytePos <= |input| then bytePos else |input|];
    var highest;
    pos, highest := CountAndHighest(upto);
  }

  /** At the first byte of character `n` of a valid text, that number is `n`; inside the character it is `n + 1`. */
  lemma {:induction false} CharPosIsIndex(cps: seq<codepoint>, n: nat, k: nat)
    requires n < |cps| && k < |EncodeOne(cps[n])|
    ensures |Encode(cps[..n])| + k <= |Encode(cps)|
    ensures Starts(Encode(cps)[..|Encode(cps[..n])| + k]) == if k == 0 then n else n + 1
    decreases n
  {
    hide EncodeOne, Starts, Highest;
    var one := EncodeOne(cps[0]);
    if n == 0 {
      Nothing();
      assert Encode(cps[..0]) == [];
      if k > 0 {
        assert Encode(cps)[..k] == one[..k];
        PartOfCharacter(cps[0], k);
      } else {
        assert Encode(cps)[..0] == [];
      }
    } else {
      assert cps[..n][0] == cps[0] && cps[..n][1..] == cps[1..][..n - 1];
      CharPosIsIndex(cps[1..], n - 1, k);
      var m := |Encode(cps[1..][..n - 1])| + k;
      assert Encode(cps)[..|one| + m] == one + Encode(cps[1..])[..m];
      StartsConcat(one, Encode(cps[1..])[..m]);
      OneCharacter(cps[0]);
    }
  }

  lemma PartOfCharacter(c: codepoint, k: nat)
    requires 0 < k < |EncodeOne(c)|
    ensures Starts(EncodeOne(c)[..k]) == 1
  {
    hide Starts;
    var s := EncodeOne(c);
    StartsOf(s[..k][1..], s[..k]);
  }
}
