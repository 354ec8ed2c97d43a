/**
 * A parser for the grammar of sections 2 to 7 of RFC 8259, written from the standard
 * and independent of the writer: it is the specification the written text is read by.
 */
module Rfc8259 {
  import opened Common
  import opened Utf8
  import opened JsonText

  // ---- numbers (section 6) -------------------------------------------------------------

  /** The end of the run of digits at `i`. */
  function DigitRun(s: seq<byte>, i: nat): (j: nat)
    requires i <= |s|
    ensures i <= j <= |s|
    decreases |s| - i
  {
    if i < |s| && IsDigit(s[i]) then DigitRun(s, i + 1) else i
  }

  /** The number its decimal digits `s[i..j]` denote. */
  function Natural(s: seq<byte>, i: nat, j: nat): nat
    requires i <= j <= |s| && forall k | i <= k < j :: IsDigit(s[k])
  {
    if i == j then 0 else 10 * Natural(s, i, j - 1) + DigitValue(s[j - 1])
  }

  lemma DigitRunDigits(s: seq<byte>, i: nat)
    requires i <= |s|
    ensures forall k | i <= k < DigitRun(s, i) :: IsDigit(s[k])
    ensures DigitRun(s, i) < |s| ==> !IsDigit(s[DigitRun(s, i)])
    decreases |s| - i
  {}

  /** The end of the integer part at `k`: a zero, or digits that do not start with one. */
  function IntegerEnd(s: seq<byte>, k: nat): (r: Option<nat>)
    ensures r.Some? ==> k < r.value <= |s|
  {
    if !(k < |s| && IsDigit(s[k])) then None
    else if s[k] == 0x30 then Some(k + 1)
    else Some(DigitRun(s, k))
  }

  /** The end of the fraction at `m`, which may be absent. */
  function FractionEnd(s: seq<byte>, m: nat): (r: Option<nat>)
    requires m <= |s|
    ensures r.Some? ==> m <= r.value <= |s|
  {
    if !ByteAt(s, m, 0x2E) then Some(m)
    else if DigitRun(s, m + 1) > m + 1 then Some(DigitRun(s, m + 1))
    else None
  }

  predicate IsE(s: seq<byte>, f: nat) {
    ByteAt(s, f, 0x65) || ByteAt(s, f, 0x45)
  }

  predicate IsSign(s: seq<byte>, f: nat) {
    ByteAt(s, f, 0x2B) || ByteAt(s, f, 0x2D)
  }

  /** The end of the exponent at `f`, which may be absent. */
  function ExponentEnd(s: seq<byte>, f: nat): (r: Option<nat>)
    requires f <= |s|
    ensures r.Some? ==> f <= r.value <= |s|
  {
    if !IsE(s, f) then Some(f)
    else
      var d := if IsSign(s, f + 1) then f + 2 else f + 1;
      if DigitRun(s, d) > d then Some(DigitRun(s, d)) else None
  }

  /** A number at `i`; one without fraction and exponent is an integer. */
  function ParseNumber(s: seq<byte>, i: nat): (r: Option<(Json, nat)>)
    requires i <= |s|
    ensures r.Some? ==> i < r.value.1 <= |s|
  {
    var k := if ByteAt(s, i, 0x2D) then i + 1 else i;
    match IntegerEnd(s, k)
    case None => None
    case Some(m) =>
      match FractionEnd(s, m)
      case None => None
      case Some(f) =>
        match ExponentEnd(s, f)
        case None => None
        case Some(e) =>
          if e > m then Some((Real(s[i..e]), e))
          else
            IntegerDigits(s, k);
            var n: int := Natural(s, k, m);
            Some((Int(if k > i then -n else n), e))
  }

  lemma IntegerDigits(s: seq<byte>, k: nat)
    ensures IntegerEnd(s, k).Some? ==> forall x | k <= x < IntegerEnd(s, k).value :: IsDigit(s[x])
  {
    if k <= |s| { DigitRunDigits(s, k); }
  }

  /** A token that is one JSON number with a fraction or an exponent. */
  predicate RealToken(t: seq<byte>) {
    ParseNumber(t, 0) == Some((Real(t), |t|))
  }

  // ---- strings (section 7) -------------------------------------------------------------

  function HexValue(b: byte): (r: Option<int>)
    ensures r.Some? ==> 0 <= r.value < 16
  {
    if 0x30 <= b <= 0x39 then Some(b - 0x30)
    else if 0x41 <= b <= 0x46 then Some(b - 0x37)
    else if 0x61 <= b <= 0x66 then Some(b - 0x57)
    else None
  }

  /** The code unit of the four hexadecimal digits at `i`. */
  function HexUnit(s: seq<byte>, i: nat): (r: Option<int>)
    ensures r.Some? ==> i + 4 <= |s| && 0 <= r.value < 0x10000
  {
    if i + 4 > |s| then None
    else match (HexValue(s[i]), HexValue(s[i + 1]), HexValue(s[i + 2]), HexValue(s[i + 3]))
      case (Some(a), Some(b), Some(c), Some(d)) => Some(a * 4096 + b * 256 + c * 16 + d)
      case _ => None
  }

  predicate HighSurrogate(u: int) {
    0xD800 <= u <= 0xDBFF
  }

  predicate LowSurrogate(u: int) {
    0xDC00 <= u <= 0xDFFF
  }

  /** The character of the `\u` escape whose digits are at `i`; a pair of them may make one character. */
  function UnicodeEscape(s: seq<byte>, i: nat): (r: Option<(codepoint, nat)>)
    ensures r.Some? ==> i < r.value.1 <= |s|
  {
    match HexUnit(s, i)
    case None => None
    case Some(u) =>
      if HighSurrogate(u) && ByteAt(s, i + 4, 0x5C) && ByteAt(s, i + 5, 0x75)
         && HexUnit(s, i + 6).Some? && LowSurrogate(HexUnit(s, i + 6).value) then
        Some((0x10000 + (u - 0xD800) * 0x400 + (HexUnit(s, i + 6).value - 0xDC00), i + 10))
      else Some((u, i + 4))
  }

  /** The character of the escape whose letter is at `i`. */
  function Escape(s: seq<byte>, i: nat): (r: Option<(codepoint, nat)>)
    ensures r.Some? ==> i < r.value.1 <= |s|
  {
    if i >= |s| then None
    else
      var b: int := s[i];
      if b == 0x22 || b == 0x5C || b == 0x2F then Some((b, i + 1))
      else if b == 0x62 then Some((0x08, i + 1))
      else if b == 0x66 then Some((0x0C, i + 1))
      else if b == 0x6E then Some((0x0A, i + 1))
      else if b == 0x72 then Some((0x0D, i + 1))
      else if b == 0x74 then Some((0x09, i + 1))
      else if b == 0x75 then UnicodeEscape(s, i + 1)
      else None
  }

  /** One character of a string, escaped or not. */
  function ParseChar(s: seq<byte>, i: nat): (r: Option<(codepoint, nat)>)
    ensures r.Some? ==> i < r.value.1 <= |s|
  {
    if i >= |s| || s[i] < 0x20 || s[i] == 0x22 then None
    else if s[i] == 0x5C then Escape(s, i + 1)
    else DecodeAt(s, i)
  }

  /** The rest of a string from `i` to its closing quote. */
  function ParseChars(s: seq<byte>, i: nat): (r: Option<(seq<codepoint>, nat)>)
    ensures r.Some? ==> i < r.value.1 <= |s|
    decreases |s| - i
  {
    if i >= |s| then None
    else if s[i] == 0x22 then Some(([], i + 1))
    else match ParseChar(s, i)
      case None => None
      case Some((c, j)) =>
        match ParseChars(s, j)
        case None => None
        case Some((rest, k)) => Some(([c] + rest, k))
  }

  function ParseString(s: seq<byte>, i: nat): (r: Option<(seq<codepoint>, nat)>)
    ensures r.Some? ==> i < r.value.1 <= |s|
  {
    if ByteAt(s, i, 0x22) then ParseChars(s, i + 1) else None
  }

  // ---- values (sections 2 to 5) --------------------------------------------------------

  predicate IsWs(b: byte) {
    b == 0x20 || b == 0x09 || b == 0x0A || b == 0x0D
  }

  function SkipWs(s: seq<byte>, i: nat): (j: nat)
    requires i <= |s|
    ensures i <= j <= |s|
    decreases |s| - i
  {
    if i < |s| && IsWs(s[i]) then SkipWs(s, i + 1) else i
  }

  /** A value, after any white space. */
  function ParseValue(s: seq<byte>, i0: nat): (r: Option<(Json, nat)>)
    requires i0 <= |s|
    ensures r.Some? ==> i0 < r.value.1 <= |s|
    decreases |s| - i0, 0
  {
    var i := SkipWs(s, i0);
    if At(s, i, [0x6E, 0x75, 0x6C, 0x6C]) then Some((Null, i + 4))
    else if At(s, i, [0x74, 0x72, 0x75, 0x65]) then Some((Bool(true), i + 4))
    else if At(s, i, [0x66, 0x61, 0x6C, 0x73, 0x65]) then Some((Bool(false), i + 5))
    else if ByteAt(s, i, 0x22) then
      match ParseString(s, i)
      case Some((cps, j)) => Some((Str(cps), j))
      case None => None
    else if ByteAt(s, i, 0x5B) then
      var k := SkipWs(s, i + 1);
      if ByteAt(s, k, 0x5D) then Some((Arr([]), k + 1))
      else
        (match ParseItems(s, i + 1)
         case Some((items, j)) => Some((Arr(items), j))
         case None => None)
    else if ByteAt(s, i, 0x7B) then
      var k := SkipWs(s, i + 1);
      if ByteAt(s, k, 0x7D) then Some((Obj([]), k + 1))
      else
        (match ParseMembers(s, i + 1)
         case Some((members, j)) => Some((Obj(members), j))
         case None => None)
    else ParseNumber(s, i)
  }

  /** One or more values and the bracket that closes them. */
  function ParseItems(s: seq<byte>, i: nat): (r: Option<(seq<Json>, nat)>)
    requires i <= |s|
    ensures r.Some? ==> i < r.value.1 <= |s|
    decreases |s| - i, 1
  {
    match ParseValue(s, i)
    case None => None
    case Some((v, j)) =>
      var k := SkipWs(s, j);
      if ByteAt(s, k, 0x5D) then Some(([v], k + 1))
      else if ByteAt(s, k, 0x2C) then
        match ParseItems(s, k + 1)
        case Some((rest, e)) => Some(([v] + rest, e))
        case None => None
      else None
  }

  /** One or more members and the brace that closes them. */
  function ParseMembers(s: seq<byte>, i: nat): (r: Option<(seq<Member>, nat)>)
    requires i <= |s|
    ensures r.Some? ==> i < r.value.1 <= |s|
    decreases |s| - i, 1
  {
    match ParseString(s, SkipWs(s, i))
    case None => None
    case Some((key, j)) =>
      var c := SkipWs(s, j);
      if !ByteAt(s, c, 0x3A) then None
      else match ParseValue(s, c + 1)
        case None => None
        case Some((v, l)) =>
          var k := SkipWs(s, l);
          if ByteAt(s, k, 0x7D) then Some(([Member(key, v)], k + 1))
          else if ByteAt(s, k, 0x2C) then
            match ParseMembers(s, k + 1)
            case Some((rest, e)) => Some(([Member(key, v)] + rest, e))
            case None => None
          else None
  }

  /** A whole document: one value with nothing but white space around it. */
  function Parse(s: seq<byte>): Option<Json> {
    match ParseValue(s, 0)
    case Some((v, j)) => if SkipWs(s, j) == |s| then Some(v) else None
    case None => None
  }
}
