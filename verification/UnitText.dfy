/** The unit and multiplier in a numpy `datetime64` dtype string (src/datetime.rs, `parse_dt64`). */
module UnitText {
  import opened Common
  import opened Datetime
  import IsoText

  /** The letters of a unit; a generic one has none. */
  function Code(base: TimeUnit): seq<byte> {
    match base
    case Year => [0x59]
    case Month => [0x4D]
    case Week => [0x57]
    case Day => [0x44]
    case Hour => [0x68]
    case Minute => [0x6D]
    case Second => [0x73]
    case Milli => [0x6D, 0x73]
    case Micro => [0x75, 0x73]
    case Nano => [0x6E, 0x73]
    case Pico => [0x70, 0x73]
    case Femto => [0x66, 0x73]
    case Atto => [0x61, 0x73]
    case Generic => []
  }

  /** Digits are read as the number they write. */
  lemma {:induction false} DecimalReads(v: nat, w: nat)
    requires v < IsoText.Pow10(w)
    ensures AllDigits(IsoText.Digits(v, w)) && Decimal(IsoText.Digits(v, w)) == v
  {
    if w > 0 {
      DecimalReads(v / 10, w - 1);
      var d := IsoText.Digits(v, w);
      assert d[..|d| - 1] == IsoText.Digits(v / 10, w - 1);
      assert d[|d| - 1] == 0x30 + v % 10;
    }
  }

  /** The bytes numpy writes: a byte order, `M8`, and the codes of the units. */
  lemma CodesAre(b: byte)
    ensures ByteOrder(b) <==> b == '<' as int || b == '>' as int || b == '=' as int || b == '|' as int
    ensures PREFIX == ['M' as int, '8' as int] && (IsDigit(b) <==> '0' as int <= b <= '9' as int)
    ensures Code(Year) == ['Y' as int] && Code(Month) == ['M' as int] && Code(Week) == ['W' as int] && Code(Day) == ['D' as int]
    ensures Code(Hour) == ['h' as int] && Code(Minute) == ['m' as int] && Code(Second) == ['s' as int]
    ensures Code(Milli) == ['m' as int, 's' as int] && Code(Micro) == ['u' as int, 's' as int]
    ensures Code(Nano) == ['n' as int, 's' as int] && Code(Pico) == ['p' as int, 's' as int]
    ensures Code(Femto) == ['f' as int, 's' as int] && Code(Atto) == ['a' as int, 's' as int]
  {}

  predicate AllDigits(s: seq<byte>) {
    forall b | b in s :: IsDigit(b)
  }

  /** The number a string of digits stands for, of any length. */
  function Decimal(s: seq<byte>): int {
    if s == [] then 0 else Decimal(s[..|s| - 1]) * 10 + s[|s| - 1] as int - 0x30
  }

  const PREFIX: seq<byte> := [0x4D, 0x38]

  predicate ByteOrder(b: byte) {
    b == 0x3C || b == 0x3E || b == 0x3D || b == 0x7C
  }

  /** `num` and the code of `u`, in brackets; no number means one, and zero or more than an i64 is no multiplier. */
  predicate Bracketed(s: seq<byte>, num: seq<byte>, u: Dt64Unit) {
    && s == [0x5B] + num + Code(u.base) + [0x5D]
    && AllDigits(num) && !u.base.Generic?
    && u.mult == (if num == [] then 1 else Decimal(num))
    && 1 <= u.mult <= I64_MAX
  }

  /** What numpy writes for unit `u`: a byte order, `M8`, and unless it is generic its multiplier and code. */
  ghost predicate Spells(s: seq<byte>, u: Dt64Unit) {
    && |s| >= 3 && ByteOrder(s[0]) && s[1..3] == PREFIX
    && if |s| == 3 then u == Dt64Unit(Generic, 1)
       else exists num :: Bracketed(s[3..], num, u)
  }

  lemma {:induction false} DecimalGrows(s: seq<byte>, i: nat)
    requires AllDigits(s) && i <= |s|
    ensures 0 <= Decimal(s[..i]) <= Decimal(s)
    decreases |s|
  {
    if i == |s| {
      assert s[..i] == s;
      if s != [] { DecimalGrows(s[..|s| - 1], |s| - 1); assert s[..|s| - 1][..|s| - 1] == s[..|s| - 1]; assert s[|s| - 1] in s; }
    } else {
      assert s[..|s| - 1][..i] == s[..i];
      DecimalGrows(s[..|s| - 1], i);
      assert s[|s| - 1] in s;
    }
  }

  /** The multiplier by checked steps: nothing exactly when the number is zero or does not fit. */
  method Multiplier(num: seq<byte>) returns (r: Option<int>)
    requires AllDigits(num) && num != []
    ensures r.Some? <==> 1 <= Decimal(num) <= I64_MAX
    ensures r.Some? ==> r.value == Decimal(num)
  {
    var m := 0;
    for i := 0 to |num|
      invariant m == Decimal(num[..i]) && 0 <= m <= I64_MAX
    {
      assert num[i] in num;
      assert num[..i + 1][..i] == num[..i];
      DecimalGrows(num, i + 1);
      if m * 10 > I64_MAX || m * 10 + (num[i] - 0x30) > I64_MAX {
        return None;
      }
      m := m * 10 + (num[i] - 0x30);
    }
    assert num[..|num|] == num;
    r := if m == 0 then None else Some(m);
  }

  method DigitPrefix(s: seq<byte>) returns (n: nat)
    ensures n <= |s| && AllDigits(s[..n]) && (n < |s| ==> !IsDigit(s[n]))
  {
    n := 0;
    while n < |s| && IsDigit(s[n])
      invariant n <= |s| && AllDigits(s[..n])
    {
      assert s[..n + 1] == s[..n] + [s[n]];
      n := n + 1;
    }
  }

  function BaseOf(code: seq<byte>): Option<TimeUnit> {
    if code == [0x59] then Some(Year)
    else if code == [0x4D] then Some(Month)
    else if code == [0x57] then Some(Week)
    else if code == [0x44] then Some(Day)
    else if code == [0x68] then Some(Hour)
    else if code == [0x6D] then Some(Minute)
    else if code == [0x73] then Some(Second)
    else if code == [0x6D, 0x73] then Some(Milli)
    else if code == [0x75, 0x73] then Some(Micro)
    else if code == [0x6E, 0x73] then Some(Nano)
    else if code == [0x70, 0x73] then Some(Pico)
    else if code == [0x66, 0x73] then Some(Femto)
    else if code == [0x61, 0x73] then Some(Atto)
    else None
  }

  lemma BaseOfCode(code: seq<byte>, base: TimeUnit)
    requires !base.Generic?
    ensures BaseOf(code) == Some(base) <==> code == Code(base)
    ensures |Code(base)| >= 1 && !IsDigit(Code(base)[0])
  {
    match base
    case Year =>
    case Month =>
    case Week =>
    case Day =>
    case Hour =>
    case Minute =>
    case Second =>
    case Milli =>
    case Micro =>
    case Nano =>
    case Pico =>
    case Femto =>
    case Atto =>
  }

  lemma NotGeneric(code: seq<byte>)
    ensures BaseOf(code).Some? ==> !BaseOf(code).value.Generic?
  {}

  /** In a bracketed unit, the number is the longest run of digits. */
  lemma SplitIsUnique(inner: seq<byte>, n: nat, num: seq<byte>, base: TimeUnit)
    requires n <= |inner| && AllDigits(inner[..n]) && (n < |inner| ==> !IsDigit(inner[n]))
    requires inner == num + Code(base) && AllDigits(num) && !base.Generic?
    ensures num == inner[..n] && Code(base) == inner[n..]
  {
    hide Code, IsDigit;
    BaseOfCode(Code(base), base);
    assert inner[|num|] == Code(base)[0];
    forall k | 0 <= k < |num| ensures IsDigit(inner[k]) {
      assert inner[k] == num[k] && num[k] in num;
    }
    forall k | 0 <= k < n ensures IsDigit(inner[k]) {
      assert inner[k] == inner[..n][k] && inner[..n][k] in inner[..n];
    }
    assert n == |num|;
  }

  /** What is inside the brackets, if there are two. */
  lemma Inside(s: seq<byte>, num: seq<byte>, u: Dt64Unit)
    requires Bracketed(s, num, u)
    ensures |s| >= 2 && s[0] == 0x5B && s[|s| - 1] == 0x5D && s[1..|s| - 1] == num + Code(u.base)
  {
    hide Code;
  }

  lemma Outside(s: seq<byte>, n: nat)
    requires |s| >= 2 && s[0] == 0x5B && s[|s| - 1] == 0x5D && n <= |s| - 2
    ensures s == [0x5B] + s[1..|s| - 1][..n] + s[1..|s| - 1][n..] + [0x5D]
  {}

  /** The unit in brackets: found exactly when one is spelled, and then it is the one. */
  method ParseBracketed(s: seq<byte>) returns (r: Option<Dt64Unit>, ghost number: seq<byte>)
    ensures r.Some? ==> Bracketed(s, number, r.value)
    ensures forall num, u :: Bracketed(s, num, u) ==> r == Some(u)
  {
    hide Code, IsDigit, AllDigits, Bracketed, BaseOf, Decimal;
    if !(|s| >= 2 && s[0] == 0x5B && s[|s| - 1] == 0x5D) {
      forall num, u | Bracketed(s, num, u) ensures false { Inside(s, num, u); }
      return None, [];
    }
    var inner := s[1..|s| - 1];
    var n := DigitPrefix(inner);
    var num, code := inner[..n], inner[n..];
    number := num;
    var base := BaseOf(code);
    var mult := Some(1);
    if num != [] {
      mult := Multiplier(num);
    }
    r := if mult.Some? && base.Some? then Some(Dt64Unit(base.value, mult.value)) else None;
    if r.Some? {
      NotGeneric(code);
      BaseOfCode(code, base.value);
      Outside(s, n);
      IsBracketed(s, num, r.value);
    }
    forall num', u | Bracketed(s, num', u) ensures num' == num && base == Some(u.base) {
      OnlyReading(s, n, num', u);
    }
    forall num', u | Bracketed(s, num', u) ensures r == Some(u) {
      BracketedParts(s, num', u);
    }
  }

  lemma OnlyReading(s: seq<byte>, n: nat, num: seq<byte>, u: Dt64Unit)
    requires Bracketed(s, num, u) && |s| >= 2 && n <= |s| - 2
    requires var inner := s[1..|s| - 1]; AllDigits(inner[..n]) && (n < |inner| ==> !IsDigit(inner[n]))
    ensures var inner := s[1..|s| - 1]; num == inner[..n] && BaseOf(inner[n..]) == Some(u.base)
  {
    hide Code, IsDigit, AllDigits, Bracketed, BaseOf, Decimal;
    var inner := s[1..|s| - 1];
    Inside(s, num, u);
    BracketedParts(s, num, u);
    SplitIsUnique(inner, n, num, u.base);
    BaseOfCode(inner[n..], u.base);
  }

  lemma BracketedParts(s: seq<byte>, num: seq<byte>, u: Dt64Unit)
    requires Bracketed(s, num, u)
    ensures AllDigits(num) && !u.base.Generic? && u.mult == (if num == [] then 1 else Decimal(num)) && 1 <= u.mult <= I64_MAX
  {}

  lemma IsBracketed(s: seq<byte>, num: seq<byte>, u: Dt64Unit)
    requires s == [0x5B] + num + Code(u.base) + [0x5D] && AllDigits(num) && !u.base.Generic?
    requires u.mult == (if num == [] then 1 else Decimal(num)) && 1 <= u.mult <= I64_MAX
    ensures Bracketed(s, num, u)
  {}

  /** The parser accepts exactly the strings that spell a unit, and gives that unit. */
  method ParseDt64(s: seq<byte>) returns (r: Option<Dt64Unit>)
    ensures forall u :: r == Some(u) <==> Spells(s, u)
  {
    hide Bracketed;
    if !(|s| >= 3 && ByteOrder(s[0]) && s[1] == 0x4D && s[2] == 0x38) {
      assert |s| >= 3 ==> s[1..3] == [s[1], s[2]];
      return None;
    }
    assert s[1..3] == PREFIX;
    if |s| == 3 {
      return Some(Dt64Unit(Generic, 1));
    }
    ghost var num;
    r, num := ParseBracketed(s[3..]);
  }
}
