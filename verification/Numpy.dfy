/**
 * Writing numpy arrays (src/numpy.rs): a walk over strides, a fast row for integers, and
 * the rollback when an element is declined. The text is that of the nested list of elements.
 */
module Numpy {
  import opened Common
  import opened Out
  import opened JsonText
  import opened Datetime
  import opened Calendar
  import IsoText
  import Strings

  datatype ElementType = F64 | F32 | F16 | I64 | I32 | I16 | I8 | U64 | U32 | U16 | U8 | Bool8 | Dt64

  /** An element as read from memory; a float that is not finite has no token. */
  datatype Elem = EBool(b: bool) | EInt(i: int) | EFloat(token: Option<seq<byte>>) | EDt64(v: int)

  /** How many bytes to reserve for one element of an array. */
  function MaxText(t: ElementType): nat {
    match t
    case Bool8 => 5
    case I8 => 4
    case U8 => 4
    case I16 => 6
    case U16 => 6
    case I32 => 11
    case U32 => 11
    case I64 => 20
    case U64 => 20
    case F16 => 16
    case F32 => 16
    case F64 => 24
    case Dt64 => 34
  }

  predicate IsInt(t: ElementType) {
    t in {I8, I16, I32, I64, U8, U16, U32, U64}
  }

  function IntMin(t: ElementType): int {
    match t
    case I8 => -0x80
    case I16 => -0x8000
    case I32 => -0x8000_0000
    case I64 => I64_MIN
    case _ => 0
  }

  function IntMax(t: ElementType): int {
    match t
    case I8 => 0x7F
    case I16 => 0x7FFF
    case I32 => 0x7FFF_FFFF
    case I64 => I64_MAX
    case U8 => 0xFF
    case U16 => 0xFFFF
    case U32 => 0xFFFF_FFFF
    case _ => 0xFFFF_FFFF_FFFF_FFFF
  }

  /** The elements that memory of a type can hold. */
  predicate OfType(e: Elem, t: ElementType) {
    match t
    case Bool8 => e.EBool?
    case Dt64 => e.EDt64? && I64_MIN <= e.v <= I64_MAX
    case F16 => e.EFloat? && (e.token.Some? ==> |e.token.value| <= 16)
    case F32 => e.EFloat? && (e.token.Some? ==> |e.token.value| <= 16)
    case F64 => e.EFloat? && (e.token.Some? ==> |e.token.value| <= 24)
    case _ => e.EInt? && IntMin(t) <= e.i <= IntMax(t)
  }

  /** The integers that fit the memory of a type. */
  lemma IntRanges(i: int)
    ensures OfType(EInt(i), I8) <==> -0x80 <= i <= 0x7F
    ensures OfType(EInt(i), I16) <==> -0x8000 <= i <= 0x7FFF
    ensures OfType(EInt(i), I32) <==> -0x8000_0000 <= i <= 0x7FFF_FFFF
    ensures OfType(EInt(i), I64) <==> -0x8000_0000_0000_0000 <= i <= 0x7FFF_FFFF_FFFF_FFFF
    ensures OfType(EInt(i), U8) <==> 0 <= i <= 0xFF
    ensures OfType(EInt(i), U16) <==> 0 <= i <= 0xFFFF
    ensures OfType(EInt(i), U32) <==> 0 <= i <= 0xFFFF_FFFF
    ensures OfType(EInt(i), U64) <==> 0 <= i <= 0xFFFF_FFFF_FFFF_FFFF
  {}

  // ---- one element -----------------------------------------------------------------------

  predicate UnitOk(u: Dt64Unit) {
    0 < u.mult <= I64_MAX
  }

  /** Calendar parts that come out of a `datetime64` fit their fields. */
  lemma PartsFit(v: int, u: Dt64Unit)
    requires I64_MIN <= v <= I64_MAX && UnitOk(u) && Dt64ToParts(v, u).Value?
    ensures IsoText.FieldsFit(Dt64ToParts(v, u).parts)
  {
    hide DayNumber, YearStart, PartsOfMicros, CivilFromDays;
    ProductFits(v, u.mult);
    if u.base != Generic {
      Dt64ToPartsExact(v, u);
      var p := Dt64ToParts(v, u).parts;
      ValidPartsInYears(p);
    }
  }

  lemma ValidPartsInYears(p: Parts)
    requires ValidParts(p) && InFourDigitYears(MicrosOf(p))
    ensures IsoText.FieldsFit(p)
  {
    hide DayNumber, YearStart;
    InsideYear(Date(p.y, p.mo, p.d));
    NewYear(0);
    NewYear(10000);
    if p.y < 0 { YearStartMonotone(p.y, 0); }
    if 10000 < p.y { YearStartMonotone(10000, p.y); }
  }

  function Dt64Offset(opts: Opts): Option<int> {
    if opts.naiveUtc then Some(0) else None
  }

  /** The quoted text of a `datetime64` value that has one. */
  function Dt64Text(v: int, u: Dt64Unit, opts: Opts): seq<byte>
    requires I64_MIN <= v <= I64_MAX && UnitOk(u) && Dt64ToParts(v, u).Value?
  {
    PartsFit(v, u);
    IsoText.DatetimeText(Dt64ToParts(v, u).parts, Dt64Offset(opts), opts)
  }

  /** The JSON value an element is written as, or nothing when it is declined. */
  function ElemTree(e: Elem, unit: Option<Dt64Unit>, opts: Opts): Option<Json>
    requires e.EDt64? ==> I64_MIN <= e.v <= I64_MAX && unit.Some? && UnitOk(unit.value)
  {
    match e
    case EBool(b) => Some(Bool(b))
    case EInt(i) => Some(Int(i))
    case EFloat(Some(token)) => Some(Real(token))
    case EFloat(None) => Some(Null)
    case EDt64(v) =>
      match Dt64ToParts(v, unit.value)
      case NaT => Some(Null)
      case Fail(_) => None
      case Value(_) =>
        var t := Dt64Text(v, unit.value, opts);
        Some(Str(t[1..|t| - 1]))
  }

  predicate PlainByte(b: byte) {
    IsDigit(b) || b == 0x2D || b == 0x3A || b == 0x2E || b == 0x2B || b == 0x54 || b == 0x5A
  }

  predicate Plain(s: seq<byte>) {
    forall k | 0 <= k < |s| :: PlainByte(s[k])
  }

  lemma {:induction false} DigitsPlain(v: nat, w: nat)
    ensures Plain(IsoText.Digits(v, w))
  {
    hide PlainByte;
    if w > 0 {
      DigitsPlain(v / 10, w - 1);
      assert PlainByte(IsoText.DigitOf(v)) by { DigitPlain(v); }
    }
  }

  lemma DigitPlain(v: nat)
    ensures PlainByte(IsoText.DigitOf(v))
  {}

  lemma YmdPlain(y: nat, mo: nat, d: nat)
    ensures Plain(IsoText.YmdText(y, mo, d))
  {
    hide IsoText.Digits;
    DigitsPlain(y, 4);
    DigitsPlain(mo, 2);
    DigitsPlain(d, 2);
  }

  lemma HmsPlain(h: nat, mi: nat, s: nat, us: nat, omit: bool)
    ensures Plain(IsoText.HmsText(h, mi, s, us, omit))
  {
    hide IsoText.Digits;
    DigitsPlain(h, 2);
    DigitsPlain(mi, 2);
    DigitsPlain(s, 2);
    DigitsPlain(us, 6);
  }

  lemma ZeroOffsetPlain(utcZ: bool)
    ensures Plain(IsoText.OffsetText(0, utcZ))
  {
    hide IsoText.Digits;
    DigitsPlain(0, 2);
  }

  lemma {:induction false} PlainIsNotEscaped(s: seq<byte>)
    requires Plain(s)
    ensures Strings.EscapeText(s) == s
  {
    if s != [] {
      assert PlainByte(s[0]);
      PlainIsNotEscaped(s[1..]);
      assert s == [s[0]] + s[1..];
    }
  }

  lemma JoinPlain(a: seq<byte>, b: seq<byte>, c: seq<byte>)
    requires Plain(a) && Plain(b) && Plain(c)
    ensures Plain(a + [0x54] + b + c)
  {}

  /** The text between the quotes of calendar parts with no offset or a zero one. */
  lemma InnerText(p: Parts, opts: Opts) returns (inner: seq<byte>)
    requires IsoText.FieldsFit(p)
    ensures Plain(inner) && |inner| <= 32
    ensures IsoText.DatetimeText(p, Dt64Offset(opts), opts) == [0x22] + inner + [0x22]
  {
    hide IsoText.YmdText, IsoText.HmsText, IsoText.OffsetText, Plain;
    var a, b := IsoText.YmdText(p.y, p.mo, p.d), IsoText.HmsText(p.h, p.mi, p.s, p.us, opts.omitMicroseconds);
    var c := if opts.naiveUtc then IsoText.OffsetText(0, opts.utcZ) else [];
    YmdPlain(p.y, p.mo, p.d);
    HmsPlain(p.h, p.mi, p.s, p.us, opts.omitMicroseconds);
    ZeroOffsetPlain(opts.utcZ);
    TeePlain();
    JoinPlain(a, b, c);
    inner := a + [0x54] + b + c;
    PieceLengths(p.h, p.mi, p.s, p.us, opts.omitMicroseconds, opts.utcZ);
  }

  /** Date text needs no escaping: as a JSON string it is itself. */
  lemma Dt64TextIsString(v: int, u: Dt64Unit, opts: Opts)
    requires I64_MIN <= v <= I64_MAX && UnitOk(u) && Dt64ToParts(v, u).Value?
    ensures var t := Dt64Text(v, u, opts); 2 <= |t| <= 34 && Strings.Quoted(t[1..|t| - 1]) == t
  {
    hide IsoText.DatetimeText, Dt64ToParts, Plain, IsoText.FieldsFit;
    PartsFit(v, u);
    var inner := InnerText(Dt64ToParts(v, u).parts, opts);
    PlainIsNotEscaped(inner);
    var t := Dt64Text(v, u, opts);
    assert t[1..|t| - 1] == inner;
  }

  lemma TeePlain()
    ensures Plain([0x54]) && Plain([])
  {}

  lemma PieceLengths(h: nat, mi: nat, s: nat, us: nat, omit: bool, utcZ: bool)
    ensures |IsoText.HmsText(h, mi, s, us, omit)| <= 15 && |IsoText.OffsetText(0, utcZ)| <= 6
  {
    hide IsoText.Digits;
  }

  /** Appends one element, or declines it and appends nothing. */
  method WriteElem(out: OutputBuffer, e: Elem, unit: Option<Dt64Unit>, opts: Opts) returns (ok: bool)
    requires out.Valid()
    requires e.EDt64? ==> I64_MIN <= e.v <= I64_MAX && unit.Some? && UnitOk(unit.value)
    modifies out.Repr
    ensures out.Valid() && fresh(out.Repr - old(out.Repr))
    ensures ok <==> ElemTree(e, unit, opts).Some?
    ensures forall ind, level :: ok ==> out.Contents() == old(out.Contents()) + Write(ElemTree(e, unit, opts).value, ind, level)
    ensures !ok ==> out.Contents() == old(out.Contents())
    ensures out.Kept(old(out.mem), old(out.moves))
  {
    hide Dt64ToParts, IsoText.DatetimeText, Strings.Quoted, IntText;
    ok := true;
    match e
    case EBool(b) => out.ExtendFromSlice(if b then TRUE else FALSE);
    case EInt(i) => out.ExtendFromSlice(IntText(i));
    case EFloat(Some(token)) => out.ExtendFromSlice(token);
    case EFloat(None) => out.ExtendFromSlice(NULL);
    case EDt64(v) =>
      match Dt64ToParts(v, unit.value) {
        case NaT => out.ExtendFromSlice(NULL);
        case Fail(_) => ok := false;
        case Value(p) =>
          PartsFit(v, unit.value);
          Dt64TextIsString(v, unit.value, opts);
          IsoText.WriteDatetime(out, p, Dt64Offset(opts), opts);
      }
  }

  // ---- text lengths ------------------------------------------------------------------------

  lemma {:induction false} NatTextLength(n: nat, w: nat)
    requires w >= 1 && n < IsoText.Pow10(w)
    ensures |NatText(n)| <= w
  {
    if n >= 10 {
      assert w > 1;
      NatTextLength(n / 10, w - 1);
    }
  }

  lemma IntTextLength(i: int, t: ElementType)
    requires IsInt(t) && IntMin(t) <= i <= IntMax(t)
    ensures |IntText(i)| <= MaxText(t) <= 20
  {
    hide NatText;
    Powers();
    var n := if i < 0 then -i else i;
    if t == I8 || t == U8 { NatTextLength(n, 3); }
    else if t == I16 || t == U16 { NatTextLength(n, 5); }
    else if t == I32 || t == U32 { NatTextLength(n, 10); }
    else if t == I64 { NatTextLength(n, 19); }
    else { NatTextLength(n, 20); }
  }

  lemma Powers()
    ensures IsoText.Pow10(3) == 1000 && IsoText.Pow10(5) == 100_000 && IsoText.Pow10(10) == 10_000_000_000
    ensures IsoText.Pow10(19) == 10_000_000_000_000_000_000
    ensures IsoText.Pow10(20) == 100_000_000_000_000_000_000
  {
    assert IsoText.Pow10(1) == 10 && IsoText.Pow10(2) == 100;
    assert IsoText.Pow10(4) == 10_000;
    assert IsoText.Pow10(6) == 1_000_000;
    assert IsoText.Pow10(8) == 100_000_000;
    assert IsoText.Pow10(12) == 1_000_000_000_000;
    assert IsoText.Pow10(14) == 100_000_000_000_000;
    assert IsoText.Pow10(16) == 10_000_000_000_000_000;
    assert IsoText.Pow10(18) == 1_000_000_000_000_000_000;
  }

  /** No element's text is longer than its type's bound, so a chunk's reservation covers its elements. */
  lemma MaxTextBounds(e: Elem, t: ElementType, unit: Option<Dt64Unit>, opts: Opts, ind: bool, level: nat)
    requires OfType(e, t) && (t == Dt64 ==> unit.Some? && UnitOk(unit.value))
    requires ElemTree(e, unit, opts).Some?
    ensures |Write(ElemTree(e, unit, opts).value, ind, level)| <= MaxText(t)
  {
    hide Dt64ToParts, Dt64Text, Strings.Quoted, IntText;
    if IsInt(t) {
      IntTextLength(e.i, t);
    } else if t == Dt64 && Dt64ToParts(e.v, unit.value).Value? {
      Dt64TextIsString(e.v, unit.value, opts);
    }
  }
}
