/**
 * Date and time text (src/datetime.rs, and `write_datetime` of src/encode.rs): fixed-width
 * fields written into small arrays, and a reader that gets the values back.
 */
module IsoText {
  import opened Common
  import opened Datetime
  import opened Out

  const ZERO: byte := 0x30

  // ---- fields of fixed width ---------------------------------------------------------

  function Pow10(w: nat): (p: nat)
    ensures p >= 1
  {
    if w == 0 then 1 else 10 * Pow10(w - 1)
  }

  function DigitOf(v: int): byte {
    0x30 + v % 10
  }

  /** The last `w` decimal digits of `v`. */
  function Digits(v: nat, w: nat): (r: seq<byte>)
    ensures |r| == w
  {
    if w == 0 then [] else Digits(v / 10, w - 1) + [DigitOf(v)]
  }

  /** The number written in the `w` bytes of `s` from `i`. */
  function ReadDigits(s: seq<byte>, i: nat, w: nat): (r: Option<nat>)
    ensures r.Some? ==> i + w <= |s|
  {
    if i + w > |s| then None
    else if w == 0 then Some(0)
    else match ReadDigits(s, i, w - 1)
      case None => None
      case Some(v) => if IsDigit(s[i + w - 1]) then Some(v * 10 + DigitValue(s[i + w - 1])) else None
  }

  lemma {:induction false} ReadDigitsInverts(v: nat, w: nat, s: seq<byte>, i: nat)
    requires v < Pow10(w) && At(s, i, Digits(v, w))
    ensures ReadDigits(s, i, w) == Some(v)
  {
    if w > 0 {
      AtConcat(s, i, Digits(v / 10, w - 1), [DigitOf(v)]);
      ReadDigitsInverts(v / 10, w - 1, s, i);
      AtIndex(s, i + w - 1, [DigitOf(v)], 0);
    }
  }

  method Two(buf: array<byte>, at: nat, v: nat)
    requires at + 2 <= buf.Length
    modifies buf
    ensures buf[..at + 2] == old(buf[..at]) + Digits(v, 2) && buf[at + 2..] == old(buf[at + 2..])
  {
    buf[at] := 0x30 + v / 10 % 10;
    buf[at + 1] := 0x30 + v % 10;
    TwoDigits(v);
  }

  lemma TwoDigits(v: nat)
    ensures Digits(v, 2) == [0x30 + v / 10 % 10, 0x30 + v % 10]
  {
    assert Digits(v, 2) == Digits(v / 10, 1) + [DigitOf(v)];
    assert Digits(v / 10, 1) == Digits(v / 10 / 10, 0) + [DigitOf(v / 10)];
  }

  method Six(buf: array<byte>, at: nat, v: nat)
    requires at + 6 <= buf.Length
    modifies buf
    ensures buf[..at + 6] == old(buf[..at]) + Digits(v, 6) && buf[at + 6..] == old(buf[at + 6..])
  {
    var rest := v;
    assert buf[at + 6..at + 6] == [];
    for i := 6 downto 0
      invariant Digits(v, 6) == Digits(rest, i) + buf[at + i..at + 6]
      invariant buf[..at] == old(buf[..at]) && buf[at + 6..] == old(buf[at + 6..])
    {
      ghost var tail := buf[at + i + 1..at + 6];
      buf[at + i] := DigitOf(rest);
      assert buf[at + i..at + 6] == [DigitOf(rest)] + tail;
      rest := rest / 10;
    }
    assert Digits(rest, 0) == [];
    assert buf[..at + 6] == buf[..at] + buf[at..at + 6];
  }

  // ---- the three pieces --------------------------------------------------------------

  const DASH: byte := 0x2D
  const COLON: byte := 0x3A
  const DOT: byte := 0x2E
  const PLUS: byte := 0x2B
  const TEE: byte := 0x54
  const ZED: byte := 0x5A

  function YmdText(y: nat, mo: nat, d: nat): (r: seq<byte>)
    ensures |r| == 10
  {
    Digits(y, 4) + [DASH] + Digits(mo, 2) + [DASH] + Digits(d, 2)
  }

  function HmsText(h: nat, mi: nat, s: nat, us: nat, omit: bool): seq<byte> {
    Digits(h, 2) + [COLON] + Digits(mi, 2) + [COLON] + Digits(s, 2)
    + if us == 0 || omit then [] else [DOT] + Digits(us, 6)
  }

  /** The seconds and microseconds of an offset, left out when they are 0. */
  function OffsetSecondsText(ss: nat, us: nat): seq<byte> {
    if ss == 0 && us == 0 then [] else
    [COLON] + Digits(ss, 2) + if us == 0 then [] else [DOT] + Digits(us, 6)
  }

  function OffsetText(totalUs: int, utcZ: bool): seq<byte> {
    if totalUs == 0 then
      if utcZ then [ZED] else [PLUS] + Digits(0, 2) + [COLON] + Digits(0, 2)
    else
      var m := if totalUs < 0 then -totalUs else totalUs;
      var r := m % 3_600_000_000;
      [if totalUs < 0 then DASH else PLUS] + Digits(m / 3_600_000_000, 2) + [COLON] + Digits(r / 60_000_000, 2)
      + OffsetSecondsText(r % 60_000_000 / 1_000_000, r % 60_000_000 % 1_000_000)
  }

  /** A time has a fraction exactly where there are microseconds to write. */
  lemma HmsForm(h: nat, mi: nat, s: nat, us: nat, omit: bool)
    ensures |HmsText(h, mi, s, us, omit)| == if us == 0 || omit then 8 else 15
  {
    hide Digits;
  }

  /** Zero is `Z` or `+00:00`; any other offset has seconds and a fraction only where there are any. */
  lemma OffsetForm(totalUs: int, utcZ: bool)
    ensures OffsetText(0, true) == [0x5A] && OffsetText(0, false) == [0x2B, 0x30, 0x30, 0x3A, 0x30, 0x30]
    ensures totalUs != 0 ==>
              var m := if totalUs < 0 then -totalUs else totalUs;
              |OffsetText(totalUs, utcZ)| == if m % 60_000_000 == 0 then 6 else if m % 1_000_000 == 0 then 9 else 16
  {
    TwoDigits(0);
    if totalUs != 0 {
      OffsetLength(totalUs, utcZ);
    }
  }

  lemma OffsetLength(totalUs: int, utcZ: bool)
    requires totalUs != 0
    ensures var m := if totalUs < 0 then -totalUs else totalUs;
            |OffsetText(totalUs, utcZ)| == if m % 60_000_000 == 0 then 6 else if m % 1_000_000 == 0 then 9 else 16
  {
    hide Digits;
    var m := if totalUs < 0 then -totalUs else totalUs;
    Remainders(m);
    var ss, us := m % 3_600_000_000 % 60_000_000 / 1_000_000, m % 3_600_000_000 % 60_000_000 % 1_000_000;
    assert |OffsetSecondsText(ss, us)| == if ss == 0 && us == 0 then 0 else if us == 0 then 3 else 10;
  }

  lemma Remainders(m: nat)
    ensures m % 3_600_000_000 % 60_000_000 == m % 60_000_000
    ensures m % 60_000_000 % 1_000_000 == m % 1_000_000
  {
    var q, r := m / 3_600_000_000, m % 3_600_000_000;
    ByMinutes(m, 60 * q + r / 60_000_000, r % 60_000_000);
    var s := m % 60_000_000;
    BySeconds(m, 60 * (m / 60_000_000) + s / 1_000_000, s % 1_000_000);
    BySeconds(s, s / 1_000_000, s % 1_000_000);
  }

  lemma ByMinutes(m: nat, k: nat, r: nat)
    requires m == 60_000_000 * k + r && r < 60_000_000
    ensures m % 60_000_000 == r
  {}

  lemma BySeconds(m: nat, k: nat, r: nat)
    requires m == 1_000_000 * k + r && r < 1_000_000
    ensures m % 1_000_000 == r
  {}

  lemma DigitsStep(v: nat, w: nat)
    requires w > 0
    ensures Digits(v, w) == Digits(v / 10, w - 1) + [DigitOf(v)]
  {}

  lemma FourDigits(y: nat)
    requires y <= 9999
    ensures Digits(y, 4) == Digits(y / 100, 2) + Digits(y % 100, 2)
  {
    hide Digits, DigitOf;
    DigitsStep(y, 4);
    DigitsStep(y / 10, 3);
    DigitsStep(y % 100, 2);
    DigitsStep(y % 100 / 10, 1);
    NoDigits(y % 100 / 10 / 10);
    Tens(y);
    SameDigits(y);
    Regroup2(Digits(y / 100, 2), DigitOf(y / 10), DigitOf(y));
  }

  lemma NoDigits(v: nat)
    ensures Digits(v, 0) == []
  {}

  lemma SameDigits(y: nat)
    ensures DigitOf(y % 100) == DigitOf(y) && DigitOf(y % 100 / 10) == DigitOf(y / 10)
  {
    Tens(y);
  }

  lemma Regroup2(s: seq<byte>, a: byte, b: byte)
    ensures (s + [a]) + [b] == s + (([] + [a]) + [b])
  {}

  lemma Tens(y: nat)
    ensures y / 10 / 10 == y / 100 && y % 100 / 10 % 10 == y / 10 % 10 && y % 100 % 10 == y % 10
  {}

  method PutByte(buf: array<byte>, at: nat, b: byte)
    requires at < buf.Length
    modifies buf
    ensures buf[..at + 1] == old(buf[..at]) + [b]
  {
    buf[at] := b;
  }

  /** `YYYY-MM-DD`, with the year padded to four digits. */
  method FmtYmd(buf: array<byte>, y: nat, mo: nat, d: nat) returns (n: nat)
    requires buf.Length == 10 && y <= 9999
    modifies buf
    ensures n == 10 && buf[..n] == YmdText(y, mo, d)
  {
    hide Digits;
    FourDigits(y);
    Two(buf, 0, y / 100);
    Two(buf, 2, y % 100);
    PutByte(buf, 4, DASH);
    Two(buf, 5, mo);
    PutByte(buf, 7, DASH);
    Two(buf, 8, d);
    n := 10;
  }

  /** `HH:MM:SS[.ffffff]`, with the fraction only when it is not 0 and not left out. */
  method FmtHms(buf: array<byte>, h: nat, mi: nat, s: nat, us: nat, omit: bool) returns (n: nat)
    requires buf.Length == 15
    modifies buf
    ensures n <= 15 && buf[..n] == HmsText(h, mi, s, us, omit)
  {
    hide Digits;
    Two(buf, 0, h);
    PutByte(buf, 2, COLON);
    Two(buf, 3, mi);
    PutByte(buf, 5, COLON);
    Two(buf, 6, s);
    if us == 0 || omit {
      return 8;
    }
    ghost var head := buf[..8];
    PutByte(buf, 8, DOT);
    Six(buf, 9, us);
    assert buf[..15] == head + ([DOT] + Digits(us, 6));
    n := 15;
  }

  /** `+HH:MM[:SS[.ffffff]]` with the sign of the offset; `+00:00`, or `Z` where asked for, when it is 0. */
  method FmtOffset(buf: array<byte>, totalUs: int, utcZ: bool) returns (n: nat)
    requires buf.Length == 16
    modifies buf
    ensures n <= 16 && buf[..n] == OffsetText(totalUs, utcZ)
  {
    hide Digits, OffsetSecondsText;
    if totalUs == 0 {
      if utcZ {
        PutByte(buf, 0, ZED);
        return 1;
      }
      FmtOffsetMinutes(buf, PLUS, 0, 0);
      return 6;
    }
    var m := if totalUs < 0 then -totalUs else totalUs;
    var hh, r := m / 3_600_000_000, m % 3_600_000_000;
    var mm, r' := r / 60_000_000, r % 60_000_000;
    FmtOffsetMinutes(buf, if totalUs < 0 then DASH else PLUS, hh, mm);
    n := FmtOffsetSeconds(buf, r' / 1_000_000, r' % 1_000_000);
  }

  /** The sign, hours and minutes of an offset. */
  method FmtOffsetMinutes(buf: array<byte>, sign: byte, hh: nat, mm: nat)
    requires buf.Length == 16
    modifies buf
    ensures buf[..6] == [sign] + Digits(hh, 2) + [COLON] + Digits(mm, 2)
  {
    hide Digits;
    PutByte(buf, 0, sign);
    Two(buf, 1, hh);
    PutByte(buf, 3, COLON);
    Two(buf, 4, mm);
  }

  /** The end of a non-zero offset. */
  method FmtOffsetSeconds(buf: array<byte>, ss: nat, us: nat) returns (n: nat)
    requires buf.Length == 16
    modifies buf
    ensures n <= 16 && buf[..n] == old(buf[..6]) + OffsetSecondsText(ss, us)
  {
    hide Digits;
    if ss == 0 && us == 0 {
      return 6;
    }
    ghost var head := buf[..6];
    PutByte(buf, 6, COLON);
    Two(buf, 7, ss);
    if us == 0 {
      assert buf[..9] == head + ([COLON] + Digits(ss, 2));
      return 9;
    }
    PutByte(buf, 9, DOT);
    Six(buf, 10, us);
    assert buf[..16] == head + ([COLON] + Digits(ss, 2) + ([DOT] + Digits(us, 6)));
    n := 16;
  }

  /** The quoted text of calendar parts, with the offset if there is one. */
  function DatetimeText(p: Parts, offset: Option<int>, opts: Opts): seq<byte>
    requires FieldsFit(p)
  {
    [QUOTE] + YmdText(p.y, p.mo, p.d) + [TEE] + HmsText(p.h, p.mi, p.s, p.us, opts.omitMicroseconds)
    + (if offset.Some? then OffsetText(offset.value, opts.utcZ) else []) + [QUOTE]
  }

  /** Every field fits its width. */
  predicate FieldsFit(p: Parts) {
    && 0 <= p.y <= 9999 && 0 <= p.mo < 100 && 0 <= p.d < 100
    && 0 <= p.h < 100 && 0 <= p.mi < 100 && 0 <= p.s < 100 && 0 <= p.us < 1_000_000
  }

  method WriteYmd(out: OutputBuffer, y: nat, mo: nat, d: nat)
    requires out.Valid() && y <= 9999
    modifies out.Repr
    ensures out.Valid() && fresh(out.Repr - old(out.Repr))
    ensures out.Contents() == old(out.Contents()) + YmdText(y, mo, d)
    ensures out.Kept(old(out.mem), old(out.moves))
  {
    var b := new byte[10];
    var n := FmtYmd(b, y, mo, d);
    out.ExtendFromSlice(b[..n]);
  }

  method WriteHms(out: OutputBuffer, p: Parts, opts: Opts)
    requires out.Valid() && FieldsFit(p)
    modifies out.Repr
    ensures out.Valid() && fresh(out.Repr - old(out.Repr))
    ensures out.Contents() == old(out.Contents()) + HmsText(p.h, p.mi, p.s, p.us, opts.omitMicroseconds)
    ensures out.Kept(old(out.mem), old(out.moves))
  {
    hide HmsText;
    var b := new byte[15];
    var n := FmtHms(b, p.h, p.mi, p.s, p.us, opts.omitMicroseconds);
    out.ExtendFromSlice(b[..n]);
  }

  method WriteOffset(out: OutputBuffer, totalUs: int, opts: Opts)
    requires out.Valid()
    modifies out.Repr
    ensures out.Valid() && fresh(out.Repr - old(out.Repr))
    ensures out.Contents() == old(out.Contents()) + OffsetText(totalUs, opts.utcZ)
    ensures out.Kept(old(out.mem), old(out.moves))
  {
    var b := new byte[16];
    var n := FmtOffset(b, totalUs, opts.utcZ);
    out.ExtendFromSlice(b[..n]);
  }

  /** Appends the quoted text, piece by piece. */
  method WriteDatetime(out: OutputBuffer, p: Parts, offset: Option<int>, opts: Opts)
    requires out.Valid() && FieldsFit(p)
    modifies out.Repr
    ensures out.Valid() && fresh(out.Repr - old(out.Repr))
    ensures out.Contents() == old(out.Contents()) + DatetimeText(p, offset, opts)
    ensures out.Kept(old(out.mem), old(out.moves))
  {
    hide YmdText, HmsText, OffsetText;
    ghost var start := out.Contents();
    out.Push(QUOTE);
    WriteYmd(out, p.y, p.mo, p.d);
    out.Push(TEE);
    WriteHms(out, p, opts);
    MaybeOffset(out, offset, opts);
    out.Push(QUOTE);
    Pieces(start, YmdText(p.y, p.mo, p.d), HmsText(p.h, p.mi, p.s, p.us, opts.omitMicroseconds), OffsetPart(offset, opts));
  }

  function OffsetPart(offset: Option<int>, opts: Opts): seq<byte> {
    if offset.Some? then OffsetText(offset.value, opts.utcZ) else []
  }

  method MaybeOffset(out: OutputBuffer, offset: Option<int>, opts: Opts)
    requires out.Valid()
    modifies out.Repr
    ensures out.Valid() && fresh(out.Repr - old(out.Repr))
    ensures out.Contents() == old(out.Contents()) + OffsetPart(offset, opts)
    ensures out.Kept(old(out.mem), old(out.moves))
  {
    hide OffsetText;
    if offset.Some? {
      WriteOffset(out, offset.value, opts);
    } else {
      assert out.Contents() + [] == out.Contents();
    }
  }

  lemma Pieces(start: seq<byte>, ymd: seq<byte>, hms: seq<byte>, offset: seq<byte>)
    ensures start + [QUOTE] + ymd + [TEE] + hms + offset + [QUOTE]
         == start + ([QUOTE] + ymd + [TEE] + hms + offset + [QUOTE])
  {}

  // ---- reading the text back -----------------------------------------------------------

  /** The date at `i`. */
  function ReadYmd(s: seq<byte>, i: nat): Option<(nat, nat, nat)> {
    match (ReadDigits(s, i, 4), ReadDigits(s, i + 5, 2), ReadDigits(s, i + 8, 2))
    case (Some(y), Some(mo), Some(d)) =>
      if ByteAt(s, i + 4, 0x2D) && ByteAt(s, i + 7, 0x2D) then Some((y, mo, d)) else None
    case _ => None
  }

  /** The fraction at `i`, 0 if there is none, and the index after it. */
  function ReadFraction(s: seq<byte>, i: nat): Option<(nat, nat)> {
    if ByteAt(s, i, 0x2E) then
      match ReadDigits(s, i + 1, 6)
      case Some(us) => Some((us, i + 7))
      case None => None
    else Some((0, i))
  }

  datatype Clock = Clock(h: nat, mi: nat, s: nat, us: nat)

  /** The time of day at `i` and the index after it. */
  function ReadHms(s: seq<byte>, i: nat): Option<(Clock, nat)> {
    match (ReadDigits(s, i, 2), ReadDigits(s, i + 3, 2), ReadDigits(s, i + 6, 2), ReadFraction(s, i + 8))
    case (Some(h), Some(mi), Some(sec), Some((us, j))) =>
      if ByteAt(s, i + 2, 0x3A) && ByteAt(s, i + 5, 0x3A) then Some((Clock(h, mi, sec, us), j)) else None
    case _ => None
  }

  /** The offset at `i` in microseconds, nothing if there is none, and the index after it. */
  function ReadOffset(s: seq<byte>, i: nat): Option<(Option<int>, nat)> {
    if ByteAt(s, i, 0x5A) then Some((Some(0), i + 1))
    else if ByteAt(s, i, 0x2B) || ByteAt(s, i, 0x2D) then
      match (ReadDigits(s, i + 1, 2), ReadDigits(s, i + 4, 2))
      case (Some(hh), Some(mm)) =>
        if !ByteAt(s, i + 3, 0x3A) then None
        else
          var sign: int := if s[i] == 0x2D then -1 else 1;
          var minutes := (hh * 60 + mm) * 60_000_000;
          if ByteAt(s, i + 6, 0x3A) then
            match (ReadDigits(s, i + 7, 2), ReadFraction(s, i + 9))
            case (Some(ss), Some((us, j))) => Some((Some(sign * (minutes + ss * 1_000_000 + us)), j))
            case _ => None
          else Some((Some(sign * minutes), i + 6))
      case _ => None
    else Some((None, i))
  }

  /** Reads a whole quoted datetime. */
  function ReadDatetime(s: seq<byte>): Option<(Parts, Option<int>)> {
    if !ByteAt(s, 0, 0x22) || !ByteAt(s, 11, 0x54) then None
    else match (ReadYmd(s, 1), ReadHms(s, 12))
      case (Some((y, mo, d)), Some((c, j))) =>
        (match ReadOffset(s, j)
         case Some((offset, k)) =>
           if k + 1 == |s| && s[k] == 0x22 then Some((Parts(y, mo, d, c.h, c.mi, c.s, c.us), offset)) else None
         case None => None)
      case _ => None
  }

  lemma ReadTwo(v: nat, s: seq<byte>, i: nat)
    requires v < 100 && At(s, i, Digits(v, 2))
    ensures ReadDigits(s, i, 2) == Some(v)
  {
    assert Pow10(2) == 100 by { assert Pow10(1) == 10; }
    ReadDigitsInverts(v, 2, s, i);
  }

  lemma ReadSix(v: nat, s: seq<byte>, i: nat)
    requires v < 1_000_000 && At(s, i, Digits(v, 6))
    ensures ReadDigits(s, i, 6) == Some(v)
  {
    assert Pow10(6) == 1_000_000 by { assert Pow10(2) == 100; assert Pow10(4) == 10_000; }
    ReadDigitsInverts(v, 6, s, i);
  }

  lemma ReadYmdInverts(s: seq<byte>, i: nat, y: nat, mo: nat, d: nat)
    requires y <= 9999 && mo < 100 && d < 100 && At(s, i, YmdText(y, mo, d))
    ensures ReadYmd(s, i) == Some((y, mo, d))
  {
    hide Digits, ReadDigits, At;
    var a, b, c := Digits(y, 4), Digits(mo, 2), Digits(d, 2);
    AtConcat(s, i, a + [DASH] + b + [DASH], c);
    AtConcat(s, i, a + [DASH] + b, [DASH]);
    AtConcat(s, i, a + [DASH], b);
    AtConcat(s, i, a, [DASH]);
    AtIndex(s, i + 4, [DASH], 0);
    AtIndex(s, i + 7, [DASH], 0);
    assert Pow10(4) == 10_000 by { assert Pow10(2) == 100; }
    ReadDigitsInverts(y, 4, s, i);
    ReadTwo(mo, s, i + 5);
    ReadTwo(d, s, i + 8);
  }

  /** A fraction is read back where the text has one, and nothing is read where something else follows. */
  lemma ReadFractionInverts(s: seq<byte>, i: nat, us: nat)
    requires us < 1_000_000
    requires us != 0 ==> At(s, i, [DOT] + Digits(us, 6))
    requires us == 0 ==> !ByteAt(s, i, DOT)
    ensures ReadFraction(s, i) == Some((us, if us == 0 then i else i + 7))
  {
    hide Digits, ReadDigits, At;
    if us != 0 {
      AtConcat(s, i, [DOT], Digits(us, 6));
      AtIndex(s, i, [DOT], 0);
      ReadSix(us, s, i + 1);
    }
  }

  lemma ReadHmsInverts(s: seq<byte>, i: nat, h: nat, mi: nat, sec: nat, us: nat, omit: bool)
    requires h < 100 && mi < 100 && sec < 100 && us < 1_000_000
    requires At(s, i, HmsText(h, mi, sec, us, omit))
    requires !ByteAt(s, i + |HmsText(h, mi, sec, us, omit)|, DOT)
    ensures ReadHms(s, i) == Some((Clock(h, mi, sec, if omit then 0 else us), i + |HmsText(h, mi, sec, us, omit)|))
  {
    hide Digits, ReadDigits, ReadFraction, At;
    var a, b, c := Digits(h, 2), Digits(mi, 2), Digits(sec, 2);
    var head := a + [COLON] + b + [COLON] + c;
    var f := if us == 0 || omit then [] else [DOT] + Digits(us, 6);
    AtConcat(s, i, head, f);
    AtConcat(s, i, a + [COLON] + b + [COLON], c);
    AtConcat(s, i, a + [COLON] + b, [COLON]);
    AtConcat(s, i, a + [COLON], b);
    AtConcat(s, i, a, [COLON]);
    AtIndex(s, i + 2, [COLON], 0);
    AtIndex(s, i + 5, [COLON], 0);
    ReadTwo(h, s, i);
    ReadTwo(mi, s, i + 3);
    ReadTwo(sec, s, i + 6);
    ReadFractionInverts(s, i + 8, if omit then 0 else us);
  }

  /** An offset below 24 hours, with its sign, seconds and microseconds, is read back exactly. */
  lemma ReadOffsetInverts(s: seq<byte>, i: nat, totalUs: int, utcZ: bool)
    requires -US_PER_DAY < totalUs < US_PER_DAY && At(s, i, OffsetText(totalUs, utcZ))
    requires !ByteAt(s, i + |OffsetText(totalUs, utcZ)|, DOT) && !ByteAt(s, i + |OffsetText(totalUs, utcZ)|, COLON)
    ensures ReadOffset(s, i) == Some((Some(totalUs), i + |OffsetText(totalUs, utcZ)|))
  {
    hide Digits, ReadDigits, ReadFraction, At, OffsetSecondsText;
    if totalUs == 0 && utcZ {
      AtIndex(s, i, [ZED], 0);
      return;
    }
    var m := if totalUs < 0 then -totalUs else totalUs;
    var hh, r := m / 3_600_000_000, m % 3_600_000_000;
    var mm, r' := r / 60_000_000, r % 60_000_000;
    var ss, us := r' / 1_000_000, r' % 1_000_000;
    var sign := if totalUs < 0 then DASH else PLUS;
    var tail := OffsetSecondsText(ss, us);
    NoSeconds();
    OffsetFields(m);
    assert OffsetText(totalUs, utcZ) == [sign] + Digits(hh, 2) + [COLON] + Digits(mm, 2) + tail;
    OffsetHead(s, i, sign, hh, mm, tail);
    OffsetTail(s, i + 6, ss, us);
  }

  lemma OffsetFields(m: nat)
    requires m < US_PER_DAY
    ensures var r := m % 3_600_000_000;
            && m / 3_600_000_000 < 24 && r / 60_000_000 < 60 && r % 60_000_000 / 1_000_000 < 60
            && m == (m / 3_600_000_000 * 60 + r / 60_000_000) * 60_000_000
                    + r % 60_000_000 / 1_000_000 * 1_000_000 + r % 60_000_000 % 1_000_000
  {}

  lemma NoSeconds()
    ensures OffsetSecondsText(0, 0) == []
  {}

  lemma NoOffset(s: seq<byte>, j: nat)
    requires ByteAt(s, j, QUOTE)
    ensures ReadOffset(s, j) == Some((None, j))
  {}

  lemma OffsetHead(s: seq<byte>, i: nat, sign: byte, hh: nat, mm: nat, tail: seq<byte>)
    requires hh < 100 && mm < 100 && At(s, i, [sign] + Digits(hh, 2) + [COLON] + Digits(mm, 2) + tail)
    ensures ByteAt(s, i, sign) && ByteAt(s, i + 3, COLON) && At(s, i + 6, tail)
    ensures ReadDigits(s, i + 1, 2) == Some(hh) && ReadDigits(s, i + 4, 2) == Some(mm)
  {
    hide Digits, ReadDigits, At;
    var a, b := Digits(hh, 2), Digits(mm, 2);
    AtConcat(s, i, [sign] + a + [COLON] + b, tail);
    AtConcat(s, i, [sign] + a + [COLON], b);
    AtConcat(s, i, [sign] + a, [COLON]);
    AtConcat(s, i, [sign], a);
    AtIndex(s, i, [sign], 0);
    AtIndex(s, i + 3, [COLON], 0);
    ReadTwo(hh, s, i + 1);
    ReadTwo(mm, s, i + 4);
  }

  lemma OffsetTail(s: seq<byte>, i: nat, ss: nat, us: nat)
    requires ss < 100 && us < 1_000_000 && At(s, i, OffsetSecondsText(ss, us))
    requires !ByteAt(s, i + |OffsetSecondsText(ss, us)|, DOT) && !ByteAt(s, i + |OffsetSecondsText(ss, us)|, COLON)
    ensures ByteAt(s, i, COLON) <==> !(ss == 0 && us == 0)
    ensures ByteAt(s, i, COLON) ==>
              && ReadDigits(s, i + 1, 2) == Some(ss)
              && ReadFraction(s, i + 3) == Some((us, i + |OffsetSecondsText(ss, us)|))
  {
    hide Digits, ReadDigits, At;
    if ss != 0 || us != 0 {
      var f := if us == 0 then [] else [DOT] + Digits(us, 6);
      AtConcat(s, i, [COLON] + Digits(ss, 2), f);
      AtConcat(s, i, [COLON], Digits(ss, 2));
      AtIndex(s, i, [COLON], 0);
      ReadTwo(ss, s, i + 1);
      ReadFractionInverts(s, i + 3, us);
    }
  }

  /**
   * The text of a datetime says exactly what it was made from: the calendar parts
   * (without the microseconds if they are left out) and the offset.
   */
  lemma ReadDatetimeInverts(p: Parts, offset: Option<int>, opts: Opts)
    requires FieldsFit(p)
    requires offset.Some? ==> -US_PER_DAY < offset.value < US_PER_DAY
    ensures ReadDatetime(DatetimeText(p, offset, opts))
         == Some((if opts.omitMicroseconds then p.(us := 0) else p, offset))
  {
    hide YmdText, HmsText, OffsetText, ReadYmd, ReadHms, ReadOffset, At;
    var s := DatetimeText(p, offset, opts);
    var ymd := YmdText(p.y, p.mo, p.d);
    var hms := HmsText(p.h, p.mi, p.s, p.us, opts.omitMicroseconds);
    var o := if offset.Some? then OffsetText(offset.value, opts.utcZ) else [];
    Places(ymd, hms, o);
    ReadYmdInverts(s, 1, p.y, p.mo, p.d);
    var j := 12 + |hms|;
    OffsetStart(s, j, offset, opts);
    ReadHmsInverts(s, 12, p.h, p.mi, p.s, p.us, opts.omitMicroseconds);
    if offset.Some? {
      ReadOffsetInverts(s, j, offset.value, opts.utcZ);
    } else {
      NoOffset(s, j);
    }
  }

  /** Where the pieces of a datetime's text lie. */
  lemma Places(ymd: seq<byte>, hms: seq<byte>, o: seq<byte>)
    requires |ymd| == 10
    ensures var s := [QUOTE] + ymd + [TEE] + hms + o + [QUOTE];
            && |s| == 13 + |hms| + |o| && ByteAt(s, 0, QUOTE) && ByteAt(s, 11, TEE) && ByteAt(s, 12 + |hms| + |o|, QUOTE)
            && At(s, 1, ymd) && At(s, 12, hms) && At(s, 12 + |hms|, o)
  {
    var s := [QUOTE] + ymd + [TEE] + hms + o + [QUOTE];
    PlaceOf([QUOTE], ymd, [TEE] + hms + o + [QUOTE], s);
    PlaceOf([QUOTE] + ymd + [TEE], hms, o + [QUOTE], s);
    PlaceOf([QUOTE] + ymd + [TEE] + hms, o, [QUOTE], s);
  }

  lemma PlaceOf(a: seq<byte>, t: seq<byte>, b: seq<byte>, s: seq<byte>)
    requires s == a + t + b
    ensures At(s, |a|, t)
  {}

  /** What follows the time of day is not a fraction. */
  lemma OffsetStart(s: seq<byte>, j: nat, offset: Option<int>, opts: Opts)
    requires At(s, j, if offset.Some? then OffsetText(offset.value, opts.utcZ) else [])
    requires offset.None? ==> ByteAt(s, j, QUOTE)
    ensures !ByteAt(s, j, DOT)
  {
    hide Digits, At, OffsetSecondsText;
    if offset.Some? {
      AtIndex(s, j, OffsetText(offset.value, opts.utcZ), 0);
    }
  }
}
