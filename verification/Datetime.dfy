/** `datetime64` arithmetic (src/datetime.rs): checked 128-bit steps against an exact unbounded meaning. */
module Datetime {
  import opened Common
  import opened Calendar

  const I64_MIN: int := -0x8000_0000_0000_0000
  const I64_MAX: int := 0x7FFF_FFFF_FFFF_FFFF
  const I128_MIN: int := -0x8000_0000_0000_0000_0000_0000_0000_0000
  const I128_MAX: int := 0x7FFF_FFFF_FFFF_FFFF_FFFF_FFFF_FFFF_FFFF

  const MIN_DAYS: int := -719_528
  const MAX_DAYS: int := 2_932_896
  const US_PER_DAY: int := 86_400_000_000

  datatype TimeUnit =
    | Year | Month | Week | Day | Hour | Minute | Second
    | Milli | Micro | Nano | Pico | Femto | Atto | Generic

  datatype Dt64Unit = Dt64Unit(base: TimeUnit, mult: int)

  datatype Parts = Parts(y: int, mo: int, d: int, h: int, mi: int, s: int, us: int)

  datatype Dt64Error = Unrepresentable | GenericUnit

  datatype Dt64Result = NaT | Value(parts: Parts) | Fail(error: Dt64Error)

  function CheckedMul(a: int, b: int): Option<int> {
    if I128_MIN <= a * b <= I128_MAX then Some(a * b) else None
  }

  function DateOnly(y: int, mo: int): Dt64Result {
    if 0 <= y <= 9999 then Value(Parts(y, mo, 1, 0, 0, 0, 0)) else Fail(Unrepresentable)
  }

  /** The calendar parts of a count of microseconds since 1970. */
  function PartsOfMicros(us: int): Dt64Result {
    var days := us / US_PER_DAY;
    if !(MIN_DAYS <= days <= MAX_DAYS) then Fail(Unrepresentable)
    else
      var date := CivilFromDays(days);
      var rem := us % US_PER_DAY;
      Value(Parts(date.y, date.mo, date.d,
                  rem / 3_600_000_000, rem / 60_000_000 % 60, rem / 1_000_000 % 60, rem % 1_000_000))
  }

  function Times(n: int, k: int): Dt64Result {
    match CheckedMul(n, k)
    case None => Fail(Unrepresentable)
    case Some(us) => PartsOfMicros(us)
  }

  function Dt64ToParts(v: int, u: Dt64Unit): Dt64Result {
    if v == I64_MIN then NaT
    else match CheckedMul(v, u.mult)
      case None => Fail(Unrepresentable)
      case Some(n) =>
        match u.base
        case Generic => Fail(GenericUnit)
        case Year => DateOnly(1970 + n, 1)
        case Month => DateOnly(1970 + n / 12, n % 12 + 1)
        case Week => Times(n, 7 * US_PER_DAY)
        case Day => Times(n, US_PER_DAY)
        case Hour => Times(n, 3_600_000_000)
        case Minute => Times(n, 60_000_000)
        case Second => Times(n, 1_000_000)
        case Milli => Times(n, 1_000)
        case Micro => PartsOfMicros(n)
        case Nano => PartsOfMicros(n / 1_000)
        case Pico => PartsOfMicros(n / 1_000_000)
        case Femto => PartsOfMicros(n / 1_000_000_000)
        case Atto => PartsOfMicros(n / 1_000_000_000_000)
  }

  // ---- the exact meaning ---------------------------------------------------------

  /** The length of a unit in attoseconds; a year and a month have none. */
  function AttosPer(base: TimeUnit): int {
    match base
    case Week => 7 * 86_400 * 1_000_000_000_000_000_000
    case Day => 86_400 * 1_000_000_000_000_000_000
    case Hour => 3_600 * 1_000_000_000_000_000_000
    case Minute => 60 * 1_000_000_000_000_000_000
    case Second => 1_000_000_000_000_000_000
    case Milli => 1_000_000_000_000_000
    case Micro => 1_000_000_000_000
    case Nano => 1_000_000_000
    case Pico => 1_000_000
    case Femto => 1_000
    case Atto => 1
    case _ => 0
  }

  const ATTOS_PER_MICRO: int := 1_000_000_000_000

  /** `n` units after 1970, to the microsecond below, in unbounded arithmetic. */
  function Instant(n: int, base: TimeUnit): int {
    match base
    case Year => DayNumber(Date(1970 + n, 1, 1)) * US_PER_DAY
    case Month => DayNumber(Date(1970 + n / 12, n % 12 + 1, 1)) * US_PER_DAY
    case _ => n * AttosPer(base) / ATTOS_PER_MICRO
  }

  /** The instants of the years 0000 to 9999. */
  predicate InFourDigitYears(us: int) {
    DayNumber(Date(0, 1, 1)) * US_PER_DAY <= us < DayNumber(Date(10000, 1, 1)) * US_PER_DAY
  }

  predicate ValidParts(p: Parts) {
    && Calendar.Valid(Date(p.y, p.mo, p.d))
    && 0 <= p.h < 24 && 0 <= p.mi < 60 && 0 <= p.s < 60 && 0 <= p.us < 1_000_000
  }

  /** The instant that calendar parts denote, in microseconds since 1970. */
  function MicrosOf(p: Parts): int {
    DayNumber(Date(p.y, p.mo, p.d)) * US_PER_DAY
    + p.h * 3_600_000_000 + p.mi * 60_000_000 + p.s * 1_000_000 + p.us
  }

  lemma YearBounds()
    ensures DayNumber(Date(0, 1, 1)) == MIN_DAYS
    ensures DayNumber(Date(10000, 1, 1)) == MAX_DAYS + 1
    ensures DayNumber(Date(9999, 12, 31)) == MAX_DAYS
  {
    hide YearStart, MonthStart;
    YearStartClosed(0);
    YearStartClosed(10000);
    MonthStartTable(0);
    MonthStartTable(10000);
    NextDateCounts(Date(9999, 12, 31));
  }

  lemma TimeOfDay(rem: int)
    requires 0 <= rem < US_PER_DAY
    ensures 0 <= rem / 3_600_000_000 < 24
    ensures rem == rem / 3_600_000_000 * 3_600_000_000 + rem / 60_000_000 % 60 * 60_000_000
                   + rem / 1_000_000 % 60 * 1_000_000 + rem % 1_000_000
  {
    var s := rem / 1_000_000;
    assert rem / 60_000_000 == s / 60 && rem / 3_600_000_000 == s / 60 / 60;
  }

  /** A count of microseconds is turned into the parts that denote it, or refused exactly outside the range. */
  lemma PartsOfMicrosExact(us: int)
    ensures PartsOfMicros(us) == Fail(Unrepresentable) <==> !InFourDigitYears(us)
    ensures InFourDigitYears(us) ==>
              && PartsOfMicros(us).Value?
              && ValidParts(PartsOfMicros(us).parts) && MicrosOf(PartsOfMicros(us).parts) == us
  {
    hide CivilFromDays, DayNumber, Calendar.Valid;
    YearBounds();
    CivilFromDaysCounts(us / US_PER_DAY);
    TimeOfDay(us % US_PER_DAY);
  }

  lemma NewYear(y: int)
    ensures DayNumber(Date(y, 1, 1)) == YearStart(y)
  {}

  /** The first days of the months of year `y` are in range exactly when the year has four digits. */
  lemma DateOnlyExact(y: int, mo: int)
    requires 1 <= mo <= 12
    ensures DateOnly(y, mo) == Fail(Unrepresentable) <==> !InFourDigitYears(DayNumber(Date(y, mo, 1)) * US_PER_DAY)
    ensures DateOnly(y, mo) != Fail(Unrepresentable) ==>
              && DateOnly(y, mo).Value? && ValidParts(DateOnly(y, mo).parts)
              && MicrosOf(DateOnly(y, mo).parts) == DayNumber(Date(y, mo, 1)) * US_PER_DAY
  {
    hide DayNumber, YearStart;
    InsideYear(Date(y, mo, 1));
    InsideYear(Date(0, 1, 1));
    InsideYear(Date(10000, 1, 1));
    NewYear(0);
    NewYear(10000);
    if y < 0 { YearStartMonotone(y, 0); }
    if 0 < y { YearStartMonotone(0, y); }
    if y < 10000 { YearStartMonotone(y, 10000); }
    if 10000 < y { YearStartMonotone(10000, y); }
  }

  lemma MulMonotone(a: int, b: int, c: int)
    requires a <= b && 0 <= c
    ensures a * c <= b * c
  {}

  /** Value and multiplier are 64-bit, so their product always fits 128 bits. */
  lemma ProductFits(v: int, mult: int)
    requires I64_MIN <= v <= I64_MAX && 0 < mult <= I64_MAX
    ensures CheckedMul(v, mult) == Some(v * mult)
  {
    MulMonotone(I64_MIN, v, mult);
    MulMonotone(v, I64_MAX, mult);
    assert 0x8000_0000_0000_0000 * mult <= 0x8000_0000_0000_0000 * I64_MAX;
  }

  /** A product too big for 128 bits is far outside the range, so the overflow check refuses nothing representable. */
  lemma TimesExact(n: int, k: int)
    requires 1_000 <= k <= 7 * US_PER_DAY
    ensures Times(n, k) == PartsOfMicros(n * k)
  {
    hide CivilFromDays, DayNumber, Calendar.Valid;
    YearBounds();
    if CheckedMul(n, k).None? {
      assert !InFourDigitYears(n * k);
      PartsOfMicrosExact(n * k);
    }
  }

  /**
   * For every value, unit and positive multiplier, the parts denote the exact instant
   * `v * mult` units after 1970 (to the microsecond below), and the value is refused
   * exactly when that instant is outside the years 0000 to 9999. The least value is NaT, and
   * without a unit nothing else is written.
   */
  lemma Dt64ToPartsExact(v: int, u: Dt64Unit)
    requires I64_MIN <= v <= I64_MAX && 0 < u.mult <= I64_MAX
    ensures Dt64ToParts(v, u) == NaT <==> v == -0x8000_0000_0000_0000
    ensures v != -0x8000_0000_0000_0000 && u.base == Generic ==> Dt64ToParts(v, u) == Fail(GenericUnit)
    ensures v != -0x8000_0000_0000_0000 && u.base != Generic ==>
              var r, us := Dt64ToParts(v, u), Instant(v * u.mult, u.base);
              && (r == Fail(Unrepresentable) <==> !InFourDigitYears(us))
              && (InFourDigitYears(us) ==> r.Value? && ValidParts(r.parts) && MicrosOf(r.parts) == us)
  {
    if v != I64_MIN {
      InstantExact(v, u);
    }
  }

  lemma InstantExact(v: int, u: Dt64Unit)
    requires I64_MIN < v <= I64_MAX && 0 < u.mult <= I64_MAX
    ensures u.base == Generic ==> Dt64ToParts(v, u) == Fail(GenericUnit)
    ensures u.base != Generic ==>
              var r, us := Dt64ToParts(v, u), Instant(v * u.mult, u.base);
              && r != NaT
              && (r == Fail(Unrepresentable) <==> !InFourDigitYears(us))
              && (InFourDigitYears(us) ==> r.Value? && ValidParts(r.parts) && MicrosOf(r.parts) == us)
  {
    hide PartsOfMicros, InFourDigitYears, MicrosOf, ValidParts, DayNumber, Times, DateOnly;
    ProductFits(v, u.mult);
    ScaledInstant(v * u.mult, u.base);
    PartsOfMicrosExact(Instant(v * u.mult, u.base));
    var n := v * u.mult;
    match u.base
    case Year => DateOnlyExact(1970 + n, 1);
    case Month => DateOnlyExact(1970 + n / 12, n % 12 + 1);
    case Week => TimesExact(n, 7 * US_PER_DAY);
    case Day => TimesExact(n, US_PER_DAY);
    case Hour => TimesExact(n, 3_600_000_000);
    case Minute => TimesExact(n, 60_000_000);
    case Second => TimesExact(n, 1_000_000);
    case Milli => TimesExact(n, 1_000);
    case _ =>
  }

  /** The unit table, scaled down to microseconds. */
  lemma NanosFloor(n: int)
    ensures n * 1_000_000_000 / ATTOS_PER_MICRO == n / 1_000
  {
    assert n * 1_000_000_000 == ATTOS_PER_MICRO * (n / 1_000) + n % 1_000 * 1_000_000_000;
  }

  lemma PicosFloor(n: int)
    ensures n * 1_000_000 / ATTOS_PER_MICRO == n / 1_000_000
  {
    assert n * 1_000_000 == ATTOS_PER_MICRO * (n / 1_000_000) + n % 1_000_000 * 1_000_000;
  }

  lemma FemtosFloor(n: int)
    ensures n * 1_000 / ATTOS_PER_MICRO == n / 1_000_000_000
  {
    assert n * 1_000 == ATTOS_PER_MICRO * (n / 1_000_000_000) + n % 1_000_000_000 * 1_000;
  }

  lemma ScaledInstant(n: int, base: TimeUnit)
    ensures base == Year ==> Instant(n, base) == DayNumber(Date(1970 + n, 1, 1)) * 86_400_000_000
    ensures base == Month ==> Instant(n, base) == DayNumber(Date(1970 + n / 12, n % 12 + 1, 1)) * 86_400_000_000
    ensures base == Week ==> Instant(n, base) == n * (7 * 86_400_000_000)
    ensures base == Day ==> Instant(n, base) == n * 86_400_000_000
    ensures base == Hour ==> Instant(n, base) == n * 3_600_000_000
    ensures base == Minute ==> Instant(n, base) == n * 60_000_000
    ensures base == Second ==> Instant(n, base) == n * 1_000_000
    ensures base == Milli ==> Instant(n, base) == n * 1_000
    ensures base == Micro ==> Instant(n, base) == n
    ensures base == Nano ==> Instant(n, base) == n / 1_000
    ensures base == Pico ==> Instant(n, base) == n / 1_000_000
    ensures base == Femto ==> Instant(n, base) == n / 1_000_000_000
    ensures base == Atto ==> Instant(n, base) == n / 1_000_000_000_000
  {
    match base
    case Nano => NanosFloor(n);
    case Pico => PicosFloor(n);
    case Femto => FemtosFloor(n);
    case _ =>
  }

  /** The parts of an instant are unique, so the lemma above determines the result. */
  lemma PartsUnique(p: Parts, q: Parts)
    requires ValidParts(p) && ValidParts(q) && MicrosOf(p) == MicrosOf(q)
    ensures p == q
  {
    hide DayNumber, Calendar.Valid;
    var x, y := Date(p.y, p.mo, p.d), Date(q.y, q.mo, q.d);
    assert DayNumber(x) == DayNumber(y);
    DayNumberInjective(x, y);
  }
}
