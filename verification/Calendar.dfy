/**
 * The proleptic Gregorian calendar by counting, and Hinnant's closed formula
 * (src/datetime.rs, `civil_from_days`) proved to be its inverse over all integers.
 */
module Calendar {

  predicate IsLeap(y: int) {
    y % 4 == 0 && (y % 100 != 0 || y % 400 == 0)
  }

  function DaysInYear(y: int): int {
    if IsLeap(y) then 366 else 365
  }

  function DaysInMonth(y: int, m: int): int {
    if m == 2 then (if IsLeap(y) then 29 else 28)
    else if m == 4 || m == 6 || m == 9 || m == 11 then 30
    else 31
  }

  /** Days from 1970-01-01 to the first day of year `y`, by adding up whole years. */
  function YearStart(y: int): int
    decreases if y < 1970 then 1970 - y else y - 1970
  {
    if y == 1970 then 0
    else if y > 1970 then YearStart(y - 1) + DaysInYear(y - 1)
    else YearStart(y + 1) - DaysInYear(y)
  }

  /** Days from the first day of year `y` to the first of month `m`, by adding up whole months. */
  function MonthStart(y: int, m: int): int
    decreases m
  {
    if m <= 1 then 0 else MonthStart(y, m - 1) + DaysInMonth(y, m - 1)
  }

  datatype Date = Date(y: int, mo: int, d: int)

  predicate Valid(t: Date) {
    1 <= t.mo <= 12 && 1 <= t.d <= DaysInMonth(t.y, t.mo)
  }

  /** The day number of a date: days since 1970-01-01. */
  function DayNumber(t: Date): int {
    YearStart(t.y) + MonthStart(t.y, t.mo) + t.d - 1
  }

  function NextDate(t: Date): Date {
    if t.d < DaysInMonth(t.y, t.mo) then Date(t.y, t.mo, t.d + 1)
    else if t.mo < 12 then Date(t.y, t.mo + 1, 1)
    else Date(t.y + 1, 1, 1)
  }

  /** Days of a 400-year era before the March-based year `yoe` of that era. */
  function EraDays(yoe: int): int {
    365 * yoe + yoe / 4 - yoe / 100
  }

  /** The year of the era that day `doe` of it falls in; 1460, 36524 and 146096 correct for leap days. */
  function YearOfEra(doe: int): int {
    (doe - doe / 1_460 + doe / 36_524 - doe / 146_096) / 365
  }

  /** The closed formula of the source. */
  function CivilFromDays(days: int): Date {
    var z := days + 719_468;
    var era := z / 146_097;
    var doe := z - era * 146_097;
    var yoe := YearOfEra(doe);
    var doy := doe - EraDays(yoe);
    var mp := (5 * doy + 2) / 153;
    var d := doy - (153 * mp + 2) / 5 + 1;
    var mo := if mp < 10 then mp + 3 else mp - 9;
    var y := yoe + era * 400 + (if mo <= 2 then 1 else 0);
    Date(y, mo, d)
  }

  // ---- the counted calendar in closed form ------------------------------------

  /** Leap years up to and including year `n`, relative to year 0. */
  function Leaps(n: int): int {
    n / 4 - n / 100 + n / 400
  }

  lemma DivStep(n: int)
    ensures n / 4 - (n - 1) / 4 == (if n % 4 == 0 then 1 else 0)
    ensures n / 100 - (n - 1) / 100 == (if n % 100 == 0 then 1 else 0)
    ensures n / 400 - (n - 1) / 400 == (if n % 400 == 0 then 1 else 0)
  {}

  lemma ModChain(n: int)
    ensures n % 100 == 0 ==> n % 4 == 0
    ensures n % 400 == 0 ==> n % 100 == 0
  {
    if n % 100 == 0 { MultipleOf4(n, 25 * (n / 100)); }
    if n % 400 == 0 { MultipleOf100(n, 4 * (n / 400)); }
  }

  lemma MultipleOf4(n: int, k: int)
    requires n == 4 * k
    ensures n % 4 == 0
  {}

  lemma MultipleOf100(n: int, k: int)
    requires n == 100 * k
    ensures n % 100 == 0
  {}

  lemma LeapsStep(n: int)
    ensures Leaps(n) - Leaps(n - 1) == (if IsLeap(n) then 1 else 0)
  {
    DivStep(n);
    ModChain(n);
  }

  lemma {:induction false} YearStartClosed(y: int)
    ensures YearStart(y) == 365 * (y - 1970) + Leaps(y - 1) - 477
    decreases if y < 1970 then 1970 - y else y - 1970
  {
    hide Leaps, IsLeap;
    if y == 1970 {
      assert Leaps(1969) == 477 by { Leaps1969(); }
    } else if y > 1970 {
      YearStartClosed(y - 1);
      LeapsStep(y - 1);
    } else {
      YearStartClosed(y + 1);
      LeapsStep(y);
    }
  }

  lemma Leaps1969()
    ensures Leaps(1969) == 477
  {}

  lemma YearStartStep(y: int)
    ensures YearStart(y + 1) == YearStart(y) + DaysInYear(y)
  {}

  /** The first days of the months, in days from January 1. */
  lemma MonthStartTable(y: int)
    ensures var l := if IsLeap(y) then 1 else 0;
            && MonthStart(y, 1) == 0 && MonthStart(y, 2) == 31 && MonthStart(y, 3) == 59 + l
            && MonthStart(y, 4) == 90 + l && MonthStart(y, 5) == 120 + l && MonthStart(y, 6) == 151 + l
            && MonthStart(y, 7) == 181 + l && MonthStart(y, 8) == 212 + l && MonthStart(y, 9) == 243 + l
            && MonthStart(y, 10) == 273 + l && MonthStart(y, 11) == 304 + l && MonthStart(y, 12) == 334 + l
  {
    hide IsLeap;
    assert MonthStart(y, 1) == 0;
    assert MonthStart(y, 2) == 31;
    assert MonthStart(y, 3) == MonthStart(y, 2) + DaysInMonth(y, 2);
    assert MonthStart(y, 4) == MonthStart(y, 3) + 31;
    assert MonthStart(y, 5) == MonthStart(y, 4) + 30;
    assert MonthStart(y, 6) == MonthStart(y, 5) + 31;
    assert MonthStart(y, 7) == MonthStart(y, 6) + 30;
    assert MonthStart(y, 8) == MonthStart(y, 7) + 31;
    assert MonthStart(y, 9) == MonthStart(y, 8) + 31;
    assert MonthStart(y, 10) == MonthStart(y, 9) + 30;
    assert MonthStart(y, 11) == MonthStart(y, 10) + 31;
    assert MonthStart(y, 12) == MonthStart(y, 11) + 30;
  }

  // ---- the formula is right ---------------------------------------------------

  /**
   * A day of an era split into century, four-year cycle and day of cycle; the
   * corrections in `YearOfEra` leave exactly the year they count.
   */
  lemma YearOfEraSplit(doe: int, c: int, q: int, t: int)
    requires 0 <= c <= 3 && 0 <= q <= 24 && 0 <= t <= 1460
    requires doe == 36_524 * c + 1_461 * q + t
    requires c < 3 && q == 24 ==> t < 1460
    ensures YearOfEra(doe) == 100 * c + 4 * q + (if t == 1460 then 3 else t / 365)
  {
    var e := if 24 * c + q + t >= 1460 then 1 else 0;
    assert doe == 1_460 * (25 * c + q + e) + (24 * c + q + t - 1460 * e);
    assert doe / 1_460 == 25 * c + q + e;
    assert 36_524 * (c + 1) == 36_524 * c + 36_524;
    var f := if doe == 146_096 then 1 else 0;
    assert doe / 36_524 == c + f;
    assert doe / 146_096 == f;
    var k := if t == 1460 then 3 else t / 365;
    assert 365 * k <= t - e < 365 * k + 365;
  }

  /** The year that the formula picks is the one the day of the era falls in. */
  lemma YearOfEraBrackets(doe: int)
    requires 0 <= doe < 146_097
    ensures var yoe := YearOfEra(doe); var doy := doe - EraDays(yoe);
            0 <= yoe < 400 && 0 <= doy <= 365 && (doy == 365 ==> IsLeap(yoe + 1))
  {
    var c := if doe == 146_096 then 3 else doe / 36_524;
    var r := doe - 36_524 * c;
    var q := if r == 36_524 then 24 else r / 1_461;
    var t := r - 1_461 * q;
    YearOfEraSplit(doe, c, q, t);
    var k := if t == 1460 then 3 else t / 365;
    YearParts(c, q, k);
    assert EraDays(100 * c + 4 * q + k) == 36_524 * c + 1_461 * q + 365 * k;
    if t == 1460 {
      LeapEnd(c, q);
    }
  }

  lemma YearParts(c: int, q: int, k: int)
    requires 0 <= c <= 3 && 0 <= q <= 24 && 0 <= k <= 3
    ensures (100 * c + 4 * q + k) / 4 == 25 * c + q && (100 * c + 4 * q + k) / 100 == c
  {}

  /** The fourth year of a cycle is followed by a leap year, unless a century ends without one. */
  lemma LeapEnd(c: int, q: int)
    requires 0 <= c <= 3 && 0 <= q <= 24 && (q == 24 ==> c == 3)
    ensures IsLeap(100 * c + 4 * q + 3 + 1)
  {
    var y := 100 * c + 4 * q + 4;
    assert y == 4 * (25 * c + q + 1);
    if q == 24 { assert y == 400; } else { assert y % 100 == 4 * (q + 1); }
  }

  /** The March-based month and day of month, by cases. */
  lemma MonthOfYear(doy: int)
    requires 0 <= doy <= 365
    ensures var mp := (5 * doy + 2) / 153; var s := (153 * mp + 2) / 5;
            && 0 <= mp <= 11 && s <= doy
            && (mp == 0 ==> s == 0 && doy <= 30) && (mp == 1 ==> s == 31 && doy <= 60)
            && (mp == 2 ==> s == 61 && doy <= 91) && (mp == 3 ==> s == 92 && doy <= 121)
            && (mp == 4 ==> s == 122 && doy <= 152) && (mp == 5 ==> s == 153 && doy <= 183)
            && (mp == 6 ==> s == 184 && doy <= 213) && (mp == 7 ==> s == 214 && doy <= 244)
            && (mp == 8 ==> s == 245 && doy <= 274) && (mp == 9 ==> s == 275 && doy <= 305)
            && (mp == 10 ==> s == 306 && doy <= 336) && (mp == 11 ==> s == 337)
  {}

  /** The day number of March 1 of the year `y`. */
  lemma MarchFirst(era: int, yoe: int)
    requires 0 <= yoe < 400
    ensures var y := yoe + era * 400;
            YearStart(y + 1) - 306 == 146_097 * era + EraDays(yoe) - 719_468
  {
    var y := yoe + era * 400;
    YearStartClosed(y + 1);
    assert y / 4 == 100 * era + yoe / 4;
    assert y / 100 == 4 * era + yoe / 100;
    assert y / 400 == era;
  }

  /** A date written by its March-based year, month index and day. */
  lemma FromMarch(y: int, mp: int, s: int, d: int)
    requires 0 <= mp <= 11 && s == (153 * mp + 2) / 5
    ensures var mo := if mp < 10 then mp + 3 else mp - 9;
            DayNumber(Date(if mo <= 2 then y + 1 else y, mo, d)) == YearStart(y + 1) - 306 + s + d - 1
  {
    hide YearStart, MonthStart, IsLeap;
    MonthStartTable(y);
    MonthStartTable(y + 1);
    YearStartStep(y);
  }

  function Assemble(era: int, yoe: int, mp: int, d: int): Date {
    var mo := if mp < 10 then mp + 3 else mp - 9;
    Date(yoe + era * 400 + (if mo <= 2 then 1 else 0), mo, d)
  }

  lemma EraDivides(era: int, y: int)
    ensures (y + era * 400) % 4 == y % 4
  {
    assert y + era * 400 == 4 * (y / 4 + 100 * era) + y % 4;
  }

  lemma EraDividesCentury(era: int, y: int)
    ensures (y + era * 400) % 100 == y % 100
  {
    assert y + era * 400 == 100 * (y / 100 + 4 * era) + y % 100;
  }

  lemma EraDividesEra(era: int, y: int)
    ensures (y + era * 400) % 400 == y % 400
  {
    assert y + era * 400 == 400 * (y / 400 + era) + y % 400;
  }

  lemma LeapOfEra(era: int, y: int)
    ensures IsLeap(y + era * 400) <==> IsLeap(y)
  {
    EraDivides(era, y);
    EraDividesCentury(era, y);
    EraDividesEra(era, y);
  }

  lemma FormulaSteps(days: int, era: int, yoe: int, doy: int)
    requires era == (days + 719_468) / 146_097
    requires yoe == YearOfEra(days + 719_468 - era * 146_097)
    requires doy == days + 719_468 - era * 146_097 - EraDays(yoe)
    ensures var mp := (5 * doy + 2) / 153;
            CivilFromDays(days) == Assemble(era, yoe, mp, doy - (153 * mp + 2) / 5 + 1)
  {
    hide YearOfEra, EraDays;
  }

  /** A day of the March-based year falls inside the month it is given. */
  lemma AssembledValid(era: int, yoe: int, doy: int)
    requires 0 <= doy <= 365 && (doy == 365 ==> IsLeap(yoe + 1))
    ensures var mp := (5 * doy + 2) / 153;
            Valid(Assemble(era, yoe, mp, doy - (153 * mp + 2) / 5 + 1))
  {
    hide IsLeap;
    MonthOfYear(doy);
    LeapOfEra(era, yoe + 1);
    assert (yoe + 1) + era * 400 == yoe + era * 400 + 1;
  }

  /**
   * Over all integers the formula gives a valid date whose counted day number is the
   * day asked for.
   */
  lemma CivilFromDaysCounts(days: int)
    ensures Valid(CivilFromDays(days)) && DayNumber(CivilFromDays(days)) == days
  {
    hide YearStart, MonthStart, IsLeap, YearOfEra, EraDays, DayNumber, Valid, CivilFromDays;
    var era := (days + 719_468) / 146_097;
    var doe := days + 719_468 - era * 146_097;
    var yoe := YearOfEra(doe);
    YearOfEraBrackets(doe);
    var doy := doe - EraDays(yoe);
    FormulaSteps(days, era, yoe, doy);
    AssembledValid(era, yoe, doy);
    MonthOfYear(doy);
    MarchFirst(era, yoe);
    var mp := (5 * doy + 2) / 153;
    var s := (153 * mp + 2) / 5;
    FromMarch(yoe + era * 400, mp, s, doy - s + 1);
  }

  // ---- the counted calendar is a bijection --------------------------------------

  lemma {:induction false} YearStartMonotone(y: int, z: int)
    requires y < z
    ensures YearStart(y) + DaysInYear(y) <= YearStart(z)
    decreases z - y
  {
    hide IsLeap;
    YearStartStep(y);
    if y + 1 < z {
      YearStartMonotone(y + 1, z);
    }
  }

  /** A valid date lies inside its year. */
  lemma InsideYear(t: Date)
    requires Valid(t)
    ensures YearStart(t.y) <= DayNumber(t) < YearStart(t.y) + DaysInYear(t.y)
  {
    hide IsLeap, MonthStart;
    MonthStartTable(t.y);
  }

  /** Different valid dates have different day numbers, in the order of the dates. */
  lemma DayNumberInjective(a: Date, b: Date)
    requires Valid(a) && Valid(b) && DayNumber(a) == DayNumber(b)
    ensures a == b
  {
    hide IsLeap, MonthStart, YearStart, DaysInYear;
    InsideYear(a);
    InsideYear(b);
    if a.y < b.y { YearStartMonotone(a.y, b.y); }
    if b.y < a.y { YearStartMonotone(b.y, a.y); }
    MonthStartTable(a.y);
  }

  /** The formula gives the only valid date with that day number. */
  lemma CivilFromDaysUnique(t: Date)
    requires Valid(t)
    ensures CivilFromDays(DayNumber(t)) == t
  {
    CivilFromDaysCounts(DayNumber(t));
    DayNumberInjective(CivilFromDays(DayNumber(t)), t);
  }

  /** Days are counted from 1970-01-01. */
  lemma Epoch()
    ensures DayNumber(Date(1970, 1, 1)) == 0 && CivilFromDays(0) == Date(1970, 1, 1)
  {
    hide CivilFromDays;
    CivilFromDaysUnique(Date(1970, 1, 1));
  }

  lemma NextDateCounts(t: Date)
    requires Valid(t)
    ensures Valid(NextDate(t)) && DayNumber(NextDate(t)) == DayNumber(t) + 1
  {
    hide IsLeap, MonthStart, YearStart;
    MonthStartTable(t.y);
    MonthStartTable(t.y + 1);
    YearStartStep(t.y);
  }

  /** The day after a day is the date after its date. */
  lemma CivilFromDaysSuccessor(days: int)
    ensures CivilFromDays(days + 1) == NextDate(CivilFromDays(days))
  {
    hide CivilFromDays, NextDate, DayNumber, Valid;
    CivilFromDaysCounts(days);
    NextDateCounts(CivilFromDays(days));
    CivilFromDaysUnique(NextDate(CivilFromDays(days)));
  }
}
