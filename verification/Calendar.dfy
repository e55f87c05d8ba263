/** The proleptic Gregorian calendar in UTC, as RFC 3339 (section 5.6) uses it.

    An instant is the whole number of nanoseconds since 0000-01-01T00:00:00Z, without leap
    seconds. `ToCivil` and `FromCivil` convert between instants and calendar fields. */
module Calendar {

  type Instant = int

  const NANOS_PER_SECOND := 1_000_000_000
  const NANOS_PER_MILLI := 1_000_000
  const SECONDS_PER_DAY := 86_400

  /** The first instant of year 10000: from here on a year no longer fits four digits. */
  const YEAR_10000: Instant := 3_652_425 * SECONDS_PER_DAY * NANOS_PER_SECOND

  /** The calendar repeats after 400 years. */
  const PERIOD: Instant := 146_097 * SECONDS_PER_DAY * NANOS_PER_SECOND

  predicate FourDigitYear(t: Instant) {
    0 <= t < YEAR_10000
  }

  /** The first and the last instant of the date library: the start of year -262143 and the end of
      year 262142. Adding a duration that leads outside stops the program. */
  const EARLIEST: Instant := -95_745_764 * SECONDS_PER_DAY * NANOS_PER_SECOND
  const LATEST: Instant := 95_745_765 * SECONDS_PER_DAY * NANOS_PER_SECOND - 1

  predicate InRange(t: Instant) {
    EARLIEST <= t <= LATEST
  }

  datatype Civil = Civil(year: nat, month: nat, day: nat, hour: nat, minute: nat, second: nat, nano: nat)

  predicate IsLeap(year: nat) {
    year % 4 == 0 && (year % 100 != 0 || year % 400 == 0)
  }

  function DaysInYear(year: nat): nat {
    if IsLeap(year) then 366 else 365
  }

  function DaysInMonth(leap: bool, month: nat): nat {
    if month == 2 then if leap then 29 else 28
    else if month in {4, 6, 9, 11} then 30
    else 31
  }

  /** The number of days before 1 January of `year`. */
  function DaysBeforeYear(year: nat): nat {
    if year == 0 then 0 else DaysBeforeYear(year - 1) + DaysInYear(year - 1)
  }

  /** The number of days of the year before the first of `month`. */
  function DaysBeforeMonth(leap: bool, month: nat): nat {
    if month <= 1 then 0 else DaysBeforeMonth(leap, month - 1) + DaysInMonth(leap, month - 1)
  }

  /** Counts `day` off year by year, starting at 1 January of `year`. */
  function LocateYear(day: nat, year: nat): (nat, nat)
    decreases day
  {
    if day < DaysInYear(year) then (year, day)
    else LocateYear(day - DaysInYear(year), year + 1)
  }

  /** Counts `day` off month by month, starting at the first of `month`. */
  function LocateMonth(leap: bool, day: nat, month: nat): (nat, nat)
    decreases day
  {
    if month >= 12 || day < DaysInMonth(leap, month) then (month, day)
    else LocateMonth(leap, day - DaysInMonth(leap, month), month + 1)
  }

  predicate ValidCivil(c: Civil) {
    && 1 <= c.month <= 12
    && 1 <= c.day <= DaysInMonth(IsLeap(c.year), c.month)
    && c.hour < 24 && c.minute < 60 && c.second < 60
    && c.nano < NANOS_PER_SECOND
  }

  function ToCivil(t: Instant): Civil
    requires 0 <= t
  {
    var seconds, nano := t / NANOS_PER_SECOND, t % NANOS_PER_SECOND;
    var days, clock := seconds / SECONDS_PER_DAY, seconds % SECONDS_PER_DAY;
    var (year, dayOfYear) := LocateYear(days, 0);
    var (month, day) := LocateMonth(IsLeap(year), dayOfYear, 1);
    Civil(year, month, day + 1, clock / 3600, clock % 3600 / 60, clock % 60, nano)
  }

  function DayNumber(c: Civil): int {
    DaysBeforeYear(c.year) + DaysBeforeMonth(IsLeap(c.year), c.month) + c.day - 1
  }

  function SecondOfDay(c: Civil): int {
    c.hour * 3600 + c.minute * 60 + c.second
  }

  function FromCivil(c: Civil): Instant {
    (DayNumber(c) * SECONDS_PER_DAY + SecondOfDay(c)) * NANOS_PER_SECOND + c.nano
  }

  /** Field by field comparison, most significant field first. */
  predicate Earlier(a: Civil, b: Civil) {
    a.year < b.year || (a.year == b.year && (
    a.month < b.month || (a.month == b.month && (
    a.day < b.day || (a.day == b.day && (
    a.hour < b.hour || (a.hour == b.hour && (
    a.minute < b.minute || (a.minute == b.minute && (
    a.second < b.second || (a.second == b.second && a.nano < b.nano)))))))))))
  }

  // ---------------------------------------------------------------------------------------------
  // Years and months
  // ---------------------------------------------------------------------------------------------

  lemma {:induction false} LocateYearSound(day: nat, year: nat)
    ensures var (y, d) := LocateYear(day, year);
            year <= y && 0 <= d < DaysInYear(y) && DaysBeforeYear(y) + d == DaysBeforeYear(year) + day
    decreases day
  {
    if day >= DaysInYear(year) {
      LocateYearSound(day - DaysInYear(year), year + 1);
    }
  }

  lemma {:induction false} LocateMonthSound(leap: bool, day: nat, month: nat)
    requires 1 <= month <= 12
    requires DaysBeforeMonth(leap, month) + day < if leap then 366 else 365
    ensures var (m, d) := LocateMonth(leap, day, month);
            && month <= m <= 12 && 0 <= d < DaysInMonth(leap, m)
            && DaysBeforeMonth(leap, m) + d == DaysBeforeMonth(leap, month) + day
    decreases 12 - month
  {
    if month == 12 {
      MonthTable(leap);
    } else if day >= DaysInMonth(leap, month) {
      LocateMonthSound(leap, day - DaysInMonth(leap, month), month + 1);
    }
  }

  lemma {:induction false} MonthTable(leap: bool)
    ensures DaysBeforeMonth(leap, 12) == if leap then 335 else 334
  {
    var extra := if leap then 1 else 0;
    assert DaysBeforeMonth(leap, 2) == 31;
    assert DaysBeforeMonth(leap, 4) == DaysBeforeMonth(leap, 3) + 31 == 90 + extra;
    assert DaysBeforeMonth(leap, 6) == DaysBeforeMonth(leap, 5) + 31 == 151 + extra;
    assert DaysBeforeMonth(leap, 8) == DaysBeforeMonth(leap, 7) + 31 == 212 + extra;
    assert DaysBeforeMonth(leap, 10) == DaysBeforeMonth(leap, 9) + 30 == 273 + extra;
    assert DaysBeforeMonth(leap, 12) == DaysBeforeMonth(leap, 11) + 30;
  }

  lemma {:induction false} DaysBeforeYearMonotone(a: nat, b: nat)
    requires a < b
    ensures DaysBeforeYear(a) + DaysInYear(a) <= DaysBeforeYear(b)
    decreases b
  {
    if a + 1 < b {
      DaysBeforeYearMonotone(a, b - 1);
    }
  }

  lemma {:induction false} DaysBeforeMonthMonotone(leap: bool, a: nat, b: nat)
    requires 1 <= a < b
    ensures DaysBeforeMonth(leap, a) + DaysInMonth(leap, a) <= DaysBeforeMonth(leap, b)
    decreases b
  {
    if a + 1 < b {
      DaysBeforeMonthMonotone(leap, a, b - 1);
    }
  }

  /** Counting day by day agrees with the usual leap-year formula. */
  lemma {:induction false} DaysBeforeYearClosedForm(year: nat)
    ensures DaysBeforeYear(year) == 365 * year + (year + 3) / 4 - (year + 99) / 100 + (year + 399) / 400
  {
    if year != 0 {
      DaysBeforeYearClosedForm(year - 1);
      LeapStep(year);
    }
  }

  /** The leap-year formula grows by one exactly in leap years. */
  lemma {:induction false} LeapStep(year: nat)
    requires year != 0
    ensures (year + 3) / 4 == (year + 2) / 4 + if (year - 1) % 4 == 0 then 1 else 0
    ensures (year + 99) / 100 == (year + 98) / 100 + if (year - 1) % 100 == 0 then 1 else 0
    ensures (year + 399) / 400 == (year + 398) / 400 + if (year - 1) % 400 == 0 then 1 else 0
    ensures (year - 1) % 400 == 0 ==> (year - 1) % 100 == 0
    ensures (year - 1) % 100 == 0 ==> (year - 1) % 4 == 0
  {
    CeilStep4(year - 1);
    CeilStep100(year - 1);
    CeilStep400(year - 1);
  }

  lemma {:induction false} CeilStep4(n: nat)
    ensures (n + 4) / 4 == (n + 3) / 4 + if n % 4 == 0 then 1 else 0
  {
  }

  lemma {:induction false} CeilStep100(n: nat)
    ensures (n + 100) / 100 == (n + 99) / 100 + if n % 100 == 0 then 1 else 0
    ensures n % 100 == 0 ==> n % 4 == 0
  {
    assert n == 4 * (25 * (n / 100)) + n % 100;
  }

  lemma {:induction false} CeilStep400(n: nat)
    ensures (n + 400) / 400 == (n + 399) / 400 + if n % 400 == 0 then 1 else 0
    ensures n % 400 == 0 ==> n % 100 == 0
  {
    assert n == 100 * (4 * (n / 400)) + n % 400;
  }

  /** The day of the year stays inside its year. */
  lemma {:induction false} DayInsideYear(c: Civil)
    requires ValidCivil(c)
    ensures DaysBeforeYear(c.year) <= DayNumber(c) < DaysBeforeYear(c.year) + DaysInYear(c.year)
  {
    var leap := IsLeap(c.year);
    MonthTable(leap);
    if c.month < 12 {
      DaysBeforeMonthMonotone(leap, c.month, 12);
    }
  }

  // ---------------------------------------------------------------------------------------------
  // Conversions
  // ---------------------------------------------------------------------------------------------

  /** Counting days off by years and months finds a day that exists. */
  lemma {:induction false} DateOfDay(days: nat)
    ensures var (year, dayOfYear) := LocateYear(days, 0);
            var (month, day) := LocateMonth(IsLeap(year), dayOfYear, 1);
            && 1 <= month <= 12 && 0 <= day < DaysInMonth(IsLeap(year), month)
            && DaysBeforeYear(year) + DaysBeforeMonth(IsLeap(year), month) + day == days
  {
    hide LocateYear, LocateMonth;
    LocateYearSound(days, 0);
    var (year, dayOfYear) := LocateYear(days, 0);
    LocateMonthSound(IsLeap(year), dayOfYear, 1);
  }

  lemma {:induction false} ClockSplit(clock: nat)
    requires clock < SECONDS_PER_DAY
    ensures clock / 3600 < 24 && clock % 3600 / 60 < 60 && clock % 60 < 60
    ensures clock / 3600 * 3600 + clock % 3600 / 60 * 60 + clock % 60 == clock
  {
  }

  lemma {:induction false} CivilOfInstant(t: Instant)
    requires 0 <= t
    ensures ValidCivil(ToCivil(t))
    ensures FromCivil(ToCivil(t)) == t
  {
    hide LocateYear, LocateMonth, DaysBeforeYear, DaysBeforeMonth, DaysInMonth, IsLeap;
    var seconds := t / NANOS_PER_SECOND;
    DateOfDay(seconds / SECONDS_PER_DAY);
    ClockSplit(seconds % SECONDS_PER_DAY);
    assert DayNumber(ToCivil(t)) == seconds / SECONDS_PER_DAY;
    assert SecondOfDay(ToCivil(t)) == seconds % SECONDS_PER_DAY;
    assert seconds / SECONDS_PER_DAY * SECONDS_PER_DAY + seconds % SECONDS_PER_DAY == seconds;
    assert seconds * NANOS_PER_SECOND + t % NANOS_PER_SECOND == t;
  }

  lemma {:induction false} DayOrder(a: Civil, b: Civil)
    requires ValidCivil(a) && ValidCivil(b)
    ensures DayNumber(a) < DayNumber(b) <==>
            a.year < b.year || (a.year == b.year && (a.month < b.month || (a.month == b.month && a.day < b.day)))
    ensures DayNumber(a) == DayNumber(b) <==> a.year == b.year && a.month == b.month && a.day == b.day
  {
    DayInsideYear(a);
    DayInsideYear(b);
    if a.year < b.year {
      DaysBeforeYearMonotone(a.year, b.year);
    } else if b.year < a.year {
      DaysBeforeYearMonotone(b.year, a.year);
    } else if a.month < b.month {
      DaysBeforeMonthMonotone(IsLeap(a.year), a.month, b.month);
    } else if b.month < a.month {
      DaysBeforeMonthMonotone(IsLeap(a.year), b.month, a.month);
    }
  }

  /** Chronological order is the order of the calendar fields. */
  lemma {:induction false} CivilOrder(a: Civil, b: Civil)
    requires ValidCivil(a) && ValidCivil(b)
    ensures FromCivil(a) < FromCivil(b) <==> Earlier(a, b)
  {
    DayOrder(a, b);
  }

  lemma {:induction false} YearLimit(year: nat, limit: nat)
    requires limit == 10000
    ensures DaysBeforeYear(limit) == 3_652_425
    ensures year < limit ==> DaysBeforeYear(year) + DaysInYear(year) <= 3_652_425
    ensures limit <= year ==> 3_652_425 <= DaysBeforeYear(year)
  {
    DaysBeforeYearClosedForm(limit);
    if year < limit {
      DaysBeforeYearMonotone(year, limit);
    } else if limit < year {
      DaysBeforeYearMonotone(limit, year);
    }
  }

  /** The instants printed with a four-digit year are exactly those before year 10000. */
  lemma {:induction false} FourDigitYearMeaning(t: Instant)
    requires 0 <= t
    ensures FourDigitYear(t) <==> ToCivil(t).year <= 9999
  {
    CivilOfInstant(t);
    DayInsideYear(ToCivil(t));
    YearLimit(ToCivil(t).year, 10000);
  }

  /** Valid calendar fields and instants correspond one to one. */
  lemma {:induction false} InstantOfCivil(c: Civil)
    requires ValidCivil(c)
    ensures 0 <= FromCivil(c)
    ensures ToCivil(FromCivil(c)) == c
  {
    DayInsideYear(c);
    var t := FromCivil(c);
    CivilOfInstant(t);
    CivilOrder(c, ToCivil(t));
    CivilOrder(ToCivil(t), c);
  }

  /** `LATEST` is the last nanosecond of year 262142. */
  lemma {:induction false} LatestDate(year: nat)
    requires year == 262_142
    ensures ToCivil(LATEST) == Civil(year, 12, 31, 23, 59, 59, 999_999_999)
  {
    hide DaysBeforeYear, DaysBeforeMonth, ToCivil, LocateYear, LocateMonth;
    var c := Civil(year, 12, 31, 23, 59, 59, 999_999_999);
    DaysBeforeYearClosedForm(year);
    MonthTable(false);
    InstantOfCivil(c);
  }

  lemma {:induction false} StartOfYear(c: Civil)
    requires c.month == 1 && c.day == 1 && c.hour == 0 && c.minute == 0 && c.second == 0 && c.nano == 0
    ensures FromCivil(c) == DaysBeforeYear(c.year) * SECONDS_PER_DAY * NANOS_PER_SECOND
  {
    hide DaysBeforeYear;
  }

  /** `EARLIEST` is the first instant of year -262143: 656 periods of 400 years, of 146097 days each,
      before the start of year 257. */
  lemma {:induction false} EarliestDate(year: nat)
    requires year + 262_143 == 656 * 400
    ensures FromCivil(Civil(year, 1, 1, 0, 0, 0, 0)) - 656 * PERIOD == EARLIEST
  {
    hide DaysBeforeYear, DaysBeforeMonth, FromCivil;
    var c := Civil(year, 1, 1, 0, 0, 0, 0);
    DaysBeforeYearClosedForm(year);
    assert DaysBeforeYear(year) == 93_868;
    StartOfYear(c);
  }
}
