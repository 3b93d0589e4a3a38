/**
The proleptic Gregorian calendar behind `datetime`: civil dates, day ordinals, and the
naive wall-clock arithmetic of `datetime + timedelta`. Years are not bounded.
*/
module Calendar {
  predicate IsLeap(y: int) {
    y % 4 == 0 && (y % 100 != 0 || y % 400 == 0)
  }

  function DaysInMonth(y: int, m: int): (n: int)
    requires 1 <= m <= 12
    ensures 28 <= n <= 31
  {
    if m == 2 then (if IsLeap(y) then 29 else 28)
    else if m == 4 || m == 6 || m == 9 || m == 11 then 30
    else 31
  }

  datatype RawDate = Date(year: int, month: int, day: int)

  predicate IsDate(d: RawDate) {
    1 <= d.month <= 12 && 1 <= d.day <= DaysInMonth(d.year, d.month)
  }

  type Date = d: RawDate | IsDate(d) witness Date(1, 1, 1)

  function DaysBeforeYear(y: int): int {
    (y - 1) * 365 + (y - 1) / 4 - (y - 1) / 100 + (y - 1) / 400
  }

  function DaysBeforeMonth(y: int, m: int): int
    requires 1 <= m <= 13
  {
    if m == 1 then 0 else DaysBeforeMonth(y, m - 1) + DaysInMonth(y, m - 1)
  }

  /** `date.toordinal`: day 1 is 1 January of year 1. */
  function Ordinal(d: Date): int {
    DaysBeforeYear(d.year) + DaysBeforeMonth(d.year, d.month) + d.day
  }

  /** `date.weekday`: Monday is 0 and Sunday is 6. */
  function Weekday(d: Date): int {
    (Ordinal(d) + 6) % 7
  }

  function NextDay(d: Date): Date {
    if d.day < DaysInMonth(d.year, d.month) then Date(d.year, d.month, d.day + 1)
    else if d.month < 12 then Date(d.year, d.month + 1, 1)
    else Date(d.year + 1, 1, 1)
  }

  function PreviousDay(d: Date): Date {
    if d.day > 1 then Date(d.year, d.month, d.day - 1)
    else if d.month > 1 then Date(d.year, d.month - 1, DaysInMonth(d.year, d.month - 1))
    else Date(d.year - 1, 12, 31)
  }

  /** The date n days later, or -n days earlier. */
  function AddDays(d: Date, n: int): Date
    decreases if n < 0 then -n else n
  {
    if n == 0 then d
    else if n > 0 then AddDays(NextDay(d), n - 1)
    else AddDays(PreviousDay(d), n + 1)
  }

  lemma YearLength(y: int)
    ensures DaysBeforeYear(y + 1) == DaysBeforeYear(y) + if IsLeap(y) then 366 else 365
  {
    assert y / 4 == (y - 1) / 4 + if y % 4 == 0 then 1 else 0;
    assert y / 100 == (y - 1) / 100 + if y % 100 == 0 then 1 else 0;
    assert y / 400 == (y - 1) / 400 + if y % 400 == 0 then 1 else 0;
  }

  lemma MonthTable(y: int)
    ensures var f := if IsLeap(y) then 29 else 28;
            && DaysBeforeMonth(y, 1) == 0 && DaysBeforeMonth(y, 2) == 31
            && DaysBeforeMonth(y, 3) == 31 + f && DaysBeforeMonth(y, 4) == 62 + f
            && DaysBeforeMonth(y, 5) == 92 + f && DaysBeforeMonth(y, 6) == 123 + f
            && DaysBeforeMonth(y, 7) == 153 + f && DaysBeforeMonth(y, 8) == 184 + f
            && DaysBeforeMonth(y, 9) == 215 + f && DaysBeforeMonth(y, 10) == 245 + f
            && DaysBeforeMonth(y, 11) == 276 + f && DaysBeforeMonth(y, 12) == 306 + f
            && DaysBeforeMonth(y, 13) == 337 + f
  {
    assert DaysBeforeMonth(y, 3) == DaysBeforeMonth(y, 2) + DaysInMonth(y, 2);
    assert DaysBeforeMonth(y, 4) == DaysBeforeMonth(y, 3) + 31;
    assert DaysBeforeMonth(y, 6) == DaysBeforeMonth(y, 5) + 31;
    assert DaysBeforeMonth(y, 8) == DaysBeforeMonth(y, 7) + 31;
    assert DaysBeforeMonth(y, 10) == DaysBeforeMonth(y, 9) + 30;
    assert DaysBeforeMonth(y, 12) == DaysBeforeMonth(y, 11) + 30;
  }

  lemma NextDayOrdinal(d: Date)
    ensures Ordinal(NextDay(d)) == Ordinal(d) + 1
  {
    YearLength(d.year);
    MonthTable(d.year);
  }

  lemma PreviousDayOrdinal(d: Date)
    ensures Ordinal(PreviousDay(d)) == Ordinal(d) - 1
  {
    YearLength(d.year - 1);
    MonthTable(d.year - 1);
  }

  /** Adding days moves the ordinal by exactly that many, across months, years and leap days. */
  lemma {:induction false} AddDaysOrdinal(d: Date, n: int)
    ensures Ordinal(AddDays(d, n)) == Ordinal(d) + n
    decreases if n < 0 then -n else n
  {
    if n > 0 {
      NextDayOrdinal(d);
      AddDaysOrdinal(NextDay(d), n - 1);
    } else if n < 0 {
      PreviousDayOrdinal(d);
      AddDaysOrdinal(PreviousDay(d), n + 1);
    }
  }

  /** Python's comparison of dates: year first, then month, then day. */
  predicate Before(a: Date, b: Date) {
    a.year < b.year || (a.year == b.year && (a.month < b.month || (a.month == b.month && a.day < b.day)))
  }

  lemma {:induction false} YearsGrow(y: int, n: nat)
    ensures DaysBeforeYear(y + n) >= DaysBeforeYear(y) + 365 * n
  {
    if n > 0 {
      YearsGrow(y, n - 1);
      YearLength(y + n - 1);
    }
  }

  lemma {:induction false} MonthsGrow(y: int, m: int, n: nat)
    requires 1 <= m <= m + n <= 13
    ensures DaysBeforeMonth(y, m + n) >= DaysBeforeMonth(y, m) + 28 * n
  {
    if n > 0 {
      MonthsGrow(y, m, n - 1);
    }
  }

  lemma DayOfYearInYear(d: Date)
    ensures 0 < Ordinal(d) - DaysBeforeYear(d.year) <= DaysBeforeYear(d.year + 1) - DaysBeforeYear(d.year)
  {
    YearLength(d.year);
    MonthTable(d.year);
  }

  lemma OrdinalGrows(a: Date, b: Date)
    requires Before(a, b)
    ensures Ordinal(a) < Ordinal(b)
  {
    if a.year < b.year {
      DayOfYearInYear(a);
      DayOfYearInYear(b);
      YearsGrow(a.year + 1, b.year - a.year - 1);
    } else if a.month < b.month {
      MonthsGrow(a.year, a.month + 1, b.month - a.month - 1);
      assert DaysBeforeMonth(a.year, a.month + 1) == DaysBeforeMonth(a.year, a.month) + DaysInMonth(a.year, a.month);
    }
  }

  /** The ordinal numbers the dates in calendar order, one number a date. */
  lemma OrdinalIsOrder(a: Date, b: Date)
    ensures Before(a, b) <==> Ordinal(a) < Ordinal(b)
    ensures a == b <==> Ordinal(a) == Ordinal(b)
  {
    if Before(a, b) {
      OrdinalGrows(a, b);
    } else if Before(b, a) {
      OrdinalGrows(b, a);
    }
  }

  // ------------------------------------------------------------ dates with a time

  const SECOND := 1_000_000
  const MINUTE := 60_000_000
  const HOUR := 3_600_000_000
  const DAY := 86_400_000_000

  /** A naive datetime: a date and the microseconds since its midnight. */
  datatype RawDateTime = DateTime(date: Date, time: int)

  type DateTime = t: RawDateTime | 0 <= t.time < DAY witness DateTime(Date(1, 1, 1), 0)

  function Instant(t: DateTime): int {
    Ordinal(t.date) * DAY + t.time
  }

  function Midnight(t: DateTime): DateTime {
    DateTime(t.date, 0)
  }

  /** `datetime + timedelta`, in microseconds of wall-clock time. */
  function Add(t: DateTime, delta: int): DateTime {
    DateTime(AddDays(t.date, (t.time + delta) / DAY), (t.time + delta) % DAY)
  }

  /** Python's comparison: the date first, then the time of day. */
  predicate AtMost(a: DateTime, b: DateTime) {
    Before(a.date, b.date) || (a.date == b.date && a.time <= b.time)
  }

  lemma AddMovesInstant(t: DateTime, delta: int)
    ensures Instant(Add(t, delta)) == Instant(t) + delta
  {
    AddDaysOrdinal(t.date, (t.time + delta) / DAY);
  }

  /** Instants order the datetimes as Python does and tell them apart. */
  lemma InstantIsOrder(a: DateTime, b: DateTime)
    ensures AtMost(a, b) <==> Instant(a) <= Instant(b)
    ensures a == b <==> Instant(a) == Instant(b)
  {
    OrdinalIsOrder(a.date, b.date);
  }

  lemma AddTwice(t: DateTime, d1: int, d2: int)
    ensures Add(Add(t, d1), d2) == Add(t, d1 + d2)
    ensures Add(t, 0) == t
  {
    AddMovesInstant(t, d1);
    AddMovesInstant(Add(t, d1), d2);
    AddMovesInstant(t, d1 + d2);
    InstantIsOrder(Add(Add(t, d1), d2), Add(t, d1 + d2));
  }

  /** What a clock shows a step of less than a day later. */
  function LaterByClock(t: DateTime, step: int): DateTime
    requires 0 < step < 86_400_000_000
  {
    if t.time + step < 86_400_000_000 then DateTime(t.date, t.time + step)
    else DateTime(NextDay(t.date), t.time + step - 86_400_000_000)
  }

  lemma ClockStep(t: DateTime, step: int)
    requires 0 < step < 86_400_000_000
    ensures Add(t, step) == LaterByClock(t, step)
  {
    AddMovesInstant(t, step);
    NextDayOrdinal(t.date);
    InstantIsOrder(Add(t, step), LaterByClock(t, step));
  }

  /** Sundays of the actual calendar, in a common, a century, a leap century and a leap year. */
  lemma SundaysAreDated()
    ensures Weekday(Date(2023, 1, 1)) == Weekday(Date(1900, 1, 7)) == 6
    ensures Weekday(Date(2000, 3, 5)) == Weekday(Date(2024, 12, 29)) == 6
  {
    MonthTable(2000);
    MonthTable(2024);
  }

  /** February has 29 days in every fourth year but three centuries out of four. */
  lemma LeapDaysAreDated()
    ensures NextDay(Date(1900, 2, 28)) == Date(1900, 3, 1) && NextDay(Date(2023, 2, 28)) == Date(2023, 3, 1)
    ensures NextDay(Date(2000, 2, 28)).day == NextDay(Date(2024, 2, 28)).day == 29
  {
  }

  lemma AddWholeDays(t: DateTime, n: int)
    ensures Add(t, n * DAY) == DateTime(AddDays(t.date, n), t.time)
    ensures Ordinal(Add(t, n * DAY).date) == Ordinal(t.date) + n
  {
    assert (t.time + n * DAY) / DAY == n;
    assert (t.time + n * DAY) % DAY == t.time;
    AddDaysOrdinal(t.date, n);
  }

  // --------------------------------------------------------------------- months

  /** Months numbered consecutively across years. */
  function MonthIndex(d: Date): int {
    12 * d.year + d.month - 1
  }

  function FirstOf(month: int): Date {
    Date(month / 12, month % 12 + 1, 1)
  }

  lemma MonthIndexRoundTrip(month: int, d: Date)
    ensures MonthIndex(FirstOf(month)) == month
    ensures FirstOf(MonthIndex(d)) == Date(d.year, d.month, 1)
  {
  }

  lemma MonthIndexIsOrder(month: int, d: Date)
    ensures !Before(d, FirstOf(month)) <==> month <= MonthIndex(d)
  {
  }

  /** The first of the next month is this month's length away. */
  lemma FirstOfNext(month: int)
    ensures Ordinal(FirstOf(month + 1)) == Ordinal(FirstOf(month)) + DaysInMonth(month / 12, month % 12 + 1)
  {
    var y, m := month / 12, month % 12 + 1;
    MonthTable(y);
    YearLength(y);
    if m < 12 {
      assert (month + 1) / 12 == y && (month + 1) % 12 + 1 == m + 1;
    } else {
      assert (month + 1) / 12 == y + 1 && (month + 1) % 12 == 0;
    }
  }

  /** 31 days after the first of a month is always one of the first four days of the next month. */
  lemma ThirtyOneDaysLater(month: int)
    ensures var d := AddDays(FirstOf(month), 31);
            MonthIndex(d) == month + 1 && d.day <= 4
  {
    var d := AddDays(FirstOf(month), 31);
    AddDaysOrdinal(FirstOf(month), 31);
    FirstOfNext(month);
    var next := FirstOf(month + 1);
    var k := Ordinal(d) - Ordinal(next);
    var target := Date(next.year, next.month, 1 + k);
    assert Ordinal(target) == Ordinal(next) + k;
    OrdinalIsOrder(target, d);
  }
}
