/**
`get_daterange`: the dates of a fixed frequency between two bounds, with a month walk that
adds 31 days and snaps back to the first of the month.
*/
module DateRange {
  import opened Options
  import opened Calendar

  /** The fixed step of a frequency; an unknown frequency is a `KeyError`. */
  function Delta(frequency: string): Option<int> {
    if frequency == "second" then Some(SECOND)
    else if frequency == "minute" then Some(MINUTE)
    else if frequency == "hour" then Some(HOUR)
    else if frequency == "day" then Some(DAY)
    else if frequency == "week" then Some(7 * DAY)
    else if frequency == "month" then Some(31 * DAY)
    else None
  }

  datatype Result = KeyError | Range(dates: seq<DateTime>)

  /** Bounds are cut to midnight except for minutes and hours. */
  function Snap(frequency: string, t: DateTime): DateTime {
    if frequency != "minute" && frequency != "hour" then Midnight(t) else t
  }

  /** The first date of a range that is not monthly: weeks start on a Sunday. */
  function FirstDate(frequency: string, start: DateTime): DateTime {
    var s := Snap(frequency, start);
    if frequency == "week" then Add(s, -((Weekday(s.date) + 1) % 7) * DAY) else s
  }

  function Mul(k: int, delta: int): int { k * delta }

  /** dates is first, first + delta, first + 2 * delta, ... for as long as end is not passed. */
  ghost predicate IsProgression(dates: seq<DateTime>, first: DateTime, end: DateTime, delta: int) {
    && (forall k {:trigger dates[k]} :: 0 <= k < |dates| ==>
          dates[k] == Add(first, Mul(k, delta)) && AtMost(dates[k], end))
    && !AtMost(Add(first, Mul(|dates|, delta)), end)
  }

  function FirstOfMonth(month: int): DateTime {
    DateTime(FirstOf(month), 0)
  }

  /** The first-of-month midnights from one month to another. */
  function MonthRange(from: int, until: int): (r: seq<DateTime>)
    ensures |r| == if until < from then 0 else until - from + 1
    ensures forall k :: 0 <= k < |r| ==> r[k] == FirstOfMonth(from + k)
    decreases until - from
  {
    if until < from then [] else MonthRange(from, until - 1) + [FirstOfMonth(until)]
  }

  method GetDateRange(start: Option<DateTime>, end: Option<DateTime>, frequency: string) returns (r: Result)
    ensures r.KeyError? <==> frequency !in ["second", "minute", "hour", "day", "week", "month"]
    ensures r.Range? && (start.None? || end.None?) ==> r.dates == []
    ensures r.Range? && start.Some? && end.Some? && frequency != "month" ==>
              IsProgression(
                r.dates, FirstDate(frequency, start.value), Snap(frequency, end.value), Delta(frequency).value)
    ensures r.Range? && start.Some? && end.Some? && frequency == "month" ==>
              r.dates == MonthRange(MonthIndex(start.value.date), MonthIndex(end.value.date))
  {
    if Delta(frequency).None? {
      return KeyError;
    }
    var delta := Delta(frequency).value;
    if start.None? || end.None? {
      return Range([]);
    }
    var startDate, endDate := Snap(frequency, start.value), Snap(frequency, end.value);
    if frequency == "week" {
      startDate := Add(startDate, -((Weekday(startDate.date) + 1) % 7) * DAY);
    }
    if frequency != "month" {
      assert startDate == FirstDate(frequency, start.value);
      var dates := StepDates(startDate, endDate, delta);
      return Range(dates);
    } else {
      var dates := MonthDates(startDate, endDate);
      return Range(dates);
    }
  }

  lemma MulNext(k: nat, delta: int)
    ensures Mul(k, delta) + delta == Mul(k + 1, delta)
  {
  }

  lemma NextStep(first: DateTime, k: nat, delta: int)
    ensures Add(Add(first, Mul(k, delta)), delta) == Add(first, Mul(k + 1, delta))
    ensures Instant(Add(first, Mul(k + 1, delta))) == Instant(Add(first, Mul(k, delta))) + delta
  {
    var t := Add(first, Mul(k, delta));
    assert Add(t, delta) == Add(first, Mul(k + 1, delta)) by {
      AddTwice(first, Mul(k, delta), delta);
      MulNext(k, delta);
    }
    AddMovesInstant(t, delta);
  }

  method StepDates(first: DateTime, end: DateTime, delta: int) returns (dates: seq<DateTime>)
    requires delta > 0
    ensures IsProgression(dates, first, end, delta)
  {
    dates := [];
    var current := first;
    AddTwice(first, 0, 0);
    while AtMost(current, end)
      invariant current == Add(first, Mul(|dates|, delta))
      invariant forall k {:trigger dates[k]} :: 0 <= k < |dates| ==>
                  dates[k] == Add(first, Mul(k, delta)) && AtMost(dates[k], end)
      decreases Instant(end) - Instant(current) + 1
    {
      InstantIsOrder(current, end);
      NextStep(first, |dates|, delta);
      dates := dates + [current];
      current := Add(current, delta);
    }
  }

  function ReplaceDay(t: DateTime): DateTime {
    DateTime(Date(t.date.year, t.date.month, 1), t.time)
  }

  lemma NextMonthStart(month: int)
    ensures ReplaceDay(Add(ReplaceDay(FirstOfMonth(month)), 31 * DAY)) == FirstOfMonth(month + 1)
  {
    var later := Add(FirstOfMonth(month), 31 * DAY);
    AddWholeDays(FirstOfMonth(month), 31);
    ThirtyOneDaysLater(month);
    MonthIndexRoundTrip(month + 1, later.date);
  }

  method MonthDates(start: DateTime, end: DateTime) returns (dates: seq<DateTime>)
    requires start.time == 0 && end.time == 0
    ensures dates == MonthRange(MonthIndex(start.date), MonthIndex(end.date))
  {
    var current := start;
    if current.date.day != 1 {
      current := ReplaceDay(ReplaceDay(current));
    }
    dates := [];
    ghost var from := MonthIndex(start.date);
    ghost var month := from;
    MonthIndexRoundTrip(from, start.date);
    while AtMost(current, end)
      invariant current == FirstOfMonth(month) && month == from + |dates|
      invariant dates == MonthRange(from, month - 1)
      invariant dates != [] ==> month - 1 <= MonthIndex(end.date)
      decreases MonthIndex(end.date) - month + 1
    {
      MonthIndexIsOrder(month, end.date);
      dates := dates + [current];
      NextMonthStart(month);
      current := ReplaceDay(Add(ReplaceDay(current), 31 * DAY));
      month := month + 1;
    }
    MonthIndexIsOrder(month, end.date);
  }

  predicate IsMonthStart(t: DateTime) {
    t.date.day == 1 && t.time == 0
  }

  lemma MonthStartIsFirst(t: DateTime)
    ensures IsMonthStart(t) <==> t == FirstOfMonth(MonthIndex(t.date))
  {
    var d := t.date;
    assert (12 * d.year + d.month - 1) / 12 == d.year;
    assert (12 * d.year + d.month - 1) % 12 == d.month - 1;
  }

  lemma MonthMember(from: int, until: int, t: DateTime)
    ensures t in MonthRange(from, until) <==> IsMonthStart(t) && from <= MonthIndex(t.date) <= until
  {
    var dates := MonthRange(from, until);
    MonthStartIsFirst(t);
    if t in dates {
      var k :| 0 <= k < |dates| && dates[k] == t;
      MonthIndexRoundTrip(from + k, t.date);
    }
    if IsMonthStart(t) && from <= MonthIndex(t.date) <= until {
      assert dates[MonthIndex(t.date) - from] == FirstOfMonth(MonthIndex(t.date));
    }
  }

  lemma MonthStartInBound(t: DateTime, end: DateTime)
    requires IsMonthStart(t)
    ensures MonthIndex(t.date) <= MonthIndex(end.date) <==> AtMost(t, Midnight(end))
  {
  }

  /** A monthly range holds a datetime exactly when it is a first-of-month midnight in bounds. */
  lemma MonthRangeIsExact(start: DateTime, end: DateTime, t: DateTime)
    ensures t in MonthRange(MonthIndex(start.date), MonthIndex(end.date)) <==>
            IsMonthStart(t) && MonthIndex(start.date) <= MonthIndex(t.date) && AtMost(t, Midnight(end))
  {
    MonthMember(MonthIndex(start.date), MonthIndex(end.date), t);
    if IsMonthStart(t) {
      MonthStartInBound(t, end);
    }
  }

  /** A monthly range moves one month at a time, by that month's own length. */
  lemma {:induction false} MonthRangeSkipsNothing(from: int, until: int, k: nat)
    requires k + 1 < |MonthRange(from, until)|
    ensures var a, b := MonthRange(from, until)[k], MonthRange(from, until)[k + 1];
            && MonthIndex(b.date) == MonthIndex(a.date) + 1
            && Ordinal(b.date) == Ordinal(a.date) + DaysInMonth(a.date.year, a.date.month)
  {
    var a, b := MonthRange(from, until)[k], MonthRange(from, until)[k + 1];
    assert a == FirstOfMonth(from + k) && b == FirstOfMonth(from + k + 1);
    MonthIndexRoundTrip(from + k, a.date);
    MonthIndexRoundTrip(from + k + 1, b.date);
    FirstOfNext(from + k);
  }

  /** The first week starts on the Sunday on or before the start. */
  lemma FirstWeekIsSunday(start: DateTime)
    ensures var first := FirstDate("week", start);
            && first.time == 0 && Weekday(first.date) == 6
            && Ordinal(start.date) - 7 < Ordinal(first.date) <= Ordinal(start.date)
  {
    var back := (Weekday(start.date) + 1) % 7;
    AddWholeDays(Midnight(start), -back);
    SundayBefore(Ordinal(start.date), back);
    assert FirstDate("week", start) == Add(Midnight(start), -back * DAY);
  }

  lemma SundayBefore(ordinal: int, back: int)
    requires back == ((ordinal + 6) % 7 + 1) % 7
    ensures (ordinal - back + 6) % 7 == 6 && 0 <= back < 7
  {
  }

  lemma SameWeekday(ordinal: int, k: nat)
    ensures (ordinal + 7 * k + 6) % 7 == (ordinal + 6) % 7
  {
  }

  lemma WeeksLater(first: DateTime, k: nat)
    ensures var t := Add(first, Mul(k, 7 * DAY));
            && t.time == first.time && Ordinal(t.date) == Ordinal(first.date) + 7 * k
            && Weekday(t.date) == Weekday(first.date)
  {
    AddWholeDays(first, 7 * k);
    SameWeekday(Ordinal(first.date), k);
  }

  /** A weekly range starts on the Sunday within the seven days up to the start and stays on Sundays. */
  lemma WeeksAreSundays(start: DateTime, end: DateTime, dates: seq<DateTime>, k: nat)
    requires IsProgression(dates, FirstDate("week", start), Snap("week", end), Delta("week").value)
    requires k < |dates|
    ensures Weekday(dates[k].date) == 6 && dates[k].time == 0
    ensures Ordinal(start.date) - 7 + 7 * k < Ordinal(dates[k].date) <= Ordinal(start.date) + 7 * k
  {
    var first := FirstDate("week", start);
    FirstWeekIsSunday(start);
    assert dates[k] == Add(first, Mul(k, 7 * DAY));
    WeeksLater(first, k);
  }

  lemma MulGrows(n: nat, k: nat, delta: int)
    requires delta > 0 && n <= k
    ensures Mul(n, delta) <= Mul(k, delta)
  {
    assert Mul(k, delta) - Mul(n, delta) == (k - n) * delta;
  }

  lemma LaterStepsAreLater(first: DateTime, end: DateTime, delta: int, n: nat, k: nat)
    requires delta > 0 && n <= k && !AtMost(Add(first, Mul(n, delta)), end)
    ensures !AtMost(Add(first, Mul(k, delta)), end)
  {
    MulGrows(n, k, delta);
    var a, b := Add(first, Mul(n, delta)), Add(first, Mul(k, delta));
    assert Instant(a) <= Instant(b) by {
      AddMovesInstant(first, Mul(n, delta));
      AddMovesInstant(first, Mul(k, delta));
    }
    InstantIsOrder(a, end);
    InstantIsOrder(b, end);
  }

  /** A range that is not monthly misses no step: it holds first + k * delta exactly when that is in bounds. */
  lemma ProgressionIsExact(dates: seq<DateTime>, first: DateTime, end: DateTime, delta: int, k: nat)
    requires delta > 0 && IsProgression(dates, first, end, delta)
    ensures k < |dates| <==> AtMost(Add(first, Mul(k, delta)), end)
  {
    if k < |dates| {
      assert dates[k] == Add(first, Mul(k, delta));
    } else {
      LaterStepsAreLater(first, end, delta, |dates|, k);
    }
  }

  /** A daily range visits every calendar day, at midnight. */
  lemma DaysAreConsecutive(start: DateTime, end: DateTime, dates: seq<DateTime>, k: nat)
    requires IsProgression(dates, FirstDate("day", start), Snap("day", end), Delta("day").value)
    requires k + 1 < |dates|
    ensures dates[k + 1] == DateTime(NextDay(dates[k].date), 0)
  {
    var first := FirstDate("day", start);
    assert dates[k] == Add(first, Mul(k, DAY)) && dates[k + 1] == Add(first, Mul(k + 1, DAY));
    NextStep(first, k, DAY);
    AddWholeDays(first, k);
    AddWholeDays(dates[k], 1);
    assert AddDays(dates[k].date, 1) == NextDay(dates[k].date);
  }

  lemma FirstIsStart(start: DateTime, frequency: string)
    requires frequency == "second" || frequency == "minute" || frequency == "hour"
    ensures FirstDate(frequency, start) == if frequency == "second" then DateTime(start.date, 0) else start
    ensures Snap(frequency, start) == if frequency == "second" then DateTime(start.date, 0) else start
  {
  }

  /** Ranges by hours and minutes start at the start, those by seconds at its midnight, and go by the clock. */
  lemma StepsByClock(
    start: DateTime, end: DateTime, frequency: string, step: int, dates: seq<DateTime>, k: nat)
    requires || (frequency == "second" && step == 1_000_000)
             || (frequency == "minute" && step == 60_000_000)
             || (frequency == "hour" && step == 3_600_000_000)
    requires IsProgression(dates, FirstDate(frequency, start), Snap(frequency, end), Delta(frequency).value)
    ensures dates != [] ==> dates[0] == if frequency == "second" then DateTime(start.date, 0) else start
    ensures k + 1 < |dates| ==> dates[k + 1] == LaterByClock(dates[k], step)
  {
    var first := FirstDate(frequency, start);
    FirstIsStart(start, frequency);
    AddTwice(first, 0, 0);
    if dates != [] {
      assert dates[0] == Add(first, Mul(0, step));
    }
    if k + 1 < |dates| {
      assert dates[k] == Add(first, Mul(k, step)) && dates[k + 1] == Add(first, Mul(k + 1, step));
      NextStep(first, k, step);
      ClockStep(dates[k], step);
    }
  }
}
