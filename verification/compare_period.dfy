/**
`get_compare_period_dates`: the earlier period a chart is compared with, in naive wall-clock
time. The theorems give its length, its alignment and exactly when it overlaps the current one.
*/
module ComparePeriod {
  import opened Options
  import opened Calendar

  datatype Period = Period(from: DateTime, to: DateTime)

  /** `replace(hour=, minute=, second=, microsecond=)` with another datetime's time of day. */
  function ReplaceTime(t: DateTime, other: DateTime): DateTime {
    DateTime(t.date, other.time)
  }

  /** `replace(minute=, second=, microsecond=)`: the hour stays. */
  function ReplaceMinutes(t: DateTime, other: DateTime): DateTime {
    DateTime(t.date, t.time / HOUR * HOUR + other.time % HOUR)
  }

  /** The `-7d` special case: a relative start a multiple of seven days back, and no relative end. */
  predicate WholeWeeks(fromDelta: Option<map<string, int>>, toDelta: Option<map<string, int>>, interval: string) {
    && interval == "day"
    && fromDelta.Some? && "days" in fromDelta.value
    && fromDelta.value["days"] != 0 && fromDelta.value["days"] % 7 == 0
    && (toDelta.None? || toDelta.value == map[])
  }

  function Length(p: Period): int {
    Instant(p.to) - Instant(p.from)
  }

  /** The start moved back by the length, at the original time of day, a day later for whole weeks. */
  function AlignedStart(p: Period, weeks: bool): DateTime {
    var aligned := ReplaceTime(Add(p.from, -Length(p)), p.from);
    if weeks then Add(aligned, DAY) else aligned
  }

  function PreviousPeriod(p: Period, fromDelta: Option<map<string, int>>, toDelta: Option<map<string, int>>,
                          interval: string): Period {
    if interval == "hour" then
      var from := AlignedStart(p, false);
      Period(from, ReplaceMinutes(Add(from, Length(p)), p.to))
    else if interval != "minute" then
      var from := AlignedStart(p, WholeWeeks(fromDelta, toDelta, interval));
      Period(from, ReplaceTime(Add(from, Length(p)), p.to))
    else
      Period(Add(p.from, -Length(p)), p.from)
  }

  /** How many days back an aligned period starts: enough to cover the length, one fewer for whole weeks. */
  function DaysBack(p: Period, weeks: bool): int {
    Ordinal(p.from.date) - Ordinal(Add(p.from, -Length(p)).date) - if weeks then 1 else 0
  }

  lemma ShiftedBy(t: DateTime, u: DateTime, delta: int)
    ensures u == Add(t, delta) <==> Instant(u) == Instant(t) + delta
  {
    AddMovesInstant(t, delta);
    InstantIsOrder(u, Add(t, delta));
  }

  lemma SameRemainder(x: int, s: int, y: int, t: int)
    requires x * DAY + s == y * DAY + t && 0 <= s < DAY && 0 <= t < DAY
    ensures s == t
  {
  }

  lemma SameTimeOfDay(a: DateTime, b: DateTime, n: int)
    requires Instant(a) == Instant(b) - n * DAY
    ensures ReplaceTime(a, b) == a && ReplaceMinutes(a, b) == a
  {
    SameRemainder(Ordinal(a.date), a.time, Ordinal(b.date) - n, b.time);
  }

  lemma StartIsAligned(p: Period, weeks: bool)
    ensures Instant(AlignedStart(p, weeks)) == Instant(p.from) - DaysBack(p, weeks) * DAY
  {
    AddMovesInstant(ReplaceTime(Add(p.from, -Length(p)), p.from), DAY);
  }

  /** A start moved by whole days plus the length is the end moved by as many days, so `replace` changes nothing. */
  lemma EndIsAligned(p: Period, from: DateTime, n: int)
    requires Instant(from) == Instant(p.from) - n * DAY
    ensures var end := Add(from, Length(p));
            && Instant(end) == Instant(p.to) - n * DAY
            && ReplaceTime(end, p.to) == end && ReplaceMinutes(end, p.to) == end
  {
    AddMovesInstant(from, Length(p));
    SameTimeOfDay(Add(from, Length(p)), p.to, n);
  }

  lemma MovedBackInstants(
    p: Period, fromDelta: Option<map<string, int>>, toDelta: Option<map<string, int>>, interval: string)
    requires interval != "minute"
    ensures var q := PreviousPeriod(p, fromDelta, toDelta, interval);
            var n := DaysBack(p, WholeWeeks(fromDelta, toDelta, interval));
            Instant(q.from) == Instant(p.from) - n * DAY && Instant(q.to) == Instant(p.to) - n * DAY
  {
    var weeks := WholeWeeks(fromDelta, toDelta, interval);
    StartIsAligned(p, weeks);
    EndIsAligned(p, AlignedStart(p, weeks), DaysBack(p, weeks));
  }

  /** For every interval but minutes the previous period is the current one, moved back by whole days. */
  lemma MovedBackWholeDays(
    p: Period, fromDelta: Option<map<string, int>>, toDelta: Option<map<string, int>>, interval: string)
    requires interval != "minute"
    ensures var q := PreviousPeriod(p, fromDelta, toDelta, interval);
            var n := DaysBack(p, WholeWeeks(fromDelta, toDelta, interval));
            q == Period(Add(p.from, -n * DAY), Add(p.to, -n * DAY))
  {
    var n := DaysBack(p, WholeWeeks(fromDelta, toDelta, interval));
    var q := PreviousPeriod(p, fromDelta, toDelta, interval);
    MovedBackInstants(p, fromDelta, toDelta, interval);
    ShiftedBy(p.from, q.from, -n * DAY);
    ShiftedBy(p.to, q.to, -n * DAY);
  }

  /** The previous period is exactly as long as the current one, for every interval and every input. */
  lemma SameLength(p: Period, fromDelta: Option<map<string, int>>, toDelta: Option<map<string, int>>, interval: string)
    ensures Length(PreviousPeriod(p, fromDelta, toDelta, interval)) == Length(p)
  {
    if interval == "minute" {
      AddMovesInstant(p.from, -Length(p));
    } else {
      MovedBackInstants(p, fromDelta, toDelta, interval);
    }
  }

  /** Minutes: the previous period ends where the current one starts. */
  lemma MinutesAbut(p: Period, fromDelta: Option<map<string, int>>, toDelta: Option<map<string, int>>)
    ensures var q := PreviousPeriod(p, fromDelta, toDelta, "minute");
            q.to == p.from && Instant(q.from) == Instant(p.from) - Length(p)
  {
    AddMovesInstant(p.from, -Length(p));
  }

  lemma ShiftAgainstLength(p: Period, weeks: bool)
    ensures DaysBack(p, weeks) * DAY >= Length(p) <==> !weeks && p.from.time <= Add(p.from, -Length(p)).time
  {
    AddMovesInstant(p.from, -Length(p));
  }

  /**
   The previous period ends no later than the current one starts exactly when the whole-weeks
   case does not apply and cutting the shifted start to the original time of day moves it back.
   */
  lemma EndsBeforeExactlyWhen(
    p: Period, fromDelta: Option<map<string, int>>, toDelta: Option<map<string, int>>, interval: string)
    requires interval != "minute"
    ensures AtMost(PreviousPeriod(p, fromDelta, toDelta, interval).to, p.from) <==>
            !WholeWeeks(fromDelta, toDelta, interval) && p.from.time <= Add(p.from, -Length(p)).time
  {
    var weeks := WholeWeeks(fromDelta, toDelta, interval);
    var q := PreviousPeriod(p, fromDelta, toDelta, interval);
    MovedBackInstants(p, fromDelta, toDelta, interval);
    InstantIsOrder(q.to, p.from);
    ShiftAgainstLength(p, weeks);
  }

  /** The two half-open periods have some moment in common. */
  predicate Overlaps(q: Period, p: Period) {
    Instant(q.from) < Instant(p.to) && Instant(p.from) < Instant(q.to)
  }

  /** A shift back by whole days leaves an overlap exactly when it is shorter than the period, either way. */
  lemma OverlapIsShortShift(
    p: Period, fromDelta: Option<map<string, int>>, toDelta: Option<map<string, int>>, interval: string)
    requires interval != "minute"
    ensures Overlaps(PreviousPeriod(p, fromDelta, toDelta, interval), p) <==>
            -Length(p) < DaysBack(p, WholeWeeks(fromDelta, toDelta, interval)) * DAY < Length(p)
  {
    MovedBackInstants(p, fromDelta, toDelta, interval);
  }

  lemma ShortShift(p: Period, weeks: bool)
    ensures var start := Add(p.from, -Length(p));
            -Length(p) < DaysBack(p, weeks) * DAY < Length(p) <==>
            && Length(p) > 0
            && if weeks then Ordinal(start.date) < Ordinal(p.from.date) else start.time < p.from.time
  {
    AddMovesInstant(p.from, -Length(p));
  }

  /**
   The periods overlap exactly when the current one is not empty and its start, moved back by the
   length, is at an earlier time of day; for whole weeks, when it is on an earlier day. Minutes never do.
   */
  lemma OverlapsExactlyWhen(
    p: Period, fromDelta: Option<map<string, int>>, toDelta: Option<map<string, int>>, interval: string)
    ensures var start := Add(p.from, -Length(p));
            Overlaps(PreviousPeriod(p, fromDelta, toDelta, interval), p) <==>
            && interval != "minute" && Length(p) > 0
            && if WholeWeeks(fromDelta, toDelta, interval) then Ordinal(start.date) < Ordinal(p.from.date)
               else start.time < p.from.time
  {
    if interval == "minute" {
      MinutesAbut(p, fromDelta, toDelta);
    } else {
      OverlapIsShortShift(p, fromDelta, toDelta, interval);
      ShortShift(p, WholeWeeks(fromDelta, toDelta, interval));
    }
  }

  lemma DayAndHourBack(t: DateTime)
    requires t.time == 12 * HOUR
    ensures Add(t, -25 * HOUR).time == 11 * HOUR
  {
    var start := Add(t, -25 * HOUR);
    AddMovesInstant(t, -25 * HOUR);
    SameRemainder(Ordinal(start.date), start.time, Ordinal(t.date) - 1, 11 * HOUR);
  }

  /** A period of 25 hours overlaps the one it is compared with. */
  lemma TwentyFiveHoursOverlap()
    ensures var p := Period(DateTime(Date(2024, 1, 1), 12 * HOUR), DateTime(Date(2024, 1, 2), 13 * HOUR));
            Overlaps(PreviousPeriod(p, None, None, "day"), p)
  {
    var day := Date(2024, 1, 1);
    var p := Period(DateTime(day, 12 * HOUR), DateTime(Date(2024, 1, 2), 13 * HOUR));
    NextDayOrdinal(day);
    assert NextDay(day) == p.to.date;
    assert Length(p) == 25 * HOUR;
    DayAndHourBack(p.from);
    OverlapsExactlyWhen(p, None, None, "day");
  }

  lemma AddTells(t: DateTime, d1: int, d2: int)
    requires Add(t, d1) == Add(t, d2)
    ensures d1 == d2
  {
    AddMovesInstant(t, d1);
    AddMovesInstant(t, d2);
  }

  lemma StaysWithinDay(p: Period)
    ensures Add(p.from, -Length(p)).date == p.from.date <==> DaysBack(p, true) == -1
  {
    OrdinalIsOrder(Add(p.from, -Length(p)).date, p.from.date);
  }

  /** Whole weeks with a length that stays within the day: the "previous" period is the one a day later. */
  lemma WholeWeeksMayMoveLater(p: Period, fromDelta: Option<map<string, int>>, toDelta: Option<map<string, int>>)
    requires WholeWeeks(fromDelta, toDelta, "day")
    ensures Add(p.from, -Length(p)).date == p.from.date <==>
            PreviousPeriod(p, fromDelta, toDelta, "day") == Period(Add(p.from, DAY), Add(p.to, DAY))
  {
    MovedBackWholeDays(p, fromDelta, toDelta, "day");
    if Add(p.from, -DaysBack(p, true) * DAY) == Add(p.from, DAY) {
      AddTells(p.from, -DaysBack(p, true) * DAY, DAY);
    }
    StaysWithinDay(p);
  }

  /** From a midnight start the periods never overlap, outside the whole-weeks case. */
  lemma {:induction false} MidnightStartNeverOverlaps(
    p: Period, fromDelta: Option<map<string, int>>, toDelta: Option<map<string, int>>, interval: string)
    requires p.from.time == 0 && !WholeWeeks(fromDelta, toDelta, interval)
    ensures AtMost(PreviousPeriod(p, fromDelta, toDelta, interval).to, p.from)
  {
    if interval != "minute" {
      EndsBeforeExactlyWhen(p, fromDelta, toDelta, interval);
    }
  }

  lemma DaysBackOfWeeks(p: Period, n: int)
    requires p.from.time == 0 && Ordinal(p.to.date) == Ordinal(p.from.date) + n
    ensures DaysBack(p, true) == if p.to.time > 0 then n else n - 1
  {
    var start := Add(p.from, -Length(p));
    AddMovesInstant(p.from, -Length(p));
    assert Ordinal(start.date) * DAY + start.time == (Ordinal(p.from.date) - n) * DAY - p.to.time;
  }

  /**
   Whole weeks from a midnight start to a date n days later: the previous period is the current
   one moved back n days, or only n - 1 days when the end is a midnight too.
   */
  lemma WholeWeeksAlign(p: Period, n: int, fromDelta: Option<map<string, int>>, toDelta: Option<map<string, int>>)
    requires WholeWeeks(fromDelta, toDelta, "day")
    requires p.from.time == 0 && Ordinal(p.to.date) == Ordinal(p.from.date) + n
    ensures var back := if p.to.time > 0 then n else n - 1;
            PreviousPeriod(p, fromDelta, toDelta, "day") == Period(Add(p.from, -back * DAY), Add(p.to, -back * DAY))
  {
    DaysBackOfWeeks(p, n);
    MovedBackWholeDays(p, fromDelta, toDelta, "day");
  }

  lemma DaysBackOtherwise(p: Period, n: int)
    requires p.from.time == 0 && Ordinal(p.to.date) == Ordinal(p.from.date) + n
    ensures DaysBack(p, false) == if p.to.time > 0 then n + 1 else n
  {
    DaysBackOfWeeks(p, n);
  }

  /**
   From a midnight start to a time on the n-th day after, the previous period is the current one moved back n days
   for a chart by days over a relative start a non-zero multiple of seven days back without a relative end, and
   n + 1 days for every other chart but one by minutes.
   */
  lemma WeeksAlignExactlyWhen(
    p: Period, n: int, fromDelta: Option<map<string, int>>, toDelta: Option<map<string, int>>, interval: string)
    requires interval != "minute" && p.from.time == 0 && p.to.time > 0
    requires Ordinal(p.to.date) == Ordinal(p.from.date) + n
    ensures var weeks :=
              && interval == "day"
              && fromDelta.Some? && "days" in fromDelta.value
              && fromDelta.value["days"] != 0 && fromDelta.value["days"] % 7 == 0
              && (toDelta == None || toDelta == Some(map[]));
            var back := if weeks then n else n + 1;
            PreviousPeriod(p, fromDelta, toDelta, interval) == Period(Add(p.from, -back * DAY), Add(p.to, -back * DAY))
  {
    MovedBackWholeDays(p, fromDelta, toDelta, interval);
    if WholeWeeks(fromDelta, toDelta, interval) {
      DaysBackOfWeeks(p, n);
    } else {
      DaysBackOtherwise(p, n);
    }
  }
}
