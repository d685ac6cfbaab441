/** `CalendarGridView`'s logic: which dates a mode shows, the colour-driving
    dominant gender of a day, the logs gathered for the inline detail view,
    and swipe navigation.  The platform calendar's answers (the week and
    month intervals holding the selected date, month arithmetic) arrive as
    arguments. */
module CalendarGrid {
  import opened Wrappers
  import opened Gender
  import opened IdentityLog
  import opened Grouping
  import opened Tracker
  import opened CalendarDates

  datatype CalendarMode = Day | Week | Month

  /** `visibleDates`: the selected date alone, or every day of the week or
      month interval holding it (nothing when the calendar has none). */
  method VisibleDates(mode: CalendarMode, selected: int, weekOf: Option<Interval>, monthOf: Option<Interval>)
    returns (dates: seq<int>)
    ensures mode == Day ==> dates == [selected]
    ensures mode == Week && weekOf.None? ==> dates == []
    ensures mode == Week && weekOf.Some? ==>
              dates == Steps(weekOf.value.start, DaysBefore(weekOf.value.start, weekOf.value.end))
    ensures mode == Month && monthOf.None? ==> dates == []
    ensures mode == Month && monthOf.Some? ==>
              dates == Steps(monthOf.value.start, DaysBefore(monthOf.value.start, monthOf.value.end))
  {
    match mode
    case Day =>
      dates := [selected];
    case Week =>
      if weekOf.None? {
        dates := [];
      } else {
        dates := GenerateDates(weekOf.value);
      }
    case Month =>
      if monthOf.None? {
        dates := [];
      } else {
        dates := GenerateDates(monthOf.value);
      }
  }

  /** For a seven-day week interval the grid's week row and
      `datesForWeek(containing:)` list the same dates. */
  lemma WeekListingsAgree(week: Interval)
    requires week.end == Shift(week.start, 7)
    ensures Steps(week.start, DaysBefore(week.start, week.end)) == DatesForWeek(Some(week))
  {
    WholeDays(week.start, 7);
  }

  /** `dominantGender(on:)`: the mode of the day's logs, counted through
      `mapValues`, which keeps the grouped dictionary's key order. */
  function DominantGender(t: GenderTracker, date: int, order: seq<SharkGender>): (r: Option<SharkGender>)
    requires IsKeyOrder(order)
    ensures r.None? <==> LogsFor(t.logs, date) == []
    ensures r.Some? ==> CountOf(LogsFor(t.logs, date), r.value) >= 1
    ensures r.Some? ==> forall h :: CountOf(LogsFor(t.logs, date), h) <= CountOf(LogsFor(t.logs, date), r.value)
  {
    Mode(LogsFor(t.logs, date), order)
  }

  /** The grid colour and the tracking tab's summary agree whenever the day
      has a unique most frequent gender, even if the two dictionaries are
      visited in different orders. */
  lemma DominantMatchesMostFrequent(t: GenderTracker, date: int, o1: seq<SharkGender>, o2: seq<SharkGender>)
    requires IsKeyOrder(o1) && IsKeyOrder(o2)
    requires forall g, h :: g != h && CountOf(LogsFor(t.logs, date), g) >= 1 ==>
               CountOf(LogsFor(t.logs, date), g) != CountOf(LogsFor(t.logs, date), h)
    ensures DominantGender(t, date, o1) == MostFrequentGender(t, date, o2)
  {
  }

  /** `dates.flatMap { tracker.logs(for: $0) }`: the logs gathered for the
      week and month detail views. */
  function WindowLogs(logs: seq<LogEntry>, dates: seq<int>): (r: seq<LogEntry>)
    ensures forall e :: e in r ==> e in logs && exists i :: 0 <= i < |dates| && SameDay(e.timestamp, dates[i])
    ensures forall e, i :: e in logs && 0 <= i < |dates| && SameDay(e.timestamp, dates[i]) ==> e in r
  {
    if |dates| == 0 then []
    else
      var head := LogsFor(logs, dates[0]);
      var rest := WindowLogs(logs, dates[1..]);
      assert forall i :: 0 < i < |dates| ==> dates[i] == dates[1..][i - 1];
      assert forall e :: e in head <==> e in logs && SameDay(e.timestamp, dates[0]) by {
        forall e ensures e in head <==> e in logs && SameDay(e.timestamp, dates[0]) {
          LogsForMembers(logs, dates[0], e);
        }
      }
      head + rest
  }

  /** With the as-written month listing, the month detail of a month that
      starts at midnight also gathers the logs of the next month's first day. */
  lemma MonthDetailLeaks(logs: seq<LogEntry>, month: Interval, n: nat, e: LogEntry)
    requires month.start % 86400 == 0 && month.end == Shift(month.start, n)
    requires e in logs && SameDay(e.timestamp, month.end)
    ensures e.timestamp >= month.end
    ensures e in WindowLogs(logs, Steps(month.start, DaysThrough(month.start, month.end)))
  {
    WholeDays(month.start, n);
    var dates := Steps(month.start, DaysThrough(month.start, month.end));
    assert dates[n] == month.end;
    assert DayOf(month.end) * 86400 == month.end;
  }

  /** With the listing that stops before the end, every gathered log lies
      inside a month that starts at midnight. */
  lemma MonthDetailContained(logs: seq<LogEntry>, month: Interval, n: nat, e: LogEntry)
    requires month.start % 86400 == 0 && month.end == Shift(month.start, n)
    requires e in WindowLogs(logs, Steps(month.start, DaysBefore(month.start, month.end)))
    ensures month.start <= e.timestamp < month.end
  {
    WholeDays(month.start, n);
    var dates := Steps(month.start, DaysBefore(month.start, month.end));
    var i :| 0 <= i < |dates| && SameDay(e.timestamp, dates[i]);
    DayOfShift(month.start, i);
    var day := DayOf(e.timestamp);
    assert day == month.start / 86400 + i;
    assert day * 86400 == month.start + i * 86400;
  }

  lemma DayOfShift(start: int, k: int)
    requires start % 86400 == 0
    ensures DayOf(Shift(start, k)) == start / 86400 + k
  {
  }

  /** `previousDate()`: one day or one week earlier, or the calendar's
      answer for one month earlier. */
  function PreviousDate(mode: CalendarMode, selected: int, addMonths: (int, int) -> int): (r: int)
    ensures mode == Day ==> DayOf(r) == DayOf(selected) - 1 && r % 86400 == selected % 86400
    ensures mode == Week ==> DayOf(r) == DayOf(selected) - 7 && r % 86400 == selected % 86400
    ensures mode == Month ==> r == addMonths(selected, -1)
  {
    match mode
    case Day => Shift(selected, -1)
    case Week => Shift(selected, -7)
    case Month => addMonths(selected, -1)
  }

  /** `nextDate()`: one day or one week later, or the calendar's answer for
      one month later. */
  function NextDate(mode: CalendarMode, selected: int, addMonths: (int, int) -> int): (r: int)
    ensures mode == Day ==> DayOf(r) == DayOf(selected) + 1 && r % 86400 == selected % 86400
    ensures mode == Week ==> DayOf(r) == DayOf(selected) + 7 && r % 86400 == selected % 86400
    ensures mode == Month ==> r == addMonths(selected, 1)
  {
    match mode
    case Day => Shift(selected, 1)
    case Week => Shift(selected, 7)
    case Month => addMonths(selected, 1)
  }

  /** In day and week mode a swipe one way undoes a swipe the other way. */
  lemma NavigationRoundTrip(mode: CalendarMode, selected: int, addMonths: (int, int) -> int)
    requires mode != Month
    ensures NextDate(mode, PreviousDate(mode, selected, addMonths), addMonths) == selected
    ensures PreviousDate(mode, NextDate(mode, selected, addMonths), addMonths) == selected
  {
  }
}
