/** The `Calendar` extension that lists the days of a window.  Instants
    are whole seconds and adding one day adds 86400 seconds, so daylight
    saving shifts are not represented. */
module CalendarDates {
  import opened Wrappers

  /** A `DateInterval`: the instants from `start` up to, not including, `end`. */
  datatype Interval = Interval(start: int, end: int)

  /** `date(byAdding: .day, value: days, to: t)`. */
  function Shift(t: int, days: int): int
  {
    t + days * 86400
  }

  /** `n` instants one day apart, the first being `start`. */
  function Steps(start: int, n: nat): (r: seq<int>)
    ensures |r| == n
    ensures forall i :: 0 <= i < n ==> r[i] == Shift(start, i)
  {
    if n == 0 then [] else Steps(start, n - 1) + [Shift(start, n - 1)]
  }

  /** The number of whole-day steps from `start` that stay before `end`. */
  function DaysBefore(start: int, end: int): (n: nat)
    ensures forall k: nat :: Shift(start, k) < end <==> k < n
  {
    if end <= start then 0 else (end - start - 1) / 86400 + 1
  }

  /** The number of whole-day steps from `start` that reach at most `end`. */
  function DaysThrough(start: int, end: int): (n: nat)
    ensures forall k: nat :: Shift(start, k) <= end <==> k < n
  {
    if end < start then 0 else (end - start) / 86400 + 1
  }

  /** `generateDates(in:)`: step a day at a time from the start while the
      current instant is before the end. */
  method GenerateDates(interval: Interval) returns (dates: seq<int>)
    ensures dates == Steps(interval.start, DaysBefore(interval.start, interval.end))
    ensures forall i :: 0 <= i < |dates| ==> interval.start <= dates[i] < interval.end
    ensures |dates| > 0 ==> dates[0] == interval.start
    ensures forall i :: 0 < i < |dates| ==> dates[i] == Shift(dates[i - 1], 1)
    ensures interval.end <= interval.start <==> dates == []
  {
    dates := [];
    var current := interval.start;
    while current < interval.end
      invariant current == Shift(interval.start, |dates|)
      invariant dates == Steps(interval.start, |dates|)
      invariant |dates| <= DaysBefore(interval.start, interval.end)
      decreases interval.end - current
    {
      dates := dates + [current];
      current := Shift(current, 1);
    }
  }

  /** `datesForWeek(containing:)`: seven consecutive days from the start of
      the week interval, or nothing when the calendar has no such interval. */
  function DatesForWeek(week: Option<Interval>): (dates: seq<int>)
    ensures week.None? ==> dates == []
    ensures week.Some? ==> |dates| == 7 && dates[0] == week.value.start
    ensures forall i :: 0 < i < |dates| ==> dates[i] == Shift(dates[i - 1], 1)
  {
    match week
    case None => []
    case Some(interval) => Steps(interval.start, 7)
  }

  /** `datesForMonth(containing:)` as written: the loop runs while the
      current instant is at most the end, so the end itself is listed when
      it is a whole number of days after the start. */
  method DatesForMonth(month: Option<Interval>) returns (dates: seq<int>)
    ensures month.None? ==> dates == []
    ensures month.Some? ==> dates == Steps(month.value.start, DaysThrough(month.value.start, month.value.end))
    ensures month.Some? ==> forall i :: 0 <= i < |dates| ==> month.value.start <= dates[i] <= month.value.end
  {
    match month
    case None =>
      dates := [];
    case Some(interval) =>
      dates := [];
      var current := interval.start;
      while current <= interval.end
        invariant current == Shift(interval.start, |dates|)
        invariant dates == Steps(interval.start, |dates|)
        invariant |dates| <= DaysThrough(interval.start, interval.end)
        decreases interval.end - current
      {
        dates := dates + [current];
        current := Shift(current, 1);
      }
  }

  /** The month listing the detail view evidently wants: the days of the
      month interval and nothing after it. */
  method MonthDates(month: Option<Interval>) returns (dates: seq<int>)
    ensures month.None? ==> dates == []
    ensures month.Some? ==> dates == Steps(month.value.start, DaysBefore(month.value.start, month.value.end))
    ensures month.Some? ==> forall i :: 0 <= i < |dates| ==> month.value.start <= dates[i] < month.value.end
  {
    match month
    case None =>
      dates := [];
    case Some(interval) =>
      dates := GenerateDates(interval);
  }

  /** An interval of `n` whole days yields `n` dates below its end and
      `n + 1` dates up to and including it. */
  lemma WholeDays(start: int, n: nat)
    ensures DaysBefore(start, Shift(start, n)) == n
    ensures DaysThrough(start, Shift(start, n)) == n + 1
  {
    var end := Shift(start, n);
    assert Shift(start, n + 1) > end;
  }

  /** The two loops differ exactly when the end is a whole number of days
      after the start: then `<=` lists one more date, and that date is the end. */
  lemma MonthListsOneMore(start: int, end: int)
    ensures DaysThrough(start, end) == DaysBefore(start, end) + 1
        <==> start <= end && (end - start) % 86400 == 0
    ensures DaysThrough(start, end) != DaysBefore(start, end) + 1
        ==> DaysThrough(start, end) == DaysBefore(start, end)
    ensures DaysThrough(start, end) == DaysBefore(start, end) + 1
        ==> Steps(start, DaysThrough(start, end)) == Steps(start, DaysBefore(start, end)) + [end]
  {
    var b := DaysBefore(start, end);
    var t := DaysThrough(start, end);
    if start <= end && (end - start) % 86400 == 0 {
      var n := (end - start) / 86400;
      assert end == Shift(start, n);
      WholeDays(start, n);
    } else if start <= end {
      assert b == t;
    }
  }

  /** A 31-day month interval: the as-written month listing has 32 dates,
      the last of which is the first instant after the month. */
  lemma MonthOvershoots(start: int)
    ensures var end := Shift(start, 31);
      && |Steps(start, DaysThrough(start, end))| == 32
      && Steps(start, DaysThrough(start, end))[31] == end
      && |Steps(start, DaysBefore(start, end))| == 31
  {
    WholeDays(start, 31);
  }
}
