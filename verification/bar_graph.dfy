/** `GenderBarGraphView`'s chart data: one (gender, count) bar per gender
    logged on the chosen day, in the grouped dictionary's key order. */
module BarGraph {
  import opened Gender
  import opened IdentityLog
  import opened Grouping
  import opened Tracker

  function ChartData(t: GenderTracker, date: int, order: seq<SharkGender>): (bars: seq<Bar>)
    requires IsKeyOrder(order)
    ensures forall i :: 0 <= i < |bars| ==> bars[i].count == CountOf(LogsFor(t.logs, date), bars[i].gender)
    ensures forall i :: 0 <= i < |bars| ==> bars[i].count >= 1
    ensures DistinctGenders(bars)
    ensures forall g :: CountOf(LogsFor(t.logs, date), g) >= 1 ==> Bar(g, CountOf(LogsFor(t.logs, date), g)) in bars
    ensures TotalCount(bars) == |LogsFor(t.logs, date)|
  {
    var day := LogsFor(t.logs, date);
    var bars := Group(day, order);
    GroupDistinct(day, order);
    GroupTotal(day, order);
    assert forall g :: CountOf(day, g) >= 1 ==> Bar(g, CountOf(day, g)) in bars by {
      forall g | CountOf(day, g) >= 1 ensures Bar(g, CountOf(day, g)) in bars {
        KeyOrderCoversAll(order, g);
        GroupComplete(day, order, g);
      }
    }
    bars
  }
}
