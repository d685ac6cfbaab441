/** The identity log store (`GenderTracker`): an append-only list of
    selections with per-day queries.  Persistence is outside the model:
    what the store restores at start-up arrives as an argument. */
module Tracker {
  import opened Wrappers
  import opened Gender
  import opened IdentityLog
  import opened Grouping

  datatype GenderTracker = GenderTracker(logs: seq<LogEntry>)

  /** Start-up: the restored list when one was decoded, else an empty log. */
  function Init(restored: Option<seq<LogEntry>>): (t: GenderTracker)
    ensures restored.None? ==> t.logs == []
    ensures restored.Some? ==> t.logs == restored.value
  {
    match restored
    case None => GenderTracker([])
    case Some(saved) => GenderTracker(saved)
  }

  /** `logGenderSelection`: record `g` at the current instant `now`. */
  function LogGenderSelection(t: GenderTracker, g: SharkGender, now: int): (t': GenderTracker)
    ensures |t'.logs| == |t.logs| + 1
    ensures t'.logs[..|t.logs|] == t.logs
    ensures t'.logs[|t.logs|].gender == g && t'.logs[|t.logs|].timestamp == now
  {
    GenderTracker(t.logs + [LogEntry(g, now)])
  }

  /** `logs(for:)`: the entries on the calendar day of `date`. */
  function LogsFor(logs: seq<LogEntry>, date: int): (r: seq<LogEntry>)
    ensures |r| <= |logs|
    ensures forall i :: 0 <= i < |r| ==> SameDay(r[i].timestamp, date)
  {
    if |logs| == 0 then []
    else
      var last := logs[|logs| - 1];
      LogsFor(logs[..|logs| - 1], date) + (if SameDay(last.timestamp, date) then [last] else [])
  }

  /** The day's query holds each entry of that day as many times as the log
      does, and nothing from any other day. */
  lemma {:induction false} LogsForExact(logs: seq<LogEntry>, date: int)
    ensures forall e :: multiset(LogsFor(logs, date))[e] == if SameDay(e.timestamp, date) then multiset(logs)[e] else 0
  {
    if |logs| > 0 {
      var init, last := logs[..|logs| - 1], logs[|logs| - 1];
      LogsForExact(init, date);
      assert logs == init + [last];
    }
  }

  /** An entry is in the day's query exactly when it is logged and falls on that day. */
  lemma LogsForMembers(logs: seq<LogEntry>, date: int, e: LogEntry)
    ensures e in LogsFor(logs, date) <==> e in logs && SameDay(e.timestamp, date)
  {
    LogsForExact(logs, date);
    var r := LogsFor(logs, date);
    assert e in r <==> multiset(r)[e] > 0;
    assert e in logs <==> multiset(logs)[e] > 0;
  }

  /** The positions in `logs` of the entries on the day of `date`, ascending. */
  function DayIndices(logs: seq<LogEntry>, date: int): (idx: seq<nat>)
    ensures forall i :: 0 <= i < |idx| ==> idx[i] < |logs|
    ensures forall i, j :: 0 <= i < j < |idx| ==> idx[i] < idx[j]
    ensures forall k :: 0 <= k < |logs| ==> (k in idx <==> SameDay(logs[k].timestamp, date))
  {
    if |logs| == 0 then []
    else
      var init := logs[..|logs| - 1];
      var rest := DayIndices(init, date);
      assert forall k :: 0 <= k < |init| ==> logs[k] == init[k];
      rest + (if SameDay(logs[|logs| - 1].timestamp, date) then [|logs| - 1] else [])
  }

  /** `logs(for:)` is an order-preserving filter: its i-th result is the
      entry at the i-th of the ascending positions on that day. */
  lemma {:induction false} LogsForKeepsOrder(logs: seq<LogEntry>, date: int)
    ensures |DayIndices(logs, date)| == |LogsFor(logs, date)|
    ensures forall i :: 0 <= i < |DayIndices(logs, date)| ==>
              LogsFor(logs, date)[i] == logs[DayIndices(logs, date)[i]]
  {
    if |logs| > 0 {
      var init := logs[..|logs| - 1];
      LogsForKeepsOrder(init, date);
    }
  }

  /** Two reference instants on the same day ask the same query. */
  lemma {:induction false} LogsForSameDay(logs: seq<LogEntry>, d1: int, d2: int)
    requires SameDay(d1, d2)
    ensures LogsFor(logs, d1) == LogsFor(logs, d2)
  {
    if |logs| > 0 {
      LogsForSameDay(logs[..|logs| - 1], d1, d2);
    }
  }

  /** Logging at `now` adds the new entry to the end of that day's query
      and leaves every other day's query as it was. */
  lemma LogThenQuery(t: GenderTracker, g: SharkGender, now: int, date: int)
    ensures var t' := LogGenderSelection(t, g, now);
      SameDay(now, date) ==> LogsFor(t'.logs, date) == LogsFor(t.logs, date) + [LogEntry(g, now)]
    ensures var t' := LogGenderSelection(t, g, now);
      !SameDay(now, date) ==> LogsFor(t'.logs, date) == LogsFor(t.logs, date)
  {
    var t' := LogGenderSelection(t, g, now);
    assert t'.logs[..|t'.logs| - 1] == t.logs;
  }

  /** `mostFrequentGender(for:)`: the mode of the day's entries. */
  function MostFrequentGender(t: GenderTracker, date: int, order: seq<SharkGender>): (r: Option<SharkGender>)
    requires IsKeyOrder(order)
    ensures r.None? <==> LogsFor(t.logs, date) == []
    ensures r.Some? ==> CountOf(LogsFor(t.logs, date), r.value) >= 1
    ensures r.Some? ==> forall h :: CountOf(LogsFor(t.logs, date), h) <= CountOf(LogsFor(t.logs, date), r.value)
  {
    Mode(LogsFor(t.logs, date), order)
  }

  /** When every entry lies on the day asked about, the query returns them all. */
  lemma {:induction false} LogsForWholeDay(logs: seq<LogEntry>, date: int)
    requires forall i :: 0 <= i < |logs| ==> SameDay(logs[i].timestamp, date)
    ensures LogsFor(logs, date) == logs
  {
    if |logs| > 0 {
      var init, last := logs[..|logs| - 1], logs[|logs| - 1];
      assert forall i :: 0 <= i < |init| ==> init[i] == logs[i];
      LogsForWholeDay(init, date);
      assert SameDay(last.timestamp, date);
      assert init + [last] == logs;
    }
  }

  /** Masc, then Fem, then Masc again, all on one day: Masc is that day's
      most frequent gender, whatever order the dictionary is visited in. */
  lemma TwoAgainstOne(t1: int, t2: int, t3: int, date: int, order: seq<SharkGender>)
    requires SameDay(t1, date) && SameDay(t2, date) && SameDay(t3, date)
    requires IsKeyOrder(order)
    ensures var t := LogGenderSelection(LogGenderSelection(LogGenderSelection(
                       Init(None), Masc, t1), Fem, t2), Masc, t3);
            MostFrequentGender(t, date, order) == Some(Masc)
  {
    var e1, e2, e3 := LogEntry(Masc, t1), LogEntry(Fem, t2), LogEntry(Masc, t3);
    ThreeSelections(t1, t2, t3);
    LogsForWholeDay([e1, e2, e3], date);
    MascFemMascCounts(e1, e2, e3);
    MascWins([e1, e2, e3], order);
  }

  lemma MascWins(entries: seq<LogEntry>, order: seq<SharkGender>)
    requires IsKeyOrder(order)
    requires CountOf(entries, Masc) == 2 && CountOf(entries, Fem) == 1 && CountOf(entries, Nonbinary) == 0
    ensures Mode(entries, order) == Some(Masc)
  {
    StrictMaximumIsMode(entries, order, Masc);
  }

  lemma ThreeSelections(t1: int, t2: int, t3: int)
    ensures var t := LogGenderSelection(LogGenderSelection(LogGenderSelection(
                       Init(None), Masc, t1), Fem, t2), Masc, t3);
            t.logs == [LogEntry(Masc, t1), LogEntry(Fem, t2), LogEntry(Masc, t3)]
  {
  }

  lemma MascFemMascCounts(e1: LogEntry, e2: LogEntry, e3: LogEntry)
    requires e1.gender == Masc && e2.gender == Fem && e3.gender == Masc
    ensures CountOf([e1, e2, e3], Masc) == 2
    ensures CountOf([e1, e2, e3], Fem) == 1
    ensures CountOf([e1, e2, e3], Nonbinary) == 0
  {
    assert [e1] + [e2] == [e1, e2] && [e1, e2] + [e3] == [e1, e2, e3];
    CountOfAppend([e1], e2, Masc);
    CountOfAppend([e1, e2], e3, Masc);
    CountOfAppend([e1], e2, Fem);
    CountOfAppend([e1, e2], e3, Fem);
    assert CountOf([e1], Masc) == 1;
    assert CountOf([e1], Fem) == 0;
    CountsPartition([e1, e2, e3]);
  }
}
