/** `GenderSelectionManager`: the currently selected gender, with every
    assignment to it recorded in an in-memory log.  The instant of each
    assignment is an argument. */
module SelectionManager {
  import opened Gender
  import opened IdentityLog

  datatype Manager = Manager(selectedGender: SharkGender, genderLog: seq<LogEntry>)

  /** The private initialiser sets the default directly, so no observer
      fires and the log starts empty. */
  const Initial: Manager := Manager(Masc, [])

  /** Assigning `selectedGender`; its `didSet` observer always appends an
      entry, even when the gender does not change. */
  function Select(m: Manager, g: SharkGender, now: int): (m': Manager)
    ensures m'.selectedGender == g
    ensures |m'.genderLog| == |m.genderLog| + 1
    ensures m'.genderLog[..|m.genderLog|] == m.genderLog
    ensures m'.genderLog[|m.genderLog|] == LogEntry(g, now)
  {
    Manager(g, m.genderLog + [LogEntry(g, now)])
  }

  /** The newest log entry, if any, names the current selection. */
  predicate LastLogIsSelection(m: Manager)
  {
    |m.genderLog| == 0 || m.genderLog[|m.genderLog| - 1].gender == m.selectedGender
  }

  /** A sequence of assignments, each given as the entry it should log. */
  function SelectAll(m: Manager, picks: seq<LogEntry>): Manager
    decreases |picks|
  {
    if |picks| == 0 then m else SelectAll(Select(m, picks[0].gender, picks[0].timestamp), picks[1..])
  }

  /** From any state, the log grows by exactly the assignments made, in
      order, and the selection ends as the last one assigned; a state whose
      newest entry names the selection keeps that property. */
  lemma {:induction false} SelectAllLogs(m: Manager, picks: seq<LogEntry>)
    ensures SelectAll(m, picks).genderLog == m.genderLog + picks
    ensures |picks| > 0 ==> SelectAll(m, picks).selectedGender == picks[|picks| - 1].gender
    ensures LastLogIsSelection(m) ==> LastLogIsSelection(SelectAll(m, picks))
    decreases |picks|
  {
    if |picks| > 0 {
      var m1 := Select(m, picks[0].gender, picks[0].timestamp);
      SelectAllLogs(m1, picks[1..]);
      assert m1.genderLog + picks[1..] == m.genderLog + picks;
      if |picks| > 1 {
        assert picks[1..][|picks[1..]| - 1] == picks[|picks| - 1];
      }
    }
  }

  /** From the initial state, the log is exactly the list of assignments. */
  lemma LogRecordsEveryAssignment(picks: seq<LogEntry>)
    ensures SelectAll(Initial, picks).genderLog == picks
    ensures LastLogIsSelection(SelectAll(Initial, picks))
  {
    SelectAllLogs(Initial, picks);
  }
}
