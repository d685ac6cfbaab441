/** One recorded identity selection and the calendar-day abstraction used
    to bucket selections.  Instants are whole seconds; a calendar day is a
    run of 86400 seconds starting at a multiple of 86400 (the literal is
    written out wherever it multiplies, which keeps the arithmetic linear). */
module IdentityLog {
  import opened Gender

  /** A `GenderIdentityLog` without its random identifier. */
  datatype LogEntry = LogEntry(gender: SharkGender, timestamp: int)

  /** The number of the calendar day holding instant `t`. */
  function DayOf(t: int): (day: int)
    ensures day * 86400 <= t < day * 86400 + 86400
  {
    t / 86400
  }

  /** `Calendar.isDate(_:inSameDayAs:)`. */
  predicate SameDay(a: int, b: int)
  {
    DayOf(a) == DayOf(b)
  }
}
