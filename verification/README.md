# Shark identity tracker — Dafny model

This project models the small amount of sequential logic inside a SwiftUI
app. In the app, a user picks a "gender identity" (masc, fem or nonbinary)
for a virtual pet shark. Each pick is logged with a timestamp. The app
shows the history on a day/week/month calendar and in a bar chart. It also
has a shark-feeding mini-game and a journal form.

The model covers:

- the `SharkGender` enumeration: raw value, `id`, label and colour
  (`shark_gender.dfy`);
- one log entry, plus the calendar-day abstraction (`identity_log.dfy`);
- the log store `GenderTracker`, which appends entries, filters them by
  day and takes the day's most frequent gender (`gender_tracker.dfy`);
- `Dictionary(grouping:)`, per-gender counts and `max(by:)`, which the
  tracker, the calendar grid and the bar chart share (`grouping.dfy`);
- the `Calendar` extension that lists the days of a window
  (`calendar_dates.dfy`);
- the calendar grid: which dates each mode shows, each day's dominant
  gender, the logs gathered for the detail views, and swipe navigation
  (`calendar_grid.dfy`);
- the bar chart's (gender, count) data (`bar_graph.dfy`);
- the feeding game (`feeding_game.dfy`);
- `GenderSelectionManager` (`selection_manager.dfy`);
- the journal form and its save action (`journal.dfy`).

Conventions used throughout:

- Instants are integer seconds.
- A calendar day is a block of 86400 seconds that starts at a multiple of
  86400 (`IdentityLog.DayOf`).
- Adding one day adds 86400 seconds (`CalendarDates.Shift`).
- A `DateInterval` is a pair `[start, end)`.
- The current time (`Date()`) is always passed in as an argument.
- So are the platform calendar's answers: the week or month interval that
  holds a date, and month arithmetic.
- A Swift dictionary is iterated in an unspecified order. That order is an
  explicit argument: a permutation of the three genders, checked by
  `Grouping.IsKeyOrder`.
- `max(by:)` keeps the first element that nothing later strictly beats. So
  when counts tie, the winner depends on that iteration order.
  `Grouping.AnyMaximumIsPossible` shows that every tied maximum is the
  result under some order.

The month grid (`visibleDates`, Views/CalendarView.swift:31-33) lists a
month through `generateDates`, whose `<` test (:175) gives 31 dates for a
31-day month interval. `datesForMonth` tests `<=` instead (:193) and gives
32 for the same interval (see Findings).

## Model

| member | source | states |
|---|---|---|
| Gender.FromRawValue | Models/SharkGender.swift:3-6 | decoding a raw value gives back a gender whose raw value is that string, or nothing when no gender has it |
| Gender.Id | Models/SharkGender.swift:8 | the id decodes back to the same gender, so it identifies the case |
| Gender.AllCasesExact | Models/SharkGender.swift:3-6 | there are exactly three distinct cases, and every gender is one of them |
| Gender.RawValueRoundTrip | Models/SharkGender.swift:3-6 | encoding a gender with `RawValue` ("masc", "fem", "nonbinary") and decoding it gives the same gender back |
| Gender.IdsDistinct | Models/SharkGender.swift:8 | different genders have different ids |
| Gender.LabelsDistinct | Models/SharkGender.swift:10-16 | `Label` gives different genders different labels ("Masc", "Femme", "Nonbinary") |
| Gender.ColorsDistinct | Models/SharkGender.swift:18-24 | the colour mapping `ColorOf` (blue, pink, green) is total and gives each gender its own colour |
| IdentityLog.DayOf | Models/GenderTracker.swift:19-20 | an instant lies inside the 86400-second block of the day number it is given |
| Grouping.CountOf | Views/GenderBarGraphView.swift:10-13 | a group size is at most the number of entries, and it is zero exactly when no entry has that gender |
| Grouping.CountsPartition | Views/GenderBarGraphView.swift:10-13 | the three group sizes add up to the number of entries |
| Grouping.Group | Views/GenderBarGraphView.swift:10-14 | each (gender, count) pair has a key from the iteration order, and its count is that gender's group size, which is at least one |
| Grouping.GroupComplete | Views/GenderBarGraphView.swift:10-13 | every gender that occurs among the entries gets its pair |
| Grouping.GroupDistinct | Views/GenderBarGraphView.swift:10-13 | no gender gets two pairs |
| Grouping.GroupTotal | Views/GenderBarGraphView.swift:9-13 | the pair counts add up to the number of entries grouped |
| Grouping.MaxFrom | Models/GenderTracker.swift:26 | continuing `max(by:)` returns the current best or a later element, and its count is at least every count it has seen |
| Grouping.MaxByCount | Models/GenderTracker.swift:26 | `max(by:)` is nil exactly on an empty sequence; otherwise it returns an element whose count no element exceeds |
| Grouping.MaxFromKeepsLeader | Models/GenderTracker.swift:26 | on a tie the earlier element stays, because replacement needs a strictly larger count |
| Grouping.Mode | Models/GenderTracker.swift:24-26 | the mode is nil exactly when there are no entries; otherwise it has at least one entry and a count no gender exceeds |
| Grouping.AnyMaximumIsPossible | Models/GenderTracker.swift:25-26 | every gender of maximal count is the mode under some dictionary iteration order |
| Grouping.StrictMaximumIsMode | Models/GenderTracker.swift:24-26 | a gender with a strictly larger count than every other is the mode under every iteration order |
| Tracker.Init | Models/GenderTracker.swift:6-10 | the store starts with the restored list, or with an empty log when nothing was restored |
| Tracker.LogGenderSelection | Models/GenderTracker.swift:12-15 | logging appends one entry with the chosen gender and the current instant; earlier entries are unchanged |
| Tracker.LogsFor | Models/GenderTracker.swift:18-21 | the day's query is no longer than the log, and every entry it returns falls on that day |
| Tracker.LogsForExact | Models/GenderTracker.swift:18-21 | the query holds each entry of that day as many times as the log does, and nothing from any other day |
| Tracker.LogsForMembers | Models/GenderTracker.swift:18-21 | an entry is in the query exactly when it is in the log and falls on that day |
| Tracker.DayIndices | Models/GenderTracker.swift:18-21 | the positions on that day are in range and strictly ascending, and they are exactly the positions whose entry falls on that day |
| Tracker.LogsForKeepsOrder | Models/GenderTracker.swift:18-21 | the i-th entry returned is the log entry at the i-th ascending position on that day, so the query is a subsequence of the log in log order |
| Tracker.LogsForSameDay | Models/GenderTracker.swift:18-21 | two reference instants on the same day (`SameDay`, the model of `isDate(_:inSameDayAs:)`) give identical queries |
| Tracker.LogThenQuery | Models/GenderTracker.swift:12-21 | after logging at `now`, that day's query gains exactly the new entry at its end; every other day's query is unchanged |
| Tracker.LogsForWholeDay | Models/GenderTracker.swift:18-21 | when every entry falls on the day asked about, the query returns the whole log |
| Tracker.MostFrequentGender | Models/GenderTracker.swift:23-27 | nil exactly when the day has no entries; otherwise a gender with at least one entry that day and a count no other gender exceeds |
| Tracker.TwoAgainstOne | Models/GenderTracker.swift:23-27 | logging masc, fem, masc on one day makes masc that day's most frequent gender under every iteration order |
| CalendarDates.Steps | Views/CalendarView.swift:174-177 | n instants, the i-th being i days after the start, where `Shift` models `date(byAdding: .day, value:, to:)` as adding 86400 s per day |
| CalendarDates.DaysBefore | Views/CalendarView.swift:175 | a k-day step from the start stays strictly before the end exactly when k is below the count |
| CalendarDates.DaysThrough | Views/CalendarView.swift:193 | a k-day step from the start stays at or before the end exactly when k is below the count |
| CalendarDates.GenerateDates | Views/CalendarView.swift:172-180 | the result is the whole-day steps from the start that stay before the end: all in `[start, end)`, first equal to start, each one day after the previous, and empty exactly when start is not before end |
| CalendarDates.DatesForWeek | Views/CalendarView.swift:182-187 | seven dates, one day apart, from the week interval's start; none when there is no week interval |
| CalendarDates.DatesForMonth | Views/CalendarView.swift:189-198 | as written: the whole-day steps from the start that stay at or before the end, so the end itself can be included; none when there is no month interval |
| CalendarDates.MonthDates | Views/CalendarView.swift:189-198 | corrected month listing: the whole-day steps that stay strictly inside `[start, end)` |
| CalendarDates.WholeDays | Views/CalendarView.swift:172-198 | for an interval of n whole days, `generateDates` lists n dates and the `<=` loop lists n + 1 |
| CalendarDates.MonthListsOneMore | Views/CalendarView.swift:172-198 | the `<=` loop lists one date more than `generateDates` exactly when the end is a whole number of days after the start, and that extra date is the end; otherwise both list the same dates |
| CalendarDates.MonthOvershoots | Views/CalendarView.swift:189-198 | for a 31-day month interval, the as-written listing has 32 dates and the last is the first instant after the month; the `<` listing has 31 |
| CalendarGrid.VisibleDates | Views/CalendarView.swift:24-35 | day mode shows only the selected date; week and month modes show every day of the interval, or nothing when the calendar gives no interval |
| CalendarGrid.WeekListingsAgree | Views/CalendarView.swift:182-186 | for a seven-day week interval, the grid's week row and `datesForWeek` list the same dates |
| CalendarGrid.DominantGender | Views/CalendarView.swift:38-42 | nil exactly when the day has no logs; otherwise a gender with at least one log that day and a count no other gender exceeds |
| CalendarGrid.DominantMatchesMostFrequent | Views/CalendarView.swift:38-42 | when no two genders that occur share a count, the grid colour and the tracking summary pick the same gender, whatever the two iteration orders |
| CalendarGrid.WindowLogs | Views/CalendarView.swift:101-107 | the detail logs are exactly the logged entries that fall on one of the window's dates |
| CalendarGrid.MonthDetailLeaks | Views/CalendarView.swift:105-107 | with the as-written month listing, the month detail also gathers logs from the first day after the month |
| CalendarGrid.MonthDetailContained | Views/CalendarView.swift:105-107 | with the corrected listing, every log gathered for a month that starts at midnight lies inside that month |
| CalendarGrid.PreviousDate | Views/CalendarView.swift:152-158 | day mode moves to the previous calendar day, and week mode to seven days earlier, both at the same time of day; month mode uses the calendar's one-month-back answer |
| CalendarGrid.NextDate | Views/CalendarView.swift:160-166 | day mode moves to the next calendar day, and week mode to seven days later, both at the same time of day; month mode uses the calendar's one-month-ahead answer |
| CalendarGrid.NavigationRoundTrip | Views/CalendarView.swift:152-166 | in day and week modes, next undoes previous and previous undoes next |
| FeedingGame.Feed | Views/FeedingGameView.swift:26-32 | a refused feed changes nothing; an accepted feed sets the last-fed time to now and sets happiness to exactly min(happiness + 10, 100); happiness never drops from a value of 100 or less and stays in 0..100 |
| FeedingGame.HourBoundary | Views/FeedingGameView.swift:28 | under the guard `CanFeed` (never fed, or strictly more than 3600 s since the last feed), a feed exactly 3600 s after the last one is refused, and one at 3601 s is accepted |
| FeedingGame.OneFeedPerHour | Views/FeedingGameView.swift:28-30 | after an accepted feed, any feed within the next hour is refused |
| FeedingGame.FeedAllHappiness | Views/FeedingGameView.swift:29 | over any run of presses, happiness is min(start + 10 × accepted feeds, 100), and it stays in range |
| FeedingGame.FiveFeedsFillUp | Views/MainSharkView.swift:5-6 | from the starting happiness of 50, five feeds more than an hour apart reach 100 |
| SelectionManager.Select | Models/GenderSelectionManager.swift:7-10 | every assignment, including re-picking the current gender, sets the selection and appends exactly one entry with that gender and instant; earlier entries are unchanged |
| SelectionManager.SelectAllLogs | Models/GenderSelectionManager.swift:19-21 | from any state, after any sequence of assignments, the log is the old log followed by those assignments in order and the selection is the last one assigned; a state whose newest entry names the selection keeps that property |
| SelectionManager.LogRecordsEveryAssignment | Models/GenderSelectionManager.swift:13-21 | from the initial state (masc, empty log), the log is exactly the list of assignments made |
| Journal.SaveEntry | Views/JournalView.swift:72-89 | saving appends one entry that carries the form's header, body, ratings and visibility, the colour "blue" and the save instant; earlier entries are unchanged; the form returns to its initial values |
| Journal.SaveTwice | Views/JournalView.swift:84-88 | a save right after a save stores an entry with the default values |
| Journal.Apply | Views/JournalView.swift:22-26 | tapping star i sets only the mood to i; no action other than save touches the saved entries; ratings in range stay in range |
| Journal.RunKeepsJournal | Views/JournalView.swift:72-88 | under any sequence of user actions, saved entries are never changed or removed, and in-range ratings stay in range in the form and in every saved entry |
| Journal.JournalEntriesValid | Models/JournalEntry.swift:20-21 | starting from the opening screen, every saved entry has mood 1..5 and fin rating 1..10 |
| BarGraph.ChartData | Views/GenderBarGraphView.swift:9-14 | each bar's count is that day's number of logs for its gender, and is at least one; no gender appears twice; every gender logged that day has a bar; the counts add up to the day's log count |

## Left out

- Persistence is not modelled. This covers JSON encoding and decoding and
  the `UserDefaults` reads and writes in `saveLogs`, `loadLogs` and
  `saveEntry`. The restored log is an argument of `Tracker.Init`.
- The platform calendar is not modelled. This covers
  `dateInterval(of:for:)`, `isDate(_:inSameDayAs:)`, time zones, daylight
  saving and locale week rules. Days are fixed 86400-second blocks, and
  the intervals come in as arguments.
- Month arithmetic is not modelled. `CalendarGrid.PreviousDate` and
  `CalendarGrid.NextDate` take it as a function argument, because month
  lengths vary.
- Date formatting is not modelled: `headerTitle` and the `DateFormatter`
  uses.
- CalendarGrid.NavigationRoundTrip: it excludes month mode. Stepping one
  month forward and then back need not return to the same date (January 31
  goes forward to February 28 and back to January 28).
- FeedingGame.Feed: elapsed time is whole seconds, not the source's
  floating-point `timeIntervalSince`, so fractions of a second are not
  modelled.
- Journal.Apply: the slider reaches the model as a whole number from 1 to
  10. The `Double`/`Int` conversion in `SharkFinSliderView` is floating
  point and is not modelled.
- Random `UUID` identifiers are not modelled, for log entries or journal
  entries.
- Colour opacities, SwiftUI layout, gestures and the 50-point drag
  threshold, animations, SceneKit and Charts rendering are not modelled.
  `color` is an abstract tag.
- Drafts and duplicate definitions are not modelled. `SharkModel.swift`
  redeclares the enum with the label "Fem", and `DetailViews.swift`
  duplicates the detail views.
- `GenderSelectionManager` builds its log entry with a `date:` label, but
  the entry type declares `timestamp`. Both are modelled as the single
  `LogEntry`.
- The selector's tap calls `logGenderIdentity`, which `GenderTracker` does
  not define, so that call is not modelled. The model covers the
  selection-manager assignment and `logGenderSelection` separately.
- The diagnostic `print` in `logGenderChange` is not modelled.
- CalendarDates.DatesForWeek / CalendarDates.DatesForMonth: the model reads
  the unqualified `date(byAdding:value:to:)` calls at
  Views/CalendarView.swift:185 and :195 as the calendar's own method
  (`self.date(byAdding:…)`). In both functions a parameter named `date`
  shadows that method, so the source as written may need `self.` to
  compile. `generateDates` (:177) has no such parameter and is unaffected.

## Findings

| source | as written | input that shows it | evidently intended | confidence | as-written member | corrected member |
|---|---|---|---|---|---|---|
| Views/CalendarView.swift:193 | `while current <= monthInterval.end` lists the interval's exclusive end as a date | a 31-day month interval `[s, s + 31 days)` yields 32 dates. The last is the first day of the next month, so the month detail also gathers that day's logs (`CalendarDates.MonthOvershoots`, `CalendarGrid.MonthDetailLeaks`). This reads the unqualified `date(byAdding:)` at :195 as the calendar method (see Left out) | stop before the end, as `generateDates` does: 31 dates, all inside the month | medium, not executed | CalendarDates.DatesForMonth | CalendarDates.MonthDates |
