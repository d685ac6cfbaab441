/** The journal form: star and slider ratings, free text, a visibility
    choice, and a save action that stores an entry and clears the form.
    Entry identifiers and persistence are outside the model; the instant of
    a save is an argument. */
module Journal {

  datatype Visibility = Public | Private

  /** A `JournalEntry` without its random identifier. */
  datatype JournalEntry = JournalEntry(
    date: int,
    header: string,
    body: string,
    moodRating: int,
    finRating: int,
    selectedSharkColor: string,
    visibility: Visibility)

  /** The editable fields of the journal screen. */
  datatype Form = Form(header: string, body: string, moodRating: int, finRating: int, visibility: Visibility)

  datatype JournalState = JournalState(form: Form, savedEntries: seq<JournalEntry>)

  /** The fields' initial values, which a save also restores. */
  const DefaultForm: Form := Form("", "", 3, 5, Private)

  const Initial: JournalState := JournalState(DefaultForm, [])

  /** Mood in one to five stars, fin rating in one to ten. */
  predicate ValidRatings(mood: int, fin: int)
  {
    1 <= mood <= 5 && 1 <= fin <= 10
  }

  predicate ValidEntry(e: JournalEntry)
  {
    ValidRatings(e.moodRating, e.finRating)
  }

  /** `saveEntry()` at instant `now`. */
  function SaveEntry(s: JournalState, now: int): (r: JournalState)
    ensures |r.savedEntries| == |s.savedEntries| + 1
    ensures r.savedEntries[..|s.savedEntries|] == s.savedEntries
    ensures var e := r.savedEntries[|s.savedEntries|];
      && e.date == now
      && e.header == s.form.header && e.body == s.form.body
      && e.moodRating == s.form.moodRating && e.finRating == s.form.finRating
      && e.visibility == s.form.visibility
      && e.selectedSharkColor == "blue"
    ensures r.form == Initial.form
  {
    var f := s.form;
    var entry := JournalEntry(now, f.header, f.body, f.moodRating, f.finRating, "blue", f.visibility);
    JournalState(DefaultForm, s.savedEntries + [entry])
  }

  /** Two saves in a row: the second stores the default values. */
  lemma SaveTwice(s: JournalState, t1: int, t2: int)
    ensures var r := SaveEntry(SaveEntry(s, t1), t2);
      r.savedEntries[|r.savedEntries| - 1] == JournalEntry(t2, "", "", 3, 5, "blue", Private)
  {
  }

  /** The user's edits to the screen.  The star row offers stars one to
      five and the slider the whole numbers one to ten. */
  datatype Action =
    | TapStar(star: int)
    | SlideFin(position: int)
    | EditHeader(header: string)
    | EditBody(body: string)
    | PickVisibility(visibility: Visibility)
    | Save(now: int)

  /** Actions the controls can produce. */
  predicate Offered(a: Action)
  {
    match a
    case TapStar(i) => 1 <= i <= 5
    case SlideFin(v) => 1 <= v <= 10
    case _ => true
  }

  /** One action's effect; only the field the control is bound to changes. */
  function Apply(s: JournalState, a: Action): (r: JournalState)
    requires Offered(a)
    ensures a.TapStar? ==> r == s.(form := s.form.(moodRating := a.star))
    ensures a.SlideFin? ==> r.savedEntries == s.savedEntries && r.form.finRating == a.position
    ensures !a.Save? ==> r.savedEntries == s.savedEntries
    ensures ValidRatings(s.form.moodRating, s.form.finRating) ==> ValidRatings(r.form.moodRating, r.form.finRating)
  {
    match a
    case TapStar(i) => JournalState(s.form.(moodRating := i), s.savedEntries)
    case SlideFin(v) => JournalState(s.form.(finRating := v), s.savedEntries)
    case EditHeader(h) => JournalState(s.form.(header := h), s.savedEntries)
    case EditBody(b) => JournalState(s.form.(body := b), s.savedEntries)
    case PickVisibility(v) => JournalState(s.form.(visibility := v), s.savedEntries)
    case Save(now) => SaveEntry(s, now)
  }

  function Run(s: JournalState, actions: seq<Action>): JournalState
    requires forall i :: 0 <= i < |actions| ==> Offered(actions[i])
    decreases |actions|
  {
    if |actions| == 0 then s else Run(Apply(s, actions[0]), actions[1..])
  }

  predicate AllSavedValid(s: JournalState)
  {
    forall i :: 0 <= i < |s.savedEntries| ==> ValidEntry(s.savedEntries[i])
  }

  /** Whatever the user does, saved entries are never altered or removed,
      and if the form's ratings start in range every saved entry's are too. */
  lemma {:induction false} RunKeepsJournal(s: JournalState, actions: seq<Action>)
    requires forall i :: 0 <= i < |actions| ==> Offered(actions[i])
    ensures |Run(s, actions).savedEntries| >= |s.savedEntries|
    ensures Run(s, actions).savedEntries[..|s.savedEntries|] == s.savedEntries
    ensures ValidRatings(s.form.moodRating, s.form.finRating) && AllSavedValid(s) ==>
              ValidRatings(Run(s, actions).form.moodRating, Run(s, actions).form.finRating)
              && AllSavedValid(Run(s, actions))
    decreases |actions|
  {
    if |actions| > 0 {
      var s1 := Apply(s, actions[0]);
      RunKeepsJournal(s1, actions[1..]);
      assert s1.savedEntries[..|s.savedEntries|] == s.savedEntries;
      var r := Run(s1, actions[1..]);
      assert r.savedEntries[..|s1.savedEntries|][..|s.savedEntries|] == r.savedEntries[..|s.savedEntries|];
    }
  }

  /** From the opening screen, every saved entry has in-range ratings. */
  lemma JournalEntriesValid(actions: seq<Action>)
    requires forall i :: 0 <= i < |actions| ==> Offered(actions[i])
    ensures AllSavedValid(Run(Initial, actions))
  {
    RunKeepsJournal(Initial, actions);
  }
}
