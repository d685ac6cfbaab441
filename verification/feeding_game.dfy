/** The feeding mini-game: each feed raises the shark's happiness by ten,
    capped at one hundred, but only when more than an hour has passed since
    the last feed that took effect.  The current instant is an argument. */
module FeedingGame {
  import opened Wrappers

  datatype SharkState = SharkState(happiness: int, lastFedDate: Option<int>)

  /** The state `MainSharkView` starts the game in. */
  const Initial: SharkState := SharkState(50, None)

  /** Happiness in the range the view documents. */
  predicate InRange(s: SharkState)
  {
    0 <= s.happiness <= 100
  }

  function Min(a: int, b: int): int
  {
    if a < b then a else b
  }

  /** The guard of `feedShark`: never fed, or strictly more than 3600
      seconds since the last feed. */
  predicate CanFeed(s: SharkState, now: int)
  {
    s.lastFedDate.None? || now - s.lastFedDate.value > 3600
  }

  /** `feedShark()` at instant `now`. */
  function Feed(s: SharkState, now: int): (r: SharkState)
    ensures !CanFeed(s, now) ==> r == s
    ensures CanFeed(s, now) ==> r.lastFedDate == Some(now) && r.happiness <= 100
    ensures CanFeed(s, now) && s.happiness <= 90 ==> r.happiness == s.happiness + 10
    ensures CanFeed(s, now) && s.happiness > 90 ==> r.happiness == 100
    ensures s.happiness <= 100 ==> s.happiness <= r.happiness
    ensures InRange(s) ==> InRange(r)
  {
    if CanFeed(s, now) then SharkState(Min(s.happiness + 10, 100), Some(now)) else s
  }

  /** Feeding exactly an hour after the last feed is refused; one second
      later it is accepted. */
  lemma HourBoundary(s: SharkState, fedAt: int)
    requires s.lastFedDate == Some(fedAt)
    ensures Feed(s, fedAt + 3600) == s
    ensures Feed(s, fedAt + 3601).lastFedDate == Some(fedAt + 3601)
  {
  }

  /** After a feed that took effect, every further feed within the hour is refused. */
  lemma OneFeedPerHour(s: SharkState, t1: int, t2: int)
    requires CanFeed(s, t1) && t2 <= t1 + 3600
    ensures Feed(Feed(s, t1), t2) == Feed(s, t1)
  {
  }

  /** Pressing the button at each of `times` in turn. */
  function FeedAll(s: SharkState, times: seq<int>): SharkState
    decreases |times|
  {
    if |times| == 0 then s else FeedAll(Feed(s, times[0]), times[1..])
  }

  /** How many of the presses at `times` take effect. */
  function EffectiveFeeds(s: SharkState, times: seq<int>): nat
    decreases |times|
  {
    if |times| == 0 then 0
    else (if CanFeed(s, times[0]) then 1 else 0) + EffectiveFeeds(Feed(s, times[0]), times[1..])
  }

  /** Any run of presses adds ten per effective feed, capped at one hundred;
      so happiness never falls and stays in range. */
  lemma {:induction false} FeedAllHappiness(s: SharkState, times: seq<int>)
    requires s.happiness <= 100
    ensures FeedAll(s, times).happiness == Min(s.happiness + 10 * EffectiveFeeds(s, times), 100)
    ensures InRange(s) ==> InRange(FeedAll(s, times))
    decreases |times|
  {
    if |times| > 0 {
      FeedAllHappiness(Feed(s, times[0]), times[1..]);
    }
  }

  /** From the starting state, five feeds more than an hour apart fill the shark up. */
  lemma FiveFeedsFillUp(t: int)
    ensures FeedAll(Initial, [t, t + 3601, t + 7202, t + 10803, t + 14404]).happiness == 100
  {
    var times := [t, t + 3601, t + 7202, t + 10803, t + 14404];
    var s1 := Feed(Initial, t);
    var s2 := Feed(s1, t + 3601);
    var s3 := Feed(s2, t + 7202);
    var s4 := Feed(s3, t + 10803);
    var s5 := Feed(s4, t + 14404);
    assert s5.happiness == 100;
    assert FeedAll(s4, times[4..]) == FeedAll(s5, []);
    assert FeedAll(s3, times[3..]) == FeedAll(s4, times[4..]);
    assert FeedAll(s2, times[2..]) == FeedAll(s3, times[3..]);
    assert FeedAll(s1, times[1..]) == FeedAll(s2, times[2..]);
  }
}
