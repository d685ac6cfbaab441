/** `Dictionary(grouping:by:)` on a list of log entries keyed by gender,
    the per-gender group sizes, and `max(by:)` over those sizes.  A Swift
    dictionary is visited in an unspecified order, so that order is an
    explicit argument `order` here. */
module Grouping {
  import opened Wrappers
  import opened Gender
  import opened IdentityLog

  /** How many of `entries` carry gender `g`. */
  function CountOf(entries: seq<LogEntry>, g: SharkGender): (n: nat)
    ensures n <= |entries|
    ensures n == 0 <==> forall i :: 0 <= i < |entries| ==> entries[i].gender != g
  {
    if |entries| == 0 then 0
    else CountOf(entries[..|entries| - 1], g) + (if entries[|entries| - 1].gender == g then 1 else 0)
  }

  /** Every entry has exactly one of the three genders. */
  lemma {:induction false} CountsPartition(entries: seq<LogEntry>)
    ensures CountOf(entries, Masc) + CountOf(entries, Fem) + CountOf(entries, Nonbinary) == |entries|
  {
    if |entries| > 0 {
      CountsPartition(entries[..|entries| - 1]);
    }
  }

  lemma CountOfAppend(entries: seq<LogEntry>, e: LogEntry, g: SharkGender)
    ensures CountOf(entries + [e], g) == CountOf(entries, g) + (if e.gender == g then 1 else 0)
  {
    assert (entries + [e])[..|entries|] == entries;
  }

  predicate Distinct(order: seq<SharkGender>)
  {
    forall i, j :: 0 <= i < j < |order| ==> order[i] != order[j]
  }

  /** A possible iteration order of a dictionary holding every gender:
      each of the three genders exactly once. */
  predicate IsKeyOrder(order: seq<SharkGender>)
  {
    |order| == 3 && Distinct(order)
  }

  lemma KeyOrderCoversAll(order: seq<SharkGender>, g: SharkGender)
    requires IsKeyOrder(order)
    ensures g in order
  {
    assert order[0] != order[1] && order[0] != order[2] && order[1] != order[2];
  }

  /** One (gender, count) pair of the grouped dictionary. */
  datatype Bar = Bar(gender: SharkGender, count: nat)

  predicate DistinctGenders(bars: seq<Bar>)
  {
    forall i, j :: 0 <= i < j < |bars| ==> bars[i].gender != bars[j].gender
  }

  /** The grouped dictionary mapped to group sizes, visited in `order`:
      a gender is a key exactly when some entry carries it. */
  function Group(entries: seq<LogEntry>, order: seq<SharkGender>): (bars: seq<Bar>)
    ensures |bars| <= |order|
    ensures forall i :: 0 <= i < |bars| ==> bars[i].gender in order
    ensures forall i :: 0 <= i < |bars| ==> bars[i].count == CountOf(entries, bars[i].gender) >= 1
  {
    if |order| == 0 then []
    else
      var n := CountOf(entries, order[0]);
      (if n >= 1 then [Bar(order[0], n)] else []) + Group(entries, order[1..])
  }

  /** Every gender in `order` that occurs among `entries` has its bar. */
  lemma {:induction false} GroupComplete(entries: seq<LogEntry>, order: seq<SharkGender>, g: SharkGender)
    requires g in order && CountOf(entries, g) >= 1
    ensures Bar(g, CountOf(entries, g)) in Group(entries, order)
  {
    if order[0] != g {
      assert g in order[1..];
      GroupComplete(entries, order[1..], g);
    }
  }

  /** Grouping by a duplicate-free key order yields each gender at most once. */
  lemma {:induction false} GroupDistinct(entries: seq<LogEntry>, order: seq<SharkGender>)
    requires Distinct(order)
    ensures DistinctGenders(Group(entries, order))
  {
    if |order| > 0 {
      var tail := order[1..];
      assert Distinct(tail);
      GroupDistinct(entries, tail);
      assert order[0] !in tail;
    }
  }

  function TotalCount(bars: seq<Bar>): nat
  {
    if |bars| == 0 then 0 else bars[0].count + TotalCount(bars[1..])
  }

  function SumOver(entries: seq<LogEntry>, order: seq<SharkGender>): nat
  {
    if |order| == 0 then 0 else CountOf(entries, order[0]) + SumOver(entries, order[1..])
  }

  lemma {:induction false} GroupTotalIsSum(entries: seq<LogEntry>, order: seq<SharkGender>)
    ensures TotalCount(Group(entries, order)) == SumOver(entries, order)
  {
    if |order| > 0 {
      GroupTotalIsSum(entries, order[1..]);
      var n := CountOf(entries, order[0]);
      var rest := Group(entries, order[1..]);
      if n >= 1 {
        assert ([Bar(order[0], n)] + rest)[1..] == rest;
      } else {
        assert [] + rest == rest;
      }
    }
  }

  lemma SumOverThree(entries: seq<LogEntry>, order: seq<SharkGender>)
    requires |order| == 3
    ensures SumOver(entries, order)
         == CountOf(entries, order[0]) + CountOf(entries, order[1]) + CountOf(entries, order[2])
  {
    var t1 := order[1..];
    var t2 := t1[1..];
    assert t2[1..] == [];
    assert SumOver(entries, t2) == CountOf(entries, order[2]);
    assert SumOver(entries, t1) == CountOf(entries, order[1]) + SumOver(entries, t2);
  }

  /** The group sizes add up to the number of entries grouped. */
  lemma GroupTotal(entries: seq<LogEntry>, order: seq<SharkGender>)
    requires IsKeyOrder(order)
    ensures TotalCount(Group(entries, order)) == |entries|
  {
    GroupTotalIsSum(entries, order);
    SumOverThree(entries, order);
    CountsPartition(entries);
    var c0, c1, c2 := CountOf(entries, order[0]), CountOf(entries, order[1]), CountOf(entries, order[2]);
    var m, f, n := CountOf(entries, Masc), CountOf(entries, Fem), CountOf(entries, Nonbinary);
    assert order[0] != order[1] && order[0] != order[2] && order[1] != order[2];
    if order[0] == Masc {
      if order[1] == Fem { assert order[2] == Nonbinary; } else { assert order[2] == Fem; }
    } else if order[0] == Fem {
      if order[1] == Masc { assert order[2] == Nonbinary; } else { assert order[2] == Masc; }
    } else {
      if order[1] == Masc { assert order[2] == Fem; } else { assert order[2] == Masc; }
    }
    assert c0 + c1 + c2 == m + f + n;
  }

  /** `max(by: { $0.count < $1.count })` continued from a current best:
      a later bar replaces the best only when its count is strictly larger. */
  function MaxFrom(best: Bar, rest: seq<Bar>): (r: Bar)
    ensures r == best || r in rest
    ensures best.count <= r.count
    ensures forall i :: 0 <= i < |rest| ==> rest[i].count <= r.count
    decreases |rest|
  {
    if |rest| == 0 then best
    else MaxFrom(if best.count < rest[0].count then rest[0] else best, rest[1..])
  }

  /** `max(by:)` over a whole sequence: `nil` exactly when it is empty. */
  function MaxByCount(bars: seq<Bar>): (r: Option<Bar>)
    ensures r.None? <==> |bars| == 0
    ensures r.Some? ==> r.value in bars && forall i :: 0 <= i < |bars| ==> bars[i].count <= r.value.count
  {
    if |bars| == 0 then None else Some(MaxFrom(bars[0], bars[1..]))
  }

  /** Ties keep the earlier bar: a best that nothing strictly beats stays. */
  lemma {:induction false} MaxFromKeepsLeader(best: Bar, rest: seq<Bar>)
    requires forall i :: 0 <= i < |rest| ==> rest[i].count <= best.count
    ensures MaxFrom(best, rest) == best
    decreases |rest|
  {
    if |rest| > 0 {
      MaxFromKeepsLeader(best, rest[1..]);
    }
  }

  /** The gender seen most often among `entries`, ties broken by `order`. */
  function Mode(entries: seq<LogEntry>, order: seq<SharkGender>): (r: Option<SharkGender>)
    requires IsKeyOrder(order)
    ensures r.None? <==> |entries| == 0
    ensures r.Some? ==> CountOf(entries, r.value) >= 1
    ensures r.Some? ==> forall g :: CountOf(entries, g) <= CountOf(entries, r.value)
  {
    var bars := Group(entries, order);
    if |entries| > 0 then
      CountsPartition(entries);
      var g :| CountOf(entries, g) >= 1;
      KeyOrderCoversAll(order, g);
      GroupComplete(entries, order, g);
      ModeOfBars(entries, order, bars)
    else
      ModeOfBars(entries, order, bars)
  }

  function ModeOfBars(entries: seq<LogEntry>, order: seq<SharkGender>, bars: seq<Bar>): (r: Option<SharkGender>)
    requires IsKeyOrder(order) && bars == Group(entries, order)
    ensures r.None? <==> |bars| == 0
    ensures r.Some? ==> CountOf(entries, r.value) >= 1
    ensures r.Some? ==> forall g :: CountOf(entries, g) <= CountOf(entries, r.value)
  {
    match MaxByCount(bars)
    case None => None
    case Some(b) =>
      assert forall g :: CountOf(entries, g) >= 1 ==> Bar(g, CountOf(entries, g)) in bars by {
        forall g | CountOf(entries, g) >= 1 ensures Bar(g, CountOf(entries, g)) in bars {
          KeyOrderCoversAll(order, g);
          GroupComplete(entries, order, g);
        }
      }
      Some(b.gender)
  }

  /** The key order that visits `g` first and the others in declaration order. */
  function OrderStartingWith(g: SharkGender): (order: seq<SharkGender>)
    ensures IsKeyOrder(order) && order[0] == g
  {
    match g
    case Masc => [Masc, Fem, Nonbinary]
    case Fem => [Fem, Masc, Nonbinary]
    case Nonbinary => [Nonbinary, Masc, Fem]
  }

  /** Any gender of maximal count is the mode under some iteration order,
      so the model leaves the tie-break open just as the dictionary does. */
  lemma AnyMaximumIsPossible(entries: seq<LogEntry>, g: SharkGender)
    requires CountOf(entries, g) >= 1
    requires forall h :: CountOf(entries, h) <= CountOf(entries, g)
    ensures Mode(entries, OrderStartingWith(g)) == Some(g)
  {
    var order := OrderStartingWith(g);
    var bars := Group(entries, order);
    assert bars[0] == Bar(g, CountOf(entries, g));
    MaxFromKeepsLeader(bars[0], bars[1..]);
  }

  /** A strict maximum is the mode whatever the iteration order. */
  lemma StrictMaximumIsMode(entries: seq<LogEntry>, order: seq<SharkGender>, g: SharkGender)
    requires IsKeyOrder(order)
    requires forall h :: h != g ==> CountOf(entries, h) < CountOf(entries, g)
    ensures Mode(entries, order) == Some(g)
  {
    CountsPartition(entries);
  }
}
