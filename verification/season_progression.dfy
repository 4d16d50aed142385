/** The season page's points progressions and constructor concentration. */
module SeasonProgression {
  import opened Support
  import opened Grouping
  import opened Observations

  datatype Point = Point(round: int, value: int)

  /** What one observation adds to an entity's running total, counting the given rounds only. */
  function Counted(entity: Observation -> Option<Id>, id: Id, rounds: set<int>): Observation -> int {
    (item: Observation) => if entity(item) == Some(id) && item.round in rounds then item.points else 0
  }

  function PointsIn(items: seq<Observation>, entity: Observation -> Option<Id>, id: Id, rounds: set<int>): int {
    Total(Counted(entity, id, rounds), items)
  }

  function UpTo(entity: Observation -> Option<Id>, id: Id, round: int): Observation -> bool {
    (item: Observation) => entity(item) == Some(id) && item.round <= round
  }

  /** An entity's points in the rounds up to and including `round`. */
  function PointsThrough(items: seq<Observation>, entity: Observation -> Option<Id>, id: Id, round: int): int {
    Total(Points, Keep(UpTo(entity, id, round), items))
  }

  lemma {:induction false} PointsInDisjoint(items: seq<Observation>, entity: Observation -> Option<Id>, id: Id,
                                            done: set<int>, round: int)
    requires round !in done
    ensures PointsIn(items, entity, id, done + {round}) ==
            PointsIn(items, entity, id, done) + PointsIn(items, entity, id, {round})
  {
    if items != [] {
      PointsInDisjoint(items[..|items| - 1], entity, id, done, round);
    }
  }

  lemma {:induction false} PointsInNone(items: seq<Observation>, entity: Observation -> Option<Id>, id: Id)
    ensures PointsIn(items, entity, id, {}) == 0
  {
    if items != [] {
      PointsInNone(items[..|items| - 1], entity, id);
    }
  }

  lemma {:induction false} PointsInIsPointsThrough(items: seq<Observation>, entity: Observation -> Option<Id>, id: Id,
                                                   done: set<int>, round: int)
    requires forall item :: item in items ==> (item.round in done <==> item.round <= round)
    ensures PointsIn(items, entity, id, done) == PointsThrough(items, entity, id, round)
  {
    if items != [] {
      var init, last := items[..|items| - 1], items[|items| - 1];
      forall item ensures item in items <==> item in init || item == last {
        InInitOrLast(items, item);
      }
      PointsInIsPointsThrough(init, entity, id, done, round);
      if UpTo(entity, id, round)(last) {
        TotalAppend(Points, Keep(UpTo(entity, id, round), init), last);
      }
    }
  }

  function Get(totals: map<Id, int>, id: Id): int {
    if id in totals then totals[id] else 0
  }

  /** One pass over the observations, adding the points of `round` to the running totals. */
  method AddRound(items: seq<Observation>, entity: Observation -> Option<Id>, totals: map<Id, int>, round: int)
    returns (after: map<Id, int>)
    ensures forall id :: Get(after, id) == Get(totals, id) + PointsIn(items, entity, id, {round})
  {
    after := totals;
    for j := 0 to |items|
      invariant forall id :: Get(after, id) == Get(totals, id) + PointsIn(items[..j], entity, id, {round})
    {
      var item := items[j];
      var owner := entity(item);
      forall id
        ensures PointsIn(items[..j + 1], entity, id, {round}) ==
                PointsIn(items[..j], entity, id, {round}) + Counted(entity, id, {round})(item)
      {
        assert items[..j + 1] == items[..j] + [item];
        TotalAppend(Counted(entity, id, {round}), items[..j], item);
      }
      if item.round == round && owner.Some? {
        after := after[owner.value := Get(after, owner.value) + item.points];
      }
    }
    assert items[..|items|] == items;
  }

  /** The first k of the rounds. */
  function First(rounds: seq<int>, k: nat): set<int>
    requires k <= |rounds|
  {
    set i | 0 <= i < k :: rounds[i]
  }

  ghost predicate RoundsOf(items: seq<Observation>, rounds: seq<int>) {
    Ascending(rounds) && forall round :: round in rounds <==> exists i :: 0 <= i < |items| && items[i].round == round
  }

  lemma NextRound(items: seq<Observation>, entity: Observation -> Option<Id>, id: Id, rounds: seq<int>, k: nat)
    requires RoundsOf(items, rounds) && k < |rounds|
    ensures PointsIn(items, entity, id, First(rounds, k)) + PointsIn(items, entity, id, {rounds[k]}) ==
            PointsThrough(items, entity, id, rounds[k]) == PointsIn(items, entity, id, First(rounds, k + 1))
  {
    PointsInDisjoint(items, entity, id, First(rounds, k), rounds[k]);
    assert First(rounds, k) + {rounds[k]} == First(rounds, k + 1);
    forall item | item in items
      ensures item.round in First(rounds, k + 1) <==> item.round <= rounds[k]
    {
      assert item.round in rounds;
      var i :| 0 <= i < |rounds| && rounds[i] == item.round;
      if i <= k {
        assert rounds[i] in First(rounds, k + 1);
      }
    }
    PointsInIsPointsThrough(items, entity, id, First(rounds, k + 1), rounds[k]);
  }

  method SortedRounds(items: seq<Observation>) returns (rounds: seq<int>)
    ensures RoundsOf(items, rounds)
  {
    rounds := SortedMembers(set i | 0 <= i < |items| :: items[i].round);
  }

  /** One entry per round so far, each the entity's total through that round. */
  ghost predicate Traces(points: seq<Point>, items: seq<Observation>, entity: Observation -> Option<Id>, id: Id,
                         rounds: seq<int>)
  {
    |points| == |rounds| &&
    forall k :: 0 <= k < |rounds| ==> points[k] == Point(rounds[k], PointsThrough(items, entity, id, rounds[k]))
  }

  /** Cumulative points of the leading entities, one entry per round. */
  method Progression(items: seq<Observation>, entity: Observation -> Option<Id>, top: set<Id>)
    returns (rounds: seq<int>, progression: map<Id, seq<Point>>)
    ensures RoundsOf(items, rounds)
    ensures progression.Keys == top
    ensures forall id :: id in top ==> Traces(progression[id], items, entity, id, rounds)
  {
    rounds := SortedRounds(items);
    hide RoundsOf, PointsIn, PointsThrough;
    progression := map id | id in top :: [];
    var totals := map[];
    forall id {
      PointsInNone(items, entity, id);
    }
    assert First(rounds, 0) == {};
    for k := 0 to |rounds|
      invariant forall id :: Get(totals, id) == PointsIn(items, entity, id, First(rounds, k))
      invariant progression.Keys == top
      invariant forall id :: id in top ==> Traces(progression[id], items, entity, id, rounds[..k])
    {
      totals := AddRound(items, entity, totals, rounds[k]);
      forall id {
        NextRound(items, entity, id, rounds, k);
      }
      progression := map id | id in top :: progression[id] + [Point(rounds[k], Get(totals, id))];
      assert rounds[..k + 1] == rounds[..k] + [rounds[k]];
    }
    assert rounds[..|rounds|] == rounds;
  }

  /** The last point of a progression is the season total the grouping and summary give independently. */
  lemma {:induction false} LastPointIsSeasonTotal(items: seq<Observation>, entity: Observation -> Option<Id>, id: Id, last: int)
    requires forall i :: 0 <= i < |items| ==> items[i].round <= last
    ensures PointsThrough(items, entity, id, last) == Summarize(Group(items, entity, id)).points
  {
    if items != [] {
      var init, item := items[..|items| - 1], items[|items| - 1];
      LastPointIsSeasonTotal(init, entity, id, last);
      assert items == init + [item];
      KeepAppend(UpTo(entity, id, last), init, item);
      KeepAppend(Having(entity, id), init, item);
      if entity(item) == Some(id) {
        TotalAppend(Points, Keep(UpTo(entity, id, last), init), item);
        TotalAppend(Points, Group(init, entity, id), item);
      }
    }
  }

  /** What a chart's last entry shows is that entity's season total. */
  lemma ProgressionEndsAtSeasonTotal(items: seq<Observation>, entity: Observation -> Option<Id>, id: Id,
                                     rounds: seq<int>, points: seq<Point>)
    requires items != [] && RoundsOf(items, rounds) && Traces(points, items, entity, id, rounds)
    ensures points != [] && points[|points| - 1].value == Summarize(Group(items, entity, id)).points
  {
    hide Summarize, PointsThrough;
    assert items[0].round in rounds;
    var last := rounds[|rounds| - 1];
    forall i | 0 <= i < |items|
      ensures items[i].round <= last
    {
      assert items[i].round in rounds;
    }
    LastPointIsSeasonTotal(items, entity, id, last);
  }

  /** Progressions never fall while nobody loses points. */
  lemma {:induction false} ProgressionMonotone(items: seq<Observation>, entity: Observation -> Option<Id>, id: Id,
                                               earlier: int, later: int)
    requires earlier <= later && forall i :: 0 <= i < |items| ==> items[i].points >= 0
    ensures PointsThrough(items, entity, id, earlier) <= PointsThrough(items, entity, id, later)
  {
    if items != [] {
      var init, item := items[..|items| - 1], items[|items| - 1];
      ProgressionMonotone(init, entity, id, earlier, later);
      TotalAppend(Points, Keep(UpTo(entity, id, earlier), init), item);
      TotalAppend(Points, Keep(UpTo(entity, id, later), init), item);
    }
  }

  // ----- Concentration -----

  function SumReal(values: seq<real>): real {
    if values == [] then 0.0 else SumReal(values[1..]) + values[0]
  }

  function Share(part: real, total: real): real
    requires total > 0.0
  {
    part / total
  }

  function SumSquaredShares(values: seq<real>, total: real): real
    requires total > 0.0
  {
    if values == [] then 0.0 else SumSquaredShares(values[1..], total) + Share(values[0], total) * Share(values[0], total)
  }

  /** The constructors' concentration index before rounding. */
  function Concentration(points: seq<real>): Option<real> {
    if SumReal(points) <= 0.0 then None else Some(SumSquaredShares(points, SumReal(points)))
  }

  lemma SharesAdd(a: real, b: real, total: real)
    requires total > 0.0
    ensures Share(a + b, total) == Share(a, total) + Share(b, total)
    ensures a >= 0.0 ==> Share(a, total) >= 0.0
    ensures Share(total, total) == 1.0 && Share(0.0, total) == 0.0
  {
  }

  /** Cauchy and Schwarz: the squared total share is at most n times the sum of squared shares. */
  lemma {:induction false} EvenSplitIsLeast(values: seq<real>, total: real)
    requires total > 0.0
    ensures Share(SumReal(values), total) * Share(SumReal(values), total) <=
            (|values| as real) * SumSquaredShares(values, total)
    ensures SumSquaredShares(values, total) >= 0.0
  {
    hide Share;
    SharesAdd(0.0, 0.0, total);
    if values != [] {
      EvenSplitIsLeast(values[1..], total);
      SharesAdd(SumReal(values[1..]), values[0], total);
      CauchyStep(Share(values[0], total), Share(SumReal(values[1..]), total),
                 |values[1..]| as real, SumSquaredShares(values[1..], total));
    }
  }

  /** Shares that are not negative: the sum of their squares is at most the square of their sum. */
  lemma {:induction false} MonopolyIsGreatest(values: seq<real>, total: real)
    requires total > 0.0 && forall i :: 0 <= i < |values| ==> values[i] >= 0.0
    ensures SumReal(values) >= 0.0
    ensures SumSquaredShares(values, total) <= Share(SumReal(values), total) * Share(SumReal(values), total)
  {
    hide Share;
    SharesAdd(0.0, 0.0, total);
    if values != [] {
      MonopolyIsGreatest(values[1..], total);
      SharesAdd(SumReal(values[1..]), values[0], total);
      SharesAdd(values[0], 0.0, total);
      CrossTerm(Share(values[0], total), Share(SumReal(values[1..]), total));
    }
  }

  lemma CrossTerm(x: real, rest: real)
    requires x >= 0.0 && rest >= 0.0
    ensures rest * rest + x * x <= (rest + x) * (rest + x)
  {
    assert (rest + x) * (rest + x) == rest * rest + 2.0 * (rest * x) + x * x;
  }

  lemma PositiveSquare(x: real)
    requires x != 0.0
    ensures x * x > 0.0
  {
    if x < 0.0 {
      assert x * x == (-x) * (-x);
    }
  }

  lemma CauchyStep(x: real, rest: real, n: real, squares: real)
    requires n >= 0.0 && rest * rest <= n * squares && squares >= 0.0
    ensures (rest + x) * (rest + x) <= (n + 1.0) * (squares + x * x)
  {
    assert (rest + x) * (rest + x) == rest * rest + 2.0 * rest * x + x * x;
    assert (n + 1.0) * (squares + x * x) == n * squares + n * (x * x) + squares + x * x;
    // 2 * rest * x <= n * x^2 + squares, since rest^2 <= n * squares
    if n == 0.0 {
      if rest != 0.0 {
        PositiveSquare(rest);
      }
    } else {
      var d := n * x - rest;
      assert d * d == n * n * (x * x) - 2.0 * n * (rest * x) + rest * rest;
      assert 0.0 <= n * n * (x * x) - 2.0 * n * (rest * x) + n * squares;
      assert n * (n * (x * x) - 2.0 * (rest * x) + squares) == n * n * (x * x) - 2.0 * n * (rest * x) + n * squares;
    }
  }

  function SumSquares(values: seq<real>): real {
    if values == [] then 0.0 else SumSquares(values[1..]) + values[0] * values[0]
  }

  lemma ShareSquare(part: real, total: real)
    requires total > 0.0
    ensures Share(part, total) * Share(part, total) * (total * total) == part * part
  {
    var share := Share(part, total);
    assert share * total == part;
    assert share * share * (total * total) == (share * total) * (share * total);
  }

  lemma {:induction false} SharesScaled(values: seq<real>, total: real)
    requires total > 0.0
    ensures SumSquaredShares(values, total) * (total * total) == SumSquares(values)
  {
    if values != [] {
      SharesScaled(values[1..], total);
      ShareSquare(values[0], total);
      var rest, first := SumSquaredShares(values[1..], total), Share(values[0], total) * Share(values[0], total);
      hide Share;
      assert (rest + first) * (total * total) == rest * (total * total) + first * (total * total);
    }
  }

  /** The index is the sum of the squared points over the square of their total, and there is one exactly when
      that total is positive. */
  lemma ConcentrationIsSquaresOverSquare(points: seq<real>)
    ensures Concentration(points).Some? <==> SumReal(points) > 0.0
    ensures Concentration(points).Some? ==>
              Concentration(points).value * (SumReal(points) * SumReal(points)) == SumSquares(points)
  {
    if SumReal(points) > 0.0 {
      SharesScaled(points, SumReal(points));
    }
  }

  /** Concentration lies between an even split and a monopoly. */
  lemma ConcentrationBounds(points: seq<real>)
    requires Concentration(points).Some?
    ensures points != [] && 1.0 / (|points| as real) <= Concentration(points).value
    ensures (forall i :: 0 <= i < |points| ==> points[i] >= 0.0) ==> Concentration(points).value <= 1.0
  {
    var total := SumReal(points);
    SharesAdd(total, 0.0, total);
    EvenSplitIsLeast(points, total);
    if forall i :: 0 <= i < |points| ==> points[i] >= 0.0 {
      MonopolyIsGreatest(points, total);
    }
  }
}
