/** Grouping and summarising archive observations. Points are exact, in hundredths. */
module Observations {
  import opened Support
  import opened Grouping

  datatype Outcome = Finished | Classified | DidNotFinish | DidNotStart | Disqualified | Other

  datatype Observation = Observation(
    session: Id,
    season: int,
    round: int,
    driver: Id,
    team: Option<Id>,
    grid: Option<int>,
    finish: Option<int>,
    points: int,
    laps: Option<int>,
    outcome: Outcome,
    gained: Option<int>,
    pitStops: Option<int>)

  predicate Comparable(item: Observation) {
    item.outcome.Finished? || item.outcome.Classified?
  }

  // ----- Summaries -----

  datatype Summary = Summary(
    count: int, starts: int, finishes: int, wins: int, podiums: int, points: int,
    dnf: int, dns: int, dsq: int,
    gridTotal: int, gridSamples: int, finishTotal: int, finishSamples: int,
    gained: int, gainedSamples: int, laps: int)

  function Known(x: Option<int>): int {
    if x.Some? then x.value else 0
  }

  predicate Started(item: Observation) { !item.outcome.DidNotStart? }
  predicate HasGrid(item: Observation) { item.grid.Some? && item.grid.value != 0 }
  predicate HasFinish(item: Observation) { item.finish.Some? }
  predicate HasGain(item: Observation) { item.gained.Some? }
  predicate Won(item: Observation) { item.finish == Some(1) }
  predicate OnPodium(item: Observation) { item.finish.Some? && item.finish.value <= 3 }
  predicate Retired(item: Observation) { item.outcome.DidNotFinish? }
  predicate NeverStarted(item: Observation) { item.outcome.DidNotStart? }
  predicate Excluded(item: Observation) { item.outcome.Disqualified? }

  function Points(item: Observation): int { item.points }
  function GridOf(item: Observation): int { Known(item.grid) }
  function FinishOf(item: Observation): int { Known(item.finish) }
  function GainOf(item: Observation): int { Known(item.gained) }
  function LapsOf(item: Observation): int { Known(item.laps) }

  /** `_summary`: filters and sums over the whole list. Averages are total over samples. */
  function Summarize(items: seq<Observation>): Summary {
    var starts := Keep(Started, items);
    var classified := Keep(Comparable, items);
    var grids := Keep(HasGrid, starts);
    var finishes := Keep(HasFinish, classified);
    var gains := Keep(HasGain, classified);
    Summary(
      |items|, |starts|, |classified|, |Keep(Won, classified)|, |Keep(OnPodium, classified)|, Total(Points, items),
      |Keep(Retired, items)|, |Keep(NeverStarted, items)|, |Keep(Excluded, items)|,
      Total(GridOf, grids), |grids|, Total(FinishOf, finishes), |finishes|,
      Total(GainOf, gains), |gains|, Total(LapsOf, items))
  }

  function Add(a: Summary, b: Summary): Summary {
    Summary(a.count + b.count, a.starts + b.starts, a.finishes + b.finishes, a.wins + b.wins,
            a.podiums + b.podiums, a.points + b.points, a.dnf + b.dnf, a.dns + b.dns, a.dsq + b.dsq,
            a.gridTotal + b.gridTotal, a.gridSamples + b.gridSamples,
            a.finishTotal + b.finishTotal, a.finishSamples + b.finishSamples,
            a.gained + b.gained, a.gainedSamples + b.gainedSamples, a.laps + b.laps)
  }

  const NOTHING := Summary(0, 0, 0, 0, 0, 0, 0, 0, 0, 0, 0, 0, 0, 0, 0, 0)

  lemma KeepTwice(p: Observation -> bool, q: Observation -> bool, a: seq<Observation>, b: seq<Observation>)
    ensures Keep(p, Keep(q, a + b)) == Keep(p, Keep(q, a)) + Keep(p, Keep(q, b))
  {
    KeepConcat(q, a, b);
    KeepConcat(p, Keep(q, a), Keep(q, b));
  }

  /** Summaries of disjoint lists add up. */
  lemma SummarizeConcat(a: seq<Observation>, b: seq<Observation>)
    ensures Summarize(a + b) == Add(Summarize(a), Summarize(b))
  {
    KeepConcat(Started, a, b);
    KeepConcat(Comparable, a, b);
    KeepConcat(Retired, a, b);
    KeepConcat(NeverStarted, a, b);
    KeepConcat(Excluded, a, b);
    KeepTwice(HasGrid, Started, a, b);
    KeepTwice(HasFinish, Comparable, a, b);
    KeepTwice(HasGain, Comparable, a, b);
    KeepTwice(Won, Comparable, a, b);
    KeepTwice(OnPodium, Comparable, a, b);
    TotalConcat(Points, a, b);
    TotalConcat(LapsOf, a, b);
    TotalConcat(GridOf, Keep(HasGrid, Keep(Started, a)), Keep(HasGrid, Keep(Started, b)));
    TotalConcat(FinishOf, Keep(HasFinish, Keep(Comparable, a)), Keep(HasFinish, Keep(Comparable, b)));
    TotalConcat(GainOf, Keep(HasGain, Keep(Comparable, a)), Keep(HasGain, Keep(Comparable, b)));
  }

  /** The summary of one observation, column by column; with the law above it fixes every summary. */
  lemma SummarizeOne(item: Observation)
    ensures var s := Summarize([item]);
            var classified := item.outcome == Finished || item.outcome == Classified;
            var started := item.outcome != DidNotStart;
            var gridded := started && item.grid.Some? && item.grid.value != 0;
            var placed, moved := classified && item.finish.Some?, classified && item.gained.Some?;
            && s.count == 1 && s.starts == (if started then 1 else 0) && s.finishes == (if classified then 1 else 0)
            && s.wins == (if classified && item.finish == Some(1) then 1 else 0)
            && s.podiums == (if classified && item.finish.Some? && item.finish.value <= 3 then 1 else 0)
            && s.points == item.points && s.laps == (if item.laps.Some? then item.laps.value else 0)
            && s.dnf == (if item.outcome == DidNotFinish then 1 else 0)
            && s.dns == (if item.outcome == DidNotStart then 1 else 0)
            && s.dsq == (if item.outcome == Disqualified then 1 else 0)
            && s.gridSamples == (if gridded then 1 else 0) && s.gridTotal == (if gridded then item.grid.value else 0)
            && s.finishSamples == (if placed then 1 else 0) && s.finishTotal == (if placed then item.finish.value else 0)
            && s.gainedSamples == (if moved then 1 else 0) && s.gained == (if moved then item.gained.value else 0)
  {
    KeepOne(Started, item);
    KeepOne(Comparable, item);
    KeepOne(Retired, item);
    KeepOne(NeverStarted, item);
    KeepOne(Excluded, item);
    KeepOne(Won, item);
    KeepOne(OnPodium, item);
    KeepOne(HasGrid, item);
    KeepOne(HasFinish, item);
    KeepOne(HasGain, item);
    TotalOne(Points, item);
    TotalOne(LapsOf, item);
    TotalOne(GridOf, item);
    TotalOne(FinishOf, item);
    TotalOne(GainOf, item);
    hide Keep, Total;
    assert Keep(HasGrid, []) == [] && Keep(HasFinish, []) == [] && Keep(HasGain, []) == [] by { KeepNothing(); }
    assert Keep(Won, []) == [] && Keep(OnPodium, []) == [] by { KeepNothing(); }
    assert Total(GridOf, []) == 0 && Total(FinishOf, []) == 0 && Total(GainOf, []) == 0 by { KeepNothing(); }
  }

  lemma KeepNothing()
    ensures forall p: Observation -> bool :: Keep(p, []) == []
    ensures forall f: Observation -> int :: Total(f, []) == 0
  {
  }

  lemma TotalOne(f: Observation -> int, item: Observation)
    ensures Total(f, [item]) == f(item)
  {
    assert [item][..0] == [];
  }

  lemma AddLaws(a: Summary, b: Summary, c: Summary)
    ensures Add(Add(a, NOTHING), Add(b, c)) == Add(Add(a, b), c) == Add(Add(a, c), b)
    ensures Add(a, NOTHING) == a
  {
  }

  /** The sum of the summaries of the groups named in `order`. */
  function SumOfGroups(items: seq<Observation>, key: Observation -> Option<Id>, order: seq<Id>): Summary {
    if order == [] then NOTHING
    else
      Add(SumOfGroups(items, key, order[..|order| - 1]), Summarize(Group(items, key, order[|order| - 1])))
  }

  lemma SumOfGroupsUnfolds(items: seq<Observation>, key: Observation -> Option<Id>, order: seq<Id>)
    requires order != []
    ensures SumOfGroups(items, key, order) ==
            Add(SumOfGroups(items, key, order[..|order| - 1]), Summarize(Group(items, key, order[|order| - 1])))
  {
  }

  lemma OneMoreInGroup(items: seq<Observation>, key: Observation -> Option<Id>, item: Observation, value: Id)
    ensures Summarize(Group(items + [item], key, value)) ==
            if key(item) == Some(value) then Add(Summarize(Group(items, key, value)), Summarize([item]))
            else Summarize(Group(items, key, value))
  {
    hide Summarize;
    GroupAppend(items, key, item, value);
    if key(item) == Some(value) {
      SummarizeConcat(Group(items, key, value), [item]);
    } else {
      assert Group(items, key, value) + [] == Group(items, key, value);
    }
  }

  lemma {:induction false} OneMoreItem(items: seq<Observation>, key: Observation -> Option<Id>,
                                       item: Observation, order: seq<Id>)
    requires NoRepeat(order)
    ensures SumOfGroups(items + [item], key, order) ==
            Add(SumOfGroups(items, key, order),
                if key(item).Some? && key(item).value in order then Summarize([item]) else NOTHING)
  {
    if order == [] {
    } else {
      hide *;
      var init, last := order[..|order| - 1], order[|order| - 1];
      var before, group, extra := SumOfGroups(items, key, init), Summarize(Group(items, key, last)), Summarize([item]);
      OneMoreItem(items, key, item, init);
      OneMoreInGroup(items, key, item, last);
      SumOfGroupsUnfolds(items, key, order);
      SumOfGroupsUnfolds(items + [item], key, order);
      AddLaws(before, group, extra);
      assert last !in init;
      if key(item).Some? {
        InInitOrLast(order, key(item).value);
      }
      if key(item) == Some(last) {
        assert SumOfGroups(items + [item], key, order) == Add(Add(before, NOTHING), Add(group, extra));
      } else if key(item).Some? && key(item).value in init {
        assert SumOfGroups(items + [item], key, order) == Add(Add(before, extra), group);
      } else {
        assert SumOfGroups(items + [item], key, order) == Add(Add(before, NOTHING), group);
        assert Add(Add(before, NOTHING), group) == Add(before, group);
        AddLaws(Add(before, group), NOTHING, NOTHING);
      }
    }
  }

  /** Conservation: the summaries of the groups add up to the summary of all keyed observations. */
  lemma {:induction false} GroupSummariesAddUp(items: seq<Observation>, key: Observation -> Option<Id>)
    ensures SumOfGroups(items, key, FirstSeen(items, key)) == Summarize(Keep(Keyed(key), items))
  {
    if items != [] {
      var init, item := items[..|items| - 1], items[|items| - 1];
      assert items == init + [item];
      GroupSummariesAddUp(init, key);
      GroupSummariesStep(init, key, item);
    }
  }

  lemma GroupSummariesStep(items: seq<Observation>, key: Observation -> Option<Id>, item: Observation)
    requires SumOfGroups(items, key, FirstSeen(items, key)) == Summarize(Keep(Keyed(key), items))
    ensures SumOfGroups(items + [item], key, FirstSeen(items + [item], key)) == Summarize(Keep(Keyed(key), items + [item]))
  {
    hide Summarize;
    var order := FirstSeen(items, key);
    FirstSeenAppend(items, key, item);
    FirstSeenSound(items, key);
    KeepAppend(Keyed(key), items, item);
    OneMoreItem(items, key, item, order);
    if key(item).None? {
      assert Keep(Keyed(key), items) + [] == Keep(Keyed(key), items);
    } else {
      SummarizeConcat(Keep(Keyed(key), items), [item]);
      var value := key(item).value;
      if value !in order {
        GroupAppend(items, key, item, value);
        assert Group(items + [item], key, value) == [item];
        assert (order + [value])[..|order|] == order;
      }
    }
  }

  ghost predicate Ordered(s: Summary) {
    && 0 <= s.wins <= s.podiums <= s.finishes <= s.starts
    && s.starts + s.dns == s.count
    && s.finishes + s.dnf + s.dsq <= s.starts
    && 0 <= s.finishSamples <= s.finishes && 0 <= s.gridSamples <= s.starts
  }

  /** Filtering one item by q and then by p. */
  lemma KeepTwiceOne(p: Observation -> bool, q: Observation -> bool, item: Observation)
    ensures |Keep(p, Keep(q, [item]))| == if q(item) && p(item) then 1 else 0
  {
    KeepOne(q, item);
    if q(item) {
      KeepOne(p, item);
    }
  }

  lemma OneOrdered(item: Observation)
    ensures Ordered(Summarize([item]))
  {
    KeepOne(Started, item);
    KeepOne(Comparable, item);
    KeepOne(Retired, item);
    KeepOne(NeverStarted, item);
    KeepOne(Excluded, item);
    KeepTwiceOne(HasGrid, Started, item);
    KeepTwiceOne(HasFinish, Comparable, item);
    KeepTwiceOne(Won, Comparable, item);
    KeepTwiceOne(OnPodium, Comparable, item);
    hide Keep, Total;
  }

  /** The counts nest, and every observation either started or did not. */
  lemma {:induction false} SummaryOrdered(items: seq<Observation>)
    ensures Ordered(Summarize(items))
  {
    if items != [] {
      hide Summarize;
      var init, item := items[..|items| - 1], items[|items| - 1];
      assert items == init + [item];
      SummaryOrdered(init);
      OneOrdered(item);
      SummarizeConcat(init, [item]);
    }
  }
}
