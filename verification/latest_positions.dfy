/** The track map's latest plausible position of every driver at a cursor. */
module LatestPositions {
  import opened Support

  /** A coordinate that is not a finite number is None. */
  datatype Position = Position(driver: Id, timeMs: real, x: Option<real>, y: Option<real>, raw: string)

  datatype Window = Window(cursorMs: real, staleAfterMs: real, maximumSpeed: real)

  predicate Eligible(w: Window, p: Position) {
    p.x.Some? && p.y.Some? && p.timeMs <= w.cursorMs && w.cursorMs - p.timeMs <= w.staleAfterMs
  }

  /** hypot(dx, dy) / seconds > maximum for a strictly later sample, without the square root. */
  predicate TooFast(w: Window, from: Position, to: Position) {
    && from.timeMs < to.timeMs
    && from.x.Some? && from.y.Some? && to.x.Some? && to.y.Some?
    && var dx, dy := to.x.value - from.x.value, to.y.value - from.y.value;
       var reach := w.maximumSpeed * ((to.timeMs - from.timeMs) / 1000.0);
       reach < 0.0 || dx * dx + dy * dy > reach * reach
  }

  // ----- A stable sort by time -----

  /** In time order, and not after `bound`. */
  predicate UpTo(s: seq<Position>, bound: real) {
    s != [] ==> s[|s| - 1].timeMs <= bound && UpTo(s[..|s| - 1], s[|s| - 1].timeMs)
  }

  predicate SortedByTime(s: seq<Position>) {
    s != [] ==> UpTo(s, s[|s| - 1].timeMs)
  }

  lemma {:induction false} UpToBounds(s: seq<Position>, bound: real, i: nat)
    requires UpTo(s, bound) && i < |s|
    ensures s[i].timeMs <= bound
  {
    if i < |s| - 1 {
      UpToBounds(s[..|s| - 1], s[|s| - 1].timeMs, i);
    }
  }

  /** Stable insertion: after every sample that is not later. */
  function Insert(s: seq<Position>, p: Position): seq<Position> {
    if s == [] || s[|s| - 1].timeMs <= p.timeMs then s + [p]
    else Insert(s[..|s| - 1], p) + [s[|s| - 1]]
  }

  function Sorted(s: seq<Position>): seq<Position> {
    if s == [] then [] else Insert(Sorted(s[..|s| - 1]), s[|s| - 1])
  }

  lemma {:induction false} InsertUpTo(s: seq<Position>, p: Position, bound: real)
    requires UpTo(s, bound) && p.timeMs <= bound
    ensures UpTo(Insert(s, p), bound)
  {
    if s == [] || s[|s| - 1].timeMs <= p.timeMs {
      assert (s + [p])[..|s|] == s;
    } else {
      var init, last := s[..|s| - 1], s[|s| - 1];
      InsertUpTo(init, p, last.timeMs);
      assert (Insert(init, p) + [last])[..|Insert(init, p)|] == Insert(init, p);
    }
  }

  lemma InsertSorted(s: seq<Position>, p: Position)
    requires SortedByTime(s)
    ensures SortedByTime(Insert(s, p))
  {
    if s != [] {
      var last := s[|s| - 1].timeMs;
      InsertUpTo(s, p, if last < p.timeMs then p.timeMs else last);
    } else {
      assert [p][..0] == [];
    }
  }

  lemma {:induction false} InsertMember(s: seq<Position>, p: Position, x: Position)
    ensures x in Insert(s, p) <==> x in s || x == p
  {
    if s != [] && s[|s| - 1].timeMs > p.timeMs {
      InsertMember(s[..|s| - 1], p, x);
      InInitOrLast(s, x);
    }
  }

  lemma {:induction false} SortedIsSorted(s: seq<Position>)
    ensures SortedByTime(Sorted(s))
  {
    if s != [] {
      SortedIsSorted(s[..|s| - 1]);
      InsertSorted(Sorted(s[..|s| - 1]), s[|s| - 1]);
    }
  }

  lemma {:induction false} SortedMember(s: seq<Position>, x: Position)
    ensures x in Sorted(s) <==> x in s
  {
    if s != [] {
      SortedMember(s[..|s| - 1], x);
      InsertMember(Sorted(s[..|s| - 1]), s[|s| - 1], x);
      InInitOrLast(s, x);
    }
  }

  lemma {:induction false} KeepUpTo(f: Position -> bool, s: seq<Position>, bound: real)
    requires UpTo(s, bound)
    ensures UpTo(Keep(f, s), bound)
  {
    if s != [] {
      var init, last := s[..|s| - 1], s[|s| - 1];
      KeepUpTo(f, init, last.timeMs);
      assert (Keep(f, init) + [last])[..|Keep(f, init)|] == Keep(f, init);
    }
  }

  lemma {:induction false} KeepInsert(f: Position -> bool, s: seq<Position>, p: Position)
    requires SortedByTime(s)
    ensures Keep(f, Insert(s, p)) == if f(p) then Insert(Keep(f, s), p) else Keep(f, s)
  {
    if s == [] || s[|s| - 1].timeMs <= p.timeMs {
      KeepAppend(f, s, p);
      KeepUpTo(f, s, p.timeMs);
    } else {
      var init, last := s[..|s| - 1], s[|s| - 1];
      assert UpTo(init, last.timeMs);
      KeepInsert(f, init, p);
      KeepAppend(f, Insert(init, p), last);
      if f(last) {
        assert (Keep(f, init) + [last])[..|Keep(f, init)|] == Keep(f, init);
      }
    }
  }

  /** Filtering and stable sorting commute. */
  lemma {:induction false} KeepSorted(f: Position -> bool, s: seq<Position>)
    ensures Keep(f, Sorted(s)) == Sorted(Keep(f, s))
  {
    if s != [] {
      var init, last := s[..|s| - 1], s[|s| - 1];
      KeepSorted(f, init);
      SortedIsSorted(init);
      KeepInsert(f, Sorted(init), last);
      if f(last) {
        assert (Keep(f, init) + [last])[..|Keep(f, init)|] == Keep(f, init);
      }
    }
  }

  function SampledAt(timeMs: real): Position -> bool {
    (p: Position) => p.timeMs == timeMs
  }

  lemma {:induction false} SortedTies(s: seq<Position>, timeMs: real)
    requires forall i :: 0 <= i < |s| ==> s[i].timeMs == timeMs
    ensures Sorted(s) == s
  {
    if s != [] {
      var init, last := s[..|s| - 1], s[|s| - 1];
      SortedTies(init, timeMs);
      assert init + [last] == s;
    }
  }

  /** The sort is stable and loses nothing: the samples of any one time are the same ones, in the same order. */
  lemma SortedKeepsTies(s: seq<Position>, timeMs: real)
    ensures Keep(SampledAt(timeMs), Sorted(s)) == Keep(SampledAt(timeMs), s)
  {
    KeepSorted(SampledAt(timeMs), s);
    var tied := Keep(SampledAt(timeMs), s);
    forall i | 0 <= i < |tied|
      ensures tied[i].timeMs == timeMs
    {
      KeepMember(SampledAt(timeMs), s, tied[i]);
    }
    SortedTies(tied, timeMs);
  }

  // ----- One driver -----

  /** One more sample against what is held. */
  function Next(w: Window, held: Option<Position>, p: Position): (next: Option<Position>)
    ensures next.Some?
  {
    if held.None? then Some(p)
    else if TooFast(w, held.value, p) || held.value.timeMs > p.timeMs then held
    else Some(p)
  }

  /** What one driver's samples, in time order, leave on the map. */
  function Held(w: Window, samples: seq<Position>): Option<Position> {
    if samples == [] then None else Next(w, Held(w, samples[..|samples| - 1]), samples[|samples| - 1])
  }

  function OwnEligible(w: Window, driver: Id): Position -> bool {
    (p: Position) => p.driver == driver && Eligible(w, p)
  }

  /** A driver's entry, from that driver's own eligible samples only, in stable time order. */
  function Entry(w: Window, driver: Id, positions: seq<Position>): Option<Position> {
    Held(w, Sorted(Keep(OwnEligible(w, driver), positions)))
  }

  function Lookup(latest: map<Id, Position>, driver: Id): Option<Position> {
    if driver in latest then Some(latest[driver]) else None
  }

  ghost predicate Reflects(w: Window, sorted: seq<Position>, latest: map<Id, Position>) {
    forall driver :: Lookup(latest, driver) == Held(w, Keep(OwnEligible(w, driver), sorted))
  }

  /** One pass of the loop body. */
  function WithPoint(w: Window, latest: map<Id, Position>, point: Position): map<Id, Position> {
    if Eligible(w, point) then latest[point.driver := Next(w, Lookup(latest, point.driver), point).value] else latest
  }

  lemma HeldAppend(w: Window, own: seq<Position>, p: Position)
    ensures Held(w, own + [p]) == Next(w, Held(w, own), p)
  {
    assert (own + [p])[..|own|] == own;
  }

  lemma ReflectsPoint(w: Window, sorted: seq<Position>, latest: map<Id, Position>, point: Position)
    requires Reflects(w, sorted, latest)
    ensures Reflects(w, sorted + [point], WithPoint(w, latest, point))
  {
    hide TooFast, Eligible, Held, Keep, Next;
    forall driver
      ensures Lookup(WithPoint(w, latest, point), driver) == Held(w, Keep(OwnEligible(w, driver), sorted + [point]))
    {
      var own := Keep(OwnEligible(w, driver), sorted);
      KeepAppend(OwnEligible(w, driver), sorted, point);
      assert Lookup(latest, driver) == Held(w, own);
      if driver == point.driver && Eligible(w, point) {
        HeldAppend(w, own, point);
      } else {
        assert own + [] == own;
      }
    }
  }

  /** A sample with finite coordinates from the window that ends at the cursor. */
  predicate InWindow(w: Window, p: Position) {
    w.cursorMs - w.staleAfterMs <= p.timeMs <= w.cursorMs && p.x.Some? && p.y.Some?
  }

  /** The fold over all drivers' samples, sorted by time, writing one map: each driver's entry depends
      only on that driver's own samples inside the window, and is one of them. */
  method LatestPositionsAt(positions: seq<Position>, w: Window) returns (latest: map<Id, Position>)
    ensures forall driver :: Lookup(latest, driver) == Entry(w, driver, positions)
    ensures forall driver :: driver in latest <==>
              exists i :: 0 <= i < |positions| && positions[i].driver == driver && InWindow(w, positions[i])
    ensures forall driver :: driver in latest ==>
              latest[driver] in positions && latest[driver].driver == driver && InWindow(w, latest[driver])
  {
    var sorted := Sorted(positions);
    latest := map[];
    for i := 0 to |sorted|
      invariant Reflects(w, sorted[..i], latest)
    {
      hide Reflects, TooFast, Eligible, Sorted;
      var point := sorted[i];
      ReflectsPoint(w, sorted[..i], latest, point);
      assert sorted[..i + 1] == sorted[..i] + [point];
      ghost var before := latest;
      if Eligible(w, point) {
        var current := Lookup(latest, point.driver);
        if current.Some? && TooFast(w, current.value, point) {
        } else if current.None? || current.value.timeMs <= point.timeMs {
          latest := latest[point.driver := point];
        }
      }
      assert latest == WithPoint(w, before, point);
    }
    assert sorted[..|sorted|] == sorted;
    forall driver
      ensures Lookup(latest, driver) == Entry(w, driver, positions)
    {
      KeepSorted(OwnEligible(w, driver), positions);
    }
    hide Entry, Reflects, Eligible;
    forall driver
      ensures driver in latest <==>
                exists i :: 0 <= i < |positions| && positions[i].driver == driver && InWindow(w, positions[i])
      ensures driver in latest ==>
                latest[driver] in positions && latest[driver].driver == driver && InWindow(w, latest[driver])
    {
      assert Lookup(latest, driver) == Entry(w, driver, positions);
      EntryInWindow(w, driver, positions);
    }
  }

  // ----- The results -----

  lemma {:induction false} KeepNarrower(f: Position -> bool, g: Position -> bool, s: seq<Position>)
    requires forall p :: f(p) ==> g(p)
    ensures Keep(f, Keep(g, s)) == Keep(f, s)
  {
    if s != [] {
      var init, last := s[..|s| - 1], s[|s| - 1];
      KeepNarrower(f, g, init);
      if g(last) {
        KeepAppend(f, Keep(g, init), last);
      }
    }
  }

  function Visible(w: Window): Position -> bool {
    (p: Position) => InWindow(w, p)
  }

  /** Causality: two recordings with the same samples in the window that ends at the cursor give every driver the
      same entry, whatever else they hold, after the cursor or before the window. */
  lemma OnlyWindowMatters(w: Window, driver: Id, positions: seq<Position>, others: seq<Position>)
    requires Keep(Visible(w), positions) == Keep(Visible(w), others)
    ensures Entry(w, driver, positions) == Entry(w, driver, others)
  {
    KeepNarrower(OwnEligible(w, driver), Visible(w), positions);
    KeepNarrower(OwnEligible(w, driver), Visible(w), others);
  }

  /** In particular samples from after the cursor, or from before the window, could as well not be there. */
  lemma FutureAndStaleIgnored(w: Window, driver: Id, before: seq<Position>, dropped: seq<Position>, after: seq<Position>)
    requires forall i :: 0 <= i < |dropped| ==>
               dropped[i].timeMs > w.cursorMs || dropped[i].timeMs < w.cursorMs - w.staleAfterMs
    ensures Entry(w, driver, before + dropped + after) == Entry(w, driver, before + after)
  {
    KeepConcat(Visible(w), before + dropped, after);
    KeepConcat(Visible(w), before, dropped);
    KeepConcat(Visible(w), before, after);
    KeepNone(Visible(w), dropped);
    assert Keep(Visible(w), before) + [] == Keep(Visible(w), before);
    OnlyWindowMatters(w, driver, before + dropped + after, before + after);
  }

  /** A driver has an entry exactly when it has a sample in the window, and the entry is such a sample. */
  lemma EntryInWindow(w: Window, driver: Id, positions: seq<Position>)
    ensures Entry(w, driver, positions).Some? <==>
              exists i :: 0 <= i < |positions| && positions[i].driver == driver && InWindow(w, positions[i])
    ensures Entry(w, driver, positions).Some? ==>
              var p := Entry(w, driver, positions).value;
              p in positions && p.driver == driver && InWindow(w, p)
  {
    hide Entry;
    EntryIffEligible(w, driver, positions);
    if Entry(w, driver, positions).Some? {
      var p := Entry(w, driver, positions).value;
      var i :| 0 <= i < |positions| && positions[i] == p;
    }
  }

  /** A driver has an entry exactly when one of its samples is eligible, and the entry is such a sample. */
  lemma EntryIffEligible(w: Window, driver: Id, positions: seq<Position>)
    ensures Entry(w, driver, positions).Some? <==>
            exists p :: p in positions && p.driver == driver && Eligible(w, p)
    ensures Entry(w, driver, positions).Some? ==>
              var p := Entry(w, driver, positions).value;
              p in positions && p.driver == driver && Eligible(w, p)
  {
    var own := Keep(OwnEligible(w, driver), positions);
    HeldIsSample(w, Sorted(own));
    forall p
      ensures p in Sorted(own) <==> p in positions && p.driver == driver && Eligible(w, p)
    {
      KeepMember(OwnEligible(w, driver), positions, p);
      SortedMember(own, p);
    }
    if Sorted(own) != [] {
      assert Sorted(own)[0] in Sorted(own);
    }
  }

  lemma {:induction false} HeldIsSample(w: Window, samples: seq<Position>)
    ensures Held(w, samples).Some? <==> samples != []
    ensures Held(w, samples).Some? ==> Held(w, samples).value in samples
  {
    if samples != [] {
      HeldIsSample(w, samples[..|samples| - 1]);
      assert samples == samples[..|samples| - 1] + [samples[|samples| - 1]];
    }
  }

  /** The samples that were ever held, in order. */
  function Trail(w: Window, samples: seq<Position>): seq<Position> {
    if samples == [] then []
    else
      var init := samples[..|samples| - 1];
      Trail(w, init) + if Held(w, samples) == Held(w, init) then [] else [samples[|samples| - 1]]
  }

  /** Within the distance the maximum speed covers between the two times. */
  predicate Reachable(w: Window, from: Position, to: Position) {
    from.x.Some? && from.y.Some? && to.x.Some? && to.y.Some? ==>
      var reach := w.maximumSpeed * ((to.timeMs - from.timeMs) / 1000.0);
      reach >= 0.0 &&
      (to.x.value - from.x.value) * (to.x.value - from.x.value) +
      (to.y.value - from.y.value) * (to.y.value - from.y.value) <= reach * reach
  }

  lemma ReachableUnlessTooFast(w: Window, from: Position, to: Position)
    requires from.timeMs < to.timeMs
    ensures Reachable(w, from, to) <==> !TooFast(w, from, to)
  {
  }

  ghost predicate WithinReach(w: Window, trail: seq<Position>) {
    forall i :: 0 <= i < |trail| - 1 ==>
      trail[i].timeMs <= trail[i + 1].timeMs &&
      (trail[i].timeMs < trail[i + 1].timeMs ==> Reachable(w, trail[i], trail[i + 1]))
  }

  lemma {:induction false} TrailEndsHeld(w: Window, samples: seq<Position>)
    ensures Held(w, samples) ==
            if Trail(w, samples) == [] then None else Some(Trail(w, samples)[|Trail(w, samples)| - 1])
  {
    if samples != [] {
      TrailEndsHeld(w, samples[..|samples| - 1]);
    }
  }

  /** The held sample is the end of a chain in which every replacement by a strictly later sample obeys
      the speed limit. */
  lemma {:induction false} TrailObeysLimit(w: Window, samples: seq<Position>)
    ensures WithinReach(w, Trail(w, samples))
    ensures samples != [] ==> Trail(w, samples) != [] && Held(w, samples) == Some(Trail(w, samples)[|Trail(w, samples)| - 1])
  {
    TrailEndsHeld(w, samples);
    HeldIsSample(w, samples);
    if samples != [] {
      var init := samples[..|samples| - 1];
      TrailObeysLimit(w, init);
      TrailEndsHeld(w, init);
      var last := samples[|samples| - 1];
      if init != [] && Held(w, init).value.timeMs < last.timeMs {
        ReachableUnlessTooFast(w, Held(w, init).value, last);
      }
    }
  }

  /** What is held is never passed over wrongly: every sample after it in time order is strictly later and was
      out of its reach, and everything before it is no later. */
  lemma {:induction false} HeldIsLatestReachable(w: Window, samples: seq<Position>) returns (h: nat)
    requires SortedByTime(samples) && samples != []
    ensures h < |samples| && Held(w, samples) == Some(samples[h])
    ensures forall k :: 0 <= k < h ==> samples[k].timeMs <= samples[h].timeMs
    ensures forall k :: h < k < |samples| ==> samples[k].timeMs > samples[h].timeMs && !Reachable(w, samples[h], samples[k])
  {
    var init, last := samples[..|samples| - 1], samples[|samples| - 1];
    forall k | 0 <= k < |samples|
      ensures samples[k].timeMs <= last.timeMs
    {
      UpToBounds(samples, last.timeMs, k);
    }
    if init == [] {
      h := 0;
      assert Held(w, init) == None;
    } else {
      assert UpTo(init, last.timeMs);
      h := HeldIsLatestReachable(w, init);
      if samples[h].timeMs < last.timeMs {
        ReachableUnlessTooFast(w, samples[h], last);
      }
      if Held(w, samples) != Held(w, init) || samples[h].timeMs == last.timeMs || !TooFast(w, samples[h], last) {
        h := |init|;
      }
    }
  }
}
