/** The replay rail: significant events binned into at most forty-one markers. */
module EventTimeline {
  import opened Support
  import opened Grouping

  datatype Kind =
    | TrackStatus | DriverStatus | PitEntered | PitExited | RaceControl | WeatherObserved | StintChanged
    | SessionMarker | PositionChanged | LapCompleted | Unrecognised

  datatype Event = Event(kind: Kind, rainfall: bool, timeMs: int, text: string)

  datatype Marker = Marker(event: Event, count: int, bin: int)

  const BIN_COUNT: int := 40

  predicate Significant(event: Event) {
    match event.kind
    case PositionChanged => false
    case LapCompleted => false
    case WeatherObserved => event.rainfall
    case SessionMarker => false
    case _ => true
  }

  function Priority(kind: Kind): int {
    match kind
    case TrackStatus => 0
    case DriverStatus => 1
    case PitEntered => 2
    case PitExited => 3
    case RaceControl => 4
    case WeatherObserved => 5
    case StintChanged => 6
    case SessionMarker => 7
    case PositionChanged => 8
    case LapCompleted => 9
    case Unrecognised => 99
  }

  datatype Rail = Rail(minimumMs: int, maximumMs: int) {
    function Duration(): int
      ensures Duration() >= 1
    {
      if maximumMs - minimumMs < 1 then 1 else maximumMs - minimumMs
    }

    /** Math.round: halves go up. */
    function Bin(timeMs: int): int {
      (2 * BIN_COUNT * (timeMs - minimumMs) + Duration()) / (2 * Duration())
    }

    predicate Covers(event: Event) {
      minimumMs <= event.timeMs <= maximumMs
    }
  }

  function BinOf(rail: Rail): Event -> Option<int> {
    (event: Event) => Some(rail.Bin(event.timeMs))
  }

  /** The comparator of the bin's sort. */
  predicate Before(a: Event, b: Event) {
    Priority(a.kind) < Priority(b.kind) || (Priority(a.kind) == Priority(b.kind) && a.timeMs < b.timeMs)
  }

  /** The first element after a stable sort. */
  function Best(events: seq<Event>): Event
    requires events != []
  {
    var last := events[|events| - 1];
    if |events| == 1 then last
    else
      var best := Best(events[..|events| - 1]);
      if Before(last, best) then last else best
  }

  method Displayed(events: seq<Event>, rail: Rail) returns (markers: seq<Marker>)
    ensures |markers| == |Bins(events, rail)|
    ensures forall i :: 0 <= i < |markers| ==> IsMarkerOf(events, rail, Bins(events, rail)[i], markers[i])
    ensures forall i :: 0 <= i < |markers| ==> markers[i].bin == Bins(events, rail)[i]
  {
    var selected := Keep(Significant, events);
    var order, bins := Groups(selected, BinOf(rail));
    markers := [];
    FirstSeenSound(selected, BinOf(rail));
    for i := 0 to |order|
      invariant |markers| == i
      invariant forall j :: 0 <= j < i ==> IsMarkerOf(events, rail, order[j], markers[j])
    {
      assert order[i] in order;
      var inBin := bins[order[i]];
      markers := markers + [Marker(Best(inBin), |inBin|, order[i])];
    }
  }

  /** The bins in use, in order of their first event. */
  function Bins(events: seq<Event>, rail: Rail): seq<int> {
    FirstSeen(Keep(Significant, events), BinOf(rail))
  }

  function InBin(events: seq<Event>, rail: Rail, bin: int): seq<Event> {
    Group(Keep(Significant, events), BinOf(rail), bin)
  }

  predicate IsMarkerOf(events: seq<Event>, rail: Rail, bin: int, marker: Marker) {
    var inBin := InBin(events, rail, bin);
    inBin != [] && marker == Marker(Best(inBin), |inBin|, bin)
  }

  // ----- The results -----

  /** Nothing comes before events[i], and it comes before everything listed ahead of it. */
  predicate EarliestBest(events: seq<Event>, i: int) {
    && 0 <= i < |events|
    && (forall j :: 0 <= j < i ==> Before(events[i], events[j]))
    && (forall j :: 0 <= j < |events| ==> !Before(events[j], events[i]))
  }

  lemma BeforeFacts(a: Event, b: Event, c: Event)
    ensures Before(a, b) && !Before(c, b) ==> Before(a, c) && !Before(c, a)
    ensures !Before(a, a)
  {
  }

  lemma EarliestBestExtends(events: seq<Event>, i: int, last: Event)
    requires EarliestBest(events, i)
    ensures EarliestBest(events + [last], if Before(last, events[i]) then |events| else i)
  {
    hide Before;
    var longer := events + [last];
    BeforeFacts(last, events[i], last);
    forall j | 0 <= j < |events|
      ensures longer[j] == events[j]
      ensures Before(last, events[i]) ==> Before(last, events[j]) && !Before(events[j], last)
    {
      BeforeFacts(last, events[i], events[j]);
    }
  }

  lemma {:induction false} BestAt(events: seq<Event>) returns (i: nat)
    requires events != []
    ensures EarliestBest(events, i) && i < |events| && events[i] == Best(events)
  {
    hide Before;
    if |events| == 1 {
      i := 0;
      BeforeFacts(events[0], events[0], events[0]);
    } else {
      hide EarliestBest;
      var init, last := events[..|events| - 1], events[|events| - 1];
      i := BestAt(init);
      EarliestBestExtends(init, i, last);
      assert events == init + [last];
      i := if Before(last, init[i]) then |init| else i;
    }
  }

  /** Track status first, then a driver's status, the pits, race control, weather, stints, and what is known
      before what is not. */
  lemma KindsInOrder()
    ensures Priority(TrackStatus) < Priority(DriverStatus) < Priority(PitEntered) < Priority(PitExited)
    ensures Priority(PitExited) < Priority(RaceControl) < Priority(WeatherObserved) < Priority(StintChanged)
    ensures Priority(StintChanged) < Priority(SessionMarker) < Priority(PositionChanged) < Priority(LapCompleted)
    ensures Priority(LapCompleted) < Priority(Unrecognised)
  {
  }

  /** The event shown for a bin is the one of best priority, the earliest on a tie, the first listed
      when even the times agree. */
  lemma BestIsEarliestBest(events: seq<Event>)
    requires events != []
    ensures exists i :: 0 <= i < |events| && events[i] == Best(events) &&
              forall j :: 0 <= j < |events| ==>
                var shown, other := Priority(events[i].kind), Priority(events[j].kind);
                && shown <= other
                && (shown == other ==> events[i].timeMs <= events[j].timeMs)
                && (shown == other && events[i].timeMs == events[j].timeMs ==> i <= j)
  {
    var i := BestAt(events);
    forall j | 0 <= j < |events|
      ensures !Before(events[j], events[i]) && (j < i ==> Before(events[i], events[j]))
    {
    }
  }

  /** Track and driver status, pits, race control, stints and anything unrecognised are significant; positions,
      laps and session markers are not, and weather is when it rains. */
  lemma SignificantExactly(event: Event)
    ensures Significant(event) <==>
              event.kind in {TrackStatus, DriverStatus, PitEntered, PitExited, RaceControl, StintChanged, Unrecognised} ||
              (event.kind == WeatherObserved && event.rainfall)
  {
  }

  /** Rounding to the nearest bin moves an event by at most half a bin, 1/80 of the rail, and halves go up. */
  lemma BinIsNear(rail: Rail, timeMs: int)
    ensures var off := rail.Bin(timeMs) * rail.Duration() - 40 * (timeMs - rail.minimumMs);
            -rail.Duration() < 2 * off <= rail.Duration()
    ensures rail.Duration() == (if rail.maximumMs > rail.minimumMs then rail.maximumMs - rail.minimumMs else 1)
  {
    var d := rail.Duration();
    var numerator := 2 * BIN_COUNT * (timeMs - rail.minimumMs) + d;
    assert numerator == (2 * d) * (numerator / (2 * d)) + numerator % (2 * d);
    assert (2 * d) * rail.Bin(timeMs) == 2 * (rail.Bin(timeMs) * d);
  }

  /** Every marker stands for events within 1/80 of the rail of where it is drawn. */
  lemma MarkerIsNearItsEvents(events: seq<Event>, rail: Rail, bin: int, marker: Marker, event: Event)
    requires IsMarkerOf(events, rail, bin, marker) && event in InBin(events, rail, bin)
    ensures var off := marker.bin * rail.Duration() - 40 * (event.timeMs - rail.minimumMs);
            -rail.Duration() < 2 * off <= rail.Duration()
    ensures event in events && Significant(event)
  {
    GroupMember(Keep(Significant, events), BinOf(rail), bin, event);
    KeepMember(Significant, events, event);
    BinIsNear(rail, event.timeMs);
  }

  function SumCounts(markers: seq<Marker>): int {
    if markers == [] then 0 else SumCounts(markers[..|markers| - 1]) + markers[|markers| - 1].count
  }

  /** The markers' counts add up to the number of significant events. */
  lemma CountsAddUp(events: seq<Event>, rail: Rail, markers: seq<Marker>)
    requires |markers| == |Bins(events, rail)|
    requires forall i :: 0 <= i < |markers| ==> IsMarkerOf(events, rail, Bins(events, rail)[i], markers[i])
    ensures SumCounts(markers) == |Keep(Significant, events)|
  {
    var selected := Keep(Significant, events);
    SumsAlongOrder(events, rail, Bins(events, rail), markers);
    GroupSizesAddUp(selected, BinOf(rail));
    KeepAll(Keyed(BinOf(rail)), selected);
  }

  lemma {:induction false} SumsAlongOrder(events: seq<Event>, rail: Rail, order: seq<int>, markers: seq<Marker>)
    requires |markers| == |order|
    requires forall i :: 0 <= i < |markers| ==> IsMarkerOf(events, rail, order[i], markers[i])
    ensures SumCounts(markers) == SizeOfGroups(Keep(Significant, events), BinOf(rail), order)
  {
    if order != [] {
      SumsAlongOrder(events, rail, order[..|order| - 1], markers[..|markers| - 1]);
    }
  }

  lemma {:induction false} FewDistinct(order: seq<int>, n: nat)
    requires NoRepeat(order) && forall x :: x in order ==> 0 <= x < n
    ensures |order| <= n
  {
    DistinctMembers(order);
    SubsetSize((set x | x in order), Below(n));
  }

  function Below(n: nat): (members: set<int>)
    ensures |members| == n && forall x :: x in members <==> 0 <= x < n
  {
    if n == 0 then {} else Below(n - 1) + {n - 1}
  }

  lemma {:induction false} DistinctMembers(order: seq<int>)
    requires NoRepeat(order)
    ensures |set x | x in order| == |order|
  {
    if order != [] {
      var init, last := order[..|order| - 1], order[|order| - 1];
      DistinctMembers(init);
      forall x
        ensures x in order <==> x in init || x == last
      {
        InInitOrLast(order, x);
      }
      assert (set x | x in order) == (set x | x in init) + {last};
    }
  }

  /** For events on the rail there are at most forty-one markers. */
  lemma AtMostFortyOneMarkers(events: seq<Event>, rail: Rail)
    requires rail.minimumMs <= rail.maximumMs && forall event :: event in events ==> rail.Covers(event)
    ensures |Bins(events, rail)| <= 41
  {
    var selected := Keep(Significant, events);
    FirstSeenSound(selected, BinOf(rail));
    forall bin | bin in Bins(events, rail)
      ensures 0 <= bin < BIN_COUNT + 1
    {
      var inBin := Group(selected, BinOf(rail), bin);
      GroupMember(selected, BinOf(rail), bin, inBin[0]);
      KeepMember(Significant, events, inBin[0]);
      BinInRange(rail, inBin[0].timeMs);
    }
    FewDistinct(Bins(events, rail), BIN_COUNT + 1);
  }

  lemma BinInRange(rail: Rail, timeMs: int)
    requires rail.minimumMs <= timeMs <= rail.maximumMs
    ensures 0 <= rail.Bin(timeMs) <= BIN_COUNT
  {
    BinIsNear(rail, timeMs);
    var d, bin := rail.Duration(), rail.Bin(timeMs);
    assert timeMs - rail.minimumMs <= d;
    assert 2 * (bin * d) <= 2 * (BIN_COUNT * d) + d < 2 * ((BIN_COUNT + 1) * d);
    assert 2 * (bin * d) > -d >= 2 * ((-1) * d);
    Cancel(bin, BIN_COUNT + 1, d);
    Cancel(-1, bin, d);
  }

  lemma Cancel(a: int, b: int, d: int)
    requires d > 0 && a * d < b * d
    ensures a < b
  {
    assert (b - a) * d > 0;
  }
}
