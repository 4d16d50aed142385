/** The single transition boundary of race replay: applying one event to a race state. */
module ReplayReducer {
  import opened Support

  datatype Status = NotStarted | Active | InPit | Retired | Finished | DidNotStart | Disqualified | Unknown

  predicate Terminal(status: Status) {
    status in {Retired, Finished, DidNotStart, Disqualified}
  }

  datatype Compound = UnknownCompound | Soft | Medium | Hard | Intermediate | Wet

  type DriverId = string

  /** `profile` stands for the identity columns no event ever writes. */
  datatype Driver = Driver(
    profile: string,
    status: Status,
    position: Option<int>,
    lapsCompleted: int,
    currentStint: Option<int>,
    compound: Compound,
    tyreAge: Option<real>,
    lastLapMs: Option<int>,
    inPit: bool,
    pitStops: int,
    lastPitLap: Option<int>)

  datatype Weather = Weather(observedAtMs: int, readings: seq<Option<real>>, rainfall: Option<bool>)

  datatype Control = Control(
    observedAtMs: int, message: string, category: Option<string>, scope: Option<string>, driver: Option<DriverId>)

  datatype State = State(
    session: string,
    timeMs: int,
    trackStatus: string,
    weather: Option<Weather>,
    drivers: map<DriverId, Driver>,
    control: seq<Control>,
    background: string)

  /** The optional lap number of a pit entry, which a terminal driver's entry never reads. */
  datatype PitLap = PitLap(lap: Option<int>) | NotALap

  /** Any other payload that is missing a field, or has one of the wrong type, is `Malformed`. */
  datatype Change =
    | SessionMarker
    | Malformed(kind: nat)
    | StintChanged(stint: int, compound: Compound, tyreAge: Option<real>)
    | PitEntered(pitLap: PitLap)
    | PitExited
    | PositionChanged(position: int)
    | LapCompleted(lap: int, lapTimeMs: Option<int>, lapStint: Option<int>,
                   lapCompound: Option<Compound>, lapTyreAge: Option<real>)
    | WeatherObserved(readings: seq<Option<real>>, rainfall: Option<bool>)
    | RaceControl(message: string, category: Option<string>, scope: Option<string>)
    | TrackStatusChanged(trackStatus: string)
    | DriverStatusChanged(status: Status)

  datatype Event = Event(session: string, timeMs: nat, driver: Option<DriverId>, change: Change)

  datatype Error = CursorError | EventError | StateError

  const CONTROL_LIMIT: nat := 20

  function Blank(driver: string): Driver {
    Driver(driver, NotStarted, None, 0, None, UnknownCompound, None, None, false, 0, None)
  }

  function Initial(session: string, roster: map<DriverId, string>, background: string): State {
    State(session, 0, "unknown", None, map id | id in roster :: Blank(roster[id]), [], background)
  }

  function Activated(driver: Driver): Driver {
    if !Terminal(driver.status) && !driver.inPit then driver.(status := Active) else driver
  }

  /** The characters Python's strip removes. */
  predicate Whitespace(c: char) {
    || '\U{0009}' <= c <= '\U{000D}' || '\U{001C}' <= c <= '\U{0020}'
    || c == '\U{0085}' || c == '\U{00A0}' || c == '\U{1680}' || '\U{2000}' <= c <= '\U{200A}'
    || c == '\U{2028}' || c == '\U{2029}' || c == '\U{202F}' || c == '\U{205F}' || c == '\U{3000}'
  }

  predicate BlankText(message: string) {
    forall c :: c in message ==> Whitespace(c)
  }

  predicate NeedsDriver(change: Change) {
    match change
    case StintChanged(_, _, _) => true
    case PitEntered(_) => true
    case PitExited => true
    case PositionChanged(_) => true
    case LapCompleted(_, _, _, _, _) => true
    case DriverStatusChanged(_) => true
    case _ => false
  }

  predicate PayloadAccepted(change: Change) {
    match change
    case Malformed(_) => false
    case StintChanged(stint, _, _) => stint >= 1
    case PositionChanged(position) => position >= 1
    case LapCompleted(lap, _, _, _, _) => lap >= 1
    case RaceControl(message, _, _) => !BlankText(message)
    case _ => true
  }

  /** A pit entry's lap number is read, and must be one, unless the driver is terminal. */
  predicate DriverAccepts(driver: Driver, change: Change) {
    change.PitEntered? && change.pitLap.NotALap? ==> Terminal(driver.status)
  }

  function DriverAfter(driver: Driver, change: Change): Driver
    requires NeedsDriver(change)
  {
    match change
    case StintChanged(stint, compound, tyreAge) =>
      Activated(driver.(currentStint := Some(stint), compound := compound, tyreAge := tyreAge))
    case PitEntered(pitLap) =>
      if Terminal(driver.status) || pitLap.NotALap? then driver
      else driver.(pitStops := driver.pitStops + (if driver.inPit then 0 else 1),
                   inPit := true, lastPitLap := pitLap.lap, status := InPit)
    case PitExited => Activated(driver.(inPit := false))
    case PositionChanged(position) => Activated(driver.(position := Some(position)))
    case LapCompleted(lap, lapTimeMs, stint, compound, tyreAge) =>
      Activated(driver.(
        lapsCompleted := if driver.lapsCompleted < lap then lap else driver.lapsCompleted,
        lastLapMs := lapTimeMs,
        currentStint := if stint.Some? then stint else driver.currentStint,
        compound := if compound.Some? then compound.value else driver.compound,
        tyreAge := if tyreAge.Some? then tyreAge else driver.tyreAge))
    case DriverStatusChanged(status) =>
      if Terminal(driver.status) then driver
      else driver.(status := status, inPit := status == InPit)
    case _ => driver
  }

  function LastOf<T>(s: seq<T>, limit: nat): seq<T> {
    if |s| <= limit then s else s[|s| - limit..]
  }

  function ControlOf(event: Event): Control
    requires event.change.RaceControl?
  {
    Control(event.timeMs, event.change.message, event.change.category, event.change.scope, event.driver)
  }

  function Apply(state: State, event: Event): Result<State, Error> {
    if event.session != state.session || event.timeMs < state.timeMs || !PayloadAccepted(event.change) then
      Err(EventError)
    else
      var timed := state.(timeMs := event.timeMs);
      if NeedsDriver(event.change) then
        if event.driver.None? || event.driver.value !in state.drivers then Err(EventError)
        else
          var id := event.driver.value;
          if !DriverAccepts(state.drivers[id], event.change) then Err(EventError)
          else Ok(timed.(drivers := state.drivers[id := DriverAfter(state.drivers[id], event.change)]))
      else
        Ok(SessionAfter(timed, event))
  }

  /** The columns of the whole session, which need no driver. */
  function SessionAfter(state: State, event: Event): State {
    match event.change
    case WeatherObserved(readings, rainfall) => state.(weather := Some(Weather(event.timeMs, readings, rainfall)))
    case RaceControl(_, _, _) => state.(control := LastOf(state.control + [ControlOf(event)], CONTROL_LIMIT))
    case TrackStatusChanged(trackStatus) => state.(trackStatus := trackStatus)
    case _ => state
  }

  /** Every event applied in order, stopping at the first one that is rejected. */
  function Replay(state: State, events: seq<Event>): Result<State, Error> {
    if events == [] then Ok(state)
    else
      var before := Replay(state, events[..|events| - 1]);
      if before.Err? then before else Apply(before.value, events[|events| - 1])
  }

  lemma {:induction false} ReplayConcat(state: State, first: seq<Event>, second: seq<Event>)
    ensures Replay(state, first + second) ==
            (var middle := Replay(state, first); if middle.Err? then middle else Replay(middle.value, second))
  {
    hide Apply;
    if second == [] {
      assert first + second == first;
    } else {
      var whole := first + second;
      assert whole[..|whole| - 1] == first + second[..|second| - 1];
      ReplayConcat(state, first, second[..|second| - 1]);
    }
  }

  /** A rejected prefix rejects the whole timeline. */
  lemma ReplayPrefix(state: State, events: seq<Event>, n: nat)
    requires n <= |events| && Replay(state, events).Ok?
    ensures Replay(state, events[..n]).Ok?
    ensures Replay(Replay(state, events[..n]).value, events[n..]) == Replay(state, events)
  {
    assert events == events[..n] + events[n..];
    ReplayConcat(state, events[..n], events[n..]);
  }

  // ----- What every replay keeps -----

  predicate SoundDriver(driver: Driver) {
    && (driver.inPit <==> driver.status == InPit)
    && driver.lapsCompleted >= 0
    && driver.pitStops >= 0
  }

  /** How one driver may differ between an earlier and a later state. */
  predicate DriverProgress(before: Driver, after: Driver) {
    && after.profile == before.profile
    && before.lapsCompleted <= after.lapsCompleted
    && before.pitStops <= after.pitStops
    && (Terminal(before.status) ==> after.status == before.status && after.pitStops == before.pitStops)
  }

  lemma DriverAfterProgress(driver: Driver, change: Change)
    requires SoundDriver(driver) && NeedsDriver(change) && PayloadAccepted(change)
    ensures SoundDriver(DriverAfter(driver, change)) && DriverProgress(driver, DriverAfter(driver, change))
  {
  }

  ghost predicate Successor(before: State, after: State) {
    && before.timeMs <= after.timeMs
    && after.drivers.Keys == before.drivers.Keys
    && (forall id :: id in before.drivers ==>
          SoundDriver(after.drivers[id]) && DriverProgress(before.drivers[id], after.drivers[id]))
  }

  lemma ApplySuccessor(state: State, event: Event)
    requires forall id :: id in state.drivers ==> SoundDriver(state.drivers[id])
    requires Apply(state, event).Ok?
    ensures Successor(state, Apply(state, event).value)
  {
    if NeedsDriver(event.change) {
      DriverAfterProgress(state.drivers[event.driver.value], event.change);
    }
  }

  /** Whatever events were applied, the replayed state is a legal successor of `state`: terminal drivers
      stay as they were, laps and stops never fall, and a driver is in the pit exactly while its status
      says so. */
  lemma {:induction false} ReplayInvariant(state: State, events: seq<Event>)
    requires forall id :: id in state.drivers ==> SoundDriver(state.drivers[id])
    requires Replay(state, events).Ok?
    ensures Successor(state, Replay(state, events).value)
  {
    if events != [] {
      hide Apply;
      var before := Replay(state, events[..|events| - 1]).value;
      ReplayInvariant(state, events[..|events| - 1]);
      ApplySuccessor(before, events[|events| - 1]);
    }
  }

  /** Every race-control message of the events, in order. */
  function Controls(events: seq<Event>): seq<Control> {
    if events == [] then []
    else
      var last := events[|events| - 1];
      Controls(events[..|events| - 1]) +
      if last.change.RaceControl?
      then [Control(last.timeMs, last.change.message, last.change.category, last.change.scope, last.driver)] else []
  }

  /** `recent` is the end of `all`, and the whole of it or twenty messages. */
  predicate LatestTwenty(recent: seq<Control>, all: seq<Control>) {
    && |recent| <= |all| && recent == all[|all| - |recent|..]
    && (|recent| == 20 || (|recent| < 20 && |recent| == |all|))
  }

  lemma LatestTwentyAppends(recent: seq<Control>, all: seq<Control>, next: Control)
    requires LatestTwenty(recent, all)
    ensures LatestTwenty(LastOf(recent + [next], CONTROL_LIMIT), all + [next])
  {
  }

  /** Truncating after every message loses nothing: the state holds exactly the latest twenty. */
  lemma {:induction false} RecentControlIsLatestTwenty(state: State, events: seq<Event>)
    requires state.control == [] && Replay(state, events).Ok?
    ensures LatestTwenty(Replay(state, events).value.control, Controls(events))
  {
    if events != [] {
      hide LatestTwenty, LastOf;
      var init, last := events[..|events| - 1], events[|events| - 1];
      RecentControlIsLatestTwenty(state, init);
      if last.change.RaceControl? {
        LatestTwentyAppends(Replay(state, init).value.control, Controls(init),
                            Control(last.timeMs, last.change.message, last.change.category, last.change.scope, last.driver));
      } else {
        assert Controls(init) + [] == Controls(init);
      }
    } else {
      assert [] == Controls([]);
    }
  }

  // ----- Each column is the latest observation of it -----

  /** The value the last event that carries one gives, else `initial`. */
  function Latest<T>(events: seq<Event>, carried: Event -> Option<T>, initial: T): T {
    if events == [] then initial
    else
      var last := carried(events[|events| - 1]);
      if last.Some? then last.value else Latest(events[..|events| - 1], carried, initial)
  }

  function TrackStatusIn(event: Event): Option<string> {
    if event.change.TrackStatusChanged? then Some(event.change.trackStatus) else None
  }

  function WeatherIn(event: Event): Option<Option<Weather>> {
    if event.change.WeatherObserved?
    then Some(Some(Weather(event.timeMs, event.change.readings, event.change.rainfall))) else None
  }

  /** Restricts what an event carries to one driver. */
  function About<T>(id: DriverId, carried: Change -> Option<T>): Event -> Option<T> {
    (event: Event) => if event.driver == Some(id) then carried(event.change) else None
  }

  function PositionIn(change: Change): Option<Option<int>> {
    if change.PositionChanged? then Some(Some(change.position)) else None
  }

  function LapTimeIn(change: Change): Option<Option<int>> {
    if change.LapCompleted? then Some(change.lapTimeMs) else None
  }

  function StintIn(change: Change): Option<Option<int>> {
    if change.StintChanged? then Some(Some(change.stint))
    else if change.LapCompleted? && change.lapStint.Some? then Some(change.lapStint) else None
  }

  function CompoundIn(change: Change): Option<Compound> {
    if change.StintChanged? then Some(change.compound)
    else if change.LapCompleted? then change.lapCompound else None
  }

  function TyreAgeIn(change: Change): Option<Option<real>> {
    if change.StintChanged? then Some(change.tyreAge)
    else if change.LapCompleted? && change.lapTyreAge.Some? then Some(change.lapTyreAge) else None
  }

  /** The furthest lap a driver was seen to complete. */
  function FurthestLap(events: seq<Event>, id: DriverId, initial: int): int {
    if events == [] then initial
    else
      var last, before := events[|events| - 1], FurthestLap(events[..|events| - 1], id, initial);
      if last.driver == Some(id) && last.change.LapCompleted? && last.change.lap > before then last.change.lap else before
  }

  ghost predicate Reconstructs(after: Driver, before: Driver, events: seq<Event>, id: DriverId) {
    && after.position == Latest(events, About(id, PositionIn), before.position)
    && after.lastLapMs == Latest(events, About(id, LapTimeIn), before.lastLapMs)
    && after.currentStint == Latest(events, About(id, StintIn), before.currentStint)
    && after.compound == Latest(events, About(id, CompoundIn), before.compound)
    && after.tyreAge == Latest(events, About(id, TyreAgeIn), before.tyreAge)
    && after.lapsCompleted == FurthestLap(events, id, before.lapsCompleted)
  }

  lemma ReconstructsOneMore(after: Driver, before: Driver, events: seq<Event>, id: DriverId, event: Event)
    requires events != [] && event == events[|events| - 1]
    requires Reconstructs(after, before, events[..|events| - 1], id)
    ensures event.driver != Some(id) || !NeedsDriver(event.change) ==> Reconstructs(after, before, events, id)
    ensures event.driver == Some(id) && NeedsDriver(event.change) ==>
              Reconstructs(DriverAfter(after, event.change), before, events, id)
  {
    hide Latest, About;
    ColumnStep(events, id, PositionIn, before.position);
    ColumnStep(events, id, LapTimeIn, before.lastLapMs);
    ColumnStep(events, id, StintIn, before.currentStint);
    ColumnStep(events, id, CompoundIn, before.compound);
    ColumnStep(events, id, TyreAgeIn, before.tyreAge);
  }

  lemma ColumnStep<T>(events: seq<Event>, id: DriverId, carried: Change -> Option<T>, initial: T)
    requires events != []
    ensures var last := events[|events| - 1];
            Latest(events, About(id, carried), initial) ==
            if last.driver == Some(id) && carried(last.change).Some? then carried(last.change).value
            else Latest(events[..|events| - 1], About(id, carried), initial)
  {
    var last := events[|events| - 1];
    assert About(id, carried)(last) == if last.driver == Some(id) then carried(last.change) else None;
  }

  /** Whatever order of events was accepted, every observed column of every driver is its latest observation, and the
      lap count the furthest lap. */
  lemma {:induction false} LatestObservationWins(state: State, events: seq<Event>, id: DriverId)
    requires id in state.drivers && Replay(state, events).Ok?
    ensures var after := Replay(state, events).value;
            && id in after.drivers && Reconstructs(after.drivers[id], state.drivers[id], events, id)
            && after.trackStatus == Latest(events, TrackStatusIn, state.trackStatus)
            && after.weather == Latest(events, WeatherIn, state.weather)
  {
    if events != [] {
      hide Reconstructs, DriverAfter;
      var init, last := events[..|events| - 1], events[|events| - 1];
      LatestObservationWins(state, init, id);
      ReconstructsOneMore(Replay(state, init).value.drivers[id], state.drivers[id], events, id, last);
    } else {
      assert Reconstructs(state.drivers[id], state.drivers[id], [], id);
    }
  }

  /** Drivers that no event names are untouched. */
  lemma {:induction false} OtherDriversUntouched(state: State, events: seq<Event>, id: DriverId)
    requires id in state.drivers && Replay(state, events).Ok?
    requires forall event :: event in events ==> event.driver != Some(id)
    ensures id in Replay(state, events).value.drivers
    ensures Replay(state, events).value.drivers[id] == state.drivers[id]
  {
    if events != [] {
      var init := events[..|events| - 1];
      assert forall event :: event in init ==> event in events;
      OtherDriversUntouched(state, init, id);
      assert events[|events| - 1] in events;
    }
  }

  lemma {:induction false} ReplayKeepsTimes(state: State, events: seq<Event>, i: nat)
    requires i < |events| && Replay(state, events).Ok?
    ensures state.timeMs <= events[i].timeMs <= Replay(state, events).value.timeMs
    ensures Replay(state, events).value.timeMs == events[|events| - 1].timeMs
  {
    var init := events[..|events| - 1];
    if i < |init| {
      ReplayKeepsTimes(state, init, i);
    } else if init != [] {
      ReplayKeepsTimes(state, init, 0);
    }
  }

  // ----- What a replay rejects -----

  /** An event is rejected exactly for another session, an earlier time, a driver that is missing or not on the
      roster where one is needed, or what its payload says. */
  lemma RejectedExactly(state: State, event: Event)
    ensures var change := event.change;
            var aboutDriver := !(change.SessionMarker? || change.Malformed? || change.WeatherObserved? ||
                                 change.RaceControl? || change.TrackStatusChanged?);
            Apply(state, event).Err? <==>
              || event.session != state.session || event.timeMs < state.timeMs || change.Malformed?
              || (aboutDriver && (event.driver.None? || event.driver.value !in state.drivers))
              || (change.StintChanged? && change.stint < 1)
              || (change.PositionChanged? && change.position < 1)
              || (change.LapCompleted? && change.lap < 1)
              || (change.RaceControl? && forall i :: 0 <= i < |change.message| ==> Whitespace(change.message[i]))
              || (change.PitEntered? && change.pitLap.NotALap? &&
                  state.drivers[event.driver.value].status !in {Retired, Finished, DidNotStart, Disqualified})
  {
    if event.change.RaceControl? {
      var message := event.change.message;
      assert forall c :: c in message ==> exists i :: 0 <= i < |message| && message[i] == c;
    }
  }

  /** A race begins at time zero with nothing observed. */
  lemma NothingObservedAtFirst(session: string, roster: map<DriverId, string>, background: string, id: DriverId)
    requires id in roster
    ensures var first := Initial(session, roster, background);
            && first.session == session && first.timeMs == 0 && first.weather.None? && first.control == []
            && first.trackStatus == "unknown" && first.background == background && first.drivers.Keys == roster.Keys
            && var driver := first.drivers[id];
               && driver.profile == roster[id] && driver.status == NotStarted && !driver.inPit
               && driver.lapsCompleted == 0 && driver.pitStops == 0 && driver.compound == UnknownCompound
               && driver.position.None? && driver.currentStint.None? && driver.tyreAge.None?
               && driver.lastLapMs.None? && driver.lastPitLap.None?
  {
  }

  /** The payload is well formed and the driver it needs is on the roster. */
  predicate Acceptable(roster: set<DriverId>, event: Event) {
    PayloadAccepted(event.change) && (NeedsDriver(event.change) ==> event.driver.Some? && event.driver.value in roster)
  }

  predicate ReadablePit(event: Event) {
    event.change.PitEntered? ==> event.change.pitLap.PitLap?
  }

  predicate InOrder(state: State, events: seq<Event>) {
    && (forall i :: 0 <= i < |events| ==> events[i].session == state.session && events[i].timeMs >= state.timeMs)
    && (forall i, j :: 0 <= i < j < |events| ==> events[i].timeMs <= events[j].timeMs)
  }

  predicate AllAcceptable(roster: set<DriverId>, events: seq<Event>) {
    forall i :: 0 <= i < |events| ==> Acceptable(roster, events[i])
  }

  lemma ApplyInOrder(state: State, event: Event)
    requires event.session == state.session && event.timeMs >= state.timeMs && ReadablePit(event)
    ensures Apply(state, event).Ok? <==> Acceptable(state.drivers.Keys, event)
    ensures Apply(state, event).Ok? ==>
              var after := Apply(state, event).value;
              after.session == state.session && after.timeMs == event.timeMs && after.drivers.Keys == state.drivers.Keys
  {
  }

  /** Events of one session in time order are rejected only for a payload or a driver. */
  lemma {:induction false} InOrderReplays(state: State, events: seq<Event>)
    requires InOrder(state, events) && forall i :: 0 <= i < |events| ==> ReadablePit(events[i])
    ensures Replay(state, events).Ok? <==> AllAcceptable(state.drivers.Keys, events)
    ensures Replay(state, events).Ok? ==>
              var after := Replay(state, events).value;
              && after.session == state.session && after.drivers.Keys == state.drivers.Keys
              && after.timeMs == if events == [] then state.timeMs else events[|events| - 1].timeMs
  {
    if events != [] {
      hide Apply, Acceptable, ReadablePit;
      var init, last := events[..|events| - 1], events[|events| - 1];
      InOrderReplays(state, init);
      assert AllAcceptable(state.drivers.Keys, events) <==>
             AllAcceptable(state.drivers.Keys, init) && Acceptable(state.drivers.Keys, last);
      if Replay(state, init).Ok? {
        ApplyInOrder(Replay(state, init).value, last);
      }
    }
  }
}

/** Checkpointed queries over a timeline, and the plain replay they must agree with. */
module ReplayEngine {
  import opened Support
  import opened ReplayReducer

  datatype LapCursor = LapCursor(lap: int, startMs: int, endMs: int)

  /** A frozen snapshot; its state carries the cursor as its time. */
  datatype RaceState = RaceState(state: State, referenceLap: Option<int>)

  predicate NonNegative(value: Option<int>) {
    value.Some? ==> value.value >= 0
  }

  predicate Positive(value: Option<int>) {
    value.Some? ==> value.value >= 1
  }

  predicate PresentableDriver(driver: Driver) {
    && Positive(driver.position)
    && driver.lapsCompleted >= 0
    && driver.pitStops >= 0
    && Positive(driver.currentStint)
    && (driver.tyreAge.Some? ==> driver.tyreAge.value >= 0.0)
    && NonNegative(driver.lastLapMs)
    && Positive(driver.lastPitLap)
  }

  function Freeze(state: State, cursor: int, referenceLap: Option<int>): Result<RaceState, Error> {
    if cursor >= 0 && Positive(referenceLap) && (forall id :: id in state.drivers ==> PresentableDriver(state.drivers[id]))
    then Ok(RaceState(state.(timeMs := cursor), referenceLap))
    else Err(StateError)
  }

  function ReferenceLapAt(cursors: seq<LapCursor>, timeMs: int): Option<int> {
    if cursors == [] then None
    else
      var rest := ReferenceLapAt(cursors[1..], timeMs);
      if cursors[0].endMs > timeMs then rest
      else if rest.Some? && rest.value >= cursors[0].lap then rest
      else Some(cursors[0].lap)
  }

  /** The greatest lap among the cursors that end at or before the time, None when there is none. */
  ghost predicate IsReferenceLap(cursors: seq<LapCursor>, timeMs: int, lap: Option<int>) {
    && (lap.None? ==> forall i :: 0 <= i < |cursors| ==> cursors[i].endMs > timeMs)
    && (lap.Some? ==>
          && (exists i :: 0 <= i < |cursors| && cursors[i].endMs <= timeMs && cursors[i].lap == lap.value)
          && forall i :: 0 <= i < |cursors| && cursors[i].endMs <= timeMs ==> cursors[i].lap <= lap.value)
  }

  lemma {:induction false} ReferenceLapIsGreatest(cursors: seq<LapCursor>, timeMs: int)
    ensures IsReferenceLap(cursors, timeMs, ReferenceLapAt(cursors, timeMs))
  {
    if cursors != [] {
      var rest := cursors[1..];
      ReferenceLapIsGreatest(rest, timeMs);
      assert forall i :: 0 < i < |cursors| ==> cursors[i] == rest[i - 1];
      var lap := ReferenceLapAt(rest, timeMs);
      if lap.Some? {
        var i :| 0 <= i < |rest| && rest[i].endMs <= timeMs && rest[i].lap == lap.value;
        assert cursors[i + 1] == rest[i];
      }
    }
  }

  /** The first n events are those at or before the time. */
  predicate Splits(events: seq<Event>, n: int, timeMs: int) {
    && 0 <= n <= |events|
    && (forall i :: 0 <= i < n ==> events[i].timeMs <= timeMs)
    && (forall i :: n <= i < |events| ==> events[i].timeMs > timeMs)
  }

  /** The answer holds the replayed state at the cursor's time; it is refused only for a negative measure, or a
      lap, position, stint or pit lap below one. */
  ghost predicate Presents(replayed: State, cursors: seq<LapCursor>, timeMs: int, result: Result<RaceState, Error>) {
    && (result.Ok? ==>
          && result.value.state.timeMs == timeMs
          && result.value.state == replayed.(timeMs := result.value.state.timeMs)
          && IsReferenceLap(cursors, timeMs, result.value.referenceLap))
    && (result.Err? <==>
          || (exists lap :: IsReferenceLap(cursors, timeMs, Some(lap)) && lap < 1)
          || (exists id :: id in replayed.drivers &&
                var driver := replayed.drivers[id];
                || driver.lapsCompleted < 0 || driver.pitStops < 0
                || (driver.position.Some? && driver.position.value < 1)
                || (driver.currentStint.Some? && driver.currentStint.value < 1)
                || (driver.lastPitLap.Some? && driver.lastPitLap.value < 1)
                || (driver.lastLapMs.Some? && driver.lastLapMs.value < 0)
                || (driver.tyreAge.Some? && driver.tyreAge.value < 0.0)))
    && (result.Err? ==> result.error == StateError)
  }

  lemma FreezePresents(replayed: State, cursors: seq<LapCursor>, timeMs: int)
    requires timeMs >= 0
    ensures Presents(replayed, cursors, timeMs, Freeze(replayed, timeMs, ReferenceLapAt(cursors, timeMs)))
  {
    ReferenceLapIsGreatest(cursors, timeMs);
    var lap := ReferenceLapAt(cursors, timeMs);
    forall other: int | IsReferenceLap(cursors, timeMs, Some(other))
      ensures lap == Some(other)
    {
    }
  }

  /** The events a cursor is allowed to know. */
  function KnownAt(timeMs: int): Event -> bool {
    (event: Event) => event.timeMs <= timeMs
  }

  /** What a query means: replay exactly the events at or before the cursor, then freeze. */
  function Plain(initial: State, events: seq<Event>, cursors: seq<LapCursor>, timeMs: int): Result<RaceState, Error> {
    var replayed := Replay(initial, Keep(KnownAt(timeMs), events));
    if replayed.Err? then Err(replayed.error) else Freeze(replayed.value, timeMs, ReferenceLapAt(cursors, timeMs))
  }

  function MaxTime(events: seq<Event>): int {
    if events == [] then 0 else events[|events| - 1].timeMs
  }

  /** Scrubbing forward never changes what the past was allowed to know. */
  lemma FutureCannotLeak(initial: State, events: seq<Event>, later: seq<Event>,
                         cursors: seq<LapCursor>, laterCursors: seq<LapCursor>, timeMs: int)
    requires forall event :: event in later ==> event.timeMs > timeMs
    requires forall cursor :: cursor in laterCursors ==> cursor.endMs > timeMs
    ensures Plain(initial, events + later, cursors + laterCursors, timeMs) == Plain(initial, events, cursors, timeMs)
  {
    var known := KnownAt(timeMs);
    KeepConcat(known, events, later);
    KeepNone(known, later);
    assert Keep(known, events) + [] == Keep(known, events);
    LaterCursorsIgnored(cursors, laterCursors, timeMs);
  }

  lemma {:induction false} LaterCursorsIgnored(cursors: seq<LapCursor>, later: seq<LapCursor>, timeMs: int)
    requires forall cursor :: cursor in later ==> cursor.endMs > timeMs
    ensures ReferenceLapAt(cursors + later, timeMs) == ReferenceLapAt(cursors, timeMs)
  {
    if cursors != [] {
      assert (cursors + later)[1..] == cursors[1..] + later;
      LaterCursorsIgnored(cursors[1..], later, timeMs);
    } else if later != [] {
      assert cursors + later == later && later[1..] == [] + later[1..];
      LaterCursorsIgnored([], later[1..], timeMs);
    }
  }

  predicate Sorted(values: seq<int>) {
    forall i, j :: 0 <= i < j < |values| ==> values[i] <= values[j]
  }

  /** Python's bisect_right: how many leading values do not exceed x. */
  method BisectRight(values: seq<int>, x: int) returns (position: nat)
    requires Sorted(values)
    ensures position <= |values|
    ensures forall i :: 0 <= i < position ==> values[i] <= x
    ensures forall i :: position <= i < |values| ==> values[i] > x
  {
    var lo, hi := 0, |values|;
    while lo < hi
      invariant 0 <= lo <= hi <= |values|
      invariant forall i :: 0 <= i < lo ==> values[i] <= x
      invariant forall i :: hi <= i < |values| ==> values[i] > x
    {
      var mid := (lo + hi) / 2;
      if x < values[mid] {
        hi := mid;
      } else {
        lo := mid + 1;
      }
    }
    position := lo;
  }

  lemma {:induction false} KeepIsPrefix(events: seq<Event>, timeMs: int, n: nat)
    requires n <= |events|
    requires forall i :: 0 <= i < n ==> events[i].timeMs <= timeMs
    requires forall i :: n <= i < |events| ==> events[i].timeMs > timeMs
    ensures Keep(KnownAt(timeMs), events) == events[..n]
  {
    var known := KnownAt(timeMs);
    assert events == events[..n] + events[n..];
    KeepConcat(known, events[..n], events[n..]);
    KeepAll(known, events[..n]);
    KeepNone(known, events[n..]);
  }

  /** One driver's columns, written in place. */
  class MutableDriver {
    const profile: string
    var status: Status
    var position: Option<int>
    var lapsCompleted: int
    var currentStint: Option<int>
    var compound: Compound
    var tyreAge: Option<real>
    var lastLapMs: Option<int>
    var inPit: bool
    var pitStops: int
    var lastPitLap: Option<int>

    function Snapshot(): Driver
      reads this
    {
      Driver(profile, status, position, lapsCompleted, currentStint, compound, tyreAge, lastLapMs, inPit, pitStops, lastPitLap)
    }

    constructor (driver: Driver)
      ensures Snapshot() == driver
    {
      profile, status, position := driver.profile, driver.status, driver.position;
      lapsCompleted, currentStint, compound := driver.lapsCompleted, driver.currentStint, driver.compound;
      tyreAge, lastLapMs, inPit := driver.tyreAge, driver.lastLapMs, driver.inPit;
      pitStops, lastPitLap := driver.pitStops, driver.lastPitLap;
    }

    method Activate()
      modifies this`status
      ensures Snapshot() == Activated(old(Snapshot()))
    {
      if !Terminal(status) && !inPit {
        status := Active;
      }
    }

    /** The transition of an event about this driver, column by column. */
    method Transition(change: Change) returns (ok: bool)
      requires NeedsDriver(change)
      modifies this
      ensures ok <==> PayloadAccepted(change) && DriverAccepts(old(Snapshot()), change)
      ensures ok ==> Snapshot() == DriverAfter(old(Snapshot()), change)
    {
      ok := true;
      match change
      case StintChanged(stint, newCompound, newAge) =>
        if stint < 1 {
          return false;
        }
        currentStint := Some(stint);
        compound := newCompound;
        tyreAge := newAge;
        Activate();
      case PitEntered(pitLap) =>
        if Terminal(status) {
          return true;
        }
        if !inPit {
          pitStops := pitStops + 1;
        }
        inPit := true;
        if pitLap.NotALap? {
          return false;
        }
        lastPitLap := pitLap.lap;
        status := InPit;
      case PitExited =>
        inPit := false;
        Activate();
      case PositionChanged(newPosition) =>
        if newPosition < 1 {
          return false;
        }
        position := Some(newPosition);
        Activate();
      case LapCompleted(lap, lapTimeMs, lapStint, lapCompound, lapTyreAge) =>
        if lap < 1 {
          return false;
        }
        if lapsCompleted < lap {
          lapsCompleted := lap;
        }
        lastLapMs := lapTimeMs;
        if lapStint.Some? {
          currentStint := lapStint;
        }
        if lapCompound.Some? {
          compound := lapCompound.value;
        }
        if lapTyreAge.Some? {
          tyreAge := lapTyreAge;
        }
        Activate();
      case DriverStatusChanged(newStatus) =>
        if Terminal(status) {
          return true;
        }
        status := newStatus;
        inPit := newStatus == InPit;
      case _ =>
    }
  }

  /** The mutable state the reducer writes while events are applied. */
  class MutableReplayState {
    const session: string
    const background: string
    var timeMs: int
    var trackStatus: string
    var weather: Option<Weather>
    var drivers: map<DriverId, MutableDriver>
    var control: seq<Control>

    /** No two drivers share an object. */
    ghost predicate Valid()
      reads this
    {
      forall id, other :: id in drivers && other in drivers && id != other ==> drivers[id] != drivers[other]
    }

    function Snapshot(): State
      reads this, drivers.Values
    {
      State(session, timeMs, trackStatus, weather, map id | id in drivers :: drivers[id].Snapshot(), control, background)
    }

    constructor (state: State)
      ensures Valid() && fresh(drivers.Values)
      ensures Snapshot() == state
    {
      session, background, timeMs := state.session, state.background, state.timeMs;
      trackStatus, weather, control := state.trackStatus, state.weather, state.control;
      drivers := map[];
      new;
      var rest := state.drivers.Keys;
      while rest != {}
        invariant rest <= state.drivers.Keys && drivers.Keys == state.drivers.Keys - rest
        invariant forall id :: id in drivers ==> fresh(drivers[id])
        invariant Valid()
        invariant forall id :: id in drivers ==> drivers[id].Snapshot() == state.drivers[id]
        invariant control == state.control && timeMs == state.timeMs
        invariant trackStatus == state.trackStatus && weather == state.weather
        decreases rest
      {
        HasElement(rest);
        var id :| id in rest;
        var driver := new MutableDriver(state.drivers[id]);
        drivers := drivers[id := driver];
        rest := rest - {id};
      }
    }

    /** Exactly one event: the time moves first, then the event's handler writes its columns. */
    method ApplyEvent(event: Event) returns (ok: bool)
      requires Valid()
      modifies this, drivers.Values
      ensures Valid() && drivers == old(drivers)
      ensures ok <==> Apply(old(Snapshot()), event).Ok?
      ensures ok ==> Snapshot() == Apply(old(Snapshot()), event).value
    {
      if event.session != session || event.timeMs < timeMs {
        return false;
      }
      timeMs := event.timeMs;
      assert Snapshot() == old(Snapshot()).(timeMs := event.timeMs);
      hide DriverAfter, PayloadAccepted, DriverAccepts, LastOf, BlankText;
      if NeedsDriver(event.change) {
        ok := ApplyToDriver(event);
      } else {
        ok := ApplyToSession(event);
      }
    }

    method ApplyToSession(event: Event) returns (ok: bool)
      requires !NeedsDriver(event.change) && timeMs == event.timeMs
      modifies this
      ensures drivers == old(drivers) && (ok <==> PayloadAccepted(event.change))
      ensures ok ==> Snapshot() == SessionAfter(old(Snapshot()), event)
    {
      ok := true;
      match event.change
      case WeatherObserved(readings, rainfall) =>
        weather := Some(Weather(event.timeMs, readings, rainfall));
      case RaceControl(message, _, _) =>
        if BlankText(message) {
          return false;
        }
        control := control + [ControlOf(event)];
        control := LastOf(control, CONTROL_LIMIT);
      case TrackStatusChanged(value) =>
        trackStatus := value;
      case Malformed(_) =>
        ok := false;
      case _ =>
    }

    method ApplyToDriver(event: Event) returns (ok: bool)
      requires Valid() && NeedsDriver(event.change)
      modifies drivers.Values
      ensures ok <==> PayloadAccepted(event.change) && event.driver.Some? && event.driver.value in drivers &&
                      DriverAccepts(old(drivers[event.driver.value].Snapshot()), event.change)
      ensures ok ==>
                Snapshot() == old(Snapshot()).(drivers :=
                  old(Snapshot()).drivers[event.driver.value :=
                    DriverAfter(old(drivers[event.driver.value].Snapshot()), event.change)])
    {
      if event.driver.None? || event.driver.value !in drivers {
        return false;
      }
      ok := drivers[event.driver.value].Transition(event.change);
    }

    method ApplyAll(events: seq<Event>) returns (ok: bool)
      requires Valid()
      modifies this, drivers.Values
      ensures Valid() && drivers == old(drivers)
      ensures ok <==> Replay(old(Snapshot()), events).Ok?
      ensures ok ==> Snapshot() == Replay(old(Snapshot()), events).value
    {
      hide Apply;
      ghost var origin := Snapshot();
      for i := 0 to |events|
        invariant Valid() && drivers == old(drivers)
        invariant Replay(origin, events[..i]) == Ok(Snapshot())
      {
        assert events[..i + 1][..i] == events[..i];
        ok := ApplyEvent(events[i]);
        if !ok {
          ReplayConcat(origin, events[..i + 1], events[i + 1..]);
          assert events == events[..i + 1] + events[i + 1..];
          return;
        }
      }
      assert events[..|events|] == events;
      ok := true;
    }
  }

  lemma HasElement<T>(members: set<T>)
    ensures members != {} ==> exists x :: x in members
  {
  }

  // ----- Checkpoints as values -----

  /** A checkpoint falls at the start, after every `interval` events, and at the end. */
  predicate Due(n: nat, interval: int, i: int)
    requires interval >= 1
  {
    0 <= i <= n && (i % interval == 0 || i == n)
  }

  /** The i-th prefix replays and can be frozen at its last event. */
  ghost predicate Freezable(initial: State, events: seq<Event>, cursors: seq<LapCursor>, i: int)
    requires 0 <= i <= |events|
  {
    var cursor := if i == 0 then 0 else events[i - 1].timeMs;
    var lap := if i == 0 then None else ReferenceLapAt(cursors, cursor);
    Replay(initial, events[..i]).Ok? && Freeze(Replay(initial, events[..i]).value, cursor, lap).Ok?
  }

  ghost predicate AllFreezable(initial: State, events: seq<Event>, cursors: seq<LapCursor>, interval: int, upTo: nat)
    requires interval >= 1
  {
    forall i :: Due(|events|, interval, i) && i <= upTo ==> Freezable(initial, events, cursors, i)
  }

  lemma FreezableSoFar(initial: State, events: seq<Event>, cursors: seq<LapCursor>, interval: int, upTo: nat)
    requires interval >= 1 && 0 < upTo <= |events|
    ensures AllFreezable(initial, events, cursors, interval, upTo) <==>
            AllFreezable(initial, events, cursors, interval, upTo - 1) &&
            (Due(|events|, interval, upTo) ==> Freezable(initial, events, cursors, upTo))
    ensures AllFreezable(initial, events, cursors, interval, |events|) ==> AllFreezable(initial, events, cursors, interval, upTo)
  {
    hide Freezable;
  }

  lemma ReplayNext(initial: State, events: seq<Event>, i: nat)
    requires i < |events| && Replay(initial, events[..i]).Ok?
    ensures Replay(initial, events[..i + 1]) == Apply(Replay(initial, events[..i]).value, events[i])
  {
    assert events[..i + 1][..i] == events[..i];
  }

  /** Checkpoint i holds the replay of the first i events. */
  ghost predicate CheckpointAt(initial: State, events: seq<Event>, checkpoints: map<int, RaceState>, i: int) {
    0 <= i <= |events| && i in checkpoints && Replay(initial, events[..i]) == Ok(checkpoints[i].state)
  }

  /** The sorted indices list exactly the checkpoints there are, and every one is right. */
  ghost predicate Indexed(initial: State, events: seq<Event>, indices: seq<int>, checkpoints: map<int, RaceState>) {
    && |indices| > 0 && indices[0] == 0 && Sorted(indices)
    && (forall k :: 0 <= k < |indices| ==> CheckpointAt(initial, events, checkpoints, indices[k]))
  }

  lemma IndexedGrows(initial: State, events: seq<Event>, indices: seq<int>, checkpoints: map<int, RaceState>,
                     i: int, frozen: RaceState)
    requires Indexed(initial, events, indices, checkpoints)
    requires |indices| > 0 && indices[|indices| - 1] < i <= |events| && Replay(initial, events[..i]) == Ok(frozen.state)
    ensures Indexed(initial, events, indices + [i], checkpoints[i := frozen])
  {
    hide Replay;
    var longer, more := indices + [i], checkpoints[i := frozen];
    forall k | 0 <= k < |longer|
      ensures CheckpointAt(initial, events, more, longer[k])
    {
      if k < |indices| {
        assert CheckpointAt(initial, events, checkpoints, indices[k]);
      }
    }
  }

  /** Freezing at the i-th event is what the i-th prefix's checkpoint needs, and keeps its state. */
  lemma FreezesHere(initial: State, events: seq<Event>, cursors: seq<LapCursor>, i: nat, current: State)
    requires 0 < i <= |events| && Replay(initial, events[..i]) == Ok(current)
    ensures var frozen := Freeze(current, events[i - 1].timeMs, ReferenceLapAt(cursors, events[i - 1].timeMs));
            && (frozen.Ok? <==> Freezable(initial, events, cursors, i))
            && (frozen.Ok? ==> frozen.value.state == current)
  {
    ReplayKeepsTimes(initial, events[..i], i - 1);
  }

  lemma RejectedForGood(initial: State, events: seq<Event>, n: nat)
    requires n <= |events| && Replay(initial, events[..n]).Err?
    ensures Replay(initial, events).Err?
  {
    if Replay(initial, events).Ok? {
      ReplayPrefix(initial, events, n);
    }
  }

  /** Continuing from checkpoint `index` is replaying from the start. */
  lemma Resumed(initial: State, events: seq<Event>, checkpoints: map<int, RaceState>, index: nat, limit: nat)
    requires index <= limit <= |events| && Replay(initial, events).Ok? && CheckpointAt(initial, events, checkpoints, index)
    ensures Replay(initial, events[..limit]).Ok?
    ensures Replay(checkpoints[index].state, events[index..limit]) == Replay(initial, events[..limit])
  {
    ReplayPrefix(initial, events, limit);
    ReplayPrefix(initial, events[..limit], index);
    assert events[..limit][..index] == events[..index] && events[..limit][index..] == events[index..limit];
  }

  function Times(events: seq<Event>): seq<int> {
    seq(|events|, i requires 0 <= i < |events| => events[i].timeMs)
  }

  lemma ReplayedTimesSorted(initial: State, events: seq<Event>)
    requires Replay(initial, events).Ok?
    ensures Sorted(Times(events))
  {
    hide Replay;
    forall i, j | 0 <= i < j < |events|
      ensures events[i].timeMs <= events[j].timeMs
    {
      ReplayPrefix(initial, events, j + 1);
      ReplayKeepsTimes(initial, events[..j + 1], i);
    }
  }

  class Engine {
    const initial: State
    const events: seq<Event>
    const cursors: seq<LapCursor>
    var times: seq<int>
    var checkpointIndices: seq<int>
    var checkpoints: map<int, RaceState>

    ghost predicate Valid()
      reads this
    {
      && Replay(initial, events).Ok?
      && times == Times(events) && Sorted(times)
      && Indexed(initial, events, checkpointIndices, checkpoints)
    }

    constructor (initial: State, events: seq<Event>, cursors: seq<LapCursor>)
      ensures this.initial == initial && this.events == events && this.cursors == cursors
    {
      this.initial, this.events, this.cursors := initial, events, cursors;
      times, checkpointIndices, checkpoints := [], [], map[];
    }

    /** Freezes the state before any event. */
    method Begin(interval: int) returns (ok: bool)
      requires interval >= 1 && initial.timeMs == 0
      modifies this
      ensures ok ==> times == Times(events) && RecordedUpTo(0, interval) && Replay(initial, events[..0]) == Ok(initial)
      ensures !ok ==> !AllFreezable(initial, events, cursors, interval, |events|)
    {
      times := Times(events);
      var origin := Freeze(initial, 0, None);
      assert events[..0] == [];
      assert Due(|events|, interval, 0) && (Freezable(initial, events, cursors, 0) <==> origin.Ok?);
      ok := origin.Ok?;
      if ok {
        checkpointIndices, checkpoints := [0], map[0 := origin.value];
        assert AllFreezable(initial, events, cursors, interval, 0);
      }
    }

    /** Replays the whole timeline once, freezing every `interval` events and at the end. */
    method Build(interval: int) returns (ok: bool)
      requires initial.timeMs == 0
      modifies this
      ensures ok <==> interval >= 1 && Replay(initial, events).Ok? &&
                      AllFreezable(initial, events, cursors, interval, |events|)
      ensures ok ==> Valid() && forall i :: i in checkpoints <==> Due(|events|, interval, i)
      ensures ok ==> forall i :: i in checkpoints <==> 0 <= i <= |events| && (i % interval == 0 || i == |events|)
    {
      if interval < 1 {
        return false;
      }
      ok := Begin(interval);
      if !ok {
        return;
      }
      var mutable := new MutableReplayState(initial);
      var index := 0;
      hide Apply, Freeze, Freezable, ReferenceLapAt, Replay, CheckpointAt, Indexed, AllFreezable, Times, Due;
      while index < |events|
        invariant 0 <= index <= |events|
        invariant fresh(mutable) && fresh(mutable.drivers.Values) && mutable.Valid() && times == Times(events)
        invariant Replay(initial, events[..index]) == Ok(mutable.Snapshot())
        invariant RecordedUpTo(index, interval)
      {
        ok := Extend(mutable, index, interval);
        if !ok {
          return;
        }
        index := index + 1;
      }
      assert events[..|events|] == events;
      ReplayedTimesSorted(initial, events);
      ok := true;
    }

    /** The checkpoints due among the first `index` events are recorded, and no others. */
    ghost predicate RecordedUpTo(index: nat, interval: int)
      requires interval >= 1
      reads this
    {
      && Indexed(initial, events, checkpointIndices, checkpoints)
      && checkpointIndices[|checkpointIndices| - 1] <= index
      && (forall i :: i in checkpoints <==> Due(|events|, interval, i) && i <= index)
      && AllFreezable(initial, events, cursors, interval, index)
    }

    /** Applies event number `index` and records the checkpoint due after it. */
    method Extend(mutable: MutableReplayState, index: nat, interval: int) returns (ok: bool)
      requires interval >= 1 && index < |events| && RecordedUpTo(index, interval) && mutable.Valid()
      requires Replay(initial, events[..index]) == Ok(mutable.Snapshot())
      modifies this, mutable, mutable.drivers.Values
      ensures times == old(times) && mutable.Valid() && mutable.drivers == old(mutable.drivers)
      ensures ok ==> RecordedUpTo(index + 1, interval) && Replay(initial, events[..index + 1]) == Ok(mutable.Snapshot())
      ensures !ok ==> Replay(initial, events).Err? || !AllFreezable(initial, events, cursors, interval, |events|)
    {
      hide Apply, Freeze, Freezable, ReferenceLapAt, Replay, CheckpointAt, Indexed, AllFreezable, Due;
      ReplayNext(initial, events, index);
      ok := mutable.ApplyEvent(events[index]);
      if !ok {
        RejectedForGood(initial, events, index + 1);
        return;
      }
      ok := Record(index + 1, interval, mutable.Snapshot());
    }

    /** Freezes the state after event number `index`, when a checkpoint is due there. */
    method Record(index: nat, interval: int, current: State) returns (ok: bool)
      requires interval >= 1 && 0 < index <= |events| && RecordedUpTo(index - 1, interval)
      requires Replay(initial, events[..index]) == Ok(current)
      modifies this
      ensures times == old(times)
      ensures ok ==> RecordedUpTo(index, interval)
      ensures !ok ==> !AllFreezable(initial, events, cursors, interval, |events|)
    {
      hide Replay, Freeze, ReferenceLapAt;
      FreezableSoFar(initial, events, cursors, interval, index);
      ok := true;
      if index % interval == 0 || index == |events| {
        var at := events[index - 1].timeMs;
        var frozen := Freeze(current, at, ReferenceLapAt(cursors, at));
        FreezesHere(initial, events, cursors, index, current);
        if frozen.Err? {
          return false;
        }
        IndexedGrows(initial, events, checkpointIndices, checkpoints, index, frozen.value);
        checkpointIndices := checkpointIndices + [index];
        checkpoints := checkpoints[index := frozen.value];
      }
    }

    /** What a query answers, in plain terms. */
    ghost predicate Answers(timeMs: int, result: Result<RaceState, Error>) {
      exists n :: Splits(events, n, timeMs) && Replay(initial, events[..n]).Ok? &&
        Presents(Replay(initial, events[..n]).value, cursors, timeMs, result)
    }

    /** The checkpointed answer is the plain replay's answer, errors included: the state after exactly the
        events at or before the cursor, at the cursor's time, with the greatest lap completed by then. */
    method StateAt(timeMs: int) returns (result: Result<RaceState, Error>)
      requires Valid()
      ensures timeMs < 0 || timeMs > MaxTime(events) ==> result == Err(CursorError)
      ensures 0 <= timeMs <= MaxTime(events) ==> result == Plain(initial, events, cursors, timeMs)
      ensures timeMs >= 0 && (if events == [] then timeMs == 0 else timeMs <= events[|events| - 1].timeMs) ==>
                Answers(timeMs, result)
    {
      if timeMs < 0 || timeMs > MaxTime(events) {
        return Err(CursorError);
      }
      var limit := BisectRight(times, timeMs);
      var position := BisectRight(checkpointIndices, limit);
      var index := checkpointIndices[position - 1];
      assert CheckpointAt(initial, events, checkpoints, index);
      var mutable := new MutableReplayState(checkpoints[index].state);
      Resumed(initial, events, checkpoints, index, limit);
      var applied := mutable.ApplyAll(events[index..limit]);
      assert forall i :: 0 <= i < |events| ==> times[i] == events[i].timeMs;
      KeepIsPrefix(events, timeMs, limit);
      result := Freeze(mutable.Snapshot(), timeMs, ReferenceLapAt(cursors, timeMs));
      FreezePresents(mutable.Snapshot(), cursors, timeMs);
      assert Splits(events, limit, timeMs);
    }
  }
}
