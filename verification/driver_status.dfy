/** A driver's status, pit flag, pit stops and last pit lap, read off the events alone. */
module DriverStatus {
  import opened Support
  import opened ReplayReducer

  /** The event that takes a driver out of the race, or home. */
  predicate Ends(event: Event, id: DriverId) {
    event.driver == Some(id) && event.change.DriverStatusChanged? &&
    event.change.status in {Retired, Finished, DidNotStart, Disqualified}
  }

  predicate Over(events: seq<Event>, id: DriverId) {
    exists i :: 0 <= i < |events| && Ends(events[i], id)
  }

  /** The driver's story: the events up to and including the first one that ends it. */
  function Story(events: seq<Event>, id: DriverId): seq<Event> {
    if events == [] then []
    else if Over(events[..|events| - 1], id) then Story(events[..|events| - 1], id) else events
  }

  /** Entering, leaving, or a status that says which. */
  function PitIn(change: Change): Option<bool> {
    match change
    case PitEntered(_) => Some(true)
    case PitExited => Some(false)
    case DriverStatusChanged(status) => Some(status == InPit)
    case _ => None
  }

  /** A status that is announced; anything else a driver is seen to do means it is racing. */
  function StatusIn(change: Change): Option<Status> {
    match change
    case DriverStatusChanged(status) => Some(status)
    case StintChanged(_, _, _) => Some(Active)
    case PitEntered(_) => Some(Active)
    case PitExited => Some(Active)
    case PositionChanged(_) => Some(Active)
    case LapCompleted(_, _, _, _, _) => Some(Active)
    case _ => None
  }

  function PitLapIn(change: Change): Option<Option<int>> {
    if change.PitEntered? && change.pitLap.PitLap? then Some(change.pitLap.lap) else None
  }

  function Pitted(story: seq<Event>, id: DriverId, initial: bool): bool {
    Latest(story, About(id, PitIn), initial)
  }

  /** How often the driver entered the pit from the track. */
  function Stops(story: seq<Event>, id: DriverId, initial: bool): nat {
    if story == [] then 0
    else
      var init, last := story[..|story| - 1], story[|story| - 1];
      Stops(init, id, initial) +
      if last.driver == Some(id) && last.change.PitEntered? && !Pitted(init, id, initial) then 1 else 0
  }

  ghost predicate Tells(story: seq<Event>, id: DriverId, before: Driver, after: Driver) {
    && after.inPit == Pitted(story, id, before.inPit)
    && after.status == (if after.inPit then InPit else Latest(story, About(id, StatusIn), before.status))
    && after.pitStops == before.pitStops + Stops(story, id, before.inPit)
    && after.lastPitLap == Latest(story, About(id, PitLapIn), before.lastPitLap)
  }

  /** One event's effect on the four columns of a driver still in the race. */
  lemma DriverAfterTells(driver: Driver, change: Change, word: Status)
    requires SoundDriver(driver) && !Terminal(driver.status) && NeedsDriver(change) && DriverAccepts(driver, change)
    requires driver.status == if driver.inPit then InPit else word
    ensures var after := DriverAfter(driver, change);
            && after.inPit == (if PitIn(change).Some? then PitIn(change).value else driver.inPit)
            && StatusIn(change).Some? && after.status == (if after.inPit then InPit else StatusIn(change).value)
            && after.pitStops == driver.pitStops + (if change.PitEntered? && !driver.inPit then 1 else 0)
            && after.lastPitLap == (if PitLapIn(change).Some? then PitLapIn(change).value else driver.lastPitLap)
  {
  }

  lemma OtherEventsTellNothing(change: Change)
    requires !NeedsDriver(change)
    ensures PitIn(change).None? && StatusIn(change).None? && PitLapIn(change).None? && !change.PitEntered?
  {
  }

  lemma TellsOneMore(story: seq<Event>, id: DriverId, before: Driver, driver: Driver, last: Event)
    requires Tells(story, id, before, driver) && SoundDriver(driver) && !Terminal(driver.status)
    requires last.driver == Some(id) && NeedsDriver(last.change) ==> DriverAccepts(driver, last.change)
    ensures Tells(story + [last], id, before,
                  if last.driver == Some(id) && NeedsDriver(last.change) then DriverAfter(driver, last.change) else driver)
  {
    var longer := story + [last];
    assert longer[..|longer| - 1] == story;
    hide Latest, About, DriverAfter, PitIn, StatusIn, PitLapIn;
    if last.driver == Some(id) && NeedsDriver(last.change) {
      DriverAfterTells(driver, last.change, Latest(story, About(id, StatusIn), before.status));
    } else if last.driver == Some(id) {
      OtherEventsTellNothing(last.change);
    }
    hide SoundDriver, Terminal, DriverAccepts, NeedsDriver;
    ColumnStep(longer, id, PitIn, before.inPit);
    ColumnStep(longer, id, StatusIn, before.status);
    ColumnStep(longer, id, PitLapIn, before.lastPitLap);
  }

  lemma OneMoreOver(events: seq<Event>, id: DriverId)
    requires events != []
    ensures Over(events, id) <==> Over(events[..|events| - 1], id) || Ends(events[|events| - 1], id)
  {
    var init := events[..|events| - 1];
    if Over(init, id) {
      var i :| 0 <= i < |init| && Ends(init[i], id);
      assert Ends(events[i], id);
    }
  }

  lemma {:induction false} StoryUntilOver(events: seq<Event>, id: DriverId)
    ensures !Over(events, id) ==> Story(events, id) == events
  {
    if events != [] {
      OneMoreOver(events, id);
    }
  }

  /** One driver through one event. */
  function DriverStep(driver: Driver, id: DriverId, event: Event): Driver {
    if event.driver == Some(id) && NeedsDriver(event.change) then DriverAfter(driver, event.change) else driver
  }

  lemma ApplyDriver(state: State, event: Event, id: DriverId)
    requires id in state.drivers && Apply(state, event).Ok?
    ensures id in Apply(state, event).value.drivers
    ensures Apply(state, event).value.drivers[id] == DriverStep(state.drivers[id], id, event)
    ensures event.driver == Some(id) && NeedsDriver(event.change) ==> DriverAccepts(state.drivers[id], event.change)
  {
  }

  lemma EndedStays(driver: Driver, id: DriverId, event: Event)
    requires SoundDriver(driver) && Terminal(driver.status)
    ensures var after := DriverStep(driver, id, event);
            after.status == driver.status && after.inPit == driver.inPit &&
            after.pitStops == driver.pitStops && after.lastPitLap == driver.lastPitLap
  {
  }

  lemma EndsExactlyWhenTerminal(driver: Driver, id: DriverId, event: Event)
    requires !Terminal(driver.status)
    ensures Terminal(DriverStep(driver, id, event).status) <==> Ends(event, id)
  {
  }

  /** Whatever order of events was accepted: a driver is in the pit as the last word on it in its story says;
      otherwise its status is the last one announced, or active since; its stops are its entries from the
      track, and its last pit lap the last one given. The story is over for good once it ends. */
  lemma {:induction false} StoryTells(state: State, events: seq<Event>, id: DriverId)
    requires id in state.drivers && SoundDriver(state.drivers[id]) && !Terminal(state.drivers[id].status)
    requires Replay(state, events).Ok?
    ensures id in Replay(state, events).value.drivers
    ensures var after := Replay(state, events).value.drivers[id];
            && Tells(Story(events, id), id, state.drivers[id], after)
            && SoundDriver(after) && (Terminal(after.status) <==> Over(events, id))
  {
    if events == [] {
      assert Tells([], id, state.drivers[id], state.drivers[id]);
    } else {
      hide Apply, Tells, DriverAfter, Over, Terminal;
      var init, last := events[..|events| - 1], events[|events| - 1];
      StoryTells(state, init, id);
      var middle := Replay(state, init).value;
      var driver := middle.drivers[id];
      ApplyDriver(middle, last, id);
      OneMoreOver(events, id);
      StepSound(driver, id, last);
      if Terminal(driver.status) {
        EndedStays(driver, id, last);
        TellsSame(Story(init, id), id, state.drivers[id], driver, DriverStep(driver, id, last));
      } else {
        StoryUntilOver(init, id);
        EndsExactlyWhenTerminal(driver, id, last);
        TellsOneMore(init, id, state.drivers[id], driver, last);
        assert init + [last] == events;
      }
    }
  }

  lemma StepSound(driver: Driver, id: DriverId, event: Event)
    requires SoundDriver(driver)
    ensures SoundDriver(DriverStep(driver, id, event))
  {
  }

  lemma TellsSame(story: seq<Event>, id: DriverId, before: Driver, driver: Driver, after: Driver)
    requires Tells(story, id, before, driver)
    requires after.status == driver.status && after.inPit == driver.inPit
    requires after.pitStops == driver.pitStops && after.lastPitLap == driver.lastPitLap
    ensures Tells(story, id, before, after)
  {
  }
}
