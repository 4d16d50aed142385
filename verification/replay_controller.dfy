/** The replay page's playback controller: a local cursor and the authoritative cursor it reconciles to. */
module ReplayController {
  const RECONCILE_MS := 250.0

  /** `previous` and `lastReconcile` are the frame loop's clocks, meaningful while playing. */
  datatype Playback = Playback(
    cursor: real, authoritative: real, playing: bool, speed: real, previous: real, lastReconcile: real)

  function Clamp(value: real, minimum: real, maximum: real): real {
    if value < minimum then (if minimum < maximum then minimum else maximum)
    else if value < maximum then value else maximum
  }

  datatype Range = Range(minimum: real, maximum: real)

  function Initial(range: Range, at: real): Playback {
    var cursor := Clamp(at, range.minimum, range.maximum);
    Playback(cursor, cursor, false, 1.0, 0.0, 0.0)
  }

  /** `now` is performance.now() when the playing effect starts. */
  datatype Action =
    | Seek(milliseconds: real, reconcile: bool)
    | SeekBy(delta: real)
    | SetPlaying(playing: bool, now: real)
    | TogglePlaying(now: real)
    | SetSpeed(speed: real)
    | BeginScrub
    | Reconcile
    | DocumentHidden
    | Tick(now: real)

  function Sought(range: Range, p: Playback, milliseconds: real, reconcile: bool): Playback {
    var next := Clamp(milliseconds, range.minimum, range.maximum);
    p.(cursor := next, authoritative := if reconcile then next else p.authoritative)
  }

  function Played(p: Playback, playing: bool, now: real): Playback {
    if !playing then p.(playing := false, authoritative := p.cursor)
    else if p.playing then p
    else p.(playing := true, previous := now, lastReconcile := now)
  }

  /** Session time covered by a frame, with the wall-clock step capped at a quarter of a second. */
  function Covered(p: Playback, now: real): real {
    Scaled(if now - p.previous < 250.0 then now - p.previous else 250.0, p.speed)
  }

  function Scaled(elapsed: real, speed: real): real {
    elapsed * speed
  }

  function Ticked(range: Range, p: Playback, now: real): Playback {
    if !p.playing then p
    else
      var next := Clamp(p.cursor + Covered(p, now), range.minimum, range.maximum);
      var due := now - p.lastReconcile >= RECONCILE_MS || next >= range.maximum;
      Playback(next, if due then next else p.authoritative, next < range.maximum, p.speed, now,
               if due then now else p.lastReconcile)
  }

  function Step(range: Range, p: Playback, action: Action): Playback {
    match action
    case Seek(milliseconds, reconcile) => Sought(range, p, milliseconds, reconcile)
    case SeekBy(delta) => Sought(range, p, p.cursor + delta, true)
    case SetPlaying(playing, now) => Played(p, playing, now)
    case TogglePlaying(now) => Played(p, !p.playing, now)
    case SetSpeed(speed) => p.(speed := Clamp(speed, 0.5, 4.0))
    case BeginScrub => p.(playing := false, authoritative := p.cursor)
    case Reconcile => p.(authoritative := p.cursor)
    case DocumentHidden => if p.playing then p.(playing := false, authoritative := p.cursor) else p
    case Tick(now) => Ticked(range, p, now)
  }

  function Run(range: Range, p: Playback, actions: seq<Action>): Playback
    decreases actions
  {
    if actions == [] then p else Run(range, Step(range, p, actions[0]), actions[1..])
  }

  /** The hook's refs and state cells. */
  class Controller {
    const range: Range
    var cursor: real
    var authoritative: real
    var playing: bool
    var speed: real
    var previous: real
    var lastReconcile: real

    function State(): Playback
      reads this
    {
      Playback(cursor, authoritative, playing, speed, previous, lastReconcile)
    }

    constructor (range: Range, at: real)
      ensures this.range == range && State() == Initial(range, at)
    {
      this.range := range;
      cursor, authoritative := Clamp(at, range.minimum, range.maximum), Clamp(at, range.minimum, range.maximum);
      playing, speed, previous, lastReconcile := false, 1.0, 0.0, 0.0;
    }

    method Seek(milliseconds: real, reconcile: bool)
      modifies this
      ensures State() == Sought(range, old(State()), milliseconds, reconcile)
    {
      cursor := Clamp(milliseconds, range.minimum, range.maximum);
      if reconcile {
        authoritative := cursor;
      }
    }

    method SeekBy(delta: real)
      modifies this
      ensures State() == Step(range, old(State()), Action.SeekBy(delta))
    {
      Seek(cursor + delta, true);
    }

    method Reconcile()
      modifies this
      ensures State() == Step(range, old(State()), Action.Reconcile)
    {
      authoritative := cursor;
    }

    method TogglePlaying(now: real)
      modifies this
      ensures State() == Step(range, old(State()), Action.TogglePlaying(now))
    {
      SetPlaying(!playing, now);
    }

    method SetPlaying(playing: bool, now: real)
      modifies this
      ensures State() == Played(old(State()), playing, now)
    {
      var started := playing && !this.playing;
      this.playing := playing;
      if !playing {
        authoritative := cursor;
      }
      if started {
        previous, lastReconcile := now, now;
      }
    }

    method SetSpeed(speed: real)
      modifies this
      ensures State() == old(State()).(speed := Clamp(speed, 0.5, 4.0))
    {
      this.speed := Clamp(speed, 0.5, 4.0);
    }

    method BeginScrub()
      modifies this
      ensures State() == Step(range, old(State()), Action.BeginScrub)
    {
      playing := false;
      authoritative := cursor;
    }

    method DocumentHidden()
      modifies this
      ensures State() == Step(range, old(State()), Action.DocumentHidden)
    {
      if playing {
        playing := false;
        authoritative := cursor;
      }
    }

    /** One animation frame. */
    method Tick(now: real)
      modifies this
      ensures State() == Ticked(range, old(State()), now)
    {
      if !playing {
        return;
      }
      var elapsed := if now - previous < 250.0 then now - previous else 250.0;
      previous := now;
      var next := Clamp(cursor + elapsed * speed, range.minimum, range.maximum);
      cursor := next;
      if now - lastReconcile >= RECONCILE_MS || next >= range.maximum {
        lastReconcile := now;
        authoritative := next;
      }
      if next >= range.maximum {
        playing := false;
      }
    }
  }

  // ----- Bounds, for every run -----

  predicate InBounds(range: Range, p: Playback) {
    && range.minimum <= p.cursor <= range.maximum
    && range.minimum <= p.authoritative <= range.maximum
    && 0.5 <= p.speed <= 4.0
  }

  /** Both cursors stay in range and the speed in its limits, whatever happens in whatever order. */
  lemma {:induction false} CursorsStayInRange(range: Range, p: Playback, actions: seq<Action>)
    requires range.minimum <= range.maximum && InBounds(range, p)
    ensures InBounds(range, Run(range, p, actions))
    decreases actions
  {
    if actions != [] {
      CursorsStayInRange(range, Step(range, p, actions[0]), actions[1..]);
    }
  }

  // ----- The lag of the authoritative cursor -----

  /** Every seek reconciles and no frame's timestamp precedes the frame loop's clock. */
  ghost predicate WellTimed(range: Range, p: Playback, actions: seq<Action>)
    decreases actions
  {
    actions != [] ==>
      && (actions[0].Seek? ==> actions[0].reconcile)
      && (actions[0].Tick? && p.playing ==> actions[0].now >= p.previous)
      && WellTimed(range, Step(range, p, actions[0]), actions[1..])
  }

  predicate Reconciled(p: Playback) {
    && (!p.playing ==> p.cursor == p.authoritative)
    && (p.playing ==>
          && 0.0 <= p.previous - p.lastReconcile < RECONCILE_MS
          && 0.0 <= p.cursor - p.authoritative <= 4.0 * (p.previous - p.lastReconcile))
  }

  lemma CoveredForward(p: Playback, now: real, gap: real)
    requires 0.5 <= p.speed <= 4.0 && 0.0 <= gap <= now - p.previous && gap <= 250.0
    ensures 0.5 * gap <= Covered(p, now) <= 4.0 * (now - p.previous)
  {
    var elapsed := if now - p.previous < 250.0 then now - p.previous else 250.0;
    ScaledBetween(elapsed, p.speed);
  }

  lemma ScaledBetween(elapsed: real, speed: real)
    requires 0.0 <= elapsed && 0.5 <= speed <= 4.0
    ensures 0.5 * elapsed <= Scaled(elapsed, speed) <= 4.0 * elapsed
  {
  }

  lemma TickKeepsReconciled(range: Range, p: Playback, now: real)
    requires range.minimum <= range.maximum && InBounds(range, p) && Reconciled(p) && p.playing && now >= p.previous
    ensures Reconciled(Ticked(range, p, now))
  {
    hide Covered;
    CoveredForward(p, now, 0.0);
  }

  lemma {:induction false} LagInvariant(range: Range, p: Playback, actions: seq<Action>)
    requires range.minimum <= range.maximum && InBounds(range, p) && Reconciled(p) && WellTimed(range, p, actions)
    ensures Reconciled(Run(range, p, actions))
    decreases actions
  {
    if actions != [] {
      var next := Step(range, p, actions[0]);
      if actions[0].Tick? && p.playing {
        TickKeepsReconciled(range, p, actions[0].now);
      }
      CursorsStayInRange(range, p, [actions[0]]);
      assert Run(range, p, [actions[0]]) == next by {
        assert [actions[0]][1..] == [];
      }
      LagInvariant(range, next, actions[1..]);
    }
  }

  /** The authoritative cursor trails the shown one by less than a second of session time. */
  lemma LagUnderOneSecond(range: Range, at: real, actions: seq<Action>)
    requires range.minimum <= range.maximum && WellTimed(range, Initial(range, at), actions)
    ensures var p := Run(range, Initial(range, at), actions);
            0.0 <= p.cursor - p.authoritative < 1000.0
  {
    LagInvariant(range, Initial(range, at), actions);
  }

  /** The clock hypothesis is exact on the first frame: the shown cursor stays at or ahead of the
      authoritative one if and only if the frame's timestamp is not before the effect's own clock,
      or the cursor is already at the minimum. */
  lemma FirstFrameMustNotPrecedeClock(range: Range, p: Playback, now: real)
    requires InBounds(range, p) && p.playing && p.cursor == p.authoritative && p.previous == p.lastReconcile
    ensures var after := Ticked(range, p, now);
            after.cursor >= after.authoritative <==> now >= p.previous || p.cursor == range.minimum
  {
    hide Covered;
    if now < p.previous {
      CoveredBackward(p, now);
    } else {
      CoveredForward(p, now, 0.0);
    }
  }

  lemma CoveredBackward(p: Playback, now: real)
    requires now < p.previous && p.speed >= 0.5
    ensures Covered(p, now) < 0.0
  {
  }

  // ----- What one action does -----

  /** `at` is the point of the range nearest to the one asked for. */
  predicate Nearest(range: Range, asked: real, at: real) {
    && range.minimum <= at <= range.maximum
    && (range.minimum <= asked <= range.maximum ==> at == asked)
    && (asked < range.minimum ==> at == range.minimum) && (asked > range.maximum ==> at == range.maximum)
  }

  /** A seek goes to the nearest point there is and leaves the rest alone, the authoritative cursor too when it
      is not to be reconciled; a speed is the nearest one between a half and four. */
  lemma SeeksGoWhereAsked(range: Range, p: Playback, asked: real, reconcile: bool)
    requires range.minimum <= range.maximum
    ensures var after := Step(range, p, Seek(asked, reconcile));
            && Nearest(range, asked, after.cursor)
            && after == p.(cursor := after.cursor, authoritative := if reconcile then after.cursor else p.authoritative)
    ensures var after := Step(range, p, SeekBy(asked));
            && Nearest(range, p.cursor + asked, after.cursor)
            && after == p.(cursor := after.cursor, authoritative := after.cursor)
    ensures var after := Step(range, p, SetSpeed(asked));
            Nearest(Range(0.5, 4.0), asked, after.speed) && after == p.(speed := after.speed)
    ensures var first := Initial(range, asked);
            Nearest(range, asked, first.cursor) && first.authoritative == first.cursor && !first.playing && first.speed == 1.0
  {
  }

  /** Stopping, scrubbing and hiding the page reconcile and stop; starting resets the frame loop's clocks once. */
  lemma PlayAndPause(range: Range, p: Playback, now: real)
    ensures Step(range, p, SetPlaying(false, now)) == p.(playing := false, authoritative := p.cursor)
    ensures Step(range, p, BeginScrub) == p.(playing := false, authoritative := p.cursor)
    ensures Step(range, p, Reconcile) == p.(authoritative := p.cursor)
    ensures Step(range, p, TogglePlaying(now)) == Step(range, p, SetPlaying(!p.playing, now))
    ensures Step(range, p, DocumentHidden) == if p.playing then p.(playing := false, authoritative := p.cursor) else p
    ensures var after := Step(range, p, SetPlaying(true, now));
            after == if p.playing then p else p.(playing := true, previous := now, lastReconcile := now)
  {
  }

  /** One frame: at most a quarter of a second is covered, at the speed set, within the range; reaching the
      maximum stops playback with both cursors there, and otherwise the authoritative one catches up exactly
      when a quarter of a second has passed since it last did. */
  lemma FrameCoversElapsedTime(range: Range, p: Playback, now: real)
    requires range.minimum <= range.maximum
    ensures !p.playing ==> Ticked(range, p, now) == p
    ensures p.playing ==>
              var elapsed := if now - p.previous < 250.0 then now - p.previous else 250.0;
              var after := Ticked(range, p, now);
              && Nearest(range, p.cursor + elapsed * p.speed, after.cursor)
              && after.previous == now && after.speed == p.speed && (after.playing <==> after.cursor < range.maximum)
              && (if after.cursor == range.maximum || now - p.lastReconcile >= 250.0
                  then after.authoritative == after.cursor && after.lastReconcile == now
                  else after.authoritative == p.authoritative && after.lastReconcile == p.lastReconcile)
  {
  }

  /** Frames in time order, none a quarter of a second or more after the one before. */
  predicate Smooth(times: seq<real>, from: real) {
    times != [] ==> 0.0 <= times[0] - from < 250.0 && Smooth(times[1..], times[0])
  }

  lemma SpeedTimes(a: real, b: real, c: real, speed: real)
    ensures Scaled(b - a, speed) + Scaled(c - b, speed) == Scaled(c - a, speed)
  {
  }

  /** Smooth playback keeps time: while it has not reached the maximum, the cursor has moved by exactly the speed
      times the time from the effect's clock to the last frame. */
  lemma {:induction false} PlaybackKeepsTime(range: Range, p: Playback, times: seq<real>)
    requires range.minimum <= range.maximum && InBounds(range, p) && p.playing && Smooth(times, p.previous)
    requires Run(range, p, Ticks(times)).playing
    ensures var after := Run(range, p, Ticks(times));
            && after.previous == (if times == [] then p.previous else times[|times| - 1])
            && after.cursor == p.cursor + Scaled(after.previous - p.previous, p.speed)
    decreases times
  {
    if times != [] {
      var next, rest := Ticked(range, p, times[0]), times[1..];
      assert Ticks(times)[1..] == Ticks(rest) && Ticks(times)[0] == Tick(times[0]);
      if !next.playing {
        StoppedStays(range, next, rest);
      } else {
        KeepsTimeOnce(range, p, times[0]);
        PlaybackKeepsTime(range, next, rest);
        hide Ticked;
        SpeedTimes(p.previous, times[0], Run(range, p, Ticks(times)).previous, p.speed);
      }
    } else {
      assert Scaled(0.0, p.speed) == 0.0;
    }
  }

  lemma KeepsTimeOnce(range: Range, p: Playback, now: real)
    requires range.minimum <= range.maximum && InBounds(range, p) && p.playing && 0.0 <= now - p.previous < 250.0
    requires Ticked(range, p, now).playing
    ensures var next := Ticked(range, p, now);
            && next.previous == now && next.speed == p.speed && InBounds(range, next)
            && next.cursor == p.cursor + Scaled(now - p.previous, p.speed)
  {
    hide Scaled;
    ScaledBetween(now - p.previous, p.speed);
  }

  // ----- Reaching the end -----

  function Ticks(times: seq<real>): seq<Action> {
    seq(|times|, i requires 0 <= i < |times| => Tick(times[i]))
  }

  ghost predicate Spaced(times: seq<real>, from: real, gap: real) {
    times != [] ==> times[0] - from >= gap && Spaced(times[1..], times[0], gap)
  }

  /** A frame at least `gap` after the last one either ends playback at the maximum or advances the cursor. */
  lemma FrameAdvances(range: Range, p: Playback, now: real, gap: real)
    requires InBounds(range, p) && p.playing && 0.0 < gap <= 250.0 && now - p.previous >= gap
    ensures var next := Ticked(range, p, now);
            if next.playing then next.previous == now && p.cursor + 0.5 * gap <= next.cursor < range.maximum && InBounds(range, next)
            else next.cursor == next.authoritative == range.maximum
  {
    hide Covered;
    CoveredForward(p, now, gap);
  }

  lemma OneLess(count: nat, step: real)
    ensures (count as real) * step + step == ((count + 1) as real) * step
    ensures count == 0 ==> (count as real) * step == 0.0
  {
  }

  /** Frames at least `gap` apart carry playback to the maximum within a bounded number of frames; it
      stops there, with both cursors equal. */
  lemma {:induction false} PlaybackStopsAtMaximum(range: Range, p: Playback, times: seq<real>, gap: real)
    requires range.minimum <= range.maximum && InBounds(range, p) && p.playing
    requires 0.0 < gap <= 250.0 && Spaced(times, p.previous, gap)
    requires range.maximum - p.cursor <= (|times| as real) * (0.5 * gap) && times != []
    ensures var after := Run(range, p, Ticks(times));
            !after.playing && after.cursor == after.authoritative == range.maximum
    decreases times
  {
    var next, rest := Ticked(range, p, times[0]), times[1..];
    FrameAdvances(range, p, times[0], gap);
    assert Ticks(times)[1..] == Ticks(rest) && Ticks(times)[0] == Tick(times[0]);
    OneLess(|rest|, 0.5 * gap);
    if next.playing {
      PlaybackStopsAtMaximum(range, next, rest, gap);
    } else {
      StoppedStays(range, next, rest);
    }
  }

  lemma {:induction false} StoppedStays(range: Range, p: Playback, times: seq<real>)
    requires !p.playing
    ensures Run(range, p, Ticks(times)) == p
  {
    if times != [] {
      assert Ticks(times)[1..] == Ticks(times[1..]);
      StoppedStays(range, p, times[1..]);
    }
  }
}
