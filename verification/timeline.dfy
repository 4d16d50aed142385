/** The canonical timeline: candidate events deduplicated, ordered and numbered. */
module Timeline {
  import opened Support
  import opened ReplayReducer

  /** A significant event before it is numbered; its source is what distinguishes it from its like. */
  datatype Candidate = Candidate(
    timeMs: nat, driver: Option<DriverId>, source: string, sourceKey: string, change: Change)

  /** EVENT_PRIORITY: the order of simultaneous events of different kinds. */
  function Priority(change: Change): nat {
    match change
    case SessionMarker => 0
    case TrackStatusChanged(_) => 10
    case WeatherObserved(_, _) => 20
    case RaceControl(_, _, _) => 30
    case StintChanged(_, _, _) => 40
    case PitEntered(_) => 50
    case PositionChanged(_) => 60
    case LapCompleted(_, _, _, _, _) => 70
    case PitExited => 80
    case DriverStatusChanged(_) => 90
    case Malformed(kind) => kind
  }

  /** `texts` stands for the kind's name, the driver, the source, its key and the payload's canonical JSON. */
  datatype Identity = Identity(timeMs: nat, priority: nat, texts: Id)

  /** How candidates are told apart and compared as texts. */
  datatype Spelling = Spelling(texts: Candidate -> Id, less: (Id, Id) -> bool)

  function IdentityOf(spelling: Spelling, c: Candidate): Identity {
    Identity(c.timeMs, Priority(c.change), spelling.texts(c))
  }

  ghost predicate TotalOrder(less: (Id, Id) -> bool) {
    && (forall a, b :: less(a, b) ==> !less(b, a))
    && (forall a, b, c :: less(a, b) && less(b, c) ==> less(a, c))
    && (forall a, b :: less(a, b) || a == b || less(b, a))
  }

  /** The texts repeat everything a candidate of one time and kind holds, and are totally ordered. */
  ghost predicate Faithful(spelling: Spelling, candidates: seq<Candidate>) {
    && TotalOrder(spelling.less)
    && (forall a, b :: a in candidates && b in candidates && IdentityOf(spelling, a) == IdentityOf(spelling, b) ==> a == b)
  }

  /** Tuples compare time first, then priority, then texts. */
  predicate Before(spelling: Spelling, a: Identity, b: Identity) {
    a.timeMs < b.timeMs || (a.timeMs == b.timeMs &&
      (a.priority < b.priority || (a.priority == b.priority && spelling.less(a.texts, b.texts))))
  }

  lemma BeforeIsTotal(spelling: Spelling, a: Identity, b: Identity, c: Identity)
    requires TotalOrder(spelling.less)
    ensures Before(spelling, a, b) ==> !Before(spelling, b, a) && a != b
    ensures Before(spelling, a, b) && Before(spelling, b, c) ==> Before(spelling, a, c)
    ensures Before(spelling, a, b) || a == b || Before(spelling, b, a)
  {
  }

  ghost predicate Ordered(spelling: Spelling, s: seq<Candidate>) {
    forall i, j :: 0 <= i < j < |s| ==> Before(spelling, IdentityOf(spelling, s[i]), IdentityOf(spelling, s[j]))
  }

  /** The dict keyed by identity: later candidates replace earlier ones. */
  function Unique(spelling: Spelling, candidates: seq<Candidate>): map<Identity, Candidate> {
    if candidates == [] then map[]
    else
      var last := candidates[|candidates| - 1];
      Unique(spelling, candidates[..|candidates| - 1])[IdentityOf(spelling, last) := last]
  }

  /** Each key of the dict holds a candidate of that identity, and every candidate's identity is a key. */
  ghost predicate Indexes(spelling: Spelling, candidates: seq<Candidate>, unique: map<Identity, Candidate>) {
    && (forall key :: key in unique ==> unique[key] in candidates && IdentityOf(spelling, unique[key]) == key)
    && (forall c :: c in candidates ==> IdentityOf(spelling, c) in unique)
  }

  lemma {:induction false} UniqueIndexes(spelling: Spelling, candidates: seq<Candidate>)
    ensures Indexes(spelling, candidates, Unique(spelling, candidates))
  {
    if candidates != [] {
      var init, last := candidates[..|candidates| - 1], candidates[|candidates| - 1];
      UniqueIndexes(spelling, init);
      assert forall c :: c in init ==> c in candidates;
      forall c | c in candidates
        ensures IdentityOf(spelling, c) in Unique(spelling, candidates)
      {
        InInitOrLast(candidates, c);
      }
    }
  }

  /** The dict's values in the order of their keys. */
  function InOrderOf(unique: map<Identity, Candidate>, keys: seq<Identity>): seq<Candidate>
    requires forall i :: 0 <= i < |keys| ==> keys[i] in unique
  {
    seq(|keys|, i requires 0 <= i < |keys| => unique[keys[i]])
  }

  lemma InOrderOfKeys(spelling: Spelling, candidates: seq<Candidate>, unique: map<Identity, Candidate>, keys: seq<Identity>)
    requires Faithful(spelling, candidates) && Indexes(spelling, candidates, unique)
    requires Ascending(spelling, keys) && forall key :: key in keys <==> key in unique.Keys
    requires forall i :: 0 <= i < |keys| ==> keys[i] in unique
    ensures Ordered(spelling, InOrderOf(unique, keys))
    ensures forall c :: c in InOrderOf(unique, keys) <==> c in candidates
  {
    hide Before, IdentityOf, TotalOrder;
    var ordered := InOrderOf(unique, keys);
    forall i | 0 <= i < |keys|
      ensures IdentityOf(spelling, ordered[i]) == keys[i] && ordered[i] in candidates
    {
      assert unique[keys[i]] == ordered[i];
    }
    forall c | c in candidates
      ensures c in ordered
    {
      assert IdentityOf(spelling, c) in keys;
      var i :| 0 <= i < |keys| && keys[i] == IdentityOf(spelling, c);
      assert ordered[i] == c;
    }
  }

  method LeastKey(spelling: Spelling, keys: set<Identity>) returns (least: Identity)
    requires TotalOrder(spelling.less) && keys != {}
    ensures least in keys
    ensures forall key :: key in keys && key != least ==> Before(spelling, least, key)
  {
    HasKey(keys);
    least :| least in keys;
    var rest := keys - {least};
    while rest != {}
      invariant rest <= keys && least in keys
      invariant forall key :: key in keys && key !in rest && key != least ==> Before(spelling, least, key)
      decreases rest
    {
      hide TotalOrder, Before;
      HasKey(rest);
      var other :| other in rest;
      forall key
        ensures Before(spelling, other, least) && Before(spelling, least, key) ==> Before(spelling, other, key)
        ensures Before(spelling, least, other) || least == other || Before(spelling, other, least)
      {
        BeforeIsTotal(spelling, other, least, key);
      }
      if Before(spelling, other, least) {
        least := other;
      }
      rest := rest - {other};
    }
  }

  lemma HasKey(keys: set<Identity>)
    ensures keys != {} ==> exists key :: key in keys
  {
  }

  predicate Ascending(spelling: Spelling, keys: seq<Identity>) {
    forall i, j :: 0 <= i < j < |keys| ==> Before(spelling, keys[i], keys[j])
  }

  method SortedKeys(spelling: Spelling, keys: set<Identity>) returns (sorted: seq<Identity>)
    requires TotalOrder(spelling.less)
    ensures Ascending(spelling, sorted)
    ensures forall key :: key in sorted <==> key in keys
  {
    hide TotalOrder, Before;
    sorted := [];
    var rest := keys;
    while rest != {}
      invariant rest <= keys
      invariant forall key :: key in sorted <==> key in keys && key !in rest
      invariant forall i, key :: 0 <= i < |sorted| && key in rest ==> Before(spelling, sorted[i], key)
      invariant Ascending(spelling, sorted)
      decreases rest
    {
      var least := LeastKey(spelling, rest);
      sorted := sorted + [least];
      rest := rest - {least};
    }
  }

  /** The deduplicated candidates in identity order; their positions are their sequence numbers. */
  method BuildTimeline(spelling: Spelling, candidates: seq<Candidate>) returns (ordered: seq<Candidate>)
    requires Faithful(spelling, candidates)
    ensures Ordered(spelling, ordered)
    ensures forall c :: c in ordered <==> c in candidates
  {
    var unique := Unique(spelling, candidates);
    var keys := SortedKeys(spelling, unique.Keys);
    UniqueIndexes(spelling, candidates);
    assert forall i :: 0 <= i < |keys| ==> keys[i] in unique.Keys;
    InOrderOfKeys(spelling, candidates, unique, keys);
    ordered := InOrderOf(unique, keys);
  }

  // ----- The results -----

  /** The order the candidates were collected in leaves no trace: the same candidates in any order and
      any multiplicity give the same timeline. */
  lemma {:induction false} TimelineIsUnique(spelling: Spelling, s: seq<Candidate>, t: seq<Candidate>)
    requires TotalOrder(spelling.less) && Ordered(spelling, s) && Ordered(spelling, t)
    requires forall c :: c in s <==> c in t
    ensures s == t
  {
    SameEmptiness(s, t);
    if s != [] {
      hide Before, TotalOrder;
      SameLast(spelling, s, t);
      var a, b := s[..|s| - 1], t[..|t| - 1];
      forall c
        ensures c in a <==> c in b
      {
        OnlyLast(spelling, s, c);
        OnlyLast(spelling, t, c);
      }
      TimelineIsUnique(spelling, a, b);
      assert s == a + [s[|s| - 1]] && t == b + [t[|t| - 1]];
    }
  }

  lemma SameEmptiness(s: seq<Candidate>, t: seq<Candidate>)
    requires forall c :: c in s <==> c in t
    ensures s == [] <==> t == []
  {
    assert |s| > 0 ==> s[0] in s;
    assert |t| > 0 ==> t[0] in t;
  }

  lemma OnlyLast(spelling: Spelling, s: seq<Candidate>, c: Candidate)
    requires TotalOrder(spelling.less) && Ordered(spelling, s) && s != []
    ensures c in s[..|s| - 1] <==> c in s && c != s[|s| - 1]
  {
    InInitOrLast(s, c);
    if c in s[..|s| - 1] {
      var i :| 0 <= i < |s| - 1 && s[i] == c;
      BeforeIsTotal(spelling, IdentityOf(spelling, s[i]), IdentityOf(spelling, s[|s| - 1]), IdentityOf(spelling, c));
    }
  }

  lemma SameLast(spelling: Spelling, s: seq<Candidate>, t: seq<Candidate>)
    requires TotalOrder(spelling.less) && Ordered(spelling, s) && Ordered(spelling, t) && s != [] && t != []
    requires forall c :: c in s <==> c in t
    ensures s[|s| - 1] == t[|t| - 1]
  {
    var last := s[|s| - 1];
    assert last in t && t[|t| - 1] in s;
    var j :| 0 <= j < |t| && t[j] == last;
    var i :| 0 <= i < |s| && s[i] == t[|t| - 1];
    BeforeIsTotal(spelling, IdentityOf(spelling, last), IdentityOf(spelling, t[|t| - 1]), IdentityOf(spelling, last));
  }

  function EventOf(session: string, c: Candidate): Event {
    Event(session, c.timeMs, c.driver, c.change)
  }

  function EventsOf(session: string, ordered: seq<Candidate>): seq<Event> {
    seq(|ordered|, i requires 0 <= i < |ordered| => EventOf(session, ordered[i]))
  }

  /** What a canonical timeline checks of its events: one session, and sort keys of time, priority and
      sequence in order. */
  ghost predicate Canonical(session: string, events: seq<Event>) {
    && (forall i :: 0 <= i < |events| ==> events[i].session == session)
    && (forall i, j :: 0 <= i < j < |events| ==>
          events[i].timeMs < events[j].timeMs ||
          (events[i].timeMs == events[j].timeMs && Priority(events[i].change) <= Priority(events[j].change)))
  }

  /** At one time the session marker comes first, then track status, weather, race control, stints, pit entries,
      positions, laps, pit exits, and driver statuses last. */
  lemma KindsInOrder(a: string, b: Status, c: seq<Option<real>>, n: int)
    ensures Priority(SessionMarker) < Priority(TrackStatusChanged(a)) < Priority(WeatherObserved(c, None))
    ensures Priority(WeatherObserved(c, None)) < Priority(RaceControl(a, None, None))
    ensures Priority(RaceControl(a, None, None)) < Priority(StintChanged(n, Soft, None))
    ensures Priority(StintChanged(n, Soft, None)) < Priority(PitEntered(NotALap)) < Priority(PositionChanged(n))
    ensures Priority(PositionChanged(n)) < Priority(LapCompleted(n, None, None, None, None)) < Priority(PitExited)
    ensures Priority(PitExited) < Priority(DriverStatusChanged(b))
  {
  }

  /** Each event is its candidate's, under the session. */
  lemma EventsAreTheirCandidates(session: string, ordered: seq<Candidate>, i: nat)
    requires i < |ordered|
    ensures |EventsOf(session, ordered)| == |ordered|
    ensures var event := EventsOf(session, ordered)[i];
            && event.session == session && event.timeMs == ordered[i].timeMs
            && event.driver == ordered[i].driver && event.change == ordered[i].change
  {
  }

  lemma BuiltIsCanonical(spelling: Spelling, session: string, ordered: seq<Candidate>)
    requires Ordered(spelling, ordered)
    ensures Canonical(session, EventsOf(session, ordered))
  {
    forall i, j | 0 <= i < j < |ordered|
      ensures ordered[i].timeMs < ordered[j].timeMs ||
              (ordered[i].timeMs == ordered[j].timeMs && Priority(ordered[i].change) <= Priority(ordered[j].change))
    {
      assert Before(spelling, IdentityOf(spelling, ordered[i]), IdentityOf(spelling, ordered[j]));
    }
  }

  /** A built timeline is replayed without rejection exactly when every candidate's payload is well formed and
      its driver is on the roster: time, order and session never reject one. */
  lemma BuiltReplays(spelling: Spelling, initial: State, ordered: seq<Candidate>)
    requires Ordered(spelling, ordered) && initial.timeMs == 0
    requires forall c :: c in ordered && c.change.PitEntered? ==> c.change.pitLap.PitLap?
    ensures Replay(initial, EventsOf(initial.session, ordered)).Ok? <==>
            forall c :: c in ordered ==> Acceptable(initial.drivers.Keys, EventOf(initial.session, c))
  {
    var events, roster := EventsOf(initial.session, ordered), initial.drivers.Keys;
    hide Replay, Ordered, Acceptable;
    BuiltIsCanonical(spelling, initial.session, ordered);
    InOrderReplays(initial, events);
    if AllAcceptable(roster, events) {
      forall c | c in ordered
        ensures Acceptable(roster, EventOf(initial.session, c))
      {
        var i :| 0 <= i < |ordered| && ordered[i] == c;
        assert Acceptable(roster, events[i]);
      }
    }
  }
}
