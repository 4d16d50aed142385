/** The replay service's engine map: an optimistic build that races with dataset activation. */
module ReplayService {
  import opened Support

  type Session = Id
  type Dataset = Id
  type Thread = nat
  type Key = (Session, Dataset)

  /** An engine remembers the dataset its session tables and its events were read from. */
  datatype Engine = Engine(tables: Dataset, events: Dataset)

  type Engines = map<Key, Engine>

  /** The engines kept when `key` is installed: other sessions only. */
  function Installed(engines: Engines, key: Key, engine: Engine): Engines {
    (map other | other in engines && other.0 != key.0 :: engines[other])[key := engine]
  }

  ghost predicate OnePerSession(engines: Engines) {
    forall key, other :: key in engines && other in engines && key.0 == other.0 ==> key == other
  }

  /** The two critical sections of `_engine`, each one acquisition of the lock. */
  class EngineMap {
    var engines: Engines

    ghost predicate Valid()
      reads this
    {
      OnePerSession(engines)
    }

    constructor ()
      ensures Valid() && engines == map[]
    {
      engines := map[];
    }

    /** A hit is the only engine of its session. */
    method Lookup(key: Key) returns (cached: Option<Engine>)
      requires Valid()
      ensures cached.Some? <==> key in engines
      ensures cached.Some? ==> engines[key] == cached.value
      ensures cached.Some? ==> forall other :: other in engines && other.0 == key.0 ==> other == key
    {
      cached := if key in engines then Some(engines[key]) else None;
    }

    /** Whichever engine was first under the key answers, and it is then the only one of its session. */
    method Install(key: Key, engine: Engine) returns (answer: Engine)
      requires Valid()
      modifies this
      ensures Valid() && key in engines && engines[key] == answer
      ensures key in old(engines) ==> engines == old(engines)
      ensures key !in old(engines) ==> engines == Installed(old(engines), key, engine) && answer == engine
      ensures forall other: Key :: other.0 != key.0 ==>
                (other in engines <==> other in old(engines)) && (other in engines ==> engines[other] == old(engines)[other])
    {
      var cached := Lookup(key);
      if cached.Some? {
        return cached.value;
      }
      engines := map other | other in engines && other.0 != key.0 :: engines[other];
      engines := engines[key := engine];
      answer := engine;
    }
  }

  // ----- Calls interleaved with activations -----

  /** Where a call to `_engine` stands. `entered` is how many activations of the session preceded the
      call, and `seen` how many preceded its latest read of the active pointer. */
  datatype Call =
    | Idle
    | Reading(session: Session, entered: nat, seen: nat, retries: nat)
    | Keyed(session: Session, entered: nat, seen: nat, retries: nat)
    | Missed(session: Session, entered: nat, seen: nat, retries: nat)
    | TablesLoaded(session: Session, entered: nat, seen: nat, retries: nat, tablesAt: nat)
    | Built(session: Session, entered: nat, seen: nat, retries: nat, tablesAt: nat, eventsAt: nat)
    | Rechecked(session: Session, entered: nat, seen: nat, retries: nat, engine: Engine)
    | Returned(session: Session, entered: nat, left: nat, retries: nat, dataset: Dataset, engine: Engine)
    | Failed

  /** `active[s]` is every dataset activated for session s so far, the active one last. */
  datatype System = System(active: map<Session, seq<Dataset>>, engines: Engines, calls: map<Thread, Call>)

  datatype Action =
    | Activate(session: Session, dataset: Dataset)
    | Enter(thread: Thread, session: Session)
    | Advance(thread: Thread)
    | Abandon(thread: Thread)  // reading or building raised

  function CallOf(s: System, t: Thread): Call {
    if t in s.calls then s.calls[t] else Idle
  }

  function History(s: System, session: Session): seq<Dataset> {
    if session in s.active then s.active[session] else []
  }

  predicate Resting(call: Call) {
    call.Idle? || call.Returned? || call.Failed?
  }

  /** One atomic step of one call, given the activations of its session so far. */
  function Advanced(history: seq<Dataset>, engines: Engines, call: Call): (Engines, Call)
    requires WithinHistory(history, call)
  {
    match call
    case Reading(session, entered, _, retries) =>
      // active_dataset_identity; an unknown session raises
      (engines, if history == [] then Failed else Keyed(session, entered, |history| - 1, retries))
    case Keyed(session, entered, seen, retries) =>
      var key := (session, history[seen]);
      (engines, if key in engines then Returned(session, entered, |history| - 1, retries, history[seen], engines[key])
                else Missed(session, entered, seen, retries))
    case Missed(session, entered, seen, retries) =>
      (engines, TablesLoaded(session, entered, seen, retries, |history| - 1))
    case TablesLoaded(session, entered, seen, retries, tablesAt) =>
      (engines, Built(session, entered, seen, retries, tablesAt, |history| - 1))
    case Built(session, entered, seen, retries, tablesAt, eventsAt) =>
      (engines, if history[|history| - 1] != history[seen] then Reading(session, entered, |history| - 1, retries + 1)
                else Rechecked(session, entered, seen, retries, Engine(history[tablesAt], history[eventsAt])))
    case Rechecked(session, entered, seen, retries, engine) =>
      var key := (session, history[seen]);
      var kept := if key in engines then engines else Installed(engines, key, engine);
      (kept, Returned(session, entered, |history| - 1, retries, history[seen], kept[key]))
    case _ => (engines, call)
  }

  function Step(s: System, action: Action): System {
    match action
    case Activate(session, dataset) => s.(active := s.active[session := History(s, session) + [dataset]])
    case Enter(t, session) =>
      var latest := if History(s, session) == [] then 0 else |History(s, session)| - 1;
      if Resting(CallOf(s, t)) then s.(calls := s.calls[t := Reading(session, latest, latest, 0)]) else s
    case Advance(t) =>
      var call := CallOf(s, t);
      if Resting(call) || !WithinHistory(History(s, call.session), call) then s
      else
        var (engines, next) := Advanced(History(s, call.session), s.engines, call);
        s.(engines := engines, calls := s.calls[t := next])
    case Abandon(t) => if Resting(CallOf(s, t)) then s else s.(calls := s.calls[t := Failed])
  }

  function Run(s: System, actions: seq<Action>): System {
    if actions == [] then s else Step(Run(s, actions[..|actions| - 1]), actions[|actions| - 1])
  }

  const START := System(map[], map[], map[])

  /** Version k activates the dataset of version i again, after another one at j. */
  predicate ReturnsAt(history: seq<Dataset>, i: nat, j: nat, k: nat)
    requires i < j < k < |history|
  {
    history[k] == history[i] != history[j]
  }

  /** A replaced dataset is never activated again; activating the active one again is no replacement. */
  ghost predicate NeverReturns(history: seq<Dataset>) {
    forall i, j, k :: 0 <= i < j < k < |history| ==> !ReturnsAt(history, i, j, k)
  }

  // ----- The invariant -----

  /** The positions a call remembers lie within its session's history, in the order it read them. */
  predicate WithinHistory(history: seq<Dataset>, call: Call) {
    match call
    case Idle => true
    case Failed => true
    case Reading(_, entered, seen, retries) => entered + retries <= seen && (seen == 0 || seen < |history|)
    case Keyed(_, entered, seen, retries) => entered + retries <= seen < |history|
    case Missed(_, entered, seen, retries) => entered + retries <= seen < |history|
    case TablesLoaded(_, entered, seen, retries, tablesAt) => entered + retries <= seen <= tablesAt < |history|
    case Built(_, entered, seen, retries, tablesAt, eventsAt) =>
      entered + retries <= seen <= tablesAt <= eventsAt < |history|
    case Rechecked(_, entered, seen, retries, _) => entered + retries <= seen < |history|
    case Returned(_, entered, left, retries, dataset, _) =>
      entered + retries <= left < |history| && exists i :: entered <= i <= left && history[i] == dataset
  }

  /** An engine both of whose halves come from one dataset. */
  function Pure(dataset: Dataset): Engine {
    Engine(dataset, dataset)
  }

  predicate CallUnmixed(history: seq<Dataset>, call: Call)
    requires WithinHistory(history, call)
  {
    match call
    case Rechecked(_, _, seen, _, engine) => engine == Pure(history[seen])
    case Returned(_, _, _, _, dataset, engine) => engine == Pure(dataset)
    case _ => true
  }

  ghost predicate EnginesUnmixed(engines: Engines, session: Session) {
    forall dataset :: (session, dataset) in engines ==> engines[(session, dataset)] == Pure(dataset)
  }

  predicate Bare(call: Call) {
    call.Idle? || call.Failed?
  }

  ghost predicate AllWithin(s: System) {
    forall t :: t in s.calls ==> Bare(s.calls[t]) || WithinHistory(History(s, s.calls[t].session), s.calls[t])
  }

  /** Every engine of the session, cached or in a call's hands, comes from one dataset. */
  ghost predicate Unmixed(s: System, session: Session)
    requires AllWithin(s)
  {
    && EnginesUnmixed(s.engines, session)
    && forall t :: t in s.calls && !Bare(s.calls[t]) && s.calls[t].session == session ==>
         CallUnmixed(History(s, session), s.calls[t])
  }

  lemma AdvancedWithin(history: seq<Dataset>, engines: Engines, call: Call)
    requires WithinHistory(history, call) && !Resting(call)
    ensures var next := Advanced(history, engines, call).1;
            WithinHistory(history, next) && (Bare(next) || next.session == call.session)
  {
  }

  lemma AdvancedUnmixed(history: seq<Dataset>, engines: Engines, call: Call)
    requires WithinHistory(history, call) && !Resting(call) && CallUnmixed(history, call)
    requires EnginesUnmixed(engines, call.session) && NeverReturns(history)
    ensures var (kept, next) := Advanced(history, engines, call);
            EnginesUnmixed(kept, call.session) && WithinHistory(history, next) && CallUnmixed(history, next)
  {
    if call.Built? && history[|history| - 1] == history[call.seen] {
      SameBetween(history, call.seen, call.tablesAt);
      SameBetween(history, call.seen, call.eventsAt);
    }
  }

  /** Between two activations of one dataset, nothing else was active. */
  lemma SameBetween(history: seq<Dataset>, i: nat, j: nat)
    requires NeverReturns(history) && i <= j < |history| && history[|history| - 1] == history[i]
    ensures history[j] == history[i]
  {
    if i < j < |history| - 1 {
      assert !ReturnsAt(history, i, j, |history| - 1);
    }
  }

  /** A step of one session's call leaves the other sessions' engines alone and no session with two. */
  lemma AdvancedKeepsOthers(history: seq<Dataset>, engines: Engines, call: Call)
    requires WithinHistory(history, call) && !Resting(call)
    ensures OnePerSession(engines) ==> OnePerSession(Advanced(history, engines, call).0)
    ensures forall key: Key :: key.0 != call.session ==>
              (key in Advanced(history, engines, call).0 <==> key in engines)
    ensures forall key: Key :: key.0 != call.session && key in engines ==> Advanced(history, engines, call).0[key] == engines[key]
  {
  }

  lemma MoreHistory(history: seq<Dataset>, dataset: Dataset, call: Call)
    requires WithinHistory(history, call)
    ensures WithinHistory(history + [dataset], call)
    ensures CallUnmixed(history, call) ==> CallUnmixed(history + [dataset], call)
  {
    var more := history + [dataset];
    assert forall i :: 0 <= i < |history| ==> more[i] == history[i];
    if call.Returned? {
      var i :| call.entered <= i <= call.left && history[i] == call.dataset;
      assert more[i] == call.dataset;
    }
  }

  lemma StepKeepsWithin(s: System, action: Action)
    requires AllWithin(s)
    ensures AllWithin(Step(s, action))
  {
    var after := Step(s, action);
    match action
    case Activate(session, dataset) =>
      forall t | t in after.calls
        ensures Bare(after.calls[t]) || WithinHistory(History(after, after.calls[t].session), after.calls[t])
      {
        if !Bare(s.calls[t]) && s.calls[t].session == session {
          MoreHistory(History(s, session), dataset, s.calls[t]);
        }
      }
    case Advance(t) =>
      var call := CallOf(s, t);
      if !Resting(call) {
        AdvancedWithin(History(s, call.session), s.engines, call);
      }
    case _ =>
  }

  lemma ActivateKeepsUnmixed(s: System, other: Session, dataset: Dataset, session: Session)
    requires AllWithin(s) && AllWithin(Step(s, Activate(other, dataset))) && Unmixed(s, session)
    ensures Unmixed(Step(s, Activate(other, dataset)), session)
  {
    hide WithinHistory, CallUnmixed;
    var after := Step(s, Activate(other, dataset));
    forall t | t in after.calls && !Bare(after.calls[t]) && after.calls[t].session == session
      ensures CallUnmixed(History(after, session), after.calls[t])
    {
      if other == session {
        MoreHistory(History(s, session), dataset, s.calls[t]);
      }
    }
  }

  lemma AdvanceKeepsUnmixed(s: System, t: Thread, session: Session)
    requires AllWithin(s) && AllWithin(Step(s, Advance(t))) && Unmixed(s, session) && NeverReturns(History(s, session))
    ensures Unmixed(Step(s, Advance(t)), session)
  {
    hide NeverReturns, Advanced, CallUnmixed, WithinHistory;
    var call := CallOf(s, t);
    if !Resting(call) {
      AdvancedWithin(History(s, call.session), s.engines, call);
      AdvancedKeepsOthers(History(s, call.session), s.engines, call);
      if call.session == session {
        AdvancedUnmixed(History(s, session), s.engines, call);
      }
    }
  }

  lemma StepKeepsUnmixed(s: System, action: Action, session: Session)
    requires AllWithin(s) && AllWithin(Step(s, action)) && Unmixed(s, session) && NeverReturns(History(s, session))
    ensures Unmixed(Step(s, action), session)
  {
    match action
    case Activate(other, dataset) => ActivateKeepsUnmixed(s, other, dataset, session);
    case Advance(t) => AdvanceKeepsUnmixed(s, t, session);
    case _ =>
  }

  lemma NeverReturnsEarlier(s: System, action: Action, session: Session)
    requires NeverReturns(History(Step(s, action), session))
    ensures NeverReturns(History(s, session))
  {
    var history, longer := History(s, session), History(Step(s, action), session);
    assert forall i :: 0 <= i < |history| ==> longer[i] == history[i];
    forall i, j, k | 0 <= i < j < k < |history|
      ensures !ReturnsAt(history, i, j, k)
    {
      assert !ReturnsAt(longer, i, j, k);
    }
  }

  /** Every run keeps every call within its session's history, so no step is ever disabled. */
  lemma {:induction false} RunKeepsWithin(actions: seq<Action>)
    ensures AllWithin(Run(START, actions))
  {
    if actions != [] {
      RunKeepsWithin(actions[..|actions| - 1]);
      StepKeepsWithin(Run(START, actions[..|actions| - 1]), actions[|actions| - 1]);
    }
  }

  lemma {:induction false} RunKeepsUnmixed(actions: seq<Action>, session: Session)
    requires NeverReturns(History(Run(START, actions), session))
    ensures AllWithin(Run(START, actions)) && Unmixed(Run(START, actions), session)
  {
    RunKeepsWithin(actions);
    if actions != [] {
      var before := Run(START, actions[..|actions| - 1]);
      NeverReturnsEarlier(before, actions[|actions| - 1], session);
      RunKeepsUnmixed(actions[..|actions| - 1], session);
      StepKeepsUnmixed(before, actions[|actions| - 1], session);
    }
  }

  lemma {:induction false} RunKeepsOnePerSession(actions: seq<Action>)
    ensures OnePerSession(Run(START, actions).engines)
  {
    if actions != [] {
      var before := Run(START, actions[..|actions| - 1]);
      RunKeepsOnePerSession(actions[..|actions| - 1]);
      RunKeepsWithin(actions[..|actions| - 1]);
      match actions[|actions| - 1]
      case Advance(t) =>
        var call := CallOf(before, t);
        if !Resting(call) {
          AdvancedKeepsOthers(History(before, call.session), before.engines, call);
        }
      case _ =>
    }
  }

  // ----- The results -----

  /** In every interleaving a finished call answers for a dataset that was active at some instant of the
      call, and it retried at most once for every activation of its session during the call. */
  lemma AnswerWasActiveDuringCall(actions: seq<Action>, t: Thread)
    requires CallOf(Run(START, actions), t).Returned?
    ensures var s := Run(START, actions);
            var call := CallOf(s, t);
            && call.entered <= call.left < |History(s, call.session)|
            && (exists i :: call.entered <= i <= call.left && History(s, call.session)[i] == call.dataset)
            && call.retries <= call.left - call.entered
  {
    RunKeepsWithin(actions);
    var call := CallOf(Run(START, actions), t);
    assert WithinHistory(History(Run(START, actions), call.session), call);
  }

  /** While no replaced dataset of its session returns, both halves of an answer come from its dataset. */
  lemma AnswerIsUnmixed(actions: seq<Action>, t: Thread)
    requires var s := Run(START, actions); CallOf(s, t).Returned? && NeverReturns(History(s, CallOf(s, t).session))
    ensures var call := CallOf(Run(START, actions), t);
            call.engine == Pure(call.dataset)
  {
    RunKeepsUnmixed(actions, CallOf(Run(START, actions), t).session);
  }

  /** In every interleaving the map holds at most one engine per session; while no replaced dataset of the
      session returns, that engine is built wholly from the dataset in its key. */
  lemma OneUnmixedEnginePerSession(actions: seq<Action>, key: Key, other: Key)
    requires key in Run(START, actions).engines && other in Run(START, actions).engines
    ensures key.0 == other.0 ==> key == other
    ensures NeverReturns(History(Run(START, actions), key.0)) ==> Run(START, actions).engines[key] == Pure(key.1)
  {
    RunKeepsOnePerSession(actions);
    if NeverReturns(History(Run(START, actions), key.0)) {
      RunKeepsUnmixed(actions, key.0);
    }
  }

  // ----- What one call does -----

  /** The activation that was the latest when thread t last began a call. */
  function BeganAt(actions: seq<Action>, t: Thread): Option<nat> {
    if actions == [] then None
    else
      var init, last := actions[..|actions| - 1], actions[|actions| - 1];
      var before := Run(START, init);
      var call := CallOf(before, t);
      if last.Enter? && last.thread == t && (call.Idle? || call.Returned? || call.Failed?)
      then Some(if |History(before, last.session)| == 0 then 0 else |History(before, last.session)| - 1)
      else BeganAt(init, t)
  }

  lemma {:induction false} EnteredWhereItBegan(actions: seq<Action>, t: Thread)
    ensures var call := CallOf(Run(START, actions), t);
            !call.Idle? && !call.Failed? ==> BeganAt(actions, t) == Some(call.entered)
  {
    if actions != [] {
      hide WithinHistory;
      EnteredWhereItBegan(actions[..|actions| - 1], t);
    }
  }

  lemma LeavesWhereItReturns(s: System, action: Action, t: Thread)
    requires CallOf(Step(s, action), t).Returned? && CallOf(Step(s, action), t) != CallOf(s, t)
    ensures var call := CallOf(Step(s, action), t);
            call.left == |History(s, call.session)| - 1
  {
  }

  /** A build that was overtaken by another dataset is done again; one that was not goes on to be installed. */
  lemma OvertakenBuildRetries(s: System, t: Thread)
    requires AllWithin(s) && CallOf(s, t).Built?
    ensures var call, after := CallOf(s, t), Step(s, Advance(t)); var history := History(s, call.session);
            if history[|history| - 1] != history[call.seen]
            then CallOf(after, t) == Reading(call.session, call.entered, |history| - 1, call.retries + 1)
            else CallOf(after, t) == Rechecked(call.session, call.entered, call.seen, call.retries,
                                               Engine(history[call.tablesAt], history[call.eventsAt]))
    ensures Step(s, Advance(t)).engines == s.engines
  {
    assert WithinHistory(History(s, CallOf(s, t).session), CallOf(s, t));
  }

  /** A call that was beaten to the map answers with the engine it finds there; a call whose reading or building
      raised fails and leaves the map alone. */
  lemma FirstEngineAnswers(s: System, t: Thread)
    requires AllWithin(s)
    ensures CallOf(s, t).Rechecked? ==>
              var call, after := CallOf(s, t), Step(s, Advance(t)); var history := History(s, call.session);
              var key := (call.session, history[call.seen]);
              && CallOf(after, t).Returned? && CallOf(after, t).dataset == history[call.seen]
              && key in after.engines && CallOf(after, t).engine == after.engines[key]
              && (if key in s.engines then after.engines == s.engines else after.engines[key] == call.engine)
    ensures var after := Step(s, Abandon(t));
            after.engines == s.engines && (!Resting(CallOf(s, t)) ==> CallOf(after, t).Failed?)
  {
    assert CallOf(s, t).Rechecked? ==> WithinHistory(History(s, CallOf(s, t).session), CallOf(s, t));
  }

  function Alone(s: System, t: Thread, n: nat): System {
    if n == 0 then s else Step(Alone(s, t, n - 1), Advance(t))
  }

  /** The same system with t's call and the map as given. */
  function With(s: System, t: Thread, engines: Engines, call: Call): System {
    s.(engines := engines, calls := s.calls[t := call])
  }

  lemma OneMoreAlone(s: System, t: Thread, n: nat, engines: Engines, call: Call, kept: Engines, next: Call)
    requires Alone(s, t, n) == With(s, t, engines, call) && !Resting(call)
    requires call.session in s.active && WithinHistory(s.active[call.session], call)
    requires Advanced(s.active[call.session], engines, call) == (kept, next)
    ensures Alone(s, t, n + 1) == With(s, t, kept, next)
  {
    hide Advanced, WithinHistory;
  }

  lemma LeftAloneMissing(s: System, t: Thread, session: Session, entered: nat, last: nat, retries: nat)
    requires session in s.active && |s.active[session]| == last + 1 && entered + retries <= last
    requires Alone(s, t, 2) == With(s, t, s.engines, Missed(session, entered, last, retries))
    requires (session, s.active[session][last]) !in s.engines
    ensures var dataset := s.active[session][last]; var key, engine := (session, dataset), Engine(dataset, dataset);
            Alone(s, t, 6) == With(s, t, Installed(s.engines, key, engine),
                                   Returned(session, entered, last, retries, dataset, engine))
  {
    var dataset := s.active[session][last];
    var key, engine := (session, dataset), Engine(dataset, dataset);
    hide Alone, With, Installed;
    OneMoreAlone(s, t, 2, s.engines, Missed(session, entered, last, retries),
                 s.engines, TablesLoaded(session, entered, last, retries, last));
    OneMoreAlone(s, t, 3, s.engines, TablesLoaded(session, entered, last, retries, last),
                 s.engines, Built(session, entered, last, retries, last, last));
    OneMoreAlone(s, t, 4, s.engines, Built(session, entered, last, retries, last, last),
                 s.engines, Rechecked(session, entered, last, retries, engine));
    InstalledHas(s.engines, key, engine);
    OneMoreAlone(s, t, 5, s.engines, Rechecked(session, entered, last, retries, engine),
                 Installed(s.engines, key, engine), Returned(session, entered, last, retries, dataset, engine));
  }

  lemma InstalledHas(engines: Engines, key: Key, engine: Engine)
    ensures key in Installed(engines, key, engine) && Installed(engines, key, engine)[key] == engine
    ensures forall other: Key :: other in Installed(engines, key, engine) && other.0 == key.0 ==> other == key
  {
  }

  /** A call that is about to read the active dataset and is left alone answers for that dataset without another
      retry: with the cached engine, or with one built wholly from it, which is then the session's only one. */
  lemma CallLeftAloneAnswersActive(s: System, t: Thread)
    requires CallOf(s, t).Reading? && CallOf(s, t).session in s.active && s.active[CallOf(s, t).session] != []
    requires WithinHistory(s.active[CallOf(s, t).session], CallOf(s, t))
    ensures var call := CallOf(s, t); var history := s.active[call.session]; var dataset := history[|history| - 1];
            var key := (call.session, dataset);
            if key in s.engines
            then CallOf(Alone(s, t, 2), t) == Returned(call.session, call.entered, |history| - 1, call.retries, dataset, s.engines[key])
            else
              var after := Alone(s, t, 6);
              && CallOf(after, t) == Returned(call.session, call.entered, |history| - 1, call.retries, dataset, Engine(dataset, dataset))
              && key in after.engines && after.engines[key] == Engine(dataset, dataset)
              && forall other: Key :: other in after.engines && other.0 == call.session ==> other == key
  {
    var call := CallOf(s, t);
    var history := s.active[call.session];
    var last := |history| - 1;
    var key := (call.session, history[last]);
    var keyed := Keyed(call.session, call.entered, last, call.retries);
    assert Alone(s, t, 0) == With(s, t, s.engines, call);
    OneMoreAlone(s, t, 0, s.engines, call, s.engines, keyed);
    if key in s.engines {
      OneMoreAlone(s, t, 1, s.engines, keyed, s.engines,
                   Returned(call.session, call.entered, last, call.retries, history[last], s.engines[key]));
    } else {
      OneMoreAlone(s, t, 1, s.engines, keyed, s.engines, Missed(call.session, call.entered, last, call.retries));
      LeftAloneMissing(s, t, call.session, call.entered, last, call.retries);
      hide Alone, Advanced;
      InstalledHas(s.engines, key, Engine(history[last], history[last]));
    }
  }

  // ----- A dataset that returns -----

  /** Some engine of the session, cached or answered, mixes two datasets. */
  ghost predicate Mixed(s: System, session: Session) {
    || (exists dataset :: (session, dataset) in s.engines && s.engines[(session, dataset)] != Pure(dataset))
    || (exists t :: CallOf(s, t).Returned? && CallOf(s, t).session == session && CallOf(s, t).engine != Pure(CallOf(s, t).dataset))
  }

  /** A run made one action longer. */
  lemma After(actions: seq<Action>, action: Action) returns (longer: seq<Action>, s: System)
    ensures longer == actions + [action] && s == Run(START, longer)
    ensures s == Step(Run(START, actions), action)
  {
    longer := actions + [action];
    assert longer[..|actions|] == actions;
    s := Run(START, longer);
  }

  lemma {:induction false} ActivateTo(session: Session, trace: seq<Action>, history: seq<Dataset>, n: nat, m: nat)
    returns (longer: seq<Action>, s: System)
    requires n <= m <= |history|
    requires History(Run(START, trace), session) == history[..n] && Run(START, trace).active.Keys <= {session}
    ensures s == Run(START, longer) && History(s, session) == history[..m] && s.active.Keys <= {session}
    ensures s.engines == Run(START, trace).engines && s.calls == Run(START, trace).calls
    decreases m - n
  {
    if n == m {
      longer, s := trace, Run(START, trace);
    } else {
      longer, s := After(trace, Activate(session, history[n]));
      assert history[..n + 1] == history[..n] + [history[n]];
      longer, s := ActivateTo(session, longer, history, n + 1, m);
    }
  }

  /** The call of thread 0, advanced while nothing else happens. */
  lemma AdvanceOnly(session: Session, trace: seq<Action>, history: seq<Dataset>, call: Call)
    returns (longer: seq<Action>, s: System)
    requires !Resting(call) && call.session == session && WithinHistory(history, call)
    requires var s := Run(START, trace); History(s, session) == history && s.calls == map[0 := call] && s.active.Keys <= {session}
    ensures var (engines, next) := Advanced(history, Run(START, trace).engines, call);
            s == Run(START, longer) && s.engines == engines && s.calls == map[0 := next]
    ensures History(s, session) == history && s.active.Keys <= {session}
  {
    hide Run, Advanced, WithinHistory;
    longer, s := After(trace, Advance(0));
  }

  /** A call that found nothing cached while version i was the latest. */
  lemma MissAt(session: Session, history: seq<Dataset>, i: nat) returns (trace: seq<Action>, s: System)
    requires i < |history|
    ensures s == Run(START, trace) && History(s, session) == history[..i + 1] && s.active.Keys <= {session}
    ensures s.engines == map[] && s.calls == map[0 := Missed(session, i, i, 0)]
  {
    assert Run(START, []) == START && history[..0] == [];
    trace, s := ActivateTo(session, [], history, 0, i + 1);
    var known := history[..i + 1];
    trace, s := After(trace, Enter(0, session));
    assert s.calls == map[0 := Reading(session, i, i, 0)];
    trace, s := AdvanceOnly(session, trace, known, Reading(session, i, i, 0));
    trace, s := AdvanceOnly(session, trace, known, Keyed(session, i, i, 0));
  }

  /** The same call after it read its tables while version j was the latest. */
  lemma TablesAt(session: Session, history: seq<Dataset>, i: nat, j: nat) returns (trace: seq<Action>, s: System)
    requires i < j < |history|
    ensures s == Run(START, trace) && History(s, session) == history[..j + 1] && s.active.Keys <= {session}
    ensures s.engines == map[] && s.calls == map[0 := TablesLoaded(session, i, i, 0, j)]
  {
    hide Run;
    trace, s := MissAt(session, history, i);
    trace, s := ActivateTo(session, trace, history, i + 1, j + 1);
    trace, s := AdvanceOnly(session, trace, history[..j + 1], Missed(session, i, i, 0));
  }

  /** Reading the tables while version j is active and the events while version k activates version i's
      dataset again passes the re-check and caches an engine whose halves disagree. */
  lemma ReactivationMixesDatasets(session: Session, history: seq<Dataset>, i: nat, j: nat, k: nat)
    returns (trace: seq<Action>, s: System)
    requires i < j < k < |history| && ReturnsAt(history, i, j, k)
    ensures s == Run(START, trace) && History(s, session) == history
    ensures s.engines == map[(session, history[i]) := Engine(history[j], history[i])]
    ensures s.calls == map[0 := Returned(session, i, k, 0, history[i], Engine(history[j], history[i]))]
  {
    hide Run, WithinHistory;
    trace, s := TablesAt(session, history, i, j);
    trace, s := ActivateTo(session, trace, history, j + 1, k + 1);
    var known := history[..k + 1];
    assert known[i] == history[i] && known[j] == history[j] && known[k] == history[i];
    trace, s := FinishMixed(session, trace, known, i, j);
    trace, s := ActivateTo(session, trace, history, k + 1, |history|);
    assert history[..|history|] == history;
  }

  lemma FinishMixed(session: Session, trace: seq<Action>, known: seq<Dataset>, i: nat, j: nat)
    returns (longer: seq<Action>, s: System)
    requires i < j < |known| - 1 && known[|known| - 1] == known[i]
    requires var s := Run(START, trace);
             && History(s, session) == known && s.active.Keys <= {session} && s.engines == map[]
             && s.calls == map[0 := TablesLoaded(session, i, i, 0, j)]
    ensures s == Run(START, longer) && History(s, session) == known && s.active.Keys <= {session}
    ensures s.engines == map[(session, known[i]) := Engine(known[j], known[i])]
    ensures s.calls == map[0 := Returned(session, i, |known| - 1, 0, known[i], Engine(known[j], known[i]))]
  {
    hide Run;
    longer, s := AdvanceOnly(session, trace, known, TablesLoaded(session, i, i, 0, j));
    longer, s := AdvanceOnly(session, longer, known, Built(session, i, i, 0, j, |known| - 1));
    longer, s := AdvanceOnly(session, longer, known, Rechecked(session, i, i, 0, Engine(known[j], known[i])));
  }

  /** Some run over this history of activations mixes two datasets in one engine. */
  ghost predicate CanMix(session: Session, history: seq<Dataset>) {
    exists actions :: History(Run(START, actions), session) == history && Mixed(Run(START, actions), session)
  }

  /** Engines of a session can mix datasets exactly when a replaced dataset is activated again. */
  lemma MixesExactlyWhenADatasetReturns(session: Session, history: seq<Dataset>)
    ensures CanMix(session, history) <==> !NeverReturns(history)
  {
    if NeverReturns(history) {
      forall actions | History(Run(START, actions), session) == history
        ensures !Mixed(Run(START, actions), session)
      {
        RunKeepsUnmixed(actions, session);
      }
    } else {
      var i: nat, j: nat, k: nat :| i < j < k < |history| && ReturnsAt(history, i, j, k);
      var trace, s := ReactivationMixesDatasets(session, history, i, j, k);
      assert (session, history[i]) in s.engines && s.engines[(session, history[i])] != Pure(history[i]);
    }
  }
}
