/** The telemetry service's bounded product cache: two critical sections around an unlocked build. */
module ProductCache {
  import opened Support
  import opened Grouping
  import opened OrderedDicts
  import opened ObjectHeap

  type Thread = nat

  const CACHE_LIMIT: nat := 16

  /** A response model: an object its holder may change, with everything inside it as one value. */
  class Product {
    var body: Tree

    constructor (body: Tree)
      ensures this.body == body
    {
      this.body := body;
    }
  }

  class TelemetryCache {
    var cache: Dict<Product>

    ghost predicate Valid()
      reads this
    {
      cache.Valid() && |cache.order| <= CACHE_LIMIT
    }

    constructor ()
      ensures Valid() && cache == Dict([], map[])
    {
      cache := Dict([], map[]);
    }

    /** First critical section. A hit hands out a fresh copy, never the cached object. */
    method Lookup(key: Key) returns (copy: Product?)
      requires Valid()
      modifies this
      ensures Valid()
      ensures key !in old(cache.store) ==> copy == null && cache == old(cache)
      ensures key in old(cache.store) ==>
                copy != null && fresh(copy) && copy.body == old(cache.store[key].body) && cache == old(cache).MoveToEnd(key)
      ensures cache.store == old(cache.store)
      ensures key in old(cache.store) ==> cache.order != [] && cache.order[|cache.order| - 1] == key
    {
      copy := null;
      if key in cache.store {
        MoveKeepsValid(cache, key);
        cache := cache.MoveToEnd(key);
        copy := new Product(cache.store[key].body);
      }
    }

    /** Second critical section. What is stored is a fresh copy, so the caller keeps the only
        reference to its own result. */
    method Install(key: Key, result: Product) returns (ghost stored: Product)
      requires Valid()
      modifies this
      ensures Valid()
      ensures fresh(stored) && stored.body == result.body
      ensures cache == Stored(CACHE_LIMIT, old(cache), key, stored)
    {
      var copy := new Product(result.body);
      stored := copy;
      PutKeepsValid(cache, key, copy);
      cache := cache.Put(key, copy);
      MoveKeepsValid(cache, key);
      cache := cache.MoveToEnd(key);
      ghost var touched := cache;
      hide NoRepeat, Without;
      while |cache.order| > CACHE_LIMIT
        invariant cache.Valid()
        invariant copy.body == result.body
        invariant Trimmed(cache, CACHE_LIMIT) == Trimmed(touched, CACHE_LIMIT)
        decreases |cache.order|
      {
        PopKeepsValid(cache);
        cache := cache.PopFirst();
      }
    }
  }

  // ----- Calls interleaved, with every object and what is inside it on an explicit heap -----

  datatype Call =
    | Idle
    | Asked(key: Key)
    | Building(key: Key)
    | Built(key: Key, item: Object)
    | Returned(key: Key, answer: Tree)
    | Failed

  /** `held` are the cells callers can reach, `log` every touch of the cache. */
  datatype System = System(
    cache: Dict<Object>, heap: Heap, held: set<Ref>, log: seq<Key>, calls: map<Thread, Call>)

  datatype Action =
    | Ask(thread: Thread, key: Key)
    | Advance(thread: Thread)
    | BuildFails(thread: Thread)
    | Mutate(ref: Ref, cell: Cell)

  const START := System(Dict([], map[]), [], {}, [], map[])

  function CallOf(s: System, t: Thread): Call {
    if t in s.calls then s.calls[t] else Idle
  }

  /** The cells of an object, root and parts. */
  function Cells(item: Object): set<Ref> {
    set r: Ref | r <= item.root && Within(item, r)
  }

  /** A hit: the caller gets a copy of the whole object. */
  function Lookup(s: System, t: Thread, key: Key): System {
    if key !in s.cache.store || s.cache.store[key].root >= |s.heap| then s.(calls := s.calls[t := Building(key)])
    else
      var body := Read(s.heap, s.cache.store[key].root);
      System(s.cache.MoveToEnd(key), DeepCopy(s.heap, s.cache.store[key]), s.held + Cells(Made(s.heap, body)), s.log + [key],
             s.calls[t := Returned(key, body)])
  }

  /** A copy of the whole result is stored; the caller keeps the result itself. */
  function Install(s: System, t: Thread, key: Key, item: Object): System
    requires item.root < |s.heap|
  {
    var body := Read(s.heap, item.root);
    System(Stored(CACHE_LIMIT, s.cache, key, Made(s.heap, body)),
           DeepCopy(s.heap, item), s.held + Cells(item), s.log + [key], s.calls[t := Returned(key, body)])
  }

  function Step(build: Key -> Tree, s: System, action: Action): System {
    match action
    case Ask(t, key) =>
      if CallOf(s, t).Idle? || CallOf(s, t).Returned? || CallOf(s, t).Failed?
      then s.(calls := s.calls[t := Asked(key)]) else s
    case Advance(t) =>
      (match CallOf(s, t)
       case Asked(key) => Lookup(s, t, key)
       case Building(key) =>
         s.(heap := Alloc(s.heap, build(key)), calls := s.calls[t := Built(key, Made(s.heap, build(key)))])
       case Built(key, item) => if item.root < |s.heap| then Install(s, t, key, item) else s
       case _ => s)
    case BuildFails(t) => if CallOf(s, t).Building? then s.(calls := s.calls[t := Failed]) else s
    case Mutate(ref, cell) =>
      // a caller writes cells it can reach, with parts it can reach
      if ref in s.held && ref < |s.heap| && (forall i :: 0 <= i < |cell.parts| ==> cell.parts[i] in s.held)
      then s.(heap := s.heap[ref := cell]) else s
  }

  function Run(build: Key -> Tree, actions: seq<Action>): System {
    if actions == [] then START else Step(build, Run(build, actions[..|actions| - 1]), actions[|actions| - 1])
  }

  /** A whole object, no cell of which callers can reach, that says what the build of its key does. */
  ghost predicate Private(build: Key -> Tree, s: System, key: Key, item: Object) {
    && Whole(s.heap, item) && Read(s.heap, item.root) == build(key)
    && forall r :: r in s.held ==> !Within(item, r)
  }

  ghost predicate CallSound(build: Key -> Tree, s: System, t: Thread)
    requires t in s.calls
  {
    match s.calls[t]
    case Built(key, item) =>
      && Private(build, s, key, item)
      && (forall u :: u in s.calls && u != t && s.calls[u].Built? ==> Disjoint(s.calls[u].item, item))
      && (forall other :: other in s.cache.store ==> Disjoint(s.cache.store[other], item))
    case Returned(key, answer) => answer == build(key)
    case _ => true
  }

  ghost predicate Invariant(build: Key -> Tree, s: System) {
    && s.cache.Valid()
    && MostRecent(s.cache.order, s.log, CACHE_LIMIT)
    && (forall r :: r in s.held ==> r < |s.heap|)
    && (forall key :: key in s.cache.store ==> Private(build, s, key, s.cache.store[key]))
    && (forall t :: t in s.calls ==> CallSound(build, s, t))
  }

  /** Private objects stay so while their own cells are neither written nor given away. */
  lemma PrivateKept(build: Key -> Tree, s: System, after: System, key: Key, item: Object)
    requires Private(build, s, key, item) && |s.heap| <= |after.heap|
    requires forall r: Ref :: Within(item, r) && r < |s.heap| ==> after.heap[r] == s.heap[r] && r !in after.held
    ensures Private(build, after, key, item)
  {
    WholeFrame(s.heap, after.heap, item);
  }

  /** A cell that a call is handing to its caller. */
  predicate GivenBy(s: System, t: Thread, r: Ref) {
    CallOf(s, t).Built? && Within(CallOf(s, t).item, r)
  }

  /** A step writes only cells that callers reach, gives away at most what `t` built, and makes new objects from
      new cells. */
  ghost predicate Careful(s: System, after: System, t: Thread) {
    && |s.heap| <= |after.heap|
    && (forall r :: 0 <= r < |s.heap| && r !in s.held ==> after.heap[r] == s.heap[r])
    && (forall r :: r in after.held && r < |s.heap| ==> r in s.held || GivenBy(s, t, r))
    && (forall u :: u in after.calls && u != t ==> u in s.calls && after.calls[u] == s.calls[u])
    && (CallOf(after, t).Built? ==> CallOf(after, t).item.first >= |s.heap|)
    && (forall key :: key in after.cache.store ==>
          after.cache.store[key].first >= |s.heap| ||
          (key in s.cache.store && after.cache.store[key] == s.cache.store[key]))
  }

  lemma CachedKept(build: Key -> Tree, s: System, after: System, t: Thread, key: Key)
    requires Invariant(build, s) && Careful(s, after, t) && key in s.cache.store
    ensures Private(build, after, key, s.cache.store[key])
  {
    var item := s.cache.store[key];
    assert Private(build, s, key, item);
    if CallOf(s, t).Built? {
      assert CallSound(build, s, t);
    }
    PrivateKept(build, s, after, key, item);
  }

  lemma BuiltKept(build: Key -> Tree, s: System, after: System, t: Thread, u: Thread)
    requires Invariant(build, s) && Careful(s, after, t) && u in after.calls && u != t && after.calls[u].Built?
    ensures CallSound(build, after, u)
  {
    hide MostRecent, NoRepeat, Read, Whole;
    var item := s.calls[u].item;
    assert CallSound(build, s, u);
    if CallOf(s, t).Built? {
      assert CallSound(build, s, t);
    }
    PrivateKept(build, s, after, s.calls[u].key, item);
    WholeBounds(s.heap, item);
  }

  lemma WholeBounds(heap: Heap, item: Object)
    requires Whole(heap, item)
    ensures item.first <= item.root < |heap|
  {
  }

  /** What a careful step keeps, when its own thread and the objects it made are sound. */
  lemma CarefulKeeps(build: Key -> Tree, s: System, after: System, t: Thread)
    requires Invariant(build, s) && Careful(s, after, t)
    requires after.cache.Valid() && MostRecent(after.cache.order, after.log, CACHE_LIMIT)
    requires forall r :: r in after.held ==> r < |after.heap|
    requires forall key :: key in after.cache.store && after.cache.store[key].first >= |s.heap| ==>
               Private(build, after, key, after.cache.store[key])
    requires t in after.calls ==> CallSound(build, after, t)
    ensures Invariant(build, after)
  {
    hide MostRecent, NoRepeat, Private;
    forall key | key in after.cache.store
      ensures Private(build, after, key, after.cache.store[key])
    {
      if after.cache.store[key].first < |s.heap| {
        CachedKept(build, s, after, t, key);
      }
    }
    forall u | u in after.calls
      ensures CallSound(build, after, u)
    {
      if u != t && after.calls[u].Built? {
        BuiltKept(build, s, after, t, u);
      } else if u != t {
        assert CallSound(build, s, u);
      }
    }
  }

  lemma LookupKeeps(build: Key -> Tree, s: System, t: Thread, key: Key)
    requires Invariant(build, s) && CallOf(s, t) == Asked(key)
    ensures Invariant(build, Lookup(s, t, key))
  {
    hide MostRecent, Without, NoRepeat, Read, Alloc, Whole;
    var after := Lookup(s, t, key);
    if key in s.cache.store {
      var item := s.cache.store[key];
      assert Private(build, s, key, item);
      MoveKeepsValid(s.cache, key);
      TouchPresent(s.cache.order, s.log, CACHE_LIMIT, key);
      WholeBounds(s.heap, item);
      AllocMakes(s.heap, Read(s.heap, item.root));
    }
    AllRootsOld(build, s);
    CarefulKeeps(build, s, after, t);
  }

  lemma AllRootsOld(build: Key -> Tree, s: System)
    requires Invariant(build, s)
    ensures forall key :: key in s.cache.store ==> s.cache.store[key].first <= s.cache.store[key].root < |s.heap|
  {
    forall key | key in s.cache.store
      ensures s.cache.store[key].first <= s.cache.store[key].root < |s.heap|
    {
      assert Private(build, s, key, s.cache.store[key]);
    }
  }

  lemma BuildKeeps(build: Key -> Tree, s: System, t: Thread)
    requires Invariant(build, s) && CallOf(s, t).Building?
    ensures Invariant(build, Step(build, s, Advance(t)))
  {
    hide MostRecent, NoRepeat, Read, Alloc, Whole;
    var key, after := s.calls[t].key, Step(build, s, Advance(t));
    AllocMakes(s.heap, build(key));
    AllRootsOld(build, s);
    forall u | u in s.calls && u != t && s.calls[u].Built?
      ensures Disjoint(s.calls[u].item, Made(s.heap, build(key)))
    {
      assert CallSound(build, s, u);
      WholeBounds(s.heap, s.calls[u].item);
    }
    CarefulKeeps(build, s, after, t);
  }

  lemma InstallKeeps(build: Key -> Tree, s: System, t: Thread, key: Key, item: Object)
    requires Invariant(build, s) && CallOf(s, t) == Built(key, item) && item.root < |s.heap|
    ensures Invariant(build, Install(s, t, key, item))
  {
    hide MostRecent, Without, NoRepeat, Read, Alloc, Whole, Stored;
    assert CallSound(build, s, t);
    var body := Read(s.heap, item.root);
    AllocMakes(s.heap, body);
    TouchedOnce(CACHE_LIMIT, s.cache, s.log, key, Made(s.heap, body));
    var after := Install(s, t, key, item);
    assert Touched(CACHE_LIMIT, s.cache, after.cache, s.log, key, Made(s.heap, body));
    AllRootsOld(build, s);
    CarefulKeeps(build, s, after, t);
  }

  /** Writing what callers reach touches no private object. */
  lemma MutateKeeps(build: Key -> Tree, s: System, ref: Ref, cell: Cell, t: Thread)
    requires Invariant(build, s) && ref in s.held && t !in s.calls
    ensures Invariant(build, s.(heap := s.heap[ref := cell]))
  {
    hide MostRecent, NoRepeat, Read, Whole;
    AllRootsOld(build, s);
    CarefulKeeps(build, s, s.(heap := s.heap[ref := cell]), t);
  }

  lemma UnusedThread(calls: map<Thread, Call>) returns (t: Thread)
    ensures t !in calls
  {
    t := Above(calls.Keys);
  }

  lemma {:induction false} Above(used: set<Thread>) returns (t: Thread)
    ensures forall u :: u in used ==> u < t
    decreases used
  {
    if used == {} {
      t := 0;
    } else {
      var u :| u in used;
      t := Above(used - {u});
      assert forall w :: w in used ==> w == u || w in used - {u};
      t := if t > u then t else u + 1;
    }
  }

  /** A step that changes one resting call only. */
  lemma QuietKeeps(build: Key -> Tree, s: System, t: Thread, call: Call)
    requires Invariant(build, s) && !call.Built? && !call.Returned?
    ensures Invariant(build, s.(calls := s.calls[t := call]))
  {
    hide MostRecent, NoRepeat, Read, Whole;
    AllRootsOld(build, s);
    CarefulKeeps(build, s, s.(calls := s.calls[t := call]), t);
  }

  lemma StepKeeps(build: Key -> Tree, s: System, action: Action)
    requires Invariant(build, s)
    ensures Invariant(build, Step(build, s, action))
  {
    hide Invariant, Lookup, Install, Alloc, Read;
    match action
    case Ask(t, key) => QuietKeeps(build, s, t, Asked(key));
    case Advance(t) =>
      match CallOf(s, t) {
        case Asked(key) => LookupKeeps(build, s, t, key);
        case Building(key) => BuildKeeps(build, s, t);
        case Built(key, item) =>
          if item.root < |s.heap| {
            InstallKeeps(build, s, t, key, item);
          }
        case _ =>
      }
    case BuildFails(t) => QuietKeeps(build, s, t, Failed);
    case Mutate(ref, cell) =>
      if ref in s.held {
        var t := UnusedThread(s.calls);
        MutateKeeps(build, s, ref, cell, t);
      }
  }

  lemma {:induction false} RunKeeps(build: Key -> Tree, actions: seq<Action>)
    ensures Invariant(build, Run(build, actions))
  {
    if actions == [] {
      forall key ensures LastTouch([], key) == 0 {}
    } else {
      RunKeeps(build, actions[..|actions| - 1]);
      StepKeeps(build, Run(build, actions[..|actions| - 1]), actions[|actions| - 1]);
    }
  }

  // ----- What one call does -----

  /** The key thread t last asked for. */
  function KeyAsked(build: Key -> Tree, actions: seq<Action>, t: Thread): Option<Key> {
    if actions == [] then None
    else
      var init, last := actions[..|actions| - 1], actions[|actions| - 1];
      var call := CallOf(Run(build, init), t);
      if last.Ask? && last.thread == t && (call.Idle? || call.Returned? || call.Failed?) then Some(last.key)
      else KeyAsked(build, init, t)
  }

  /** A call is for the key it asked, through to its answer. */
  lemma {:induction false} AnswersTheKeyAsked(build: Key -> Tree, actions: seq<Action>, t: Thread)
    ensures var call := CallOf(Run(build, actions), t);
            !call.Idle? && !call.Failed? ==> KeyAsked(build, actions, t) == Some(call.key)
  {
    if actions != [] {
      hide Stored, Alloc, Read, DeepCopy;
      AnswersTheKeyAsked(build, actions[..|actions| - 1], t);
    }
  }

  /** The keys answered, in the order the answers left. */
  function Answers(build: Key -> Tree, actions: seq<Action>): seq<Key> {
    if actions == [] then []
    else
      var init, last := actions[..|actions| - 1], actions[|actions| - 1];
      Answers(build, init) +
      if last.Advance? && !CallOf(Run(build, init), last.thread).Returned? && CallOf(Run(build, actions), last.thread).Returned?
      then [CallOf(Run(build, actions), last.thread).key] else []
  }

  lemma TouchedWhenAnswered(build: Key -> Tree, s: System, action: Action)
    ensures var after := Step(build, s, action);
            after.log == s.log +
              if action.Advance? && !CallOf(s, action.thread).Returned? && CallOf(after, action.thread).Returned?
              then [CallOf(after, action.thread).key] else []
  {
    hide Stored, Alloc, Read, DeepCopy, Cells, Made;
    assert s.log + [] == s.log;
  }

  /** The log of touches is the keys answered: a hit or an install touches its key, nothing else does. */
  lemma {:induction false} EveryAnswerIsATouch(build: Key -> Tree, actions: seq<Action>)
    ensures Run(build, actions).log == Answers(build, actions)
  {
    if actions != [] {
      hide Step;
      EveryAnswerIsATouch(build, actions[..|actions| - 1]);
      TouchedWhenAnswered(build, Run(build, actions[..|actions| - 1]), actions[|actions| - 1]);
    }
  }

  function Alone(build: Key -> Tree, s: System, t: Thread, n: nat): System {
    if n == 0 then s else Step(build, Alone(build, s, t, n - 1), Advance(t))
  }

  /** Callers hold every cell of the object an answer gave them, and may write whatever they hold. */
  lemma CallersHoldTheirAnswers(build: Key -> Tree, s: System, t: Thread, r: Ref, cell: Cell)
    requires Invariant(build, s)
    ensures CallOf(s, t).Asked? && CallOf(s, t).key in s.cache.store ==>
              var after := Step(build, s, Advance(t));
              (|s.heap| <= r < |after.heap| ==> r in after.held) && |after.heap| > |s.heap|
    ensures CallOf(s, t).Built? && Within(CallOf(s, t).item, r) ==> r in Step(build, s, Advance(t)).held
    ensures r in s.held && (forall i :: 0 <= i < |cell.parts| ==> cell.parts[i] in s.held) ==>
              var after := Step(build, s, Mutate(r, cell));
              r < |after.heap| && after.heap[r] == cell
    ensures s.held <= Step(build, s, Advance(t)).held
  {
    hide MostRecent, NoRepeat, Without, Stored, Alloc, Read, Whole;
    if CallOf(s, t).Asked? && CallOf(s, t).key in s.cache.store {
      var item := s.cache.store[CallOf(s, t).key];
      assert Private(build, s, CallOf(s, t).key, item);
      WholeBounds(s.heap, item);
      AllocMakes(s.heap, Read(s.heap, item.root));
    }
    if CallOf(s, t).Built? {
      assert CallSound(build, s, t);
      WholeBounds(s.heap, CallOf(s, t).item);
    }
  }

  /** A build that raises fails its call and leaves the cache alone. */
  lemma FailedBuildStoresNothing(build: Key -> Tree, s: System, t: Thread)
    requires CallOf(s, t).Building?
    ensures Step(build, s, BuildFails(t)) == s.(calls := s.calls[t := Failed])
  {
  }

  /** A call left alone is answered: from the cache in one step, otherwise by building and storing. */
  lemma CallLeftAloneAnswers(build: Key -> Tree, s: System, t: Thread)
    requires Invariant(build, s) && CallOf(s, t).Asked?
    ensures var key := CallOf(s, t).key;
            CallOf(Alone(build, s, t, if key in s.cache.store then 1 else 3), t) == Returned(key, build(key))
  {
    var key := CallOf(s, t).key;
    if key in s.cache.store {
      HitAnswers(build, s, t, key);
      assert Alone(build, s, t, 0) == s && Alone(build, s, t, 1) == Lookup(s, t, key);
    } else {
      MissBuilds(build, s, t, key);
    }
  }

  lemma HitAnswers(build: Key -> Tree, s: System, t: Thread, key: Key)
    requires Invariant(build, s) && CallOf(s, t) == Asked(key) && key in s.cache.store
    ensures CallOf(Lookup(s, t, key), t) == Returned(key, build(key))
  {
    hide MostRecent, NoRepeat, Without, Alloc, Read, Whole;
    var item := s.cache.store[key];
    assert Private(build, s, key, item);
    WholeBounds(s.heap, item);
  }

  lemma MissBuilds(build: Key -> Tree, s: System, t: Thread, key: Key)
    requires CallOf(s, t) == Asked(key) && key !in s.cache.store
    ensures CallOf(Alone(build, s, t, 3), t) == Returned(key, build(key))
  {
    hide Stored, Alloc, Read, Whole, Cells;
    assert Alone(build, s, t, 0) == s;
    var missed := Alone(build, s, t, 1);
    assert missed == s.(calls := s.calls[t := Building(key)]);
    AllocMakes(s.heap, build(key));
    var built := Alone(build, s, t, 2);
    assert built == Step(build, missed, Advance(t));
    assert CallOf(built, t) == Built(key, Made(s.heap, build(key)));
    assert Alone(build, s, t, 3) == Step(build, built, Advance(t));
  }

  // ----- The results -----

  /** After any interleaving the cache is exactly the sixteen (or fewer) most recently touched keys, oldest
      touch first, each holding the build of its key. */
  lemma CacheIsMostRecentBuilds(build: Key -> Tree, actions: seq<Action>)
    ensures var s := Run(build, actions);
            && MostRecent(s.cache.order, s.log, 16)
            && (forall key :: key in s.cache.store <==> key in s.cache.order)
            && (forall key :: key in s.cache.store ==>
                  s.cache.store[key].root < |s.heap| && Read(s.heap, s.cache.store[key].root) == build(key))
  {
    RunKeeps(build, actions);
    var s := Run(build, actions);
    forall key | key in s.cache.store
      ensures s.cache.store[key].root < |s.heap| && Read(s.heap, s.cache.store[key].root) == build(key)
    {
      assert Private(build, s, key, s.cache.store[key]);
    }
  }

  /** Callers may scribble over every object they were ever given, and over what is inside it: no call ever answers anything but the
      build of its key. */
  lemma MutationNeverChangesAnAnswer(build: Key -> Tree, actions: seq<Action>, t: Thread)
    requires CallOf(Run(build, actions), t).Returned?
    ensures var call := CallOf(Run(build, actions), t);
            call.answer == build(call.key)
  {
    RunKeeps(build, actions);
    assert CallSound(build, Run(build, actions), t);
  }
}
