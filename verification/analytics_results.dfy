/** `AnalyticsEngine._cached`: a product's key is fixed from one snapshot before its builder reads the
    snapshot again, while the catalog is replaced and other threads refresh. */
module AnalyticsResults {
  import opened Support
  import opened Grouping
  import opened OrderedDicts
  import Snap = SnapshotProtocol

  type Thread = nat

  /** What a builder made: for which request, keyed under which revision, and from the revisions its snapshot
      reads gave, in order. */
  datatype Product = Product(request: Id, revision: Id, seen: seq<Id>)

  /** `seen` lists the revisions a builder's snapshot reads gave, in order: its product is a function of
      the request and these. */
  datatype Call =
    | Idle
    | Keying(entered: nat, request: Id)
    | Building(entered: nat, request: Id, revision: Id, seen: seq<Id>)
    | Reading(entered: nat, request: Id, revision: Id, seen: seq<Id>)
    | Answered(entered: nat, left: nat, request: Id, revision: Id, product: Product)
    | Failed

  /** `log` holds every touch of the cache since it was last cleared. */
  datatype System = System(snap: Snap.System, cache: Dict<Product>, log: seq<Key>, calls: map<Thread, Call>)

  datatype Action =
    | Publish(catalog: Snap.Catalog)
    | Refresh(thread: Thread, force: bool)
    | Ask(thread: Thread, request: Id)
    | Read(thread: Thread)
    | Raise(thread: Thread)
    | Finish(thread: Thread)
    | Advance(thread: Thread, now: int)

  const EMPTY: Dict<Product> := Dict([], map[])

  function Start(first: Snap.Catalog): System {
    System(Snap.Start(first), EMPTY, [], map[])
  }

  function CallOf(s: System, t: Thread): Call {
    if t in s.calls then s.calls[t] else Idle
  }

  predicate InFlight(call: Snap.Call) {
    call.Stamped? || call.Missed? || call.Loaded?
  }

  predicate Free(s: System, t: Thread) {
    !CallOf(s, t).Keying? && !CallOf(s, t).Building? && !CallOf(s, t).Reading? && !InFlight(Snap.CallOf(s.snap, t))
  }

  /** deterministic_key, taken to be injective. */
  function KeyOf(request: Id, revision: Id): Key {
    Key([request.text, revision.text])
  }

  /** The snapshot call of t is about to replace the stored snapshot, which clears the cache. */
  predicate Replaces(snap: Snap.System, t: Thread) {
    var call := Snap.CallOf(snap, t);
    call.Loaded? && !Snap.Reusable(snap.memo, call.force, call.revision)
  }

  function Snapping(s: System, t: Thread, now: int): System
    requires |s.snap.disk| > 0
  {
    var snap := Snap.Step(s.snap, Snap.Advance(t, now));
    if Replaces(s.snap, t) then System(snap, EMPTY, [], s.calls) else s.(snap := snap)
  }

  function Looked(s: System, t: Thread, entered: nat, request: Id, revision: Id): System
    requires |s.snap.disk| > 0
  {
    var key := KeyOf(request, revision);
    if key in s.cache.store then
      System(s.snap, s.cache.MoveToEnd(key), s.log + [key],
             s.calls[t := Answered(entered, |s.snap.disk| - 1, request, revision, s.cache.store[key])])
    else s.(calls := s.calls[t := Building(entered, request, revision, [])])
  }

  function Installed(s: System, t: Thread, entered: nat, request: Id, revision: Id, seen: seq<Id>): System
    requires |s.snap.disk| > 0
  {
    var key := KeyOf(request, revision);
    var product := Product(request, revision, seen);
    System(s.snap, Stored(Snap.CACHE_LIMIT, s.cache, key, product), s.log + [key],
           s.calls[t := Answered(entered, |s.snap.disk| - 1, request, revision, product)])
  }

  function Step(s: System, action: Action): System
    requires |s.snap.disk| > 0
    ensures s.snap.disk <= Step(s, action).snap.disk
  {
    match action
    case Publish(catalog) => s.(snap := Snap.Step(s.snap, Snap.Publish(catalog)))
    case Refresh(t, force) => if Free(s, t) then s.(snap := Snap.Step(s.snap, Snap.Enter(t, force))) else s
    case Ask(t, request) =>
      if Free(s, t)
      then s.(snap := Snap.Step(s.snap, Snap.Enter(t, false)), calls := s.calls[t := Keying(|s.snap.disk| - 1, request)])
      else s
    case Read(t) =>
      (match CallOf(s, t)
       case Building(entered, request, revision, seen) =>
         s.(snap := Snap.Step(s.snap, Snap.Enter(t, false)), calls := s.calls[t := Reading(entered, request, revision, seen)])
       case _ => s)
    case Raise(t) => if CallOf(s, t).Building? then s.(calls := s.calls[t := Failed]) else s
    case Finish(t) =>
      (match CallOf(s, t)
       case Building(entered, request, revision, seen) => Installed(s, t, entered, request, revision, seen)
       case _ => s)
    case Advance(t, now) =>
      var snapshot := Snap.CallOf(s.snap, t);
      if InFlight(snapshot) then Snapping(s, t, now)
      else
        match CallOf(s, t)
        case Keying(entered, request) =>
          if snapshot.Returned? then Looked(s, t, entered, request, snapshot.answer.revision)
          else s.(calls := s.calls[t := Failed])
        case Reading(entered, request, revision, seen) =>
          if snapshot.Returned?
          then s.(calls := s.calls[t := Building(entered, request, revision, seen + [snapshot.answer.revision])])
          else s.(calls := s.calls[t := Failed])
        case _ => s
  }

  function Run(first: Snap.Catalog, actions: seq<Action>): (s: System)
    ensures |s.snap.disk| > 0
  {
    if actions == [] then Start(first) else Step(Run(first, actions[..|actions| - 1]), actions[|actions| - 1])
  }

  // ----- What every step keeps -----

  /** What a snapshot call may give at version v: the revision on disk or, no file being there, one that was
      loaded since an earlier absence and so kept without a stamp. */
  predicate Offered(disk: seq<Snap.Catalog>, v: nat, revision: Id)
    requires v < |disk|
  {
    Snap.RevisionOf(disk[v]) == Some(revision) || (disk[v].Missing? && Snap.LoadedAfterMissing(disk, v, revision))
  }

  predicate OfferedWithin(disk: seq<Snap.Catalog>, from: nat, to: nat, revision: Id) {
    exists v :: from <= v <= to && v < |disk| && Offered(disk, v, revision)
  }

  /** By version `to`, `later` had been offered at or after a version that offered `earlier`. */
  predicate Follows(disk: seq<Snap.Catalog>, to: nat, earlier: Id, later: Id) {
    exists i, j :: 0 <= i <= j <= to && j < |disk| && Offered(disk, i, earlier) && Offered(disk, j, later)
  }

  predicate SeenFollow(disk: seq<Snap.Catalog>, to: nat, revision: Id, seen: seq<Id>) {
    forall k :: 0 <= k < |seen| ==> Follows(disk, to, revision, seen[k])
  }

  /** How far the snapshot call inside an outer call has come. */
  predicate SnapFrom(call: Snap.Call, from: nat) {
    (InFlight(call) || call.Returned? ==> call.entered == from) && (InFlight(call) || call.Returned? || call.Failed?)
  }

  predicate CallSound(disk: seq<Snap.Catalog>, snapshot: Snap.Call, call: Call)
    requires |disk| > 0
  {
    match call
    case Keying(entered, _) => SnapFrom(snapshot, entered)
    case Building(entered, _, revision, seen) =>
      !InFlight(snapshot) && OfferedWithin(disk, entered, |disk| - 1, revision) && SeenFollow(disk, |disk| - 1, revision, seen)
    case Reading(entered, _, revision, seen) =>
      && (InFlight(snapshot) || snapshot.Returned? || snapshot.Failed?)
      && (InFlight(snapshot) || snapshot.Returned? ==>
            snapshot.entered < |disk| && OfferedWithin(disk, entered, snapshot.entered, revision))
      && SeenFollow(disk, |disk| - 1, revision, seen)
    case Answered(entered, left, _, revision, product) =>
      && entered <= left < |disk| && OfferedWithin(disk, entered, left, revision)
      && SeenFollow(disk, left, revision, product.seen)
    case _ => true
  }

  predicate EntrySound(disk: seq<Snap.Catalog>, key: Key, product: Product)
    requires |disk| > 0
  {
    |key.parts| == 2 && SeenFollow(disk, |disk| - 1, Id(key.parts[1]), product.seen)
  }

  ghost predicate Recency(s: System) {
    s.cache.Valid() && MostRecent(s.cache.order, s.log, Snap.CACHE_LIMIT)
  }

  ghost predicate Invariant(s: System) {
    && |s.snap.disk| > 0
    && Snap.Invariant(s.snap)
    && (forall t :: t in s.calls ==> CallSound(s.snap.disk, Snap.CallOf(s.snap, t), s.calls[t]))
    && (forall key :: key in s.cache.store ==> EntrySound(s.snap.disk, key, s.cache.store[key]))
  }

  lemma OfferedLater(disk: seq<Snap.Catalog>, longer: seq<Snap.Catalog>, v: nat, revision: Id)
    requires disk <= longer && v < |disk| && Offered(disk, v, revision)
    ensures Offered(longer, v, revision)
  {
    assert longer[v] == disk[v];
    if Snap.RevisionOf(disk[v]) != Some(revision) {
      var m, w :| 0 <= m <= w <= v && w < |disk| && disk[m].Missing? && Snap.RevisionOf(disk[w]) == Some(revision);
      assert longer[m].Missing? && Snap.RevisionOf(longer[w]) == Some(revision);
    }
  }

  lemma FollowsGrows(disk: seq<Snap.Catalog>, longer: seq<Snap.Catalog>, to: nat, later: nat,
                     revision: Id, seen: seq<Id>)
    requires disk <= longer && to <= later && SeenFollow(disk, to, revision, seen)
    ensures SeenFollow(longer, later, revision, seen)
  {
    hide Offered;
    forall k | 0 <= k < |seen|
      ensures Follows(longer, later, revision, seen[k])
    {
      var i, j :| 0 <= i <= j <= to && j < |disk| && Offered(disk, i, revision) && Offered(disk, j, seen[k]);
      OfferedLater(disk, longer, i, revision);
      OfferedLater(disk, longer, j, seen[k]);
    }
  }

  lemma OfferedGrows(disk: seq<Snap.Catalog>, longer: seq<Snap.Catalog>, from: nat, to: nat, later: nat, revision: Id)
    requires disk <= longer && to <= later && OfferedWithin(disk, from, to, revision)
    ensures OfferedWithin(longer, from, later, revision)
  {
    hide Offered;
    var v :| from <= v <= to && v < |disk| && Offered(disk, v, revision);
    OfferedLater(disk, longer, v, revision);
  }

  /** Only a call that is under way depends on its thread's snapshot call. */
  predicate UnderWay(call: Call) {
    call.Keying? || call.Building? || call.Reading?
  }

  lemma CallSoundGrows(disk: seq<Snap.Catalog>, longer: seq<Snap.Catalog>, before: Snap.Call, after: Snap.Call, call: Call)
    requires 0 < |disk| && disk <= longer && CallSound(disk, before, call)
    requires before == after || !UnderWay(call)
    ensures CallSound(longer, after, call)
  {
    hide OfferedWithin, SeenFollow;
    match call
    case Building(entered, _, revision, seen) =>
      OfferedGrows(disk, longer, entered, |disk| - 1, |longer| - 1, revision);
      FollowsGrows(disk, longer, |disk| - 1, |longer| - 1, revision, seen);
    case Reading(entered, _, revision, seen) =>
      if InFlight(before) || before.Returned? {
        OfferedGrows(disk, longer, entered, before.entered, before.entered, revision);
      }
      FollowsGrows(disk, longer, |disk| - 1, |longer| - 1, revision, seen);
    case Answered(entered, left, _, revision, product) =>
      OfferedGrows(disk, longer, entered, left, left, revision);
      FollowsGrows(disk, longer, left, left, revision, product.seen);
    case _ =>
  }

  ghost predicate EntriesSound(disk: seq<Snap.Catalog>, cache: Dict<Product>)
    requires |disk| > 0
  {
    forall key :: key in cache.store ==> EntrySound(disk, key, cache.store[key])
  }

  lemma EntriesGrow(disk: seq<Snap.Catalog>, longer: seq<Snap.Catalog>, cache: Dict<Product>)
    requires 0 < |disk| && disk <= longer && EntriesSound(disk, cache)
    ensures EntriesSound(longer, cache)
  {
    forall key | key in cache.store
      ensures EntrySound(longer, key, cache.store[key])
    {
      assert EntrySound(disk, key, cache.store[key]);
      FollowsGrows(disk, longer, |disk| - 1, |longer| - 1, Id(key.parts[1]), cache.store[key].seen);
    }
  }

  /** A step concerns one thread: the others' calls only see a longer history. */
  lemma Frame(s: System, after: System, t: Thread)
    requires Invariant(s) && Snap.Invariant(after.snap) && s.snap.disk <= after.snap.disk
    requires forall u :: u in after.calls && u != t ==>
               u in s.calls && after.calls[u] == s.calls[u] && Snap.CallOf(after.snap, u) == Snap.CallOf(s.snap, u)
    requires t in after.calls ==> CallSound(after.snap.disk, Snap.CallOf(after.snap, t), after.calls[t])
    requires EntriesSound(after.snap.disk, after.cache)
    ensures Invariant(after)
  {
    hide CallSound;
    forall u | u in after.calls
      ensures CallSound(after.snap.disk, Snap.CallOf(after.snap, u), after.calls[u])
    {
      if u != t {
        CallSoundGrows(s.snap.disk, after.snap.disk, Snap.CallOf(s.snap, u), Snap.CallOf(after.snap, u), s.calls[u]);
      }
    }
  }

  /** What a finished snapshot call of a thread tells. */
  lemma SnapshotAnswer(snap: Snap.System, t: Thread)
    requires Snap.Invariant(snap) && Snap.CallOf(snap, t).Returned?
    ensures var call := Snap.CallOf(snap, t);
            call.entered <= call.left < |snap.disk| && OfferedWithin(snap.disk, call.entered, call.left, call.answer.revision)
  {
    var disk, call := snap.disk, Snap.CallOf(snap, t);
    var revision := call.answer.revision;
    if Snap.Trustworthy(call) {
      var v :| call.entered <= v <= call.left && v < |disk| && Snap.RevisionOf(disk[v]) == Some(revision);
      assert Offered(disk, v, revision);
    } else {
      var m, v :| 0 <= m <= v <= call.left && v < |disk| && disk[m].Missing? && Snap.RevisionOf(disk[v]) == Some(revision);
      assert Offered(disk, v, revision);
      assert v < call.entered ==> Offered(disk, call.entered, revision);
    }
  }

  /** An offer at or after one already passed follows it. */
  lemma OneMoreRead(disk: seq<Snap.Catalog>, from: nat, at: nat, left: nat, revision: Id, seen: seq<Id>, next: Id)
    requires at <= left < |disk| && SeenFollow(disk, |disk| - 1, revision, seen)
    requires OfferedWithin(disk, from, at, revision) && OfferedWithin(disk, at, left, next)
    ensures SeenFollow(disk, |disk| - 1, revision, seen + [next])
    ensures OfferedWithin(disk, from, |disk| - 1, revision)
  {
    hide Offered;
    var i :| from <= i <= at && i < |disk| && Offered(disk, i, revision);
    var j :| at <= j <= left && j < |disk| && Offered(disk, j, next);
    assert Follows(disk, |disk| - 1, revision, next);
  }

  lemma SnappingKeeps(s: System, t: Thread, now: int)
    requires Invariant(s) && Snap.StampsDistinct(s.snap.disk) && InFlight(Snap.CallOf(s.snap, t))
    ensures Invariant(Snapping(s, t, now))
  {
    hide OfferedWithin, SeenFollow, MostRecent, Snap.Invariant;
    var after := Snapping(s, t, now);
    Snap.StepKeeps(s.snap, Snap.Advance(t, now));
    assert after.cache == s.cache || after.cache == EMPTY;
    if t in s.calls {
      assert CallSound(s.snap.disk, Snap.CallOf(s.snap, t), s.calls[t]);
    }
    Frame(s, after, t);
  }

  lemma LookedKeeps(s: System, t: Thread, entered: nat, request: Id)
    requires Invariant(s) && Snap.StampsDistinct(s.snap.disk) && CallOf(s, t) == Keying(entered, request)
    requires Snap.CallOf(s.snap, t).Returned?
    ensures Invariant(Looked(s, t, entered, request, Snap.CallOf(s.snap, t).answer.revision))
  {
    hide OfferedWithin, SeenFollow, MostRecent, NoRepeat, Without, Snap.Invariant;
    var snapshot := Snap.CallOf(s.snap, t);
    var disk, revision := s.snap.disk, snapshot.answer.revision;
    var key, after := KeyOf(request, revision), Looked(s, t, entered, request, revision);
    assert CallSound(disk, snapshot, s.calls[t]);
    SnapshotAnswer(s.snap, t);
    OfferedGrows(disk, disk, entered, snapshot.left, |disk| - 1, revision);
    if key in s.cache.store {
      assert EntrySound(disk, key, s.cache.store[key]);
    } else {
      assert SeenFollow(disk, |disk| - 1, revision, []) by { NothingSeen(disk, |disk| - 1, revision); }
    }
    Frame(s, after, t);
  }

  lemma NothingSeen(disk: seq<Snap.Catalog>, to: nat, revision: Id)
    ensures SeenFollow(disk, to, revision, [])
  {
  }

  lemma InstalledKeeps(s: System, t: Thread)
    requires Invariant(s) && Recency(s) && CallOf(s, t).Building?
    ensures Invariant(Step(s, Finish(t)))
  {
    hide OfferedWithin, SeenFollow, MostRecent, NoRepeat, Without, Snap.Invariant, Stored;
    var call, after, disk := s.calls[t], Step(s, Finish(t)), s.snap.disk;
    var key := KeyOf(call.request, call.revision);
    assert CallSound(disk, Snap.CallOf(s.snap, t), call);
    TouchedOnce(Snap.CACHE_LIMIT, s.cache, s.log, key, Product(call.request, call.revision, call.seen));
    assert forall other :: other in after.cache.store && other != key ==> EntrySound(disk, other, s.cache.store[other]);
    SnapshotEnteredBefore(disk, call.entered, call.revision);
    Frame(s, after, t);
  }

  lemma SnapshotEnteredBefore(disk: seq<Snap.Catalog>, entered: nat, revision: Id)
    requires |disk| > 0 && OfferedWithin(disk, entered, |disk| - 1, revision)
    ensures entered < |disk|
  {
  }

  lemma ReadKeeps(s: System, t: Thread)
    requires Invariant(s) && Snap.StampsDistinct(s.snap.disk) && CallOf(s, t).Building?
    ensures Invariant(Step(s, Read(t)))
  {
    hide OfferedWithin, SeenFollow, MostRecent, NoRepeat, Without, Snap.Invariant;
    assert CallSound(s.snap.disk, Snap.CallOf(s.snap, t), s.calls[t]);
    Snap.StepKeeps(s.snap, Snap.Enter(t, false));
    EntriesGrow(s.snap.disk, s.snap.disk, s.cache);
    Frame(s, Step(s, Read(t)), t);
  }

  lemma HaveReadKeeps(s: System, t: Thread, now: int)
    requires Invariant(s) && Snap.StampsDistinct(s.snap.disk) && CallOf(s, t).Reading? && Snap.CallOf(s.snap, t).Returned?
    ensures Invariant(Step(s, Advance(t, now)))
  {
    hide OfferedWithin, SeenFollow, MostRecent, NoRepeat, Without, Snap.Invariant;
    var call, snapshot := s.calls[t], Snap.CallOf(s.snap, t);
    assert CallSound(s.snap.disk, snapshot, call);
    SnapshotAnswer(s.snap, t);
    OneMoreRead(s.snap.disk, call.entered, snapshot.entered, snapshot.left, call.revision, call.seen, snapshot.answer.revision);
    Frame(s, Step(s, Advance(t, now)), t);
  }

  lemma StepKeeps(s: System, action: Action)
    requires Invariant(s) && Recency(s) && Snap.StampsDistinct(s.snap.disk)
    ensures Invariant(Step(s, action))
  {
    var after := Step(s, action);
    match action
    case Publish(catalog) =>
      PublishKeeps(s, catalog);
    case Refresh(t, force) =>
      if Free(s, t) {
        EnterKeeps(s, t, force, after);
      }
    case Ask(t, request) =>
      if Free(s, t) {
        EnterKeeps(s, t, false, after);
      }
    case Read(t) =>
      if CallOf(s, t).Building? {
        ReadKeeps(s, t);
      }
    case Raise(t) =>
      EntriesGrow(s.snap.disk, s.snap.disk, s.cache);
      if CallOf(s, t).Building? {
        FailKeeps(s, t);
      }
    case Finish(t) =>
      if CallOf(s, t).Building? {
        InstalledKeeps(s, t);
      }
    case Advance(t, now) =>
      var snapshot := Snap.CallOf(s.snap, t);
      if InFlight(snapshot) {
        SnappingKeeps(s, t, now);
      } else if CallOf(s, t).Keying? && snapshot.Returned? {
        LookedKeeps(s, t, s.calls[t].entered, s.calls[t].request);
      } else if CallOf(s, t).Reading? && snapshot.Returned? {
        HaveReadKeeps(s, t, now);
      } else if CallOf(s, t).Keying? || CallOf(s, t).Reading? {
        FailKeeps(s, t);
      }
  }

  lemma FailKeeps(s: System, t: Thread)
    requires Invariant(s)
    ensures Invariant(s.(calls := s.calls[t := Failed]))
  {
    hide CallSound, MostRecent, NoRepeat, Snap.Invariant;
    assert EntriesSound(s.snap.disk, s.cache);
    assert CallSound(s.snap.disk, Snap.CallOf(s.snap, t), Failed) by { FailedIsSound(s.snap.disk, Snap.CallOf(s.snap, t)); }
    Frame(s, s.(calls := s.calls[t := Failed]), t);
  }

  lemma FailedIsSound(disk: seq<Snap.Catalog>, snapshot: Snap.Call)
    requires |disk| > 0
    ensures CallSound(disk, snapshot, Failed)
  {
  }

  lemma PublishKeeps(s: System, catalog: Snap.Catalog)
    requires Invariant(s) && Snap.StampsDistinct(s.snap.disk)
    ensures Invariant(Step(s, Publish(catalog)))
  {
    hide OfferedWithin, SeenFollow, MostRecent, NoRepeat, Snap.Invariant, CallSound;
    var after := Step(s, Publish(catalog));
    Snap.StepKeeps(s.snap, Snap.Publish(catalog));
    EntriesGrow(s.snap.disk, after.snap.disk, s.cache);
    if 0 in s.calls {
      CallSoundGrows(s.snap.disk, after.snap.disk, Snap.CallOf(s.snap, 0), Snap.CallOf(after.snap, 0), s.calls[0]);
    }
    Frame(s, after, 0);
  }

  lemma EnterKeeps(s: System, t: Thread, force: bool, after: System)
    requires Invariant(s) && Snap.StampsDistinct(s.snap.disk) && Free(s, t)
    requires after.snap == Snap.Step(s.snap, Snap.Enter(t, force)) && after.cache == s.cache && after.log == s.log
    requires after.calls == s.calls ||
             (t in after.calls && after.calls[t].Keying? && after.calls[t].entered == |s.snap.disk| - 1 &&
              after.calls == s.calls[t := after.calls[t]])
    ensures Invariant(after)
  {
    hide OfferedWithin, SeenFollow, MostRecent, NoRepeat, Snap.Invariant;
    Snap.StepKeeps(s.snap, Snap.Enter(t, force));
    if after.calls == s.calls && t in s.calls {
      CallSoundGrows(s.snap.disk, after.snap.disk, Snap.CallOf(s.snap, t), Snap.CallOf(after.snap, t), s.calls[t]);
    }
    Frame(s, after, t);
  }

  lemma {:induction false} RunKeeps(first: Snap.Catalog, actions: seq<Action>)
    requires Snap.StampsDistinct(Run(first, actions).snap.disk)
    ensures Invariant(Run(first, actions))
  {
    if actions != [] {
      var before, after := Run(first, actions[..|actions| - 1]), Run(first, actions);
      assert forall v :: 0 <= v < |before.snap.disk| ==> after.snap.disk[v] == before.snap.disk[v];
      RunKeeps(first, actions[..|actions| - 1]);
      CacheIsMostRecent(first, actions[..|actions| - 1]);
      StepKeeps(before, actions[|actions| - 1]);
    }
  }

  // ----- The cache's order -----

  lemma EmptyIsRecent()
    ensures MostRecent([], [], Snap.CACHE_LIMIT)
  {
    forall key
      ensures LastTouch([], key) == 0
    {
    }
  }

  lemma StepKeepsRecency(s: System, action: Action)
    requires |s.snap.disk| > 0 && Recency(s)
    ensures Recency(Step(s, action))
  {
    hide MostRecent, NoRepeat, Without, Stored, Snap.Step;
    EmptyIsRecent();
    match action
    case Finish(t) =>
      var call := CallOf(s, t);
      if call.Building? {
        TouchedOnce(Snap.CACHE_LIMIT, s.cache, s.log, KeyOf(call.request, call.revision),
                    Product(call.request, call.revision, call.seen));
      }
    case Advance(t, now) =>
      var call, snapshot := CallOf(s, t), Snap.CallOf(s.snap, t);
      if call.Keying? && snapshot.Returned? {
        var key := KeyOf(call.request, snapshot.answer.revision);
        if key in s.cache.store {
          MoveKeepsValid(s.cache, key);
          TouchPresent(s.cache.order, s.log, Snap.CACHE_LIMIT, key);
        }
      }
    case _ =>
  }

  /** After any interleaving the cache is exactly the 64 (or fewer) keys touched last since it was cleared. */
  lemma {:induction false} CacheIsMostRecent(first: Snap.Catalog, actions: seq<Action>)
    ensures Recency(Run(first, actions))
    ensures MostRecent(Run(first, actions).cache.order, Run(first, actions).log, 64)
  {
    if actions == [] {
      EmptyIsRecent();
    } else {
      hide Step, Recency;
      CacheIsMostRecent(first, actions[..|actions| - 1]);
      StepKeepsRecency(Run(first, actions[..|actions| - 1]), actions[|actions| - 1]);
    }
  }

  // ----- Whose product an answer is -----

  lemma KeysTellApart(request: Id, revision: Id, other: Id, version: Id)
    ensures KeyOf(request, revision) == KeyOf(other, version) <==> request == other && revision == version
  {
    var key, second := KeyOf(request, revision), KeyOf(other, version);
    if key == second {
      assert key.parts[0] == second.parts[0] && key.parts[1] == second.parts[1];
    }
  }

  /** Every entry holds the product of the request and revision its key names, and so does every answer. */
  ghost predicate Labelled(s: System) {
    && (forall key :: key in s.cache.store ==>
          key == KeyOf(s.cache.store[key].request, s.cache.store[key].revision))
    && (forall t :: t in s.calls && s.calls[t].Answered? ==>
          s.calls[t].product.request == s.calls[t].request && s.calls[t].product.revision == s.calls[t].revision)
  }

  lemma StepKeepsLabels(s: System, action: Action)
    requires |s.snap.disk| > 0 && Recency(s) && Labelled(s)
    ensures Labelled(Step(s, action))
  {
    hide MostRecent, NoRepeat, Without, Stored, Snap.Step, KeyOf;
    match action
    case Finish(t) =>
      var call := CallOf(s, t);
      if call.Building? {
        TouchedOnce(Snap.CACHE_LIMIT, s.cache, s.log, KeyOf(call.request, call.revision),
                    Product(call.request, call.revision, call.seen));
      }
    case Advance(t, now) =>
      var call, snapshot := CallOf(s, t), Snap.CallOf(s.snap, t);
      if call.Keying? && snapshot.Returned? {
        var key := KeyOf(call.request, snapshot.answer.revision);
        if key in s.cache.store {
          KeysTellApart(call.request, snapshot.answer.revision, s.cache.store[key].request, s.cache.store[key].revision);
        }
      }
    case _ =>
  }

  /** In every run an answer is the product that was built for the call's own request under its keyed revision. */
  lemma {:induction false} ProductIsOfTheRequest(first: Snap.Catalog, actions: seq<Action>)
    ensures Labelled(Run(first, actions))
  {
    if actions != [] {
      hide Step, Recency, Labelled;
      ProductIsOfTheRequest(first, actions[..|actions| - 1]);
      CacheIsMostRecent(first, actions[..|actions| - 1]);
      StepKeepsLabels(Run(first, actions[..|actions| - 1]), actions[|actions| - 1]);
    } else {
      assert Labelled(Start(first));
    }
  }

  /** What thread t last asked for, and at which version. */
  function Asked(first: Snap.Catalog, actions: seq<Action>, t: Thread): Option<(Id, nat)> {
    if actions == [] then None
    else
      var init, last := actions[..|actions| - 1], actions[|actions| - 1];
      var before := Run(first, init);
      if last.Ask? && last.thread == t && Free(before, t) then Some((last.request, |before.snap.disk| - 1))
      else Asked(first, init, t)
  }

  /** A call is for what its thread asked, and counts from the version at which it asked. */
  predicate OfTheAsking(call: Call, asked: Option<(Id, nat)>) {
    call.Keying? || call.Building? || call.Reading? || call.Answered? ==> asked == Some((call.request, call.entered))
  }

  lemma StaysOfTheAsking(s: System, action: Action, t: Thread, asked: Option<(Id, nat)>)
    requires |s.snap.disk| > 0 && OfTheAsking(CallOf(s, t), asked)
    ensures OfTheAsking(CallOf(Step(s, action), t),
                        if action.Ask? && action.thread == t && Free(s, t) then Some((action.request, |s.snap.disk| - 1)) else asked)
  {
    hide Snap.Step, Stored, KeyOf;
  }

  lemma {:induction false} AnswersWhatWasAsked(first: Snap.Catalog, actions: seq<Action>, t: Thread)
    ensures OfTheAsking(CallOf(Run(first, actions), t), Asked(first, actions, t))
  {
    if actions != [] {
      hide Step, OfTheAsking, Free;
      AnswersWhatWasAsked(first, actions[..|actions| - 1], t);
      StaysOfTheAsking(Run(first, actions[..|actions| - 1]), actions[|actions| - 1], t, Asked(first, actions[..|actions| - 1], t));
    }
  }

  /** A call that has just been answered leaves at the version of that moment. */
  lemma LeavesAtTheAnswer(s: System, action: Action, t: Thread)
    requires |s.snap.disk| > 0 && CallOf(Step(s, action), t).Answered? && CallOf(Step(s, action), t) != CallOf(s, t)
    ensures CallOf(Step(s, action), t).left == |s.snap.disk| - 1
  {
    hide Snap.Step, Stored;
  }

  /** A new snapshot empties the cache; a call of a cached request is answered with what is cached, another one
      goes on to build. */
  lemma HitOrBuild(s: System, t: Thread, now: int)
    requires |s.snap.disk| > 0 && CallOf(s, t).Keying? && Snap.CallOf(s.snap, t).Returned?
    ensures var after := Step(s, Advance(t, now)); var call := CallOf(s, t);
            var key := KeyOf(call.request, Snap.CallOf(s.snap, t).answer.revision);
            if key in s.cache.store then CallOf(after, t).Answered? && CallOf(after, t).product == s.cache.store[key]
            else CallOf(after, t) == Building(call.entered, call.request, Snap.CallOf(s.snap, t).answer.revision, [])
  {
  }

  /** The log of touches holds the keys answered since the cache was last emptied, and nothing else. */
  lemma EveryAnswerIsATouch(s: System, action: Action, t: Thread)
    requires |s.snap.disk| > 0
    ensures var after := Step(s, action);
            && (CallOf(after, t).Answered? && CallOf(after, t) != CallOf(s, t) && !CallOf(s, t).Answered? ==>
                  after.log == s.log + [KeyOf(CallOf(after, t).request, CallOf(after, t).revision)])
            && (after.log != s.log && after.log != [] ==>
                  exists u :: CallOf(after, u).Answered? && !CallOf(s, u).Answered? &&
                    after.log == s.log + [KeyOf(CallOf(after, u).request, CallOf(after, u).revision)])
            && (after.log == [] && s.log != [] ==> after.cache.store == map[])
  {
    hide Snap.Step, Stored, KeyOf;
    var after := Step(s, action);
    if action.Finish? || action.Advance? {
      var u := action.thread;
      assert CallOf(after, u).Answered? && !CallOf(s, u).Answered? ==>
          after.log == s.log + [KeyOf(CallOf(after, u).request, CallOf(after, u).revision)];
    }
  }

  /** Asking, and every read of a builder, takes a snapshot of its own, unforced; the read adds the revision it
      got to the builder's, and a failed one fails the call. */
  lemma AsksAndReadsTakeASnapshot(s: System, t: Thread, request: Id, now: int)
    requires |s.snap.disk| > 0
    ensures Free(s, t) ==>
              var after := Step(s, Ask(t, request));
              after.snap == Snap.Step(s.snap, Snap.Enter(t, false)) && CallOf(after, t).Keying? &&
              CallOf(after, t).request == request && after.cache == s.cache
    ensures CallOf(s, t).Building? ==>
              var call, after := CallOf(s, t), Step(s, Read(t));
              after.snap == Snap.Step(s.snap, Snap.Enter(t, false)) && after.cache == s.cache &&
              CallOf(after, t) == Reading(call.entered, call.request, call.revision, call.seen)
    ensures CallOf(s, t).Reading? && Snap.CallOf(s.snap, t).Returned? ==>
              var call, after := CallOf(s, t), Step(s, Advance(t, now)); var next := Snap.CallOf(s.snap, t).answer.revision;
              CallOf(after, t) == Building(call.entered, call.request, call.revision, call.seen + [next])
    ensures CallOf(s, t).Building? ==> Step(s, Raise(t)) == s.(calls := s.calls[t := Failed])
    ensures (CallOf(s, t).Keying? || CallOf(s, t).Reading?) && Snap.CallOf(s.snap, t).Failed? ==>
              CallOf(Step(s, Advance(t, now)), t).Failed?
    ensures InFlight(Snap.CallOf(s.snap, t)) ==>
              Step(s, Advance(t, now)).snap == Snap.Step(s.snap, Snap.Advance(t, now)) && Step(s, Advance(t, now)).calls == s.calls
  {
    hide Snap.Step;
  }

  lemma NewSnapshotEmptiesCache(s: System, action: Action)
    requires |s.snap.disk| > 0 && Step(s, action).snap.memo.snapshot != s.snap.memo.snapshot
    ensures Step(s, action).cache.store == map[]
  {
  }

  /** What a builder finishes with is made of exactly its own reads, is its caller's answer, and answers the
      next call of the same request. */
  lemma FinishedIsAnsweredAndCached(s: System, t: Thread)
    requires |s.snap.disk| > 0 && Recency(s) && CallOf(s, t).Building?
    ensures var call, after := CallOf(s, t), Step(s, Finish(t));
            var key := KeyOf(call.request, call.revision);
            && CallOf(after, t).Answered? && CallOf(after, t).product == Product(call.request, call.revision, call.seen)
            && key in after.cache.store && after.cache.store[key] == CallOf(after, t).product
  {
    hide NoRepeat, Without, Stored;
    var call := CallOf(s, t);
    var key := KeyOf(call.request, call.revision);
    TouchedOnce(Snap.CACHE_LIMIT, s.cache, s.log, key, Product(call.request, call.revision, call.seen));
    Touch(s.log, key, key);
    NewestIsKept(Step(s, Finish(t)).cache.order, s.log + [key], key);
  }

  lemma NewestIsKept(order: seq<Key>, log: seq<Key>, key: Key)
    requires MostRecent(order, log, Snap.CACHE_LIMIT) && LastTouch(log, key) == |log| > 0
    ensures key in order
  {
    if order != [] {
      LastTouchBounds(log, order[0]);
    }
  }

  // ----- The results -----

  /** Between two appearances of a revision no other revision is published. */
  ghost predicate NeverReturns(disk: seq<Snap.Catalog>) {
    forall i, j, k :: 0 <= i < j < k < |disk| ==> !ReturnsAt(disk, i, j, k)
  }

  predicate ReturnsAt(disk: seq<Snap.Catalog>, i: nat, j: nat, k: nat)
    requires i < j < k < |disk|
  {
    var revision, other := Snap.RevisionOf(disk[i]), Snap.RevisionOf(disk[j]);
    revision.Some? && Snap.RevisionOf(disk[k]) == revision && other.Some? && other != revision
  }

  /** Two revisions are readable between two absences. */
  predicate TwoInGapAt(disk: seq<Snap.Catalog>, m: nat, v: nat, w: nat, k: nat)
    requires m < v < w < k < |disk|
  {
    var revision, other := Snap.RevisionOf(disk[v]), Snap.RevisionOf(disk[w]);
    disk[m].Missing? && disk[k].Missing? && revision.Some? && other.Some? && other != revision
  }

  ghost predicate OneInGap(disk: seq<Snap.Catalog>) {
    forall m, v, w, k :: 0 <= m < v < w < k < |disk| ==> !TwoInGapAt(disk, m, v, w, k)
  }

  /** Where an offered revision was on disk, and the absence before it when that is over. */
  lemma OfferedFrom(disk: seq<Snap.Catalog>, v: nat, revision: Id) returns (at: nat, m: nat)
    requires v < |disk| && Offered(disk, v, revision)
    ensures at <= v && Snap.RevisionOf(disk[at]) == Some(revision)
    ensures at < v ==> m < at && disk[m].Missing? && disk[v].Missing?
  {
    if Snap.RevisionOf(disk[v]) == Some(revision) {
      at, m := v, 0;
    } else {
      var a: nat, b: nat :| 0 <= a <= b <= v && b < |disk| && disk[a].Missing? && Snap.RevisionOf(disk[b]) == Some(revision);
      at, m := b, a;
    }
  }

  lemma OneBetween(disk: seq<Snap.Catalog>, m: nat, v: nat, w: nat, k: nat)
    requires OneInGap(disk) && m < v < k < |disk| && m < w < k && disk[m].Missing? && disk[k].Missing?
    requires Snap.RevisionOf(disk[v]).Some? && Snap.RevisionOf(disk[w]).Some?
    ensures Snap.RevisionOf(disk[v]) == Snap.RevisionOf(disk[w])
  {
    assert v < w ==> !TwoInGapAt(disk, m, v, w, k);
    assert w < v ==> !TwoInGapAt(disk, m, w, v, k);
  }

  lemma OneUntilReturn(disk: seq<Snap.Catalog>, i: nat, j: nat, k: nat)
    requires NeverReturns(disk) && i < j < k < |disk| && Snap.RevisionOf(disk[j]).Some?
    requires Snap.RevisionOf(disk[i]).Some? && Snap.RevisionOf(disk[k]) == Snap.RevisionOf(disk[i])
    ensures Snap.RevisionOf(disk[j]) == Snap.RevisionOf(disk[i])
  {
    assert !ReturnsAt(disk, i, j, k);
  }

  /** Where nothing returns and gaps hold one revision, an offered revision never gives way to another and
      comes back. */
  lemma OffersNeverReturn(disk: seq<Snap.Catalog>, i: nat, j: nat, k: nat, revision: Id, next: Id)
    requires NeverReturns(disk) && OneInGap(disk) && i <= j <= k < |disk|
    requires Offered(disk, i, revision) && Offered(disk, j, next) && Offered(disk, k, revision)
    ensures next == revision
  {
    var i', mi := OfferedFrom(disk, i, revision);
    var j', mj := OfferedFrom(disk, j, next);
    var k', mk := OfferedFrom(disk, k, revision);
    hide NeverReturns, OneInGap, Offered;
    if j' < i' && j' < j && i' < j {
      OneBetween(disk, mj, j', i', j);
    } else if i' < j' < k' {
      OneUntilReturn(disk, i', j', k');
    } else if k' < j' && j' < k {
      OneBetween(disk, mk, k', j', k);
    }
  }

  lemma FollowerAgrees(disk: seq<Snap.Catalog>, k: nat, revision: Id, next: Id)
    requires NeverReturns(disk) && OneInGap(disk) && k < |disk|
    requires OfferedWithin(disk, k, k, revision) && Follows(disk, k, revision, next)
    ensures next == revision
  {
    hide Offered, NeverReturns, OneInGap;
    var i, j :| 0 <= i <= j <= k && j < |disk| && Offered(disk, i, revision) && Offered(disk, j, next);
    OffersNeverReturn(disk, i, j, k, revision, next);
  }

  lemma NoGapOneInGap(disk: seq<Snap.Catalog>)
    requires Snap.NoGap(disk)
    ensures OneInGap(disk)
    ensures forall v, revision :: 0 <= v < |disk| && Offered(disk, v, revision) ==> Snap.RevisionOf(disk[v]) == Some(revision)
  {
    forall m, v, w, k | 0 <= m < v < w < k < |disk|
      ensures !TwoInGapAt(disk, m, v, w, k)
    {
      Snap.NoGapHere(disk, m, v, k);
    }
    forall v, revision | 0 <= v < |disk| && Offered(disk, v, revision)
      ensures Snap.RevisionOf(disk[v]) == Some(revision)
    {
      var at, m := OfferedFrom(disk, v, revision);
      if at < v {
        Snap.NoGapHere(disk, m, at, v);
      }
    }
  }

  lemma FollowerWasOnDisk(disk: seq<Snap.Catalog>, entered: nat, left: nat, revision: Id, next: Id)
    requires NeverReturns(disk) && Snap.NoGap(disk) && left < |disk|
    requires OfferedWithin(disk, entered, left, revision) && Follows(disk, left, revision, next)
    ensures Snap.OnDisk(disk, entered, left, revision) && Snap.OnDisk(disk, entered, left, next)
  {
    hide Offered, NeverReturns, Snap.NoGap;
    NoGapOneInGap(disk);
    var v :| entered <= v <= left && v < |disk| && Offered(disk, v, revision);
    assert Snap.RevisionOf(disk[v]) == Some(revision);
    var i, j :| 0 <= i <= j <= left && j < |disk| && Offered(disk, i, revision) && Offered(disk, j, next);
    assert Snap.RevisionOf(disk[j]) == Some(next);
    if j < v {
      OffersNeverReturn(disk, i, j, v, revision, next);
    }
  }

  /** Everything that went into an answer was on disk at some instant of its call. */
  predicate OfItsTime(disk: seq<Snap.Catalog>, call: Call)
    requires call.Answered?
  {
    && Snap.OnDisk(disk, call.entered, call.left, call.revision)
    && forall k :: 0 <= k < |call.product.seen| ==> Snap.OnDisk(disk, call.entered, call.left, call.product.seen[k])
  }

  /** In every interleaving over a history in which nothing returns and no catalog comes between two absences,
      whether a product was built or recalled, every revision that went into it was on disk during the call. */
  lemma ProductIsOfTheCall(first: Snap.Catalog, actions: seq<Action>, t: Thread)
    requires var disk := Run(first, actions).snap.disk; Snap.StampsDistinct(disk) && NeverReturns(disk) && Snap.NoGap(disk)
    requires CallOf(Run(first, actions), t).Answered?
    ensures OfItsTime(Run(first, actions).snap.disk, CallOf(Run(first, actions), t))
  {
    RunKeeps(first, actions);
    SoundIsOfItsTime(Run(first, actions), t);
  }

  lemma SoundIsOfItsTime(s: System, t: Thread)
    requires Invariant(s) && CallOf(s, t).Answered? && NeverReturns(s.snap.disk) && Snap.NoGap(s.snap.disk)
    ensures OfItsTime(s.snap.disk, CallOf(s, t))
  {
    var call, disk := s.calls[t], s.snap.disk;
    assert CallSound(disk, Snap.CallOf(s.snap, t), call);
    hide OfferedWithin, Follows, Snap.OnDisk, Snap.NoGap, NeverReturns;
    OffersItself(disk, call.entered, call.left, call.revision);
    FollowerWasOnDisk(disk, call.entered, call.left, call.revision, call.revision);
    forall k | 0 <= k < |call.product.seen|
      ensures Snap.OnDisk(disk, call.entered, call.left, call.product.seen[k])
    {
      FollowerWasOnDisk(disk, call.entered, call.left, call.revision, call.product.seen[k]);
    }
  }

  lemma OffersItself(disk: seq<Snap.Catalog>, from: nat, to: nat, revision: Id)
    requires OfferedWithin(disk, from, to, revision) && to < |disk|
    ensures Follows(disk, to, revision, revision)
  {
    hide Offered;
    var v :| from <= v <= to && v < |disk| && Offered(disk, v, revision);
    assert 0 <= v <= v <= to;
  }

  /** Nothing was published during the call. */
  predicate Quiet(call: Call) {
    call.Answered? && call.entered == call.left
  }

  /** The product was built wholly from the revision its key names. */
  predicate Agrees(call: Call)
    requires call.Answered?
  {
    forall k :: 0 <= k < |call.product.seen| ==> call.product.seen[k] == call.revision
  }

  /** When nothing returns and gaps hold one revision, a call during which nothing is published answers wholly
      from its key's revision; that is the one on disk, unless a catalog came between two absences. */
  lemma QuietAnswerAgrees(first: Snap.Catalog, actions: seq<Action>, t: Thread)
    requires var disk := Run(first, actions).snap.disk; Snap.StampsDistinct(disk) && NeverReturns(disk) && OneInGap(disk)
    requires Quiet(CallOf(Run(first, actions), t))
    ensures Agrees(CallOf(Run(first, actions), t))
    ensures var call, disk := CallOf(Run(first, actions), t), Run(first, actions).snap.disk;
            call.left < |disk| && (Snap.NoGap(disk) ==> Snap.RevisionOf(disk[call.left]) == Some(call.revision))
  {
    RunKeeps(first, actions);
    SoundAgrees(Run(first, actions), t);
  }

  lemma SoundAgrees(s: System, t: Thread)
    requires Invariant(s) && NeverReturns(s.snap.disk) && OneInGap(s.snap.disk) && Quiet(CallOf(s, t))
    ensures Agrees(CallOf(s, t))
    ensures var call, disk := CallOf(s, t), s.snap.disk;
            call.left < |disk| && (Snap.NoGap(disk) ==> Snap.RevisionOf(disk[call.left]) == Some(call.revision))
  {
    var call, disk := s.calls[t], s.snap.disk;
    assert CallSound(disk, Snap.CallOf(s.snap, t), call);
    hide Follows, Offered, Snap.NoGap, NeverReturns, OneInGap;
    assert Offered(disk, call.left, call.revision);
    forall k | 0 <= k < |call.product.seen|
      ensures call.product.seen[k] == call.revision
    {
      FollowerAgrees(disk, call.left, call.revision, call.product.seen[k]);
    }
    if Snap.NoGap(disk) {
      NoGapOneInGap(disk);
    }
  }
}
