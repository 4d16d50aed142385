/** `AnalyticsEngine.snapshot`: a stamp check, an unlocked load, and a second check that installs,
    racing with replacements of the catalog file. */
module SnapshotProtocol {
  import opened Support
  import opened OrderedDicts

  type Thread = nat

  /** One content of the catalog path. A missing file cannot be stat'ed; a present one may be unreadable. */
  datatype Catalog = Missing | Present(stamp: nat, revision: Option<Id>)

  function StampOf(catalog: Catalog): Option<nat> {
    if catalog.Missing? then None else Some(catalog.stamp)
  }

  function RevisionOf(catalog: Catalog): Option<Id> {
    if catalog.Missing? then None else catalog.revision
  }

  datatype Snapshot = Snapshot(revision: Id, builtAt: int)

  /** The two engine fields the protocol guards. */
  datatype Memo = Memo(snapshot: Option<Snapshot>, stamp: Option<nat>)

  predicate Current(memo: Memo, force: bool, stamp: Option<nat>) {
    !force && memo.snapshot.Some? && memo.stamp == stamp
  }

  predicate Reusable(memo: Memo, force: bool, revision: Id) {
    !force && memo.snapshot.Some? && memo.snapshot.value.revision == revision
  }

  /** What the second critical section leaves behind, having loaded `revision`. */
  function Settled(memo: Memo, force: bool, stamp: Option<nat>, revision: Id, now: int): Memo {
    if Reusable(memo, force, revision) then memo.(stamp := stamp)
    else Memo(Some(Snapshot(revision, now)), stamp)
  }

  const CACHE_LIMIT: nat := 64
  const EMPTY: Dict<string> := Dict([], map[])

  class AnalyticsEngine {
    var snapshot: Option<Snapshot>
    var catalogStamp: Option<nat>
    var cache: Dict<string>

    function State(): Memo
      reads this
    {
      Memo(snapshot, catalogStamp)
    }

    constructor ()
      ensures State() == Memo(None, None) && cache == EMPTY
    {
      snapshot, catalogStamp, cache := None, None, EMPTY;
    }

    /** First critical section: answer from memory when the stamp has not moved. */
    method Check(force: bool, stamp: Option<nat>) returns (hit: Option<Snapshot>)
      ensures hit == if Current(State(), force, stamp) then snapshot else None
      ensures hit.Some? <==> !force && snapshot.Some? && catalogStamp == stamp
      ensures hit.Some? ==> hit == snapshot
    {
      hit := None;
      if !force && snapshot.Some? && catalogStamp == stamp {
        hit := snapshot;
      }
    }

    /** Second critical section: keep the snapshot when the revision is unchanged, else replace it and
        drop every cached product. */
    method Settle(force: bool, stamp: Option<nat>, revision: Id, now: int) returns (answer: Snapshot)
      modifies this
      ensures State() == Settled(old(State()), force, stamp, revision, now)
      ensures Some(answer) == snapshot && answer.revision == revision && catalogStamp == stamp
      ensures !force && old(snapshot).Some? && old(snapshot).value.revision == revision ==>
                snapshot == old(snapshot) && cache == old(cache)
      ensures force || old(snapshot).None? || old(snapshot).value.revision != revision ==>
                answer.builtAt == now && cache.store == map[] && cache.order == []
    {
      if !force && snapshot.Some? && snapshot.value.revision == revision {
        catalogStamp := stamp;
        return snapshot.value;
      }
      answer := Snapshot(revision, now);
      snapshot := Some(answer);
      catalogStamp := stamp;
      cache := EMPTY;
    }

    /** `_cached`, first critical section: a hit is a touch. */
    method Recall(key: Key) returns (hit: Option<string>)
      modifies this`cache
      ensures hit == if key in old(cache.store) then Some(old(cache.store[key])) else None
      ensures cache == if hit.Some? then old(cache).MoveToEnd(key) else old(cache)
    {
      hit := None;
      if key in cache.store {
        hit := Some(cache.store[key]);
        cache := cache.MoveToEnd(key);
      }
    }

    /** `_cached`, second critical section. */
    method Remember(key: Key, value: string)
      requires cache.Valid()
      modifies this`cache
      ensures cache.Valid()
      ensures cache == Stored(CACHE_LIMIT, old(cache), key, value)
    {
      PutKeepsValid(cache, key, value);
      cache := cache.Put(key, value);
      MoveKeepsValid(cache, key);
      cache := cache.MoveToEnd(key);
      ghost var touched := cache;
      hide Without;
      while |cache.order| > CACHE_LIMIT
        invariant cache.Valid()
        invariant Trimmed(cache, CACHE_LIMIT) == Trimmed(touched, CACHE_LIMIT)
        decreases |cache.order|
      {
        PopKeepsValid(cache);
        cache := cache.PopFirst();
      }
    }
  }

  // ----- Calls interleaved with catalog replacements -----

  /** `entered` is the catalog version on disk when the call read its stamp. */
  datatype Call =
    | Idle
    | Stamped(force: bool, entered: nat, stamp: Option<nat>)
    | Missed(force: bool, entered: nat, stamp: Option<nat>)
    | Loaded(force: bool, entered: nat, stamp: Option<nat>, version: nat, revision: Id)
    | Returned(entered: nat, left: nat, stamp: Option<nat>, fromMemory: bool, answer: Snapshot)
    | Failed

  /** `disk` holds every version of the catalog so far, the current one last; `behind` is the version
      whose revision the stored snapshot was last confirmed against. */
  datatype System = System(disk: seq<Catalog>, memo: Memo, behind: nat, calls: map<Thread, Call>)

  datatype Action =
    | Publish(catalog: Catalog)
    | Enter(thread: Thread, force: bool)
    | Advance(thread: Thread, now: int)

  function Start(first: Catalog): System {
    System([first], Memo(None, None), 0, map[])
  }

  function CallOf(s: System, t: Thread): Call {
    if t in s.calls then s.calls[t] else Idle
  }

  function Step(s: System, action: Action): System
    requires |s.disk| > 0
    ensures s.disk <= Step(s, action).disk
  {
    var latest := |s.disk| - 1;
    match action
    case Publish(catalog) => s.(disk := s.disk + [catalog])
    case Enter(t, force) =>
      if CallOf(s, t).Stamped? || CallOf(s, t).Missed? || CallOf(s, t).Loaded? then s
      else s.(calls := s.calls[t := Stamped(force, latest, StampOf(s.disk[latest]))])
    case Advance(t, now) =>
      match CallOf(s, t)
      case Stamped(force, entered, stamp) =>
        if Current(s.memo, force, stamp)
        then s.(calls := s.calls[t := Returned(entered, latest, stamp, true, s.memo.snapshot.value)])
        else s.(calls := s.calls[t := Missed(force, entered, stamp)])
      case Missed(force, entered, stamp) =>
        // load_catalog raises when there is nothing readable
        if RevisionOf(s.disk[latest]).None? then s.(calls := s.calls[t := Failed])
        else s.(calls := s.calls[t := Loaded(force, entered, stamp, latest, RevisionOf(s.disk[latest]).value)])
      case Loaded(force, entered, stamp, version, revision) =>
        var memo := Settled(s.memo, force, stamp, revision, now);
        s.(memo := memo, behind := version,
           calls := s.calls[t := Returned(entered, latest, stamp, false, memo.snapshot.value)])
      case _ => s
  }

  /** Every run starts with some catalog path, missing or not, and nothing in memory. */
  function Run(first: Catalog, actions: seq<Action>): (s: System)
    ensures |s.disk| > 0
  {
    if actions == [] then Start(first) else Step(Run(first, actions[..|actions| - 1]), actions[|actions| - 1])
  }

  /** No two versions of the file carry the same modification stamp. */
  ghost predicate StampsDistinct(disk: seq<Catalog>) {
    forall i, j :: 0 <= i < j < |disk| && disk[i].Present? && disk[j].Present? ==> disk[i].stamp != disk[j].stamp
  }

  /** The revision was on disk at some instant between versions `from` and `to`. */
  predicate OnDisk(disk: seq<Catalog>, from: nat, to: nat, revision: Id) {
    exists v :: from <= v <= to && v < |disk| && RevisionOf(disk[v]) == Some(revision)
  }

  predicate Trustworthy(call: Call)
    requires call.Returned?
  {
    call.stamp.Some? || !call.fromMemory
  }

  /** The revision was loaded by version `to`, by a call that had found the file missing before. */
  predicate LoadedAfterMissing(disk: seq<Catalog>, to: nat, revision: Id) {
    exists m, v :: 0 <= m <= v <= to && v < |disk| && disk[m].Missing? && RevisionOf(disk[v]) == Some(revision)
  }

  predicate CallInvariant(disk: seq<Catalog>, call: Call) {
    match call
    case Idle => true
    case Failed => true
    case Stamped(_, entered, stamp) => entered < |disk| && stamp == StampOf(disk[entered])
    case Missed(_, entered, stamp) => entered < |disk| && stamp == StampOf(disk[entered])
    case Loaded(_, entered, stamp, version, revision) =>
      entered <= version < |disk| && stamp == StampOf(disk[entered]) && RevisionOf(disk[version]) == Some(revision)
    case Returned(entered, left, stamp, _, answer) =>
      && entered <= left < |disk| && stamp == StampOf(disk[entered])
      && (Trustworthy(call) ==> OnDisk(disk, entered, left, answer.revision))
      && (!Trustworthy(call) ==> LoadedAfterMissing(disk, left, answer.revision))
  }

  /** The stored stamp is never newer than the catalog version behind the stored snapshot. */
  predicate MemoInvariant(s: System) {
    s.memo.snapshot.Some? ==>
      && s.behind < |s.disk|
      && RevisionOf(s.disk[s.behind]) == Some(s.memo.snapshot.value.revision)
      && exists v :: 0 <= v <= s.behind && StampOf(s.disk[v]) == s.memo.stamp
  }

  ghost predicate Invariant(s: System) {
    |s.disk| > 0 && MemoInvariant(s) && forall t :: t in s.calls ==> CallInvariant(s.disk, s.calls[t])
  }

  lemma LongerDiskKeepsCall(disk: seq<Catalog>, catalog: Catalog, call: Call)
    requires CallInvariant(disk, call)
    ensures CallInvariant(disk + [catalog], call)
  {
    var longer := disk + [catalog];
    assert forall v :: 0 <= v < |disk| ==> longer[v] == disk[v];
    if call.Returned? {
      if Trustworthy(call) {
        var v :| call.entered <= v <= call.left && v < |disk| && RevisionOf(disk[v]) == Some(call.answer.revision);
        assert RevisionOf(longer[v]) == Some(call.answer.revision);
      } else {
        var m, v :| 0 <= m <= v <= call.left && v < |disk| && disk[m].Missing? &&
          RevisionOf(disk[v]) == Some(call.answer.revision);
        assert longer[m].Missing? && RevisionOf(longer[v]) == Some(call.answer.revision);
      }
    }
  }

  lemma LongerDiskKeeps(s: System, catalog: Catalog)
    requires Invariant(s)
    ensures Invariant(Step(s, Publish(catalog)))
  {
    hide CallInvariant;
    var disk := s.disk + [catalog];
    assert forall v :: 0 <= v < |s.disk| ==> disk[v] == s.disk[v];
    forall t | t in s.calls
      ensures CallInvariant(disk, s.calls[t])
    {
      LongerDiskKeepsCall(s.disk, catalog, s.calls[t]);
    }
    if s.memo.snapshot.Some? {
      var v :| 0 <= v <= s.behind && StampOf(s.disk[v]) == s.memo.stamp;
      assert StampOf(disk[v]) == s.memo.stamp;
    }
  }

  /** What an answer from memory is worth, with or without a stamp. */
  lemma MemoryAnswer(s: System, call: Call)
    requires Invariant(s) && StampsDistinct(s.disk) && CallInvariant(s.disk, call)
    requires call.Stamped? && Current(s.memo, call.force, call.stamp)
    ensures var revision := s.memo.snapshot.value.revision;
            if call.stamp.Some? then OnDisk(s.disk, call.entered, |s.disk| - 1, revision)
            else LoadedAfterMissing(s.disk, |s.disk| - 1, revision)
  {
    var v :| 0 <= v <= s.behind && StampOf(s.disk[v]) == s.memo.stamp;
    assert call.stamp.Some? ==> v == call.entered;
    assert RevisionOf(s.disk[s.behind]) == Some(s.memo.snapshot.value.revision);
  }

  lemma StepKeeps(s: System, action: Action)
    requires Invariant(s) && StampsDistinct(s.disk)
    ensures Invariant(Step(s, action))
  {
    hide OnDisk, LoadedAfterMissing;
    var after := Step(s, action);
    match action
    case Publish(catalog) => LongerDiskKeeps(s, catalog);
    case Enter(t, force) =>
    case Advance(t, now) =>
      var call := CallOf(s, t);
      assert CallInvariant(s.disk, call);
      match call
      case Stamped(force, entered, stamp) =>
        if Current(s.memo, force, stamp) {
          MemoryAnswer(s, call);
        }
      case Loaded(force, entered, stamp, version, revision) =>
        assert after.memo.snapshot.value.revision == revision;
        assert StampOf(s.disk[entered]) == after.memo.stamp;
        JustLoaded(s.disk, entered, version, revision);
      case _ =>
  }

  lemma JustLoaded(disk: seq<Catalog>, entered: nat, version: nat, revision: Id)
    requires entered <= version < |disk| && RevisionOf(disk[version]) == Some(revision)
    ensures OnDisk(disk, entered, |disk| - 1, revision)
  {
  }

  lemma {:induction false} RunKeeps(first: Catalog, actions: seq<Action>)
    requires StampsDistinct(Run(first, actions).disk)
    ensures Invariant(Run(first, actions))
  {
    if actions != [] {
      var before := Run(first, actions[..|actions| - 1]);
      var after := Run(first, actions);
      assert forall v :: 0 <= v < |before.disk| ==> after.disk[v] == before.disk[v];
      RunKeeps(first, actions[..|actions| - 1]);
      StepKeeps(before, actions[|actions| - 1]);
    }
  }

  // ----- The results -----

  /** A readable catalog between two versions with none. */
  predicate GapAt(disk: seq<Catalog>, m: nat, v: nat, k: nat)
    requires m < v < k < |disk|
  {
    disk[m].Missing? && RevisionOf(disk[v]).Some? && disk[k].Missing?
  }

  ghost predicate NoGap(disk: seq<Catalog>) {
    forall m, v, k :: 0 <= m < v < k < |disk| ==> !GapAt(disk, m, v, k)
  }

  /** In every interleaving a call returns a revision that was the catalog's revision at some instant during
      the call, if its stat succeeded, or it went to disk, or no catalog came and went. */
  lemma AnswerWasOnDiskDuringCall(first: Catalog, actions: seq<Action>, t: Thread)
    requires StampsDistinct(Run(first, actions).disk)
    requires CallOf(Run(first, actions), t).Returned?
    requires Trustworthy(CallOf(Run(first, actions), t)) || NoGap(Run(first, actions).disk)
    ensures var call := CallOf(Run(first, actions), t);
            OnDisk(Run(first, actions).disk, call.entered, call.left, call.answer.revision)
  {
    RunKeeps(first, actions);
    SoundAnswer(Run(first, actions).disk, CallOf(Run(first, actions), t));
  }

  lemma NoGapHere(disk: seq<Catalog>, m: nat, v: nat, k: nat)
    requires NoGap(disk) && m < v < k < |disk|
    ensures !GapAt(disk, m, v, k)
  {
  }

  lemma SoundAnswer(disk: seq<Catalog>, call: Call)
    requires CallInvariant(disk, call) && call.Returned? && (Trustworthy(call) || NoGap(disk))
    ensures call.entered <= call.left < |disk| && OnDisk(disk, call.entered, call.left, call.answer.revision)
  {
    if !Trustworthy(call) {
      var m, v :| 0 <= m <= v <= call.left && v < |disk| && disk[m].Missing? &&
        RevisionOf(disk[v]) == Some(call.answer.revision);
      if v < call.entered {
        NoGapHere(disk, m, v, call.entered);
      }
    }
  }

  /** In every interleaving the stored stamp belongs to a version no newer than one that holds the
      stored snapshot's revision. */
  lemma StoredStampNeverNewer(first: Catalog, actions: seq<Action>)
    requires StampsDistinct(Run(first, actions).disk) && Run(first, actions).memo.snapshot.Some?
    ensures var s := Run(first, actions);
            exists v :: 0 <= v <= s.behind < |s.disk| && StampOf(s.disk[v]) == s.memo.stamp &&
              RevisionOf(s.disk[s.behind]) == Some(s.memo.snapshot.value.revision)
  {
    RunKeeps(first, actions);
  }

  // ----- What one call does -----

  /** The version at which thread t last began a call. */
  function BeganAt(first: Catalog, actions: seq<Action>, t: Thread): Option<nat> {
    if actions == [] then None
    else
      var init, last := actions[..|actions| - 1], actions[|actions| - 1];
      var before := Run(first, init);
      var call := CallOf(before, t);
      if last.Enter? && last.thread == t && (call.Idle? || call.Returned? || call.Failed?) then Some(|before.disk| - 1)
      else BeganAt(first, init, t)
  }

  /** A call counts from the version at which it began. */
  lemma {:induction false} EnteredWhereItBegan(first: Catalog, actions: seq<Action>, t: Thread)
    ensures CountsFrom(CallOf(Run(first, actions), t), BeganAt(first, actions, t))
  {
    if actions != [] {
      hide Step, CountsFrom;
      EnteredWhereItBegan(first, actions[..|actions| - 1], t);
      StaysCounted(Run(first, actions[..|actions| - 1]), actions[|actions| - 1], t, BeganAt(first, actions[..|actions| - 1], t));
    } else {
      assert CountsFrom(Idle, None);
    }
  }

  predicate CountsFrom(call: Call, began: Option<nat>) {
    call.Stamped? || call.Missed? || call.Loaded? || call.Returned? ==> began == Some(call.entered)
  }

  lemma StaysCounted(s: System, action: Action, t: Thread, began: Option<nat>)
    requires |s.disk| > 0 && CountsFrom(CallOf(s, t), began)
    ensures var call := CallOf(s, t);
            CountsFrom(CallOf(Step(s, action), t),
                       if action.Enter? && action.thread == t && (call.Idle? || call.Returned? || call.Failed?)
                       then Some(|s.disk| - 1) else began)
  {
  }

  lemma LeavesWhereItReturns(s: System, action: Action, t: Thread)
    requires |s.disk| > 0 && CallOf(Step(s, action), t).Returned? && CallOf(Step(s, action), t) != CallOf(s, t)
    ensures CallOf(Step(s, action), t).left == |s.disk| - 1
  {
  }

  /** A call with a stamp is answered from memory at once exactly when it is not forced and a snapshot is stored
      under that stamp. */
  lemma AnsweredFromMemoryExactly(s: System, t: Thread, now: int)
    requires |s.disk| > 0 && CallOf(s, t).Stamped?
    ensures var call, after := CallOf(s, t), CallOf(Step(s, Advance(t, now)), t);
            && (after.Returned? <==> !call.force && s.memo.snapshot.Some? && s.memo.stamp == call.stamp)
            && (after.Returned? ==> after.fromMemory && Some(after.answer) == s.memo.snapshot)
  {
  }

  function Alone(s: System, t: Thread, now: int, n: nat): System
    requires |s.disk| > 0
    ensures |Alone(s, t, now, n).disk| > 0
  {
    if n == 0 then s else Step(Alone(s, t, now, n - 1), Advance(t, now))
  }

  /** Any other call, left alone, reads the catalog on disk: it fails when there is none to read, and otherwise
      answers with its revision and remembers its own stamp. A forced one builds anew; an unforced one keeps the
      snapshot it finds of that revision. */
  lemma CallLeftAloneReadsDisk(s: System, t: Thread, now: int)
    requires |s.disk| > 0 && CallOf(s, t).Stamped?
    requires CallOf(s, t).force || s.memo.snapshot.None? || s.memo.stamp != CallOf(s, t).stamp
    ensures var call, latest := CallOf(s, t), s.disk[|s.disk| - 1];
            var after := Alone(s, t, now, if RevisionOf(latest).Some? then 3 else 2);
            if latest.Missing? || latest.revision.None? then CallOf(after, t).Failed? && after.memo == s.memo
            else
              && CallOf(after, t).Returned? && CallOf(after, t).answer.revision == latest.revision.value
              && after.memo == Memo(Some(CallOf(after, t).answer), call.stamp)
              && (if !call.force && s.memo.snapshot.Some? && s.memo.snapshot.value.revision == latest.revision.value
                  then CallOf(after, t).answer == s.memo.snapshot.value
                  else CallOf(after, t).answer.builtAt == now)
  {
    var call, k := CallOf(s, t), |s.disk| - 1;
    var missed := Alone(s, t, now, 1);
    assert missed == Step(Alone(s, t, now, 0), Advance(t, now)) && Alone(s, t, now, 0) == s;
    assert missed == s.(calls := s.calls[t := Missed(call.force, call.entered, call.stamp)]);
    var read := Alone(s, t, now, 2);
    assert read == Step(missed, Advance(t, now));
    if RevisionOf(s.disk[k]).Some? {
      assert CallOf(read, t) == Loaded(call.force, call.entered, call.stamp, k, s.disk[k].revision.value);
      assert Alone(s, t, now, 3) == Step(read, Advance(t, now));
    }
  }

  /** The stamp a call carries is that of the file as it began. */
  lemma StampsTheDisk(s: System, t: Thread, force: bool)
    requires |s.disk| > 0 && (CallOf(s, t).Idle? || CallOf(s, t).Returned? || CallOf(s, t).Failed?)
    ensures var after, latest := CallOf(Step(s, Enter(t, force)), t), s.disk[|s.disk| - 1];
            && after.Stamped? && after.force == force
            && (if latest.Missing? then after.stamp == None else after.stamp == Some(latest.stamp))
  {
  }

  // ----- A catalog that comes and goes -----

  lemma After(first: Catalog, actions: seq<Action>, action: Action) returns (longer: seq<Action>, s: System)
    ensures longer == actions + [action] && s == Run(first, longer) == Step(Run(first, actions), action)
  {
    longer := actions + [action];
    assert longer[..|actions|] == actions;
    s := Run(first, longer);
  }

  /** The first n versions of a history. */
  function Upto(disk: seq<Catalog>, n: nat): (versions: seq<Catalog>)
    requires 0 < n <= |disk|
    ensures |versions| == n && versions[n - 1] == disk[n - 1]
  {
    disk[..n]
  }

  lemma AllOf(disk: seq<Catalog>)
    requires |disk| > 0
    ensures Upto(disk, |disk|) == disk
  {
  }

  lemma Unpublished(disk: seq<Catalog>)
    requires |disk| > 0
    ensures Run(disk[0], []) == Start(disk[0]) && Upto(disk, 1) == [disk[0]]
  {
  }

  /** Publishing the next versions of a history changes nothing else. */
  lemma {:induction false} PublishTo(first: Catalog, trace: seq<Action>, disk: seq<Catalog>, n: nat, m: nat)
    returns (longer: seq<Action>, s: System)
    requires 0 < n <= m <= |disk| && Run(first, trace).disk == Upto(disk, n)
    ensures s == Run(first, longer) == Run(first, trace).(disk := Upto(disk, m))
    decreases m - n
  {
    if n == m {
      longer, s := trace, Run(first, trace);
    } else {
      longer, s := After(first, trace, Publish(disk[n]));
      assert Upto(disk, n + 1) == Upto(disk, n) + [disk[n]];
      longer, s := PublishTo(first, longer, disk, n + 1, m);
    }
  }

  /** A call that finds neither a file nor a snapshot in memory. */
  lemma MissNow(first: Catalog, actions: seq<Action>, t: Thread) returns (longer: seq<Action>, s: System)
    requires var before := Run(first, actions);
             before.disk[|before.disk| - 1].Missing? && before.memo.snapshot.None? && CallOf(before, t).Idle?
    ensures var before := Run(first, actions);
            s == Run(first, longer) == before.(calls := before.calls[t := Missed(false, |before.disk| - 1, None)])
  {
    hide Run, Upto;
    longer, s := After(first, actions, Enter(t, false));
    longer, s := After(first, longer, Advance(t, 0));
  }

  lemma MissedAt(disk: seq<Catalog>, m: nat) returns (trace: seq<Action>, s: System)
    requires m < |disk| && disk[m].Missing?
    ensures s == Run(disk[0], trace) == System(Upto(disk, m + 1), Memo(None, None), 0, map[0 := Missed(false, m, None)])
  {
    Unpublished(disk);
    hide Run, Step, Upto;
    trace, s := PublishTo(disk[0], [], disk, 1, m + 1);
    trace, s := MissNow(disk[0], trace, 0);
  }

  /** A call that found no file loads version v once it is published. */
  lemma LoadAt(disk: seq<Catalog>, actions: seq<Action>, t: Thread, n: nat, m: nat, v: nat)
    returns (longer: seq<Action>, s: System)
    requires 0 < n <= v < |disk| && RevisionOf(disk[v]).Some?
    requires Run(disk[0], actions).disk == Upto(disk, n) && CallOf(Run(disk[0], actions), t) == Missed(false, m, None)
    ensures var before := Run(disk[0], actions);
            s == Run(disk[0], longer) ==
            System(Upto(disk, v + 1), before.memo, before.behind,
                   before.calls[t := Loaded(false, m, None, v, disk[v].revision.value)])
  {
    hide Run, Upto;
    longer, s := PublishTo(disk[0], actions, disk, n, v + 1);
    longer, s := After(disk[0], longer, Advance(t, 0));
  }

  /** A call that found no file loads version v and stores its revision without a stamp. */
  lemma LoadedUnstamped(disk: seq<Catalog>, m: nat, v: nat) returns (trace: seq<Action>, s: System)
    requires m < v < |disk| && disk[m].Missing? && RevisionOf(disk[v]).Some?
    ensures s == Run(disk[0], trace) && s.disk == Upto(disk, v + 1) && s.calls.Keys == {0}
    ensures s.memo == Memo(Some(Snapshot(RevisionOf(disk[v]).value, 0)), None)
  {
    trace, s := MissedAt(disk, m);
    hide Run, Upto;
    trace, s := LoadAt(disk, trace, 0, m + 1, m, v);
    trace, s := After(disk[0], trace, Advance(0, 0));
  }

  /** A call that finds no file, but a snapshot stored without a stamp. */
  lemma StaleNow(first: Catalog, actions: seq<Action>, t: Thread) returns (longer: seq<Action>, s: System)
    requires var before := Run(first, actions);
             && before.disk[|before.disk| - 1].Missing? && CallOf(before, t).Idle?
             && before.memo.snapshot.Some? && before.memo.stamp == None
    ensures var before := Run(first, actions); var k := |before.disk| - 1;
            && s == Run(first, longer)
            && s == before.(calls := before.calls[t := Returned(k, k, None, true, before.memo.snapshot.value)])
  {
    hide Run, Upto;
    longer, s := After(first, actions, Enter(t, false));
    longer, s := After(first, longer, Advance(t, 0));
  }

  /** Two failed stats share the stamp None: the second answers with a revision long gone. */
  lemma FailedStatCanServeStale(disk: seq<Catalog>, m: nat, v: nat, k: nat) returns (trace: seq<Action>, s: System)
    requires m < v < k < |disk| && GapAt(disk, m, v, k)
    ensures s == Run(disk[0], trace) && s.disk == disk
    ensures CallOf(s, 1) == Returned(k, k, None, true, Snapshot(RevisionOf(disk[v]).value, 0))
    ensures !OnDisk(disk, k, k, RevisionOf(disk[v]).value)
  {
    var first := disk[0];
    trace, s := LoadedUnstamped(disk, m, v);
    hide Run, Step, Upto;
    trace, s := PublishTo(first, trace, disk, v + 1, k + 1);
    trace, s := StaleNow(first, trace, 1);
    trace, s := PublishTo(first, trace, disk, k + 1, |disk|);
    AllOf(disk);
  }

  /** Some call of some run over this history returns a revision that was never on disk during the call. */
  ghost predicate CanServeStale(disk: seq<Catalog>)
    requires |disk| > 0
  {
    exists actions: seq<Action>, t: Thread :: Run(disk[0], actions).disk == disk && Stale(disk, CallOf(Run(disk[0], actions), t))
  }

  predicate Stale(disk: seq<Catalog>, call: Call) {
    call.Returned? && !OnDisk(disk, call.entered, call.left, call.answer.revision)
  }

  /** Over a catalog history, every call of every run is answered with a revision of its own time exactly when
      no readable catalog came between two absences. */
  lemma FreshExactlyWithoutGap(disk: seq<Catalog>)
    requires |disk| > 0 && StampsDistinct(disk)
    ensures !CanServeStale(disk) <==> NoGap(disk)
  {
    if NoGap(disk) {
      forall actions: seq<Action>, t: Thread | Run(disk[0], actions).disk == disk
        ensures !Stale(disk, CallOf(Run(disk[0], actions), t))
      {
        if CallOf(Run(disk[0], actions), t).Returned? {
          AnswerWasOnDiskDuringCall(disk[0], actions, t);
        }
      }
    } else {
      var m: nat, v: nat, k: nat :| m < v < k < |disk| && GapAt(disk, m, v, k);
      var trace, s := FailedStatCanServeStale(disk, m, v, k);
      assert Stale(disk, CallOf(s, 1));
    }
  }
}
