/** Catalog histories over which a cached product can be mixed or out of date, and exactly which these are. */
module AnalyticsHistories {
  import opened Support
  import opened OrderedDicts
  import opened AnalyticsResults

  // ----- A revision that returns -----

  lemma After(first: Snap.Catalog, trace: seq<Action>, action: Action) returns (longer: seq<Action>, s: System)
    ensures longer == trace + [action] && s == Run(first, longer) == Step(Run(first, trace), action)
  {
    longer := trace + [action];
    assert longer[..|trace|] == trace;
    s := Run(first, longer);
  }

  /** Publishing the next versions of a history changes nothing else. */
  lemma {:induction false} PublishTo(first: Snap.Catalog, trace: seq<Action>, disk: seq<Snap.Catalog>, n: nat, m: nat)
    returns (longer: seq<Action>, s: System)
    requires 0 < n <= m <= |disk| && Run(first, trace).snap.disk == Snap.Upto(disk, n)
    ensures s == Run(first, longer)
    ensures s == Run(first, trace).(snap := Run(first, trace).snap.(disk := Snap.Upto(disk, m)))
    decreases m - n
  {
    hide Run;
    if n == m {
      longer, s := trace, Run(first, trace);
    } else {
      longer, s := After(first, trace, Publish(disk[n]));
      assert Snap.Upto(disk, n + 1) == Snap.Upto(disk, n) + [disk[n]];
      longer, s := PublishTo(first, longer, disk, n + 1, m);
    }
  }

  /** Publishing what is left of a history. */
  lemma PublishRest(disk: seq<Snap.Catalog>, trace: seq<Action>, k: nat) returns (longer: seq<Action>, s: System)
    requires k < |disk| && Run(disk[0], trace).snap.disk == Snap.Upto(disk, k + 1)
    ensures s == Run(disk[0], longer) && s.snap.disk == disk && s.calls == Run(disk[0], trace).calls
  {
    hide Snap.Upto, Run, Step;
    longer, s := PublishTo(disk[0], trace, disk, k + 1, |disk|);
    Snap.AllOf(disk);
  }

  /** The latest version is neither the one last stamped nor of the stored revision. */
  predicate Moved(snap: Snap.System, revision: Id)
    requires |snap.disk| > 0
  {
    var latest := snap.disk[|snap.disk| - 1];
    Snap.RevisionOf(latest) == Some(revision) && snap.memo.stamp != Snap.StampOf(latest) &&
    !Snap.Reusable(snap.memo, false, revision)
  }

  /** What a call of t that loads the latest version and installs it leaves. */
  predicate Reloaded(before: Snap.System, snap: Snap.System, t: Thread, revision: Id)
    requires |before.disk| > 0
  {
    && snap.disk == before.disk
    && snap.memo == Snap.Memo(Some(Snap.Snapshot(revision, 0)), Snap.StampOf(before.disk[|before.disk| - 1]))
    && Snap.CallOf(snap, t).Returned? && Snap.CallOf(snap, t).answer.revision == revision
    && snap.calls == before.calls[t := Snap.CallOf(snap, t)]
  }

  /** One step of a snapshot call that changes nothing but the call. */
  lemma SnapStep(first: Snap.Catalog, trace: seq<Action>, t: Thread, next: Snap.Call)
    returns (longer: seq<Action>, s: System)
    requires var snap := Run(first, trace).snap; var call := Snap.CallOf(snap, t);
             && InFlight(call) && !call.Loaded?
             && Snap.Step(snap, Snap.Advance(t, 0)) == snap.(calls := snap.calls[t := next])
    ensures s == Run(first, longer) && s == Run(first, trace).(snap := s.snap)
    ensures s.snap == Run(first, trace).snap.(calls := Run(first, trace).snap.calls[t := next])
  {
    hide Run;
    longer, s := After(first, trace, Advance(t, 0));
  }

  lemma Reload(first: Snap.Catalog, trace: seq<Action>, before: Snap.System, t: Thread, revision: Id)
    returns (longer: seq<Action>, s: System)
    requires |before.disk| > 0 && Moved(before, revision)
    requires !InFlight(Snap.CallOf(before, t)) && Run(first, trace).snap == Snap.Step(before, Snap.Enter(t, false))
    ensures s == Run(first, longer) && Reloaded(before, s.snap, t, revision)
    ensures s == System(s.snap, EMPTY, [], Run(first, trace).calls)
  {
    hide Run;
    var latest := |before.disk| - 1;
    var stamp := Snap.StampOf(before.disk[latest]);
    longer, s := SnapStep(first, trace, t, Snap.Missed(false, latest, stamp));
    longer, s := SnapStep(first, longer, t, Snap.Loaded(false, latest, stamp, latest, revision));
    longer, s := After(first, longer, Advance(t, 0));
  }

  /** A call that keys its product from the latest version. */
  lemma KeyOnce(first: Snap.Catalog, trace: seq<Action>, t: Thread, request: Id, revision: Id)
    returns (longer: seq<Action>, s: System)
    requires Free(Run(first, trace), t) && Moved(Run(first, trace).snap, revision)
    ensures var before := Run(first, trace);
            && s == Run(first, longer) && Reloaded(before.snap, s.snap, t, revision) && s.cache == EMPTY
            && s.calls == before.calls[t := Building(|before.snap.disk| - 1, request, revision, [])]
  {
    hide Run, Moved;
    var before := Run(first, trace);
    longer, s := After(first, trace, Ask(t, request));
    longer, s := Reload(first, longer, before.snap, t, revision);
    longer, s := After(first, longer, Advance(t, 0));
  }

  /** A builder that reads the latest version. */
  lemma ReadOnce(first: Snap.Catalog, trace: seq<Action>, t: Thread, revision: Id)
    returns (longer: seq<Action>, s: System)
    requires var before := Run(first, trace);
             CallOf(before, t).Building? && !InFlight(Snap.CallOf(before.snap, t)) && Moved(before.snap, revision)
    ensures var before := Run(first, trace); var call := CallOf(before, t);
            && s == Run(first, longer) && Reloaded(before.snap, s.snap, t, revision) && s.cache == EMPTY
            && s.calls == before.calls[t := Building(call.entered, call.request, call.revision, call.seen + [revision])]
  {
    hide Run, Moved;
    var before := Run(first, trace);
    longer, s := After(first, trace, Read(t));
    longer, s := Reload(first, longer, before.snap, t, revision);
    longer, s := After(first, longer, Advance(t, 0));
  }

  lemma ReturnFacts(disk: seq<Snap.Catalog>, i: nat, j: nat, k: nat)
    requires Snap.StampsDistinct(disk) && i < j < k < |disk| && ReturnsAt(disk, i, j, k)
    ensures disk[i].Present? && disk[j].Present? && disk[k].Present?
    ensures disk[i].revision.Some? && disk[j].revision.Some? && disk[k].revision == disk[i].revision != disk[j].revision
    ensures disk[i].stamp != disk[j].stamp && disk[j].stamp != disk[k].stamp
  {
  }

  /** Thread 0 alone has keyed a product, read `seen`, and nothing else was stored. */
  predicate Sole(s: System, disk: seq<Snap.Catalog>, at: nat, building: Call)
    requires at < |disk|
  {
    && s.snap.disk == Snap.Upto(disk, at + 1) && building.Building? && s.calls == map[0 := building] && s.cache == EMPTY
    && disk[at].Present? && disk[at].revision.Some?
    && s.snap.memo == Snap.Memo(Some(Snap.Snapshot(disk[at].revision.value, 0)), Some(disk[at].stamp))
    && s.snap.calls.Keys == {0} && s.snap.calls[0].Returned?
  }

  /** Publishing up to version i, with nothing asked yet. */
  lemma PublishedTo(disk: seq<Snap.Catalog>, i: nat) returns (trace: seq<Action>, s: System)
    requires i < |disk|
    ensures s == Run(disk[0], trace) == Bare(Snap.System(Snap.Upto(disk, i + 1), Snap.Memo(None, None), 0, map[]))
  {
    assert Run(disk[0], []) == Start(disk[0]);
    Snap.Unpublished(disk);
    hide Snap.Upto, Run, Step;
    trace, s := PublishTo(disk[0], [], disk, 1, i + 1);
  }

  lemma KeyedAt(disk: seq<Snap.Catalog>, i: nat, request: Id) returns (trace: seq<Action>, s: System)
    requires i < |disk| && disk[i].Present? && disk[i].revision.Some?
    ensures s == Run(disk[0], trace) && Sole(s, disk, i, Building(i, request, disk[i].revision.value, []))
  {
    trace, s := PublishedTo(disk, i);
    assert s.snap.disk[|s.snap.disk| - 1] == disk[i];
    hide Snap.Upto, Run, Step;
    trace, s := KeyOnce(disk[0], trace, 0, request, disk[i].revision.value);
  }

  lemma ReadAt(disk: seq<Snap.Catalog>, trace: seq<Action>, i: nat, j: nat, building: Call)
    returns (longer: seq<Action>, s: System)
    requires i < j < |disk| && disk[i].Present? && disk[j].Present? && disk[j].revision.Some?
    requires disk[i].revision != disk[j].revision && disk[i].stamp != disk[j].stamp
    requires Sole(Run(disk[0], trace), disk, i, building) && building.seen == []
    ensures s == Run(disk[0], longer)
    ensures Sole(s, disk, j, Building(building.entered, building.request, building.revision, [disk[j].revision.value]))
  {
    hide Snap.Upto, Run, Step;
    longer, s := PublishTo(disk[0], trace, disk, i + 1, j + 1);
    assert s.snap.disk[|s.snap.disk| - 1] == disk[j];
    longer, s := ReadOnce(disk[0], longer, 0, disk[j].revision.value);
    assert [] + [disk[j].revision.value] == [disk[j].revision.value];
  }

  /** A refresh has stored revision `own` from the latest version while thread 0 still builds. */
  predicate Restored(s: System, building: Call, own: Id)
    requires |s.snap.disk| > 0
  {
    var latest := s.snap.disk[|s.snap.disk| - 1];
    && s.calls == map[0 := building] && s.cache == EMPTY && !InFlight(Snap.CallOf(s.snap, 1))
    && latest.Present? && s.snap.memo == Snap.Memo(Some(Snap.Snapshot(own, 0)), Snap.StampOf(latest))
  }

  /** Then thread 0's product, once finished, answers a quiet call of thread 1. */
  lemma QuietRecall(first: Snap.Catalog, trace: seq<Action>, k: nat, entered: nat, request: Id, own: Id, other: Id)
    returns (longer: seq<Action>, s: System)
    requires Restored(Run(first, trace), Building(entered, request, own, [other]), own)
    requires |Run(first, trace).snap.disk| == k + 1
    ensures s == Run(first, longer) && s.snap.disk == Run(first, trace).snap.disk
    ensures CallOf(s, 1) == Answered(k, k, request, own, Product(request, own, [other]))
  {
    hide Run, Snap.Upto;
    longer, s := After(first, trace, Finish(0));
    PutAbsentThenMove(EMPTY, KeyOf(request, own), Product(request, own, [other]));
    longer, s := Recalled(first, longer, request, own, other);
  }

  lemma Recalled(first: Snap.Catalog, trace: seq<Action>, request: Id, own: Id, other: Id)
    returns (longer: seq<Action>, s: System)
    requires var before := Run(first, trace); var latest := |before.snap.disk| - 1; var key := KeyOf(request, own);
             && key in before.cache.store && before.cache.store[key] == Product(request, own, [other])
             && Free(before, 1) && before.snap.disk[latest].Present?
             && before.snap.memo == Snap.Memo(Some(Snap.Snapshot(own, 0)), Snap.StampOf(before.snap.disk[latest]))
    ensures s == Run(first, longer) && s.snap.disk == Run(first, trace).snap.disk
    ensures var latest := |s.snap.disk| - 1; CallOf(s, 1) == Answered(latest, latest, request, own, Product(request, own, [other]))
  {
    hide Run, Snap.Upto;
    longer, s := AskedFromMemory(first, trace, request, own);
    longer, s := After(first, longer, Advance(1, 0));
  }

  /** Thread 1 refreshes once version k has restored the revision. */
  lemma RefreshAt(disk: seq<Snap.Catalog>, trace: seq<Action>, j: nat, k: nat, building: Call)
    returns (longer: seq<Action>, s: System)
    requires j < k < |disk| && disk[j].Present? && disk[k].Present? && disk[k].revision.Some?
    requires disk[j].revision != disk[k].revision && disk[j].stamp != disk[k].stamp
    requires Sole(Run(disk[0], trace), disk, j, building)
    ensures s == Run(disk[0], longer) && s.snap.disk == Snap.Upto(disk, k + 1)
    ensures Restored(s, building, disk[k].revision.value)
  {
    hide Run, Snap.Upto;
    longer, s := PublishTo(disk[0], trace, disk, j + 1, k + 1);
    assert s.snap.disk[|s.snap.disk| - 1] == disk[k];
    var before := s.snap;
    longer, s := After(disk[0], longer, Refresh(1, false));
    hide Step;
    longer, s := Reload(disk[0], longer, before, 1, disk[k].revision.value);
  }

  /** What is needed of three versions over which a revision returns. */
  predicate Revived(disk: seq<Snap.Catalog>, i: nat, j: nat, k: nat, own: Id, other: Id)
    requires i < j < k < |disk|
  {
    && disk[i].Present? && disk[j].Present? && disk[k].Present? && own != other
    && disk[i].revision == Some(own) && disk[j].revision == Some(other) && disk[k].revision == Some(own)
    && disk[i].stamp != disk[j].stamp && disk[j].stamp != disk[k].stamp
  }

  /** A product keyed under version i's revision is built from version j's. */
  lemma MixedBuild(disk: seq<Snap.Catalog>, i: nat, j: nat, k: nat, request: Id, own: Id, other: Id)
    returns (trace: seq<Action>, s: System)
    requires i < j < k < |disk| && Revived(disk, i, j, k, own, other)
    ensures s == Run(disk[0], trace) && Sole(s, disk, j, Building(i, request, own, [other]))
  {
    hide Run, Step, Sole, Snap.Upto;
    trace, s := KeyedAt(disk, i, request);
    trace, s := ReadAt(disk, trace, i, j, Building(i, request, own, []));
  }

  /** Once version k restores the revision, the product is stored and answers a quiet call. */
  lemma MixedRecall(disk: seq<Snap.Catalog>, i: nat, j: nat, k: nat, request: Id, own: Id, other: Id)
    returns (trace: seq<Action>, s: System)
    requires i < j < k < |disk| && Revived(disk, i, j, k, own, other)
    ensures s == Run(disk[0], trace) && s.snap.disk == Snap.Upto(disk, k + 1)
    ensures CallOf(s, 1) == Answered(k, k, request, own, Product(request, own, [other]))
  {
    trace, s := MixedBuild(disk, i, j, k, request, own, other);
    hide Run, Step, Sole, Snap.Upto, Restored;
    trace, s := RefreshAt(disk, trace, j, k, Building(i, request, own, [other]));
    trace, s := QuietRecall(disk[0], trace, k, i, request, own, other);
  }

  /** So over any history in which a revision returns, some run answers a quiet call with a mixed product. */
  lemma MixedAnswer(disk: seq<Snap.Catalog>, i: nat, j: nat, k: nat, request: Id)
    returns (trace: seq<Action>, s: System)
    requires Snap.StampsDistinct(disk) && i < j < k < |disk| && ReturnsAt(disk, i, j, k)
    ensures s == Run(disk[0], trace) && s.snap.disk == disk
    ensures CallOf(s, 1) == Answered(k, k, request, disk[i].revision.value,
                                    Product(request, disk[i].revision.value, [disk[j].revision.value]))
  {
    ReturnFacts(disk, i, j, k);
    hide Run, Step, ReturnsAt, Snap.StampsDistinct, Snap.Upto;
    trace, s := MixedRecall(disk, i, j, k, request, disk[i].revision.value, disk[j].revision.value);
    trace, s := PublishRest(disk, trace, k);
  }

  /** Some run over this history gives a quiet call a product of another revision than its key's. */
  ghost predicate CanMix(disk: seq<Snap.Catalog>)
    requires |disk| > 0
  {
    exists actions: seq<Action>, t: Thread ::
      Run(disk[0], actions).snap.disk == disk && Quiet(CallOf(Run(disk[0], actions), t)) &&
      !Agrees(CallOf(Run(disk[0], actions), t))
  }

  ghost predicate CanMisdate(disk: seq<Snap.Catalog>)
    requires |disk| > 0
  {
    exists actions: seq<Action>, t: Thread ::
      Run(disk[0], actions).snap.disk == disk && Misdated(disk, CallOf(Run(disk[0], actions), t))
  }

  predicate Misdated(disk: seq<Snap.Catalog>, call: Call) {
    call.Answered? && !OfItsTime(disk, call)
  }

  /** The action a bare snapshot call takes here. */
  function Lifted(action: Snap.Action): Action {
    match action
    case Publish(catalog) => Publish(catalog)
    case Enter(t, force) => Refresh(t, force)
    case Advance(t, now) => Advance(t, now)
  }

  function Bare(snap: Snap.System): System {
    System(snap, EMPTY, [], map[])
  }

  lemma LiftedStep(snap: Snap.System, action: Snap.Action)
    requires |snap.disk| > 0
    ensures Step(Bare(snap), Lifted(action)) == Bare(Snap.Step(snap, action))
  {
  }

  /** Snapshot calls alone run here as they do without a result cache. */
  lemma {:induction false} Embedded(first: Snap.Catalog, actions: seq<Snap.Action>) returns (trace: seq<Action>)
    ensures Run(first, trace) == Bare(Snap.Run(first, actions))
  {
    if actions == [] {
      trace := [];
    } else {
      hide Step, Snap.Step;
      var init, last := actions[..|actions| - 1], actions[|actions| - 1];
      trace := Embedded(first, init);
      LiftedStep(Snap.Run(first, init), last);
      var s;
      trace, s := After(first, trace, Lifted(last));
    }
  }

  /** A revision without a stamp keys a product after its file has gone. */
  lemma StaleAnswer(disk: seq<Snap.Catalog>, m: nat, v: nat, k: nat, request: Id)
    returns (trace: seq<Action>, s: System)
    requires m < v < k < |disk| && Snap.GapAt(disk, m, v, k)
    ensures s == Run(disk[0], trace) && s.snap.disk == disk
    ensures CallOf(s, 1) == Answered(k, k, request, disk[v].revision.value, Product(request, disk[v].revision.value, []))
  {
    var actions, snap := Snap.LoadedUnstamped(disk, m, v);
    trace := Embedded(disk[0], actions);
    trace, s := StaleTail(disk, trace, v, k, request, disk[v].revision.value);
  }

  lemma StaleTail(disk: seq<Snap.Catalog>, trace: seq<Action>, v: nat, k: nat, request: Id, revision: Id)
    returns (longer: seq<Action>, s: System)
    requires v < k < |disk| && disk[k].Missing?
    requires var before := Run(disk[0], trace);
             && before == Bare(before.snap) && before.snap.disk == Snap.Upto(disk, v + 1) && before.snap.calls.Keys == {0}
             && before.snap.memo == Snap.Memo(Some(Snap.Snapshot(revision, 0)), None)
    ensures s == Run(disk[0], longer) && s.snap.disk == disk
    ensures CallOf(s, 1) == Answered(k, k, request, revision, Product(request, revision, []))
  {
    hide Snap.Upto, Run, Step;
    longer, s := PublishTo(disk[0], trace, disk, v + 1, k + 1);
    longer, s := AnsweredFromMemory(disk[0], longer, request, revision);
    longer, s := PublishRest(disk, longer, k);
  }

  /** A call answered for a snapshot in memory, its builder reading nothing more. */
  lemma AnsweredFromMemory(first: Snap.Catalog, trace: seq<Action>, request: Id, revision: Id)
    returns (longer: seq<Action>, s: System)
    requires var before := Run(first, trace); var latest := before.snap.disk[|before.snap.disk| - 1];
             && Free(before, 1) && before.cache == EMPTY && before.snap.memo.snapshot.Some?
             && before.snap.memo.snapshot.value.revision == revision && before.snap.memo.stamp == Snap.StampOf(latest)
    ensures var latest := |Run(first, trace).snap.disk| - 1;
            && s == Run(first, longer) && s.snap.disk == Run(first, trace).snap.disk
            && CallOf(s, 1) == Answered(latest, latest, request, revision, Product(request, revision, []))
  {
    hide Snap.Upto, Run, Stored;
    longer, s := AskedFromMemory(first, trace, request, revision);
    longer, s := After(first, longer, Advance(1, 0));
    longer, s := After(first, longer, Finish(1));
  }

  /** A call whose snapshot call was answered from memory. */
  lemma AskedFromMemory(first: Snap.Catalog, trace: seq<Action>, request: Id, revision: Id)
    returns (longer: seq<Action>, s: System)
    requires var before := Run(first, trace); var latest := before.snap.disk[|before.snap.disk| - 1];
             && Free(before, 1) && before.snap.memo.snapshot.Some?
             && before.snap.memo.snapshot.value.revision == revision && before.snap.memo.stamp == Snap.StampOf(latest)
    ensures var before := Run(first, trace);
            && s == Run(first, longer) && s.snap.disk == before.snap.disk && s.cache == before.cache
            && CallOf(s, 1) == Keying(|before.snap.disk| - 1, request)
            && Snap.CallOf(s.snap, 1).Returned? && Snap.CallOf(s.snap, 1).answer.revision == revision
  {
    hide Run, Snap.Upto;
    longer, s := After(first, trace, Ask(1, request));
    longer, s := After(first, longer, Advance(1, 0));
  }

  lemma BuiltOfAnother(disk: seq<Snap.Catalog>, k: nat, request: Id, own: Id, other: Id)
    requires k < |disk| && Snap.RevisionOf(disk[k]) != Some(other)
    ensures Misdated(disk, Answered(k, k, request, own, Product(request, own, [other])))
  {
    assert [other][0] == other;
  }

  lemma KeyedByAnother(disk: seq<Snap.Catalog>, k: nat, request: Id, own: Id)
    requires k < |disk| && Snap.RevisionOf(disk[k]) != Some(own)
    ensures Misdated(disk, Answered(k, k, request, own, Product(request, own, [])))
  {
  }

  lemma MixedIsMisdated(disk: seq<Snap.Catalog>, i: nat, j: nat, k: nat, request: Id)
    requires Snap.StampsDistinct(disk) && i < j < k < |disk| && ReturnsAt(disk, i, j, k)
    ensures CanMisdate(disk)
  {
    var trace, s := MixedAnswer(disk, i, j, k, request);
    BuiltOfAnother(disk, k, request, disk[i].revision.value, disk[j].revision.value);
    hide Run, ReturnsAt, Misdated, Snap.StampsDistinct;
    assert Misdated(disk, CallOf(s, 1));
  }

  lemma StaleIsMisdated(disk: seq<Snap.Catalog>, m: nat, v: nat, k: nat, request: Id)
    requires m < v < k < |disk| && Snap.GapAt(disk, m, v, k)
    ensures CanMisdate(disk)
  {
    var trace, s := StaleAnswer(disk, m, v, k, request);
    KeyedByAnother(disk, k, request, disk[v].revision.value);
    hide Run, Snap.GapAt, Misdated;
    assert Misdated(disk, CallOf(s, 1));
  }

  /** Over any catalog history: everything that goes into any answer of any run is of its call's time exactly
      when no replaced revision is published again and no readable catalog came between two absences. */
  lemma OfItsTimeExactlyWhenSteady(disk: seq<Snap.Catalog>, request: Id)
    requires |disk| > 0 && Snap.StampsDistinct(disk)
    ensures !CanMisdate(disk) <==> NeverReturns(disk) && Snap.NoGap(disk)
  {
    hide Snap.Upto, Run, Misdated, ReturnsAt, Snap.GapAt, Snap.StampsDistinct;
    if NeverReturns(disk) && Snap.NoGap(disk) {
      forall actions: seq<Action>, t: Thread | Run(disk[0], actions).snap.disk == disk
        ensures !Misdated(disk, CallOf(Run(disk[0], actions), t))
      {
        NeverMisdated(disk, actions, t);
      }
    } else if !Snap.NoGap(disk) {
      var m: nat, v: nat, k: nat :| m < v < k < |disk| && Snap.GapAt(disk, m, v, k);
      StaleIsMisdated(disk, m, v, k, request);
    } else {
      var i: nat, j: nat, k: nat :| i < j < k < |disk| && ReturnsAt(disk, i, j, k);
      MixedIsMisdated(disk, i, j, k, request);
    }
  }

  lemma NeverMisdated(disk: seq<Snap.Catalog>, actions: seq<Action>, t: Thread)
    requires |disk| > 0 && Run(disk[0], actions).snap.disk == disk
    requires Snap.StampsDistinct(disk) && NeverReturns(disk) && Snap.NoGap(disk)
    ensures !Misdated(disk, CallOf(Run(disk[0], actions), t))
  {
    if CallOf(Run(disk[0], actions), t).Answered? {
      ProductIsOfTheCall(disk[0], actions, t);
    }
  }

  // ----- Two revisions between two absences -----

  /** Two refreshes, by threads 1 and 2, found no file, then loaded two versions and have not installed them. */
  function Waiting(versions: seq<Snap.Catalog>, m: nat, v: nat, w: nat, own: Id, other: Id): Snap.System {
    Snap.System(versions, Snap.Memo(None, None), 0,
                map[1 := Snap.Loaded(false, m, None, v, own), 2 := Snap.Loaded(false, m, None, w, other)])
  }

  lemma TwoLoaded(disk: seq<Snap.Catalog>, m: nat, v: nat, w: nat, k: nat, own: Id, other: Id)
    returns (actions: seq<Snap.Action>)
    requires m < v < w < k < |disk| && disk[m].Missing?
    requires Snap.RevisionOf(disk[v]) == Some(own) && Snap.RevisionOf(disk[w]) == Some(other)
    ensures Snap.Run(disk[0], actions) == Waiting(Snap.Upto(disk, k + 1), m, v, w, own, other)
  {
    var s;
    actions, s := TwoMissed(disk, m);
    hide Snap.Run, Snap.Step, Snap.Upto;
    actions, s := Snap.LoadAt(disk, actions, 1, m + 1, m, v);
    actions, s := Snap.LoadAt(disk, actions, 2, v + 1, m, w);
    assert s == Waiting(Snap.Upto(disk, w + 1), m, v, w, own, other);
    actions, s := Snap.PublishTo(disk[0], actions, disk, w + 1, k + 1);
  }

  lemma TwoMissed(disk: seq<Snap.Catalog>, m: nat) returns (actions: seq<Snap.Action>, s: Snap.System)
    requires m < |disk| && disk[m].Missing?
    ensures s == Snap.Run(disk[0], actions) ==
            Snap.System(Snap.Upto(disk, m + 1), Snap.Memo(None, None), 0,
                        map[1 := Snap.Missed(false, m, None), 2 := Snap.Missed(false, m, None)])
  {
    Snap.Unpublished(disk);
    hide Snap.Run, Snap.Step;
    actions, s := Snap.PublishTo(disk[0], [], disk, 1, m + 1);
    actions, s := Snap.MissNow(disk[0], actions, 1);
    actions, s := Snap.MissNow(disk[0], actions, 2);
  }

  /** A refresh installs what it loaded and clears the cache. */
  lemma Settle(first: Snap.Catalog, trace: seq<Action>, t: Thread, m: nat, v: nat, revision: Id)
    returns (longer: seq<Action>, s: System)
    requires var before := Run(first, trace);
             Snap.CallOf(before.snap, t) == Snap.Loaded(false, m, None, v, revision) &&
             !Snap.Reusable(before.snap.memo, false, revision)
    ensures var before := Run(first, trace);
            && s == Run(first, longer) == System(s.snap, EMPTY, [], before.calls)
            && s.snap.disk == before.snap.disk && s.snap.memo == Snap.Memo(Some(Snap.Snapshot(revision, 0)), None)
            && s.snap.calls == before.snap.calls[t := Snap.CallOf(s.snap, t)] && Snap.CallOf(s.snap, t).Returned?
  {
    hide Run, Snap.Upto;
    longer, s := After(first, trace, Advance(t, 0));
  }

  lemma TwoInGapFacts(disk: seq<Snap.Catalog>, m: nat, v: nat, w: nat, k: nat)
    requires m < v < w < k < |disk| && TwoInGapAt(disk, m, v, w, k)
    ensures disk[m].Missing? && disk[k].Missing? && disk[v].Present? && disk[w].Present? && disk[v].revision.Some? && disk[w].revision.Some?
    ensures disk[v].revision != disk[w].revision
  {
  }

  /** Thread 0 keys a product from the first installed snapshot and builds it from the second. */
  lemma MixedInGap(disk: seq<Snap.Catalog>, m: nat, v: nat, w: nat, k: nat, request: Id)
    returns (trace: seq<Action>, s: System)
    requires m < v < w < k < |disk| && TwoInGapAt(disk, m, v, w, k)
    ensures s == Run(disk[0], trace) && s.snap.disk == disk
    ensures CallOf(s, 0) == Answered(k, k, request, disk[v].revision.value,
                                    Product(request, disk[v].revision.value, [disk[w].revision.value]))
  {
    TwoInGapFacts(disk, m, v, w, k);
    var own, other := disk[v].revision.value, disk[w].revision.value;
    var actions := TwoLoaded(disk, m, v, w, k, own, other);
    trace := Embedded(disk[0], actions);
    hide Run, Step, Snap.Run, Snap.Step, Snap.Upto, TwoInGapAt, Waiting;
    trace, s := SettleTwo(disk[0], trace, Snap.Upto(disk, k + 1), m, v, w, k, request, own, other);
    trace, s := PublishRest(disk, trace, k);
  }

  lemma SettleTwo(first: Snap.Catalog, trace: seq<Action>, versions: seq<Snap.Catalog>, m: nat, v: nat, w: nat, k: nat,
                  request: Id, own: Id, other: Id)
    returns (longer: seq<Action>, s: System)
    requires own != other && |versions| == k + 1 && versions[k].Missing?
    requires Run(first, trace) == Bare(Waiting(versions, m, v, w, own, other))
    ensures s == Run(first, longer) && s.snap.disk == versions
    ensures CallOf(s, 0) == Answered(k, k, request, own, Product(request, own, [other]))
  {
    hide Snap.Upto, Run, Step, Snap.Step;
    longer, s := Settle(first, trace, 1, m, v, own);
    longer, s := KeyedFromMemory(first, longer, request, own);
    longer, s := Settle(first, longer, 2, m, w, other);
    longer, s := FinishedFromMemory(first, longer, request, own, other);
  }

  lemma KeyedFromMemory(first: Snap.Catalog, trace: seq<Action>, request: Id, revision: Id)
    returns (longer: seq<Action>, s: System)
    requires var before := Run(first, trace);
             && before.calls == map[] && before.cache == EMPTY && Snap.CallOf(before.snap, 0).Idle?
             && before.snap.disk[|before.snap.disk| - 1].Missing?
             && before.snap.memo == Snap.Memo(Some(Snap.Snapshot(revision, 0)), None)
    ensures var before := Run(first, trace);
            && s == Run(first, longer) && s.snap.disk == before.snap.disk && s.snap.memo == before.snap.memo
            && s.snap.calls == before.snap.calls[0 := Snap.CallOf(s.snap, 0)] && Snap.CallOf(s.snap, 0).Returned?
            && s.calls == map[0 := Building(|before.snap.disk| - 1, request, revision, [])]
  {
    hide Run, Snap.Upto;
    longer, s := After(first, trace, Ask(0, request));
    longer, s := After(first, longer, Advance(0, 0));
    longer, s := After(first, longer, Advance(0, 0));
  }

  lemma FinishedFromMemory(first: Snap.Catalog, trace: seq<Action>, request: Id, own: Id, other: Id)
    returns (longer: seq<Action>, s: System)
    requires var before := Run(first, trace); var k := |before.snap.disk| - 1;
             && before.calls == map[0 := Building(k, request, own, [])] && Snap.CallOf(before.snap, 0).Returned?
             && before.snap.disk[k].Missing? && before.snap.memo == Snap.Memo(Some(Snap.Snapshot(other, 0)), None)
    ensures s == Run(first, longer) && s.snap.disk == Run(first, trace).snap.disk
    ensures var k := |Run(first, trace).snap.disk| - 1; CallOf(s, 0) == Answered(k, k, request, own, Product(request, own, [other]))
  {
    hide Snap.Upto, Run, Stored;
    var k := |Run(first, trace).snap.disk| - 1;
    longer, s := After(first, trace, Read(0));
    longer, s := After(first, longer, Advance(0, 0));
    longer, s := After(first, longer, Advance(0, 0));
    assert [] + [other] == [other] && CallOf(s, 0) == Building(k, request, own, [other]);
    longer, s := After(first, longer, Finish(0));
  }

  lemma DisagreesIsMixed(disk: seq<Snap.Catalog>, actions: seq<Action>, t: Thread, k: nat, request: Id, own: Id, other: Id)
    requires |disk| > 0 && Run(disk[0], actions).snap.disk == disk && own != other
    requires CallOf(Run(disk[0], actions), t) == Answered(k, k, request, own, Product(request, own, [other]))
    ensures CanMix(disk)
  {
    assert CallOf(Run(disk[0], actions), t).product.seen[0] != own;
  }

  /** Over any catalog history: the answers of all calls during which nothing is published are built from
      their key's revision, in every run, exactly when no replaced revision is published again and no two
      revisions were readable between two absences. */
  lemma QuietAnswersAgreeExactly(disk: seq<Snap.Catalog>, request: Id)
    requires |disk| > 0 && Snap.StampsDistinct(disk)
    ensures !CanMix(disk) <==> NeverReturns(disk) && OneInGap(disk)
  {
    hide Snap.Upto, Run, ReturnsAt, TwoInGapAt, Snap.StampsDistinct, Agrees;
    if NeverReturns(disk) && OneInGap(disk) {
      forall actions: seq<Action>, t: Thread |
          Run(disk[0], actions).snap.disk == disk && Quiet(CallOf(Run(disk[0], actions), t))
        ensures Agrees(CallOf(Run(disk[0], actions), t))
      {
        QuietAnswerAgrees(disk[0], actions, t);
      }
    } else if !NeverReturns(disk) {
      var i: nat, j: nat, k: nat :| i < j < k < |disk| && ReturnsAt(disk, i, j, k);
      ReturnMixes(disk, i, j, k, request);
    } else {
      var m: nat, v: nat, w: nat, k: nat :| m < v < w < k < |disk| && TwoInGapAt(disk, m, v, w, k);
      GapMixes(disk, m, v, w, k, request);
    }
  }

  lemma ReturnMixes(disk: seq<Snap.Catalog>, i: nat, j: nat, k: nat, request: Id)
    requires Snap.StampsDistinct(disk) && i < j < k < |disk| && ReturnsAt(disk, i, j, k)
    ensures CanMix(disk)
  {
    var trace, s := MixedAnswer(disk, i, j, k, request);
    hide Run, Snap.Upto;
    DisagreesIsMixed(disk, trace, 1, k, request, disk[i].revision.value, disk[j].revision.value);
  }

  lemma GapMixes(disk: seq<Snap.Catalog>, m: nat, v: nat, w: nat, k: nat, request: Id)
    requires m < v < w < k < |disk| && TwoInGapAt(disk, m, v, w, k)
    ensures CanMix(disk)
  {
    var trace, s := MixedInGap(disk, m, v, w, k, request);
    hide Run, Snap.Upto;
    DisagreesIsMixed(disk, trace, 0, k, request, disk[v].revision.value, disk[w].revision.value);
  }
}
