/** `_compare`: head-to-head counts over the races two entities share. */
module HeadToHead {
  import opened Support
  import opened Grouping
  import opened Observations

  datatype Verdict = AheadA | AheadB | Level | NotComparable

  function Swapped(verdict: Verdict): Verdict {
    match verdict
    case AheadA => AheadB
    case AheadB => AheadA
    case _ => verdict
  }

  datatype Counts = Counts(
    common: int, aheadA: int, aheadB: int, tied: int, excluded: int, teammates: int, denominator: int)

  datatype Error = EntityNotFound

  function Races(items: seq<Observation>): set<Id> {
    set i | 0 <= i < |items| :: items[i].session
  }

  /** A dict comprehension keyed by session: the last observation of a session wins. */
  function BySession(items: seq<Observation>): map<Id, Observation> {
    if items == [] then map[]
    else BySession(items[..|items| - 1])[items[|items| - 1].session := items[|items| - 1]]
  }

  lemma {:induction false} BySessionKeys(items: seq<Observation>)
    ensures BySession(items).Keys == Races(items)
  {
    if items != [] {
      var init, last := items[..|items| - 1], items[|items| - 1];
      BySessionKeys(init);
      forall id
        ensures id in Races(items) <==> id in Races(init) || id == last.session
      {
        if id in Races(items) {
          var i :| 0 <= i < |items| && items[i].session == id;
          assert i < |init| ==> init[i].session == id;
        }
        if id in Races(init) {
          var i :| 0 <= i < |init| && init[i].session == id;
          assert items[i].session == id;
        }
      }
    }
  }

  /** The dict holds each session's last observation. */
  lemma {:induction false} BySessionIsLast(items: seq<Observation>, id: Id) returns (i: nat)
    requires id in Races(items)
    ensures id in BySession(items) && i < |items| && items[i].session == id && BySession(items)[id] == items[i]
    ensures forall j :: i < j < |items| ==> items[j].session != id
  {
    var init, last := items[..|items| - 1], items[|items| - 1];
    if last.session == id {
      i := |items| - 1;
    } else {
      var k :| 0 <= k < |items| && items[k].session == id;
      assert init[k].session == id;
      i := BySessionIsLast(init, id);
    }
  }

  function DriverVerdict(a: Observation, b: Observation): Verdict {
    if !Comparable(a) || !Comparable(b) || a.finish.None? || b.finish.None? then NotComparable
    else if a.finish.value < b.finish.value then AheadA
    else if b.finish.value < a.finish.value then AheadB
    else Level
  }

  function SessionOf(item: Observation): Option<Id> {
    Some(item.session)
  }

  function SessionPoints(items: seq<Observation>, session: Id): int {
    Total(Points, Group(items, SessionOf, session))
  }

  function TeamVerdict(a: int, b: int): Verdict {
    if a > b then AheadA else if b > a then AheadB else Level
  }

  /** Which way each race of one comparison went. */
  function DriverVerdicts(a: seq<Observation>, b: seq<Observation>): map<Id, Verdict> {
    BySessionKeys(a);
    BySessionKeys(b);
    map id | id in Races(a) && id in Races(b) :: DriverVerdict(BySession(a)[id], BySession(b)[id])
  }

  function TeamVerdicts(a: seq<Observation>, b: seq<Observation>): map<Id, Verdict> {
    map id | id in Races(a) && id in Races(b) :: TeamVerdict(SessionPoints(a, id), SessionPoints(b, id))
  }

  function Decided(verdicts: map<Id, Verdict>, verdict: Verdict): set<Id> {
    set id | id in verdicts && verdicts[id] == verdict
  }

  function Teammates(a: seq<Observation>, b: seq<Observation>): set<Id> {
    BySessionKeys(a);
    BySessionKeys(b);
    set id | id in Races(a) && id in Races(b) &&
      BySession(a)[id].team.Some? && BySession(a)[id].team == BySession(b)[id].team
  }

  // ----- Counting over a set of races, in whatever order the set yields them -----

  function CountOf(verdicts: map<Id, Verdict>, verdict: Verdict, seen: set<Id>): int {
    |set id | id in verdicts && id in seen && verdicts[id] == verdict|
  }

  lemma CountNone(verdicts: map<Id, Verdict>)
    ensures forall v :: CountOf(verdicts, v, {}) == 0
  {
  }

  lemma CountAll(verdicts: map<Id, Verdict>)
    ensures forall v :: CountOf(verdicts, v, verdicts.Keys) == |Decided(verdicts, v)|
  {
    forall v
      ensures CountOf(verdicts, v, verdicts.Keys) == |Decided(verdicts, v)|
    {
      assert Decided(verdicts, v) == set id | id in verdicts && id in verdicts.Keys && verdicts[id] == v;
    }
  }

  lemma CountOne(verdicts: map<Id, Verdict>, seen: set<Id>, id: Id)
    requires id !in seen && id in verdicts
    ensures forall v :: CountOf(verdicts, v, seen + {id}) ==
                        CountOf(verdicts, v, seen) + if verdicts[id] == v then 1 else 0
  {
    forall v
      ensures CountOf(verdicts, v, seen + {id}) == CountOf(verdicts, v, seen) + if verdicts[id] == v then 1 else 0
    {
      var before := set x | x in verdicts && x in seen && verdicts[x] == v;
      var after := set x | x in verdicts && x in seen + {id} && verdicts[x] == v;
      assert after == if verdicts[id] == v then before + {id} else before;
    }
  }

  function PairMark(same: bool): Verdict {
    if same then Level else NotComparable
  }

  /** The loop of the driver branch. `pairs` marks teammate races as `Level`. */
  method TallyDrivers(common: set<Id>, a: map<Id, Observation>, b: map<Id, Observation>,
                      ghost verdicts: map<Id, Verdict>, ghost pairs: map<Id, Verdict>)
    returns (aheadA: int, aheadB: int, excluded: int, teammates: int)
    requires verdicts.Keys == pairs.Keys == common
    requires forall id :: id in common ==>
      && id in a && id in b && verdicts[id] == DriverVerdict(a[id], b[id])
      && pairs[id] == PairMark(a[id].team.Some? && a[id].team == b[id].team)
    ensures aheadA == CountOf(verdicts, AheadA, common)
    ensures aheadB == CountOf(verdicts, AheadB, common)
    ensures excluded == CountOf(verdicts, NotComparable, common)
    ensures teammates == CountOf(pairs, Level, common)
  {
    hide CountOf;
    aheadA, aheadB, excluded, teammates := 0, 0, 0, 0;
    var rest := common;
    CountNone(verdicts);
    CountNone(pairs);
    assert common - rest == {};
    while rest != {}
      invariant rest <= common
      invariant aheadA == CountOf(verdicts, AheadA, common - rest)
      invariant aheadB == CountOf(verdicts, AheadB, common - rest)
      invariant excluded == CountOf(verdicts, NotComparable, common - rest)
      invariant teammates == CountOf(pairs, Level, common - rest)
      decreases rest
    {
      var session :| session in rest;
      var x, y := a[session], b[session];
      ghost var seen := common - rest;
      CountOne(verdicts, seen, session);
      CountOne(pairs, seen, session);
      if x.team.Some? && x.team == y.team {
        teammates := teammates + 1;
      }
      if !Comparable(x) || !Comparable(y) || x.finish.None? || y.finish.None? {
        excluded := excluded + 1;
      } else if x.finish.value < y.finish.value {
        aheadA := aheadA + 1;
      } else if y.finish.value < x.finish.value {
        aheadB := aheadB + 1;
      }
      rest := rest - {session};
      assert common - rest == seen + {session};
    }
    assert common - rest == common;
  }

  /** The loop of the constructor branch. */
  method TallyTeams(common: set<Id>, a: map<Id, seq<Observation>>, b: map<Id, seq<Observation>>,
                    ghost verdicts: map<Id, Verdict>)
    returns (aheadA: int, aheadB: int, tied: int)
    requires verdicts.Keys == common
    requires forall id :: id in common ==>
      id in a && id in b && verdicts[id] == TeamVerdict(Total(Points, a[id]), Total(Points, b[id]))
    ensures aheadA == CountOf(verdicts, AheadA, common)
    ensures aheadB == CountOf(verdicts, AheadB, common)
    ensures tied == CountOf(verdicts, Level, common)
  {
    hide CountOf;
    aheadA, aheadB, tied := 0, 0, 0;
    var rest := common;
    CountNone(verdicts);
    assert common - rest == {};
    while rest != {}
      invariant rest <= common
      invariant aheadA == CountOf(verdicts, AheadA, common - rest)
      invariant aheadB == CountOf(verdicts, AheadB, common - rest)
      invariant tied == CountOf(verdicts, Level, common - rest)
      decreases rest
    {
      var session :| session in rest;
      ghost var seen := common - rest;
      CountOne(verdicts, seen, session);
      var pointsA, pointsB := Total(Points, a[session]), Total(Points, b[session]);
      if pointsA > pointsB {
        aheadA := aheadA + 1;
      } else if pointsB > pointsA {
        aheadB := aheadB + 1;
      } else {
        tied := tied + 1;
      }
      rest := rest - {session};
      assert common - rest == seen + {session};
    }
    assert common - rest == common;
  }

  /** Teammate races as verdicts, so that one counting scheme serves both counters of the loop. */
  ghost function Pairs(a: seq<Observation>, b: seq<Observation>): map<Id, Verdict> {
    BySessionKeys(a);
    BySessionKeys(b);
    map id | id in Races(a) && id in Races(b) ::
      PairMark(BySession(a)[id].team.Some? && BySession(a)[id].team == BySession(b)[id].team)
  }

  lemma PairsAreTeammates(a: seq<Observation>, b: seq<Observation>)
    ensures Decided(Pairs(a, b), Level) == Teammates(a, b)
  {
  }

  /** Finished or classified, with a position. */
  predicate Placed(item: Observation) {
    (item.outcome == Finished || item.outcome == Classified) && item.finish.Some?
  }

  predicate Beats(item: Observation, other: Observation) {
    Placed(item) && Placed(other) && item.finish.value < other.finish.value
  }

  predicate SameTeam(item: Observation, other: Observation) {
    match (item.team, other.team)
    case (Some(team), Some(rival)) => team == rival
    case _ => false
  }

  /** The races decided each way, in plain terms. */
  lemma DriverSets(a: seq<Observation>, b: seq<Observation>)
    ensures var verdicts, lastA, lastB := DriverVerdicts(a, b), BySession(a), BySession(b);
            && Decided(verdicts, AheadA) == (set id | id in lastA && id in lastB && Beats(lastA[id], lastB[id]))
            && Decided(verdicts, AheadB) == (set id | id in lastA && id in lastB && Beats(lastB[id], lastA[id]))
            && Decided(verdicts, NotComparable) ==
               (set id | id in lastA && id in lastB && !(Placed(lastA[id]) && Placed(lastB[id])))
            && Teammates(a, b) == (set id | id in lastA && id in lastB && SameTeam(lastA[id], lastB[id]))
  {
    BySessionKeys(a);
    BySessionKeys(b);
    assert forall id :: id in BySession(a) <==> id in Races(a);
    assert forall id :: id in BySession(b) <==> id in Races(b);
  }

  method CompareDrivers(a: seq<Observation>, b: seq<Observation>) returns (result: Result<Counts, Error>)
    ensures result.Err? <==> a == [] || b == []
    ensures result.Ok? ==>
              var counts, verdicts := result.value, DriverVerdicts(a, b);
              && counts.common == |Races(a) * Races(b)|
              && counts.aheadA == |Decided(verdicts, AheadA)|
              && counts.aheadB == |Decided(verdicts, AheadB)|
              && counts.tied == 0
              && counts.excluded == |Decided(verdicts, NotComparable)|
              && counts.teammates == |Teammates(a, b)|
              && counts.denominator == counts.aheadA + counts.aheadB + counts.tied
    ensures result.Ok? ==>
              var counts, lastA, lastB := result.value, BySession(a), BySession(b);
              && counts.aheadA == |set id | id in lastA && id in lastB && Beats(lastA[id], lastB[id])|
              && counts.aheadB == |set id | id in lastA && id in lastB && Beats(lastB[id], lastA[id])|
              && counts.excluded == |set id | id in lastA && id in lastB && !(Placed(lastA[id]) && Placed(lastB[id]))|
              && counts.teammates == |set id | id in lastA && id in lastB && SameTeam(lastA[id], lastB[id])|
  {
    DriverSets(a, b);
    if a == [] || b == [] {
      return Err(EntityNotFound);
    }
    BySessionKeys(a);
    BySessionKeys(b);
    var common := Races(a) * Races(b);
    var bySessionA, bySessionB := BySession(a), BySession(b);
    ghost var verdicts, pairs := DriverVerdicts(a, b), Pairs(a, b);
    assert verdicts.Keys == pairs.Keys == common;
    var aheadA, aheadB, excluded, teammates := TallyDrivers(common, bySessionA, bySessionB, verdicts, pairs);
    hide BySession, Races, Teammates, Decided, DriverVerdicts, Comparable, Pairs;
    PairsAreTeammates(a, b);
    CountAll(verdicts);
    CountAll(pairs);
    result := Ok(Counts(|common|, aheadA, aheadB, 0, excluded, teammates, aheadA + aheadB + 0));
  }

  lemma TeamSets(a: seq<Observation>, b: seq<Observation>)
    ensures var verdicts, common := TeamVerdicts(a, b), Races(a) * Races(b);
            && Decided(verdicts, AheadA) == (set id | id in common && SessionPoints(a, id) > SessionPoints(b, id))
            && Decided(verdicts, AheadB) == (set id | id in common && SessionPoints(a, id) < SessionPoints(b, id))
            && Decided(verdicts, Level) == (set id | id in common && SessionPoints(a, id) == SessionPoints(b, id))
  {
    hide SessionPoints, Races;
    assert TeamVerdicts(a, b).Keys == Races(a) * Races(b);
  }

  method CompareTeams(a: seq<Observation>, b: seq<Observation>) returns (result: Result<Counts, Error>)
    ensures result.Err? <==> a == [] || b == []
    ensures result.Ok? ==>
              var counts, verdicts := result.value, TeamVerdicts(a, b);
              && counts.common == |Races(a) * Races(b)|
              && counts.aheadA == |Decided(verdicts, AheadA)|
              && counts.aheadB == |Decided(verdicts, AheadB)|
              && counts.tied == |Decided(verdicts, Level)|
              && counts.excluded == 0 && counts.teammates == 0
              && counts.denominator == counts.aheadA + counts.aheadB + counts.tied
    ensures result.Ok? ==>
              var counts, common := result.value, Races(a) * Races(b);
              && counts.aheadA == |set id | id in common && SessionPoints(a, id) > SessionPoints(b, id)|
              && counts.aheadB == |set id | id in common && SessionPoints(a, id) < SessionPoints(b, id)|
              && counts.tied == |set id | id in common && SessionPoints(a, id) == SessionPoints(b, id)|
  {
    TeamSets(a, b);
    if a == [] || b == [] {
      return Err(EntityNotFound);
    }
    var _, groupsA := Groups(a, SessionOf);
    var _, groupsB := Groups(b, SessionOf);
    var common := Races(a) * Races(b);
    ghost var verdicts := TeamVerdicts(a, b);
    forall id | id in common
      ensures id in groupsA && id in groupsB
    {
      RaceHasGroup(a, id);
      RaceHasGroup(b, id);
    }
    assert verdicts.Keys == common;
    var aheadA, aheadB, tied := TallyTeams(common, groupsA, groupsB, verdicts);
    CountAll(verdicts);
    result := Ok(Counts(|common|, aheadA, aheadB, tied, 0, 0, aheadA + aheadB + tied));
  }

  lemma RaceHasGroup(items: seq<Observation>, session: Id)
    requires session in Races(items)
    ensures Group(items, SessionOf, session) != []
  {
    var i :| 0 <= i < |items| && items[i].session == session;
    GroupMember(items, SessionOf, session, items[i]);
  }

  // ----- The results -----

  /** Every race is decided exactly one way. */
  lemma VerdictsPartition(verdicts: map<Id, Verdict>)
    ensures |verdicts.Keys| == |Decided(verdicts, AheadA)| + |Decided(verdicts, AheadB)|
                               + |Decided(verdicts, Level)| + |Decided(verdicts, NotComparable)|
  {
    var a, b := Decided(verdicts, AheadA), Decided(verdicts, AheadB);
    var level, excluded := Decided(verdicts, Level), Decided(verdicts, NotComparable);
    assert a !! b && (a + b) !! level && (a + b + level) !! excluded;
    forall id | id in verdicts
      ensures id in a + b + level + excluded
    {
      assert id in Decided(verdicts, verdicts[id]);
    }
    hide Decided;
    assert verdicts.Keys == a + b + level + excluded;
  }

  /** Swapping the drivers swaps the two counts and keeps the rest. */
  lemma DriversMirror(a: seq<Observation>, b: seq<Observation>, verdict: Verdict)
    ensures Decided(DriverVerdicts(b, a), Swapped(verdict)) == Decided(DriverVerdicts(a, b), verdict)
    ensures Teammates(b, a) == Teammates(a, b) && Races(a) * Races(b) == Races(b) * Races(a)
  {
    BySessionKeys(a);
    BySessionKeys(b);
    forall id | id in Races(a) && id in Races(b)
      ensures DriverVerdicts(b, a)[id] == Swapped(DriverVerdicts(a, b)[id])
    {
    }
    assert DriverVerdicts(b, a).Keys == DriverVerdicts(a, b).Keys;
  }

  lemma TeamsMirror(a: seq<Observation>, b: seq<Observation>, verdict: Verdict)
    ensures Decided(TeamVerdicts(b, a), Swapped(verdict)) == Decided(TeamVerdicts(a, b), verdict)
  {
    hide SessionPoints, Races;
    assert TeamVerdicts(b, a).Keys == TeamVerdicts(a, b).Keys;
  }

  /** For constructors the reported counts account for every common race. */
  lemma TeamsConserveRaces(a: seq<Observation>, b: seq<Observation>)
    ensures var verdicts := TeamVerdicts(a, b);
            |Races(a) * Races(b)| ==
            |Decided(verdicts, AheadA)| + |Decided(verdicts, AheadB)| + |Decided(verdicts, Level)|
  {
    var verdicts := TeamVerdicts(a, b);
    VerdictsPartition(verdicts);
    assert verdicts.Keys == Races(a) * Races(b);
    assert Decided(verdicts, NotComparable) == {};
  }

  /** For drivers the reported counts account for every common race exactly when no race they both
      finished has them in the same position: such races are counted nowhere. */
  lemma DriversConserveRaces(a: seq<Observation>, b: seq<Observation>)
    ensures var verdicts := DriverVerdicts(a, b);
            var counted := |Decided(verdicts, AheadA)| + |Decided(verdicts, AheadB)| + |Decided(verdicts, NotComparable)|;
            && |Races(a) * Races(b)| == counted + |Decided(verdicts, Level)|
            && (|Races(a) * Races(b)| == counted <==>
                  forall id :: id in verdicts ==> verdicts[id] != Level)
  {
    var verdicts := DriverVerdicts(a, b);
    VerdictsPartition(verdicts);
    assert verdicts.Keys == Races(a) * Races(b);
    assert |Decided(verdicts, Level)| == 0 <==> Decided(verdicts, Level) == {};
    assert forall id :: id in verdicts && verdicts[id] == Level ==> id in Decided(verdicts, Level);
  }
}
