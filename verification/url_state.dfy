/** Decimal texts and comma-separated lists, as the telemetry address uses them. */
module Texts {

  predicate IsDigit(c: char) {
    '0' <= c <= '9'
  }

  predicate AllDigits(s: string) {
    s != [] && forall i :: 0 <= i < |s| ==> IsDigit(s[i])
  }

  function DigitValue(c: char): nat
    requires IsDigit(c)
  {
    (c - '0') as int
  }

  /** The number a run of digits denotes, leading zeros allowed. */
  function ValueOf(s: string): nat
    requires forall i :: 0 <= i < |s| ==> IsDigit(s[i])
  {
    if s == [] then 0 else 10 * ValueOf(s[..|s| - 1]) + DigitValue(s[|s| - 1])
  }

  function DigitChar(d: nat): (c: char)
    requires d < 10
    ensures IsDigit(c) && DigitValue(c) == d
  {
    '0' + d as char
  }

  function DigitText(n: nat): string {
    if n < 10 then [DigitChar(n)] else DigitText(n / 10) + [DigitChar(n % 10)]
  }

  function IntText(n: int): string {
    if n < 0 then "-" + DigitText(-n) else DigitText(n)
  }

  lemma AppendDigit(s: string, d: nat)
    requires d < 10 && forall i :: 0 <= i < |s| ==> IsDigit(s[i])
    ensures AllDigits(s + [DigitChar(d)]) && ValueOf(s + [DigitChar(d)]) == 10 * ValueOf(s) + d
  {
    assert (s + [DigitChar(d)])[..|s|] == s;
  }

  lemma {:induction false} DigitTextRoundTrip(n: nat)
    ensures AllDigits(DigitText(n)) && ValueOf(DigitText(n)) == n
  {
    if n < 10 {
      AppendDigit([], n);
      assert [] + [DigitChar(n)] == [DigitChar(n)];
    } else {
      DigitTextRoundTrip(n / 10);
      AppendDigit(DigitText(n / 10), n % 10);
    }
  }

  /** String.split(","). */
  function Split(s: string): (parts: seq<string>)
    ensures |parts| > 0
  {
    if s == [] then [""]
    else
      var rest := Split(s[1..]);
      if s[0] == ',' then [""] + rest else [[s[0]] + rest[0]] + rest[1..]
  }

  lemma {:induction false} SplitPlain(s: string)
    requires ',' !in s
    ensures Split(s) == [s]
  {
    if s != [] {
      SplitPlain(s[1..]);
      assert [s[0]] + s[1..] == s;
    }
  }

  lemma {:induction false} SplitPair(a: string, b: string)
    requires ',' !in a && ',' !in b
    ensures Split(a + "," + b) == [a, b]
  {
    if a == [] {
      assert (a + "," + b)[1..] == b;
      SplitPlain(b);
    } else {
      assert (a + "," + b)[1..] == a[1..] + "," + b;
      SplitPair(a[1..], b);
      assert [a[0]] + a[1..] == a;
      assert [a[1..], b][1..] == [b];
    }
  }
}

/** The telemetry workspace's shareable address. */
module UrlState {
  import opened Support
  import opened Texts

  /** Query parameter names; any other name is `Other`. */
  datatype Param =
    | RaceSessionId | ReplaySessionId | ContextInvalid
    | Session | Revision | DriverA | LapA | DriverB | LapB | ViewName | Zoom
    | Flagged(flag: QualityFlag)
    | LegacyDriver | LegacyLap | Other(name: string)

  datatype QualityFlag = AllowPartial | AllowPitLaps | AllowDeleted | AllowProviderGenerated | AllowUnreliable

  /** A decoded query string. */
  type Query = seq<(Param, string)>

  datatype View = Overview | Performance | Inputs | Track | Corners | Details

  datatype ReferenceKind = Race | Replay | Invalid

  datatype Reference = Reference(kind: ReferenceKind, id: string)

  datatype Side = A | B

  datatype Selection = Selection(
    context: Option<Reference>, validateLaps: bool,
    session: Option<string>, revision: Option<string>,
    drivers: map<Side, string>, laps: map<Side, nat>,
    view: View, zoom: Option<(real, real)>, flags: map<QualityFlag, bool>)

  const QUALITY_FLAGS := [AllowPartial, AllowPitLaps, AllowDeleted, AllowProviderGenerated, AllowUnreliable]

  const SIDES := [A, B]

  // ----- URLSearchParams -----

  function GetAll(q: Query, key: Param): seq<string> {
    if q == [] then []
    else (if q[0].0 == key then [q[0].1] else []) + GetAll(q[1..], key)
  }

  predicate Has(q: Query, key: Param) {
    GetAll(q, key) != []
  }

  function Get(q: Query, key: Param): Option<string> {
    if Has(q, key) then Some(GetAll(q, key)[0]) else None
  }

  // ----- What counts as well written -----

  predicate Alphanumeric(c: char) {
    'a' <= c <= 'z' || IsDigit(c)
  }

  /** Runs of lower-case letters and digits, joined by single separators. */
  predicate Slug(s: string, separators: set<char>) {
    && s != [] && Alphanumeric(s[0]) && Alphanumeric(s[|s| - 1])
    && (forall i :: 0 <= i < |s| ==> Alphanumeric(s[i]) || s[i] in separators)
    && (forall i :: 0 < i < |s| ==> Alphanumeric(s[i - 1]) || Alphanumeric(s[i]))
  }

  predicate ReferenceId(s: string) {
    |s| <= 240 && Slug(s, {'-'})
  }

  predicate SessionId(s: string) {
    |s| <= 120 && Slug(s, {'-', '_'})
  }

  predicate RevisionId(s: string) {
    |s| == 64 && forall i :: 0 <= i < |s| ==> IsDigit(s[i]) || 'a' <= s[i] <= 'f'
  }

  predicate DriverNumber(s: string) {
    1 <= |s| <= 3 && AllDigits(s) && s[0] != '0'
  }

  predicate LapText(s: string) {
    AllDigits(s) && 1 <= ValueOf(s) <= 1000
  }

  predicate ZoomBounds(zoom: (real, real)) {
    0.0 <= zoom.0 < zoom.1 <= MAX_ZOOM as real
  }

  const MAX_ZOOM: nat := 100000

  /** JavaScript's Number on a text, None when the result is not finite. Only the canonical decimals of
      possible zoom bounds matter. */
  type Numeral = string -> Option<real>

  ghost predicate ReadsDecimals(number: Numeral) {
    forall n: nat :: n <= MAX_ZOOM ==> number(DigitText(n)) == Some(n as real)
  }

  // ----- Names -----

  function NameOf(view: View): string {
    match view
    case Overview => "overview"
    case Performance => "performance"
    case Inputs => "inputs"
    case Track => "track"
    case Corners => "corners"
    case Details => "details"
  }

  function ViewOf(name: Option<string>): View {
    if name == Some("performance") then Performance
    else if name == Some("inputs") then Inputs
    else if name == Some("track") then Track
    else if name == Some("corners") then Corners
    else if name == Some("details") then Details
    else Overview
  }

  lemma ViewRoundTrip(view: View)
    ensures ViewOf(Some(NameOf(view))) == view
  {
    assert "corners"[0] != "details"[0];
  }

  function BoolText(b: bool): string {
    if b then "true" else "false"
  }

  // ----- Parsing -----

  function ReferencesTo(kind: ReferenceKind, ids: seq<string>): seq<Reference> {
    seq(|ids|, i requires 0 <= i < |ids| => Reference(kind, ids[i]))
  }

  function References(q: Query): seq<Reference> {
    ReferencesTo(Race, GetAll(q, RaceSessionId)) + ReferencesTo(Replay, GetAll(q, ReplaySessionId))
  }

  function ParsedContext(q: Query): Option<Reference> {
    var refs := References(q);
    if refs == [] && !Has(q, ContextInvalid) then None
    else if |refs| == 1 && !Has(q, Session) && !Has(q, ContextInvalid) && ReferenceId(refs[0].id) then Some(refs[0])
    else Some(Reference(Invalid, ""))
  }

  function Accepted(value: Option<string>, ok: string -> bool): Option<string> {
    if value.Some? && ok(value.value) then value else None
  }

  function OrElse(value: Option<string>, fallback: Option<string>): Option<string> {
    if value.Some? then value else fallback
  }

  function DriverParam(q: Query, side: Side): Option<string> {
    if side.A? then OrElse(Get(q, DriverA), Get(q, LegacyDriver)) else Get(q, DriverB)
  }

  function LapParam(q: Query, side: Side): Option<string> {
    if side.A? then OrElse(Get(q, LapA), Get(q, LegacyLap)) else Get(q, LapB)
  }

  predicate HasDriver(q: Query, side: Side) {
    DriverParam(q, side).Some? && DriverNumber(DriverParam(q, side).value)
  }

  predicate HasLap(q: Query, side: Side) {
    LapParam(q, side).Some? && LapText(LapParam(q, side).value)
  }

  function ParsedZoom(number: Numeral, q: Query): Option<(real, real)> {
    var text := Get(q, Zoom);
    if text.None? then None
    else
      var parts := Split(text.value);
      if |parts| == 2 && number(parts[0]).Some? && number(parts[1]).Some? &&
         ZoomBounds((number(parts[0]).value, number(parts[1]).value))
      then Some((number(parts[0]).value, number(parts[1]).value)) else None
  }

  function FlagsOf(q: Query, flags: seq<QualityFlag>): map<QualityFlag, bool> {
    map flag | flag in flags && Has(q, Flagged(flag)) :: GetAll(q, Flagged(flag)) == ["true"]
  }

  function Parsed(number: Numeral, q: Query): Selection {
    Selection(ParsedContext(q), false,
              Accepted(Get(q, Session), SessionId), Accepted(Get(q, Revision), RevisionId),
              DriversOf(q, SIDES), LapsOf(q, SIDES),
              ViewOf(Get(q, ViewName)), ParsedZoom(number, q), FlagsOf(q, QUALITY_FLAGS))
  }

  function DriversOf(q: Query, sides: seq<Side>): map<Side, string> {
    map side: Side | side in sides && HasDriver(q, side) :: DriverParam(q, side).value
  }

  function LapsOf(q: Query, sides: seq<Side>): map<Side, nat> {
    map side: Side | side in sides && HasLap(q, side) :: ValueOf(LapParam(q, side).value)
  }

  lemma OneMoreSide(q: Query, sides: seq<Side>, side: Side)
    ensures DriversOf(q, sides + [side]) ==
            if HasDriver(q, side) then DriversOf(q, sides)[side := DriverParam(q, side).value] else DriversOf(q, sides)
    ensures LapsOf(q, sides + [side]) ==
            if HasLap(q, side) then LapsOf(q, sides)[side := ValueOf(LapParam(q, side).value)] else LapsOf(q, sides)
  {
    hide DriverParam, LapParam, HasDriver, HasLap, ValueOf;
    assert forall other :: other in sides + [side] <==> other in sides || other == side;
  }

  method ParseSides(q: Query, sides: seq<Side>) returns (drivers: map<Side, string>, laps: map<Side, nat>)
    ensures drivers == DriversOf(q, sides) && laps == LapsOf(q, sides)
  {
    drivers, laps := map[], map[];
    assert DriversOf(q, []) == map[] && LapsOf(q, []) == map[];
    for i := 0 to |sides|
      invariant drivers == DriversOf(q, sides[..i]) && laps == LapsOf(q, sides[..i])
    {
      hide DriversOf, LapsOf, DriverParam, LapParam;
      var side := sides[i];
      OneMoreSide(q, sides[..i], side);
      assert sides[..i + 1] == sides[..i] + [side];
      if HasDriver(q, side) {
        drivers := drivers[side := DriverParam(q, side).value];
      }
      if HasLap(q, side) {
        laps := laps[side := ValueOf(LapParam(q, side).value)];
      }
    }
    assert sides[..|sides|] == sides;
  }

  lemma OneMoreFlag(q: Query, flags: seq<QualityFlag>, flag: QualityFlag)
    ensures var values := GetAll(q, Flagged(flag));
            FlagsOf(q, flags + [flag]) ==
            if values == [] then FlagsOf(q, flags) else FlagsOf(q, flags)[flag := |values| == 1 && values[0] == "true"]
  {
    hide GetAll;
    var values := GetAll(q, Flagged(flag));
    assert forall other :: other in flags + [flag] <==> other in flags || other == flag;
    assert values == ["true"] <==> |values| == 1 && values[0] == "true";
  }

  method ParseFlags(q: Query, flags: seq<QualityFlag>) returns (chosen: map<QualityFlag, bool>)
    ensures chosen == FlagsOf(q, flags)
  {
    chosen := map[];
    for i := 0 to |flags|
      invariant chosen == FlagsOf(q, flags[..i])
    {
      hide GetAll, FlagsOf;
      var values := GetAll(q, Flagged(flags[i]));
      OneMoreFlag(q, flags[..i], flags[i]);
      assert flags[..i + 1] == flags[..i] + [flags[i]];
      if |values| > 0 {
        chosen := chosen[flags[i] := |values| == 1 && values[0] == "true"];
      }
    }
    assert flags[..|flags|] == flags;
  }

  method ParseTelemetryUrl(number: Numeral, q: Query) returns (result: Selection)
    ensures result == Parsed(number, q)
  {
    var drivers, laps := ParseSides(q, SIDES);
    var flags := ParseFlags(q, QUALITY_FLAGS);
    result := Selection(ParsedContext(q), false,
                        Accepted(Get(q, Session), SessionId), Accepted(Get(q, Revision), RevisionId),
                        drivers, laps, ViewOf(Get(q, ViewName)), ParsedZoom(number, q), flags);
  }

  // ----- Printing -----

  /** Math.round: halves go up. */
  function Round(x: real): int {
    (x + 0.5).Floor
  }

  /** The nearest integer, and the greater one half-way. */
  lemma RoundIsNearest(x: real)
    ensures x - 0.5 < Round(x) as real <= x + 0.5
  {
  }

  function ContextValue(s: Selection, kind: ReferenceKind): Option<string> {
    if s.context.Some? && s.context.value.kind == kind then Some(if kind.Invalid? then "1" else s.context.value.id) else None
  }

  function Field(s: Selection, key: Param): Option<string> {
    match key
    case RaceSessionId => ContextValue(s, Race)
    case ReplaySessionId => ContextValue(s, Replay)
    case ContextInvalid => ContextValue(s, Invalid)
    case Session => s.session
    case Revision => s.revision
    case DriverA => if A in s.drivers then Some(s.drivers[A]) else None
    case LapA => if A in s.laps then Some(DigitText(s.laps[A])) else None
    case DriverB => if B in s.drivers then Some(s.drivers[B]) else None
    case LapB => if B in s.laps then Some(DigitText(s.laps[B])) else None
    case ViewName => Some(NameOf(s.view))
    case Zoom => if s.zoom.Some? then Some(IntText(Round(s.zoom.value.0)) + "," + IntText(Round(s.zoom.value.1))) else None
    case Flagged(flag) => if flag in s.flags then Some(BoolText(s.flags[flag])) else None
    case _ => None
  }

  /** The parameters in the order they are written. */
  const WRITTEN: seq<Param> := [
    RaceSessionId, ReplaySessionId, ContextInvalid, Session, Revision, DriverA, LapA, DriverB, LapB, ViewName, Zoom,
    Flagged(AllowPartial), Flagged(AllowPitLaps), Flagged(AllowDeleted), Flagged(AllowProviderGenerated),
    Flagged(AllowUnreliable)]

  function Printed(s: Selection, keys: seq<Param>): Query {
    if keys == [] then []
    else
      (if Field(s, keys[0]).Some? then [(keys[0], Field(s, keys[0]).value)] else []) + Printed(s, keys[1..])
  }

  method PrintFields(s: Selection, keys: seq<Param>) returns (q: Query)
    ensures q == Printed(s, keys)
  {
    q := [];
    for i := 0 to |keys|
      invariant q + Printed(s, keys[i..]) == Printed(s, keys)
    {
      var value := Field(s, keys[i]);
      assert keys[i..][1..] == keys[i + 1..] && keys[i..][0] == keys[i];
      if value.Some? {
        assert q + ([(keys[i], value.value)] + Printed(s, keys[i + 1..])) == q + [(keys[i], value.value)] + Printed(s, keys[i + 1..]);
        q := q + [(keys[i], value.value)];
      }
    }
  }

  method TelemetryQuery(s: Selection) returns (q: Query)
    ensures q == Printed(s, WRITTEN)
  {
    q := PrintFields(s, WRITTEN);
  }

  /** The place a parameter is written at; unwritten ones come after all. */
  function Place(key: Param): nat {
    match key
    case RaceSessionId => 0
    case ReplaySessionId => 1
    case ContextInvalid => 2
    case Session => 3
    case Revision => 4
    case DriverA => 5
    case LapA => 6
    case DriverB => 7
    case LapB => 8
    case ViewName => 9
    case Zoom => 10
    case Flagged(flag) => 11 + FlagPlace(flag)
    case _ => 16
  }

  function FlagPlace(flag: QualityFlag): nat {
    match flag
    case AllowPartial => 0
    case AllowPitLaps => 1
    case AllowDeleted => 2
    case AllowProviderGenerated => 3
    case AllowUnreliable => 4
  }

  lemma PlaceInjective(a: Param, b: Param)
    requires Place(a) < 16
    ensures Place(a) == Place(b) <==> a == b
  {
  }

  predicate InPlace(keys: seq<Param>, i: nat) {
    i + |keys| == 16 && forall j :: 0 <= j < |keys| ==> Place(keys[j]) == i + j
  }

  lemma GetAllAfter(pair: (Param, string), rest: Query, key: Param)
    ensures GetAll([pair] + rest, key) == (if pair.0 == key then [pair.1] else []) + GetAll(rest, key)
  {
    assert ([pair] + rest)[1..] == rest;
  }

  /** From place i on, each parameter is written once at most, with its field's value. */
  lemma {:induction false} PrintedFrom(s: Selection, keys: seq<Param>, i: nat, key: Param)
    requires InPlace(keys, i)
    ensures GetAll(Printed(s, keys), key) ==
            if i <= Place(key) < 16 && Field(s, key).Some? then [Field(s, key).value] else []
    decreases |keys|
  {
    hide Place, Field;
    if keys != [] {
      PrintedFrom(s, keys[1..], i + 1, key);
      PlaceInjective(keys[0], key);
      if Field(s, keys[0]).Some? {
        GetAllAfter((keys[0], Field(s, keys[0]).value), Printed(s, keys[1..]), key);
      } else {
        assert [] + Printed(s, keys[1..]) == Printed(s, keys[1..]);
      }
    }
  }

  /** A query that carries every field of the selection once, and nothing else. */
  ghost predicate Carries(q: Query, s: Selection) {
    forall key :: GetAll(q, key) == if Field(s, key).Some? then [Field(s, key).value] else []
  }

  lemma PlaceBound()
    ensures forall key, s :: Place(key) >= 16 ==> Field(s, key).None?
  {
  }

  lemma PrintedCarries(s: Selection)
    ensures Carries(Printed(s, WRITTEN), s)
  {
    assert InPlace(WRITTEN, 0);
    PlaceBound();
    hide Field, Place, InPlace, GetAll, Printed;
    forall key
      ensures GetAll(Printed(s, WRITTEN), key) == if Field(s, key).Some? then [Field(s, key).value] else []
    {
      PrintedFrom(s, WRITTEN, 0, key);
    }
  }

  // ----- The results -----

  /** What parsing can produce. */
  predicate WellFormed(s: Selection) {
    && !s.validateLaps
    && (s.context.Some? ==>
          if s.context.value.kind.Invalid? then s.context.value.id == ""
          else ReferenceId(s.context.value.id) && s.session.None?)
    && (s.session.Some? ==> SessionId(s.session.value))
    && (s.revision.Some? ==> RevisionId(s.revision.value))
    && (forall side :: side in s.drivers ==> DriverNumber(s.drivers[side]))
    && (forall side :: side in s.laps ==> 1 <= s.laps[side] <= 1000)
    && (s.zoom.Some? ==> ZoomBounds(s.zoom.value))
  }

  predicate Integral(x: real) {
    x == x.Floor as real
  }

  predicate IntegralZoom(s: Selection) {
    s.zoom.Some? ==> Integral(s.zoom.value.0) && Integral(s.zoom.value.1)
  }

  /** Whatever the address, the selection read from it is well formed. */
  lemma ParsedIsWellFormed(number: Numeral, q: Query)
    ensures WellFormed(Parsed(number, q))
  {
    if Has(q, Session) {
      assert ParsedContext(q).Some? ==> ParsedContext(q).value.kind.Invalid?;
    }
  }

  /** A carried context of a kind is the one reference of that kind. */
  function Carried(s: Selection, kind: ReferenceKind): seq<Reference> {
    if ContextValue(s, kind).Some? then [Reference(kind, ContextValue(s, kind).value)] else []
  }

  lemma ReferencesCarried(q: Query, s: Selection)
    requires Carries(q, s)
    ensures References(q) == Carried(s, Race) + Carried(s, Replay)
    ensures Has(q, ContextInvalid) <==> ContextValue(s, Invalid).Some?
    ensures Has(q, Session) <==> s.session.Some?
  {
    hide GetAll, ContextValue;
    assert GetAll(q, RaceSessionId) == if ContextValue(s, Race).Some? then [ContextValue(s, Race).value] else [];
    assert GetAll(q, ReplaySessionId) == if ContextValue(s, Replay).Some? then [ContextValue(s, Replay).value] else [];
    assert GetAll(q, ContextInvalid) == if ContextValue(s, Invalid).Some? then [ContextValue(s, Invalid).value] else [];
    assert GetAll(q, Session) == if s.session.Some? then [s.session.value] else [];
    assert ReferencesTo(Race, GetAll(q, RaceSessionId)) == Carried(s, Race);
    assert ReferencesTo(Replay, GetAll(q, ReplaySessionId)) == Carried(s, Replay);
  }

  lemma CarriedContext(s: Selection)
    ensures s.context.None? || s.context.value.kind.Invalid? ==> Carried(s, Race) + Carried(s, Replay) == []
    ensures s.context.Some? && !s.context.value.kind.Invalid? ==> Carried(s, Race) + Carried(s, Replay) == [s.context.value]
    ensures ContextValue(s, Invalid).Some? <==> s.context.Some? && s.context.value.kind.Invalid?
  {
  }

  lemma ContextRoundTrip(q: Query, s: Selection)
    requires WellFormed(s) && Carries(q, s)
    ensures ParsedContext(q) == s.context
  {
    ReferencesCarried(q, s);
    CarriedContext(s);
    hide Carries, References, Has, Carried, ContextValue, ReferenceId, SessionId, RevisionId, DriverNumber, ZoomBounds;
  }

  lemma SideCarried(q: Query, s: Selection, side: Side)
    requires Carries(q, s)
    ensures DriverParam(q, side) == if side in s.drivers then Some(s.drivers[side]) else None
    ensures LapParam(q, side) == if side in s.laps then Some(DigitText(s.laps[side])) else None
  {
    hide DigitText;
    assert Get(q, LegacyDriver) == None && Get(q, LegacyLap) == None;
    if side.A? {
      assert Get(q, DriverA) == Field(s, DriverA) && Get(q, LapA) == Field(s, LapA);
    } else {
      assert Get(q, DriverB) == Field(s, DriverB) && Get(q, LapB) == Field(s, LapB);
    }
  }

  lemma LapTextReads(n: nat)
    requires 1 <= n <= 1000
    ensures LapText(DigitText(n)) && ValueOf(DigitText(n)) == n
  {
    DigitTextRoundTrip(n);
  }

  lemma SidesRoundTrip(q: Query, s: Selection)
    requires WellFormed(s) && Carries(q, s)
    ensures DriversOf(q, SIDES) == s.drivers && LapsOf(q, SIDES) == s.laps
  {
    hide DriverParam, LapParam, DigitText, ValueOf, LapText, DriverNumber, Carries, Field;
    forall side: Side
      ensures side in DriversOf(q, SIDES) <==> side in s.drivers
      ensures side in LapsOf(q, SIDES) <==> side in s.laps
      ensures side in s.drivers ==> DriversOf(q, SIDES)[side] == s.drivers[side]
      ensures side in s.laps ==> LapsOf(q, SIDES)[side] == s.laps[side]
    {
      SideCarried(q, s, side);
      assert side == SIDES[if side.A? then 0 else 1];
      if side in s.laps {
        LapTextReads(s.laps[side]);
      }
    }
  }

  lemma FlagCarried(q: Query, s: Selection, flag: QualityFlag)
    requires Carries(q, s)
    ensures Has(q, Flagged(flag)) <==> flag in s.flags
    ensures flag in s.flags ==> ((GetAll(q, Flagged(flag)) == ["true"]) <==> s.flags[flag])
  {
    assert GetAll(q, Flagged(flag)) == if Field(s, Flagged(flag)).Some? then [Field(s, Flagged(flag)).value] else [];
    hide GetAll, Carries;
    if flag in s.flags {
      TrueText(s.flags[flag]);
      assert [BoolText(s.flags[flag])][0] == BoolText(s.flags[flag]);
    }
  }

  lemma TrueText(b: bool)
    ensures BoolText(b) == "true" <==> b
  {
    assert |"true"| != |"false"|;
  }

  lemma EveryFlagListed(flag: QualityFlag)
    ensures flag in QUALITY_FLAGS
  {
    assert flag == QUALITY_FLAGS[FlagPlace(flag)];
  }

  lemma FlagsRoundTrip(q: Query, s: Selection)
    requires Carries(q, s)
    ensures FlagsOf(q, QUALITY_FLAGS) == s.flags
  {
    hide GetAll, Has, Field, Carries;
    forall flag: QualityFlag
      ensures flag in FlagsOf(q, QUALITY_FLAGS) <==> flag in s.flags
      ensures flag in s.flags ==> FlagsOf(q, QUALITY_FLAGS)[flag] == s.flags[flag]
    {
      FlagCarried(q, s, flag);
      EveryFlagListed(flag);
    }
  }

  lemma FloorBetween(x: real, n: int)
    requires n as real <= x < (n + 1) as real
    ensures x.Floor == n
  {
  }

  lemma RoundIntegral(x: real)
    requires x >= 0.0
    ensures Round(x) >= 0
    ensures Integral(x) <==> Round(x) as real == x
  {
    if Integral(x) {
      FloorBetween(x + 0.5, x.Floor);
    }
    if Round(x) as real == x {
      FloorBetween(x, Round(x));
    }
  }

  lemma ZoomPrinted(number: Numeral, q: Query, s: Selection)
    requires ReadsDecimals(number) && WellFormed(s) && s.zoom.Some? && Carries(q, s)
    ensures var rounded := (Round(s.zoom.value.0) as real, Round(s.zoom.value.1) as real);
            ParsedZoom(number, q) == if ZoomBounds(rounded) then Some(rounded) else None
  {
    assert GetAll(q, Zoom) == [Field(s, Zoom).value];
    var lo, hi := Round(s.zoom.value.0), Round(s.zoom.value.1);
    RoundIntegral(s.zoom.value.0);
    RoundIntegral(s.zoom.value.1);
    DigitTextRoundTrip(lo);
    DigitTextRoundTrip(hi);
    SplitPair(DigitText(lo), DigitText(hi));
    assert number(DigitText(lo)) == Some(lo as real) && number(DigitText(hi)) == Some(hi as real);
  }

  lemma ZoomRoundTrip(number: Numeral, q: Query, s: Selection)
    requires ReadsDecimals(number) && WellFormed(s) && Carries(q, s)
    ensures ParsedZoom(number, q) == s.zoom <==> IntegralZoom(s)
  {
    if s.zoom.None? {
      assert GetAll(q, Zoom) == [];
    } else {
      ZoomPrinted(number, q, s);
      RoundIntegral(s.zoom.value.0);
      RoundIntegral(s.zoom.value.1);
    }
  }

  /** A well-formed selection survives printing and parsing if and only if its zoom bounds are integers. */
  lemma AddressRoundTrip(number: Numeral, s: Selection)
    requires ReadsDecimals(number) && WellFormed(s)
    ensures Parsed(number, Printed(s, WRITTEN)) == s <==> IntegralZoom(s)
  {
    var q := Printed(s, WRITTEN);
    PrintedCarries(s);
    CarriedRoundTrip(number, q, s);
  }

  lemma CarriedRoundTrip(number: Numeral, q: Query, s: Selection)
    requires ReadsDecimals(number) && WellFormed(s) && Carries(q, s)
    ensures Parsed(number, q) == s <==> IntegralZoom(s)
  {
    ContextRoundTrip(q, s);
    SidesRoundTrip(q, s);
    FlagsRoundTrip(q, s);
    ZoomRoundTrip(number, q, s);
    PlainRoundTrip(q, s);
    hide ParsedContext, DriversOf, LapsOf, FlagsOf, ParsedZoom, ViewOf, Accepted, Get, Carries, IntegralZoom,
         SessionId, RevisionId, ReferenceId, DriverNumber, ZoomBounds;
  }

  lemma PlainRoundTrip(q: Query, s: Selection)
    requires WellFormed(s) && Carries(q, s)
    ensures Accepted(Get(q, Session), SessionId) == s.session && Accepted(Get(q, Revision), RevisionId) == s.revision
    ensures ViewOf(Get(q, ViewName)) == s.view
  {
    ViewRoundTrip(s.view);
    hide SessionId, RevisionId, ReferenceId, DriverNumber, ZoomBounds, ViewOf, NameOf, GetAll;
    assert Get(q, Session) == Field(s, Session) == s.session;
    assert Get(q, Revision) == Field(s, Revision) == s.revision;
    assert Get(q, ViewName) == Field(s, ViewName) == Some(NameOf(s.view));
  }

  /** So a shared link reproduces what its reader saw, for every address without fractional zoom bounds. */
  lemma SharedLinkReproduces(number: Numeral, q: Query)
    requires ReadsDecimals(number)
    ensures var s := Parsed(number, q);
            Parsed(number, Printed(s, WRITTEN)) == s <==> IntegralZoom(s)
  {
    ParsedIsWellFormed(number, q);
    AddressRoundTrip(number, Parsed(number, q));
  }
}
