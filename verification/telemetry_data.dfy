/** The telemetry workspace's bundle: which responses may be installed, and for what selection. */
module TelemetryData {
  import opened Support

  /** Issues keys; only the newest one is current. */
  class RequestEpoch {
    var value: nat

    constructor ()
      ensures value == 0
    {
      value := 0;
    }

    method Begin() returns (key: nat)
      modifies this
      ensures value == old(value) + 1 && key == value
    {
      value := value + 1;
      key := value;
    }

    function Current(key: nat): bool
      reads this
    {
      key == value
    }

    /** However many requests follow, an old key stays superseded. */
    method Supersede(older: nat, later: nat) returns (newest: nat)
      requires older <= value
      modifies this
      ensures value == old(value) + later + 1 && Current(newest) && !Current(older)
    {
      for i := 0 to later
        invariant value == old(value) + i
      {
        var _ := Begin();
      }
      newest := Begin();
    }
  }

  /** What identifies a comparison; `settings` stands for the five preparation flags. */
  datatype Pair = Pair(
    session: Option<string>, revision: Option<string>,
    driverA: Option<string>, driverB: Option<string>,
    lapA: Option<int>, lapB: Option<int>, settings: string)

  datatype Selection = Selection(pair: Pair, validate: bool, hasContext: bool, view: string)

  datatype Product = Product(session: string, revision: string, body: string)

  datatype Products = Products(
    comparison: Product, traceA: Product, traceB: Product, corners: Option<Product>, microsectors: Option<Product>)

  datatype Bundle = Waiting | Broken(message: string) | Ready(pair: Pair, products: Products)

  /** `usable` stands for the quality, pit and availability flags a fastest lap must pass. */
  datatype Lap = Lap(driver: string, number: int, usable: bool, seconds: Option<real>)

  datatype Source = Source(session: string, revision: string, driver: string)

  /** The telemetry API over immutable revisions: the laps it lists for a driver, None when the listing is
      refused, and whether it serves a comparison. */
  datatype Server = Server(listed: Source -> Option<seq<Lap>>, serves: Pair -> bool)

  /** `catalog` is None while sessions are loading or failed. `lapsPending` says a lap listing is in flight
      for the selected drivers. `installed` logs the key of every installed bundle. */
  datatype System = System(
    selection: Selection, catalog: Option<set<string>>, retries: nat, contextRequests: nat, lapsPending: bool,
    epoch: nat, requests: map<nat, Pair>, bundle: Bundle, installed: seq<nat>)

  datatype Action =
    | Update(next: Selection)
    | Pop(next: Selection)  // browser history
    | SessionsLoaded(ids: set<string>, next: Selection)
    | LapsLoaded
    | LapsFailed
    | Retry
    | Respond(key: nat, products: Products)
    | Fail(key: nat, message: string)

  function Start(selection: Selection): System {
    Committed(System(selection, None, 0, 0, false, 0, map[], Waiting, []))
  }

  predicate Text(x: Option<string>) {
    x.Some? && x.value != ""
  }

  predicate Positive(x: Option<int>) {
    x.Some? && x.value != 0
  }

  predicate Complete(pair: Pair) {
    Text(pair.session) && Text(pair.revision) && Text(pair.driverA) && Text(pair.driverB) &&
    Positive(pair.lapA) && Positive(pair.lapB)
  }

  predicate Unavailable(s: System) {
    s.catalog.Some? &&
    (s.selection.hasContext || (s.selection.pair.session.Some? && s.selection.pair.session.value !in s.catalog.value))
  }

  predicate Loadable(s: System) {
    s.catalog.Some? && !Unavailable(s) && !s.selection.validate && Complete(s.selection.pair)
  }

  predicate LapsLoadable(s: System) {
    var pair := s.selection.pair;
    s.catalog.Some? && !Unavailable(s) &&
    Text(pair.session) && Text(pair.revision) && Text(pair.driverA) && Text(pair.driverB)
  }

  /** Everything the lap effect depends on. */
  datatype LapInputs = LapInputs(
    session: Option<string>, revision: Option<string>, driverA: Option<string>, driverB: Option<string>,
    retries: nat, contextRequests: nat, ready: bool, unavailable: bool)

  function LapInputsOf(s: System): LapInputs {
    var pair := s.selection.pair;
    LapInputs(pair.session, pair.revision, pair.driverA, pair.driverB, s.retries, s.contextRequests, s.catalog.Some?, Unavailable(s))
  }

  /** The lap effect: when an input changed, abort the listing in flight and request another. */
  function Relisted(before: System, after: System): System {
    if LapInputsOf(before) == LapInputsOf(after) then after else after.(lapsPending := LapsLoadable(after))
  }

  /** Everything the bundle effect depends on. */
  datatype Inputs = Inputs(pair: Pair, retries: nat, ready: bool, unavailable: bool, validate: bool)

  function InputsOf(s: System): Inputs {
    Inputs(s.selection.pair, s.retries, s.catalog.Some?, Unavailable(s), s.selection.validate)
  }

  /** The effect body: begin a new epoch and, when the selection can be loaded, send its requests. */
  function Committed(s: System): System {
    var key := s.epoch + 1;
    s.(epoch := key, requests := if Loadable(s) then s.requests[key := s.selection.pair] else s.requests)
  }

  /** Cleanup (which begins an epoch of its own) and rerun, when an input changed. */
  function Rerun(before: System, after: System): System {
    if InputsOf(before) == InputsOf(after) then after else Committed(after.(epoch := after.epoch + 1))
  }

  function Selected(s: System, next: Selection): System {
    if next.pair == s.selection.pair then s.(selection := next)
    else s.(selection := next, epoch := s.epoch + 1, bundle := Waiting)
  }

  function OrElse<T>(x: Option<T>, y: Option<T>): Option<T> {
    if x.Some? then x else y
  }

  predicate Timed(lap: Lap) {
    lap.usable && lap.seconds.Some? && lap.seconds.value > 0.0
  }

  /** The first of the timed laps in a stable sort by lap time. */
  function Fastest(laps: seq<Lap>): (fastest: Option<Lap>)
    ensures fastest.Some? ==> Timed(fastest.value)
  {
    if laps == [] then None
    else
      var best, last := Fastest(laps[..|laps| - 1]), laps[|laps| - 1];
      if Timed(last) && (best.None? || last.seconds.value < best.value.seconds.value) then Some(last) else best
  }

  function FastestNumber(laps: seq<Lap>): Option<int> {
    if Fastest(laps).Some? then Some(Fastest(laps).value.number) else None
  }

  predicate Lists(laps: seq<Lap>, driver: Option<string>, number: Option<int>) {
    exists i :: 0 <= i < |laps| && Some(laps[i].driver) == driver && Some(laps[i].number) == number
  }

  /** A pending context link's lap is kept when it is listed; otherwise a chosen lap is. */
  function Checked(laps: seq<Lap>, driver: Option<string>, number: Option<int>, validate: bool): Option<int> {
    if validate then if Lists(laps, driver, number) then number else FastestNumber(laps)
    else OrElse(number, FastestNumber(laps))
  }

  function ListingA(server: Server, pair: Pair): Option<seq<Lap>>
    requires Text(pair.session) && Text(pair.revision) && Text(pair.driverA)
  {
    server.listed(Source(pair.session.value, pair.revision.value, pair.driverA.value))
  }

  function ListingB(server: Server, pair: Pair): Option<seq<Lap>>
    requires Text(pair.session) && Text(pair.revision) && Text(pair.driverB)
  {
    server.listed(Source(pair.session.value, pair.revision.value, pair.driverB.value))
  }

  function WithLaps(s: System, a: seq<Lap>, b: seq<Lap>): System {
    var pair, validate := s.selection.pair, s.selection.validate;
    var next := pair.(lapA := Checked(a, pair.driverA, pair.lapA, validate), lapB := Checked(b, pair.driverB, pair.lapB, validate));
    s.(selection := s.selection.(pair := next, validate := false), lapsPending := false)
  }

  predicate From(product: Product, pair: Pair) {
    Some(product.session) == pair.session && Some(product.revision) == pair.revision
  }

  predicate AllFrom(products: Products, pair: Pair) {
    && From(products.comparison, pair) && From(products.traceA, pair) && From(products.traceB, pair)
    && (products.corners.Some? ==> From(products.corners.value, pair))
    && (products.microsectors.Some? ==> From(products.microsectors.value, pair))
  }

  /** A settled promise: dropped unless its key is the newest. */
  function Settled(s: System, key: nat, bundle: Bundle): System
    requires key in s.requests
  {
    var rest := s.(requests := s.requests - {key});
    if key != s.epoch then rest
    else rest.(bundle := bundle, installed := if bundle.Ready? then s.installed + [key] else s.installed)
  }

  /** The render and effects that follow a change of state. */
  function Effects(before: System, after: System): System {
    Rerun(before, Relisted(before, after))
  }

  function Responded(pair: Pair, products: Products): Bundle {
    if AllFrom(products, pair) then Ready(pair, products) else Broken("revision changed while loading")
  }

  function Reloading(s: System): System {
    s.(catalog := None, bundle := Waiting, retries := s.retries + 1)
  }

  function Listed(server: Server, s: System): System {
    if !LapsLoadable(s) then s
    else
      var a, b := ListingA(server, s.selection.pair), ListingB(server, s.selection.pair);
      if a.None? || b.None? then s else WithLaps(s, a.value, b.value)
  }

  function Step(server: Server, s: System, action: Action): System {
    match action
    case Update(next) => Effects(s, Selected(s, next))
    case Pop(next) =>
      Effects(s, Selected(s, next).(contextRequests := s.contextRequests + if next.validate then 1 else 0))
    case SessionsLoaded(ids, next) =>
      if s.catalog.Some? then s else Effects(s, s.(catalog := Some(ids), selection := next))
    case LapsLoaded => if s.lapsPending then Effects(s, Listed(server, s)) else s
    case LapsFailed => s.(lapsPending := false)
    case Retry => Effects(s, Reloading(s))
    case Respond(key, products) =>
      if key !in s.requests || !server.serves(s.requests[key]) then s
      else Settled(s, key, Responded(s.requests[key], products))
    case Fail(key, message) => if key !in s.requests then s else Settled(s, key, Broken(message))
  }

  function Run(server: Server, s: System, actions: seq<Action>): System {
    if actions == [] then s else Step(server, Run(server, s, actions[..|actions| - 1]), actions[|actions| - 1])
  }

  predicate Increasing(keys: seq<nat>) {
    forall i, j :: 0 <= i < j < |keys| ==> keys[i] < keys[j]
  }

  /** Two selections of the same session, revision, drivers and settings. */
  predicate SameButLaps(a: Pair, b: Pair) {
    a == b.(lapA := a.lapA, lapB := a.lapB)
  }

  predicate LapsListed(server: Server, pair: Pair)
    requires Complete(pair)
  {
    var a, b := ListingA(server, pair), ListingB(server, pair);
    a.Some? && b.Some? ==> Lists(a.value, pair.driverA, pair.lapA) && Lists(b.value, pair.driverB, pair.lapB)
  }

  /** Every lap the server serves a comparison of is among the laps it lists, wherever it lists any. */
  ghost predicate ListsWhatItServes(server: Server) {
    forall pair :: Complete(pair) && server.serves(pair) ==> LapsListed(server, pair)
  }

  ghost predicate BundleSound(server: Server, s: System) {
    s.bundle.Ready? ==>
      && s.catalog.Some?
      && AllFrom(s.bundle.products, s.bundle.pair)
      && Complete(s.bundle.pair) && server.serves(s.bundle.pair)
      && SameButLaps(s.bundle.pair, s.selection.pair)
      && (ListsWhatItServes(server) ==> s.bundle.pair == s.selection.pair)
  }

  /** Keys in flight and keys installed are old, and no key is both. */
  ghost predicate KeysSound(s: System) {
    && (forall key :: key in s.requests ==> key <= s.epoch)
    && Increasing(s.installed)
    && (forall i :: 0 <= i < |s.installed| ==> s.installed[i] <= s.epoch && s.installed[i] !in s.requests)
  }

  /** A request that could still be installed asks for exactly what is selected. */
  predicate NewestAsksForSelection(s: System) {
    s.epoch in s.requests ==> s.requests[s.epoch] == s.selection.pair && Loadable(s)
  }

  ghost predicate Invariant(server: Server, s: System) {
    BundleSound(server, s) && KeysSound(s) && NewestAsksForSelection(s)
  }

  lemma CommittedKeeps(server: Server, s: System)
    requires BundleSound(server, s) && KeysSound(s)
    ensures Invariant(server, Committed(s))
  {
  }

  lemma MoreEpochs(s: System)
    requires KeysSound(s)
    ensures KeysSound(s.(epoch := s.epoch + 1))
  {
  }

  /** Requesting a listing touches nothing the bundle depends on. */
  lemma RelistedKeeps(server: Server, before: System, after: System)
    requires BundleSound(server, after) && KeysSound(after)
    ensures BundleSound(server, Relisted(before, after)) && KeysSound(Relisted(before, after))
    ensures Relisted(before, after) == after.(lapsPending := Relisted(before, after).lapsPending)
  {
    hide ListsWhatItServes, Increasing;
  }

  lemma RerunKeeps(server: Server, before: System, after: System)
    requires Invariant(server, before) && BundleSound(server, after) && KeysSound(after)
    requires after.requests == before.requests && before.epoch <= after.epoch
    ensures Invariant(server, Rerun(before, after))
  {
    hide BundleSound, Increasing;
    if InputsOf(before) != InputsOf(after) {
      hide KeysSound;
      MoreEpochs(after);
      BundleIgnoresEpoch(server, after, after.epoch + 1);
      CommittedKeeps(server, after.(epoch := after.epoch + 1));
    }
  }

  lemma BundleIgnoresEpoch(server: Server, s: System, epoch: nat)
    requires BundleSound(server, s)
    ensures BundleSound(server, s.(epoch := epoch))
  {
    hide ListsWhatItServes;
  }

  lemma EffectsKeep(server: Server, before: System, after: System)
    requires Invariant(server, before) && BundleSound(server, after) && KeysSound(after)
    requires after.requests == before.requests && before.epoch <= after.epoch
    ensures Invariant(server, Effects(before, after))
  {
    RelistedKeeps(server, before, after);
    hide Relisted, Rerun, Invariant, BundleSound, KeysSound;
    RerunKeeps(server, before, Relisted(before, after));
  }

  lemma SettledKeeps(server: Server, s: System, key: nat, bundle: Bundle)
    requires Invariant(server, s) && key in s.requests
    requires bundle.Ready? ==>
               bundle.pair == s.requests[key] && AllFrom(bundle.products, bundle.pair) && server.serves(bundle.pair)
    ensures Invariant(server, Settled(s, key, bundle))
  {
    hide ListsWhatItServes;
  }

  /** Loading laps never replaces the laps of a bundle whose laps are listed. */
  lemma ListedKeeps(server: Server, s: System)
    requires BundleSound(server, s)
    ensures BundleSound(server, Listed(server, s))
  {
    if s.bundle.Ready? && ListsWhatItServes(server) && LapsLoadable(s) {
      assert LapsListed(server, s.bundle.pair);
    }
  }

  lemma StepKeeps(server: Server, s: System, action: Action)
    requires Invariant(server, s)
    ensures Invariant(server, Step(server, s, action))
  {
    hide ListsWhatItServes, Effects, Settled, Listed;
    match action
    case Update(next) => EffectsKeep(server, s, Selected(s, next));
    case Pop(next) =>
      EffectsKeep(server, s, Selected(s, next).(contextRequests := s.contextRequests + if next.validate then 1 else 0));
    case SessionsLoaded(ids, next) =>
      if s.catalog.None? {
        EffectsKeep(server, s, s.(catalog := Some(ids), selection := next));
      }
    case LapsLoaded =>
      ListedKeeps(server, s);
      ListedFrame(server, s);
      EffectsKeep(server, s, Listed(server, s));
    case LapsFailed =>
    case Retry => EffectsKeep(server, s, Reloading(s));
    case Respond(key, products) =>
      if key in s.requests && server.serves(s.requests[key]) {
        SettledKeeps(server, s, key, Responded(s.requests[key], products));
      }
    case Fail(key, message) =>
      if key in s.requests {
        SettledKeeps(server, s, key, Broken(message));
      }
  }

  lemma ListedFrame(server: Server, s: System)
    ensures var after := Listed(server, s);
            after.requests == s.requests && after.epoch == s.epoch && after.installed == s.installed
  {
  }

  lemma {:induction false} RunKeeps(server: Server, selection: Selection, actions: seq<Action>)
    ensures Invariant(server, Run(server, Start(selection), actions))
  {
    if actions != [] {
      RunKeeps(server, selection, actions[..|actions| - 1]);
      StepKeeps(server, Run(server, Start(selection), actions[..|actions| - 1]), actions[|actions| - 1]);
    }
  }

  // ----- The results -----

  /** Whatever order responses arrive in, an installed bundle was asked for by the newest request, and keys
      of successive installs only grow. */
  lemma OnlyNewestRequestInstalls(server: Server, selection: Selection, actions: seq<Action>, action: Action)
    ensures var before := Run(server, Start(selection), actions);
            var after := Step(server, before, action);
            && Increasing(after.installed) && before.installed <= after.installed
            && (after.installed != before.installed ==>
                  && after.installed == before.installed + [before.epoch]
                  && (forall key :: key in before.requests ==> key <= before.epoch))
  {
    RunKeeps(server, selection, actions);
    hide Run, Start;
    NewestInstalls(server, Run(server, Start(selection), actions), action);
  }

  lemma NewestInstalls(server: Server, s: System, action: Action)
    requires Invariant(server, s)
    ensures var after := Step(server, s, action);
            && Increasing(after.installed) && s.installed <= after.installed
            && (after.installed != s.installed ==>
                  && after.installed == s.installed + [s.epoch]
                  && (forall key :: key in s.requests ==> key <= s.epoch))
  {
    hide ListsWhatItServes, Listed, BundleSound, Increasing, LapInputsOf, InputsOf, LapsLoadable;
    StepKeeps(server, s, action);
    ListedFrame(server, s);
  }

  predicate Names(product: Product, selection: Selection) {
    selection.pair.session == Some(product.session) && selection.pair.revision == Some(product.revision)
  }

  predicate AllNamed(products: Products, selection: Selection) {
    && Names(products.comparison, selection) && Names(products.traceA, selection) && Names(products.traceB, selection)
    && (products.corners.Some? ==> Names(products.corners.value, selection))
    && (products.microsectors.Some? ==> Names(products.microsectors.value, selection))
  }

  /** Every product on show carries the session and revision now selected, for the selected drivers and
      settings; and for the selected laps, when the server lists the laps it serves. */
  lemma BundleMatchesSelection(server: Server, selection: Selection, actions: seq<Action>)
    requires Run(server, Start(selection), actions).bundle.Ready?
    ensures var s := Run(server, Start(selection), actions);
            && AllNamed(s.bundle.products, s.selection)
            && SameButLaps(s.bundle.pair, s.selection.pair)
            && (ListsWhatItServes(server) ==> s.bundle.pair == s.selection.pair)
  {
    RunKeeps(server, selection, actions);
  }

  // ----- What each choice and response does -----

  /** The comparison that is selected, once the catalog has its session and its laps are known good. */
  predicate Wanted(s: System) {
    && s.catalog.Some? && !s.selection.hasContext && !s.selection.validate
    && var pair := s.selection.pair;
       && pair.session.Some? && pair.session.value != "" && pair.session.value in s.catalog.value
       && pair.revision.Some? && pair.revision.value != "" && pair.driverA.Some? && pair.driverA.value != ""
       && pair.driverB.Some? && pair.driverB.value != "" && pair.lapA.Some? && pair.lapA.value != 0
       && pair.lapB.Some? && pair.lapB.value != 0
  }

  /** While nothing is on show for a comparison that is wanted, its request is in flight; a request that could
      be installed is for a comparison that is wanted. */
  predicate Fetching(s: System) {
    && (Wanted(s) && s.bundle.Waiting? ==> s.epoch in s.requests)
    && (s.epoch in s.requests ==> Wanted(s) && s.requests[s.epoch] == s.selection.pair)
  }

  lemma WantedIsLoadable(s: System)
    ensures Wanted(s) <==> Loadable(s)
  {
  }

  lemma RerunFetches(before: System, after: System)
    requires Fetching(before) && KeysSound(before) && after.requests == before.requests && before.epoch <= after.epoch
    requires InputsOf(before) == InputsOf(after) ==>
               after.epoch == before.epoch && (after.bundle == before.bundle || !Wanted(after))
    ensures Fetching(Rerun(before, after))
  {
    hide Increasing, Wanted;
    WantedIsLoadable(before);
    WantedIsLoadable(after);
    WantedIsLoadable(Rerun(before, after));
  }

  lemma StepKeepsFetching(server: Server, s: System, action: Action)
    requires Fetching(s) && KeysSound(s)
    ensures Fetching(Step(server, s, action))
  {
    hide Increasing, Wanted, Rerun, Loadable;
    match action
    case Update(next) => RerunFetches(s, Relisted(s, Selected(s, next)));
    case Pop(next) =>
      RerunFetches(s, Relisted(s, Selected(s, next).(contextRequests := s.contextRequests + if next.validate then 1 else 0)));
    case SessionsLoaded(ids, next) =>
      if s.catalog.None? {
        RerunFetches(s, Relisted(s, s.(catalog := Some(ids), selection := next)));
      }
    case LapsLoaded =>
      ListedFrame(server, s);
      assert Listed(server, s).bundle == s.bundle;
      RerunFetches(s, Relisted(s, Listed(server, s)));
    case LapsFailed =>
      WantedIsLoadable(s);
      WantedIsLoadable(s.(lapsPending := false));
      SameWanted(s, s.(lapsPending := false));
    case Retry =>
      RerunFetches(s, Relisted(s, Reloading(s)));
    case Respond(key, products) =>
      if key in s.requests && server.serves(s.requests[key]) {
        SameWanted(s, Settled(s, key, Responded(s.requests[key], products)));
      }
    case Fail(key, message) =>
      if key in s.requests {
        SameWanted(s, Settled(s, key, Broken(message)));
      }
  }

  lemma SameWanted(s: System, other: System)
    requires other.catalog == s.catalog && other.selection == s.selection
    ensures Wanted(other) <==> Wanted(s)
  {
  }

  /** In every run a wanted comparison is on show, refused, or on its way, and only such a comparison is. */
  lemma {:induction false} WantedIsFetched(server: Server, selection: Selection, actions: seq<Action>)
    ensures Fetching(Run(server, Start(selection), actions))
  {
    if actions != [] {
      hide Step;
      var before := Run(server, Start(selection), actions[..|actions| - 1]);
      WantedIsFetched(server, selection, actions[..|actions| - 1]);
      RunKeeps(server, selection, actions[..|actions| - 1]);
      StepKeepsFetching(server, before, actions[|actions| - 1]);
    }
  }

  /** Choosing, by the controls or the browser's history, selects what was chosen; a different comparison takes
      the bundle off the page and supersedes every request in flight, the same one leaves the bundle up. */
  lemma ChoosingSelects(server: Server, s: System, next: Selection, popped: bool)
    requires KeysSound(s)
    ensures var after := Step(server, s, if popped then Pop(next) else Update(next));
            && after.selection == next && after.catalog == s.catalog
            && (next.pair != s.selection.pair ==>
                  after.bundle == Waiting && after.epoch > s.epoch &&
                  forall key :: key in s.requests ==> key < after.epoch)
            && (next.pair == s.selection.pair ==> after.bundle == s.bundle)
  {
    hide Increasing, Loadable, LapsLoadable, Unavailable;
  }

  /** A response to the newest request is installed when every product is of the session and revision asked for,
      and refused otherwise; a response to any other changes nothing on the page. */
  lemma ResponseIsInstalled(server: Server, s: System, key: nat, products: Products)
    requires key in s.requests && server.serves(s.requests[key]) && NewestAsksForSelection(s)
    ensures var after := Step(server, s, Respond(key, products));
            && after.selection == s.selection && after.catalog == s.catalog && key !in after.requests
            && (key != s.epoch ==> after.bundle == s.bundle)
            && (key == s.epoch ==>
                  if AllNamed(products, s.selection) then after.bundle == Ready(s.selection.pair, products) else after.bundle.Broken?)
  {
  }

  /** The newest request's failure is shown, any other changes nothing on the page; a failed lap listing leaves
      the selection and the bundle as they are. */
  lemma FailureIsShown(server: Server, s: System, key: nat, message: string)
    ensures key in s.requests ==>
              var after := Step(server, s, Fail(key, message));
              after.bundle == (if key == s.epoch then Broken(message) else s.bundle) && key !in after.requests &&
              after.selection == s.selection
    ensures var after := Step(server, s, LapsFailed); after == s.(lapsPending := false)
  {
  }

  /** A listing that was aborted, or already answered, changes nothing; another session, revision or driver asks
      for listings of its own, if they can be asked for. */
  lemma StrayListingIgnored(server: Server, s: System, next: Selection)
    ensures !s.lapsPending ==> Step(server, s, LapsLoaded) == s
    ensures var before, after := s.selection.pair, next.pair;
            (before.session != after.session || before.revision != after.revision ||
             before.driverA != after.driverA || before.driverB != after.driverB) ==>
              (Step(server, s, Update(next)).lapsPending <==> LapsLoadable(Selected(s, next)))
  {
    hide Loadable, LapsLoadable, Unavailable;
  }

  /** Retrying forgets the catalog and the bundle and keeps the selection; the next catalog is kept. */
  lemma RetryStartsOver(server: Server, s: System, ids: set<string>, next: Selection)
    ensures var after := Step(server, s, Retry);
            after.selection == s.selection && after.catalog == None && after.bundle == Waiting && after.epoch > s.epoch
    ensures s.catalog.None? ==>
              var after := Step(server, s, SessionsLoaded(ids, next)); after.catalog == Some(ids) && after.selection == next
  {
    hide Loadable, LapsLoadable, Unavailable;
  }

  function NumberOf(lap: Option<Lap>): Option<int> {
    match lap
    case Some(chosen) => Some(chosen.number)
    case None => None
  }

  /** Loaded laps fill in the laps not chosen; while a context link is being validated they also replace a chosen
      lap that is not listed, and validation is over. */
  lemma LapsFillIn(server: Server, s: System)
    requires s.lapsPending && LapsLoadable(s)
    requires ListingA(server, s.selection.pair).Some? && ListingB(server, s.selection.pair).Some?
    ensures var after, pair := Step(server, s, LapsLoaded), s.selection.pair;
            var a, b := ListingA(server, pair).value, ListingB(server, pair).value;
            && !after.selection.validate && after.selection.pair == pair.(lapA := after.selection.pair.lapA, lapB := after.selection.pair.lapB)
            && (pair.lapA.Some? && (s.selection.validate ==> Lists(a, pair.driverA, pair.lapA)) ==>
                  after.selection.pair.lapA == pair.lapA)
            && (pair.lapB.Some? && (s.selection.validate ==> Lists(b, pair.driverB, pair.lapB)) ==>
                  after.selection.pair.lapB == pair.lapB)
            && (pair.lapA.None? || (s.selection.validate && !Lists(a, pair.driverA, pair.lapA)) ==>
                  after.selection.pair.lapA == NumberOf(Fastest(a)))
            && (pair.lapB.None? || (s.selection.validate && !Lists(b, pair.driverB, pair.lapB)) ==>
                  after.selection.pair.lapB == NumberOf(Fastest(b)))
  {
    hide Loadable, Fastest;
  }

  /** A usable lap with a time above zero. */
  predicate Usable(lap: Lap) {
    lap.usable && lap.seconds.Some? && 0.0 < lap.seconds.value
  }

  /** No usable lap is faster than the chosen one, and every earlier one is slower. */
  ghost predicate ChosenAt(laps: seq<Lap>, chosen: Lap, i: nat) {
    && i < |laps| && laps[i] == chosen && Usable(chosen)
    && (forall j :: 0 <= j < |laps| && Usable(laps[j]) ==>
          chosen.seconds.value <= laps[j].seconds.value && (j < i ==> chosen.seconds.value < laps[j].seconds.value))
  }

  lemma {:induction false} FastestIsFirstFastest(laps: seq<Lap>)
    ensures Fastest(laps).Some? ==> exists i :: ChosenAt(laps, Fastest(laps).value, i)
    ensures Fastest(laps).None? ==> forall j :: 0 <= j < |laps| ==> !Usable(laps[j])
  {
    if laps != [] {
      var init, last := laps[..|laps| - 1], laps[|laps| - 1];
      FastestIsFirstFastest(init);
      assert forall j :: 0 <= j < |init| ==> init[j] == laps[j];
      if Fastest(init).Some? && Fastest(laps) == Fastest(init) {
        var i :| ChosenAt(init, Fastest(init).value, i);
        assert ChosenAt(laps, Fastest(laps).value, i);
      } else if Fastest(laps).Some? {
        assert ChosenAt(laps, last, |init|);
      }
    }
  }

  // ----- A served lap that is not listed -----

  /** Every listed lap is of the driver asked for. */
  ghost predicate OwnRows(server: Server) {
    forall source: Source, i :: server.listed(source).Some? && 0 <= i < |server.listed(source).value| ==>
      server.listed(source).value[i].driver == source.driver
  }

  /** Validation replaces a lap that is not listed. */
  lemma UnlistedIsReplaced(laps: seq<Lap>, driver: string, number: Option<int>)
    requires forall i :: 0 <= i < |laps| ==> laps[i].driver == driver
    ensures Checked(laps, Some(driver), number, true) == number <==> Lists(laps, Some(driver), number) || (number.None? && FastestNumber(laps).None?)
  {
    FastestIsFirstFastest(laps);
    if Fastest(laps).Some? {
      var i: nat :| ChosenAt(laps, Fastest(laps).value, i);
      assert Lists(laps, Some(driver), FastestNumber(laps));
    }
  }

  lemma After(server: Server, start: System, actions: seq<Action>, action: Action) returns (longer: seq<Action>, s: System)
    ensures longer == actions + [action] && s == Run(server, start, longer) == Step(server, Run(server, start, actions), action)
  {
    longer := actions + [action];
    assert longer[..|actions|] == actions;
    s := Run(server, start, longer);
  }

  function Plain(pair: Pair): Selection {
    Selection(pair, false, false, "overview")
  }

  /** A complete pair that is served comes on show. */
  lemma OnShow(server: Server, pair: Pair, products: Products) returns (trace: seq<Action>, s: System)
    requires Complete(pair) && AllFrom(products, pair) && server.serves(pair)
    ensures s == Run(server, Start(Plain(pair)), trace)
    ensures s.bundle == Ready(pair, products) && s.selection == Plain(pair) && s.catalog == Some({pair.session.value})
  {
    var start := Start(Plain(pair));
    assert Run(server, start, []) == start;
    hide Run;
    trace, s := After(server, start, [], SessionsLoaded({pair.session.value}, Plain(pair)));
    assert s.epoch == 3 && s.requests == map[3 := pair];
    trace, s := After(server, start, trace, Respond(3, products));
  }

  /** Going back to a context link's address validates its laps under the bundle on show: a lap that is not
      listed is replaced in the selection, and the old lap's bundle stays up until the reload answers. */
  lemma ValidationCanLeaveOldLapOnShow(server: Server, pair: Pair, products: Products)
    returns (trace: seq<Action>, s: System)
    requires Complete(pair) && AllFrom(products, pair) && server.serves(pair)
    requires OwnRows(server) && !LapsListed(server, pair)
    ensures s == Run(server, Start(Plain(pair)), trace)
    ensures s.bundle == Ready(pair, products) && s.selection.pair != pair
  {
    var start := Start(Plain(pair));
    trace, s := OnShow(server, pair, products);
    var a, b := ListingA(server, pair).value, ListingB(server, pair).value;
    UnlistedIsReplaced(a, pair.driverA.value, pair.lapA);
    UnlistedIsReplaced(b, pair.driverB.value, pair.lapB);
    hide Run, OwnRows, Lists, Checked;
    trace, s := After(server, start, trace, Pop(Plain(pair).(validate := true)));
    assert s.bundle == Ready(pair, products) && s.selection == Plain(pair).(validate := true) && s.lapsPending;
    trace, s := After(server, start, trace, LapsLoaded);
  }

  /** Some run shows a bundle for other laps than those selected. */
  ghost predicate CanLag(server: Server) {
    exists selection, actions :: Lags(Run(server, Start(selection), actions))
  }

  predicate Lags(s: System) {
    s.bundle.Ready? && s.bundle.pair != s.selection.pair
  }

  /** In every run the bundle on show is the selected comparison exactly when the server lists every lap it
      serves. */
  lemma LagsExactlyWhenServedLapUnlisted(server: Server)
    requires OwnRows(server)
    ensures CanLag(server) <==> !ListsWhatItServes(server)
  {
    if ListsWhatItServes(server) {
      forall selection, actions
        ensures !Lags(Run(server, Start(selection), actions))
      {
        RunKeeps(server, selection, actions);
      }
    } else {
      var pair :| Complete(pair) && server.serves(pair) && !LapsListed(server, pair);
      var product := Product(pair.session.value, pair.revision.value, "");
      var trace, s := ValidationCanLeaveOldLapOnShow(server, pair, Products(product, product, product, None, None));
      assert Lags(s);
    }
  }

  // ----- The reader's server -----

  function Of(driver: string): Lap -> bool {
    (lap: Lap) => lap.driver == driver
  }

  function Numbered(driver: string, number: int): Lap -> bool {
    (lap: Lap) => lap.driver == driver && lap.number == number
  }

  predicate Acceptable(laps: seq<Lap>) {
    && laps != []
    && (forall i :: 0 <= i < |laps| ==> 1 <= laps[i].number <= 1000)
    && (forall i, j :: 0 <= i < j < |laps| ==> laps[i].number != laps[j].number)
  }

  /** Listing a driver: all its rows of the revision's lap table, or a refusal. */
  function ReaderLaps(table: seq<Lap>, driver: string): Option<seq<Lap>> {
    var laps := Keep(Of(driver), table);
    if Acceptable(laps) then Some(laps) else None
  }

  /** Finding the one row of a lap, without which it is not served. */
  predicate LapFound(table: seq<Lap>, driver: string, number: int) {
    1 <= number <= 1000 && |Keep(Numbered(driver, number), table)| == 1
  }

  /** A server that lists and looks up laps in the same pinned table. */
  ghost predicate ReadsOneTable(server: Server, tables: (string, string) -> seq<Lap>) {
    && (forall source: Source :: server.listed(source) == ReaderLaps(tables(source.session, source.revision), source.driver))
    && (forall pair :: Complete(pair) && server.serves(pair) ==>
          var table := tables(pair.session.value, pair.revision.value);
          LapFound(table, pair.driverA.value, pair.lapA.value) && LapFound(table, pair.driverB.value, pair.lapB.value))
  }

  lemma FoundIsListed(table: seq<Lap>, driver: string, number: int)
    requires LapFound(table, driver, number) && ReaderLaps(table, driver).Some?
    ensures Lists(ReaderLaps(table, driver).value, Some(driver), Some(number))
  {
    var found := Keep(Numbered(driver, number), table)[0];
    KeepMember(Numbered(driver, number), table, found);
    KeepMember(Of(driver), table, found);
    var laps := ReaderLaps(table, driver).value;
    var i :| 0 <= i < |laps| && laps[i] == found;
  }

  /** With this repository's reader behind it, the bundle on show is always the selected comparison. */
  lemma ReaderNeverLags(server: Server, tables: (string, string) -> seq<Lap>)
    requires ReadsOneTable(server, tables)
    ensures ListsWhatItServes(server) && OwnRows(server) && !CanLag(server)
  {
    forall pair | Complete(pair) && server.serves(pair)
      ensures LapsListed(server, pair)
    {
      var table := tables(pair.session.value, pair.revision.value);
      if ListingA(server, pair).Some? && ListingB(server, pair).Some? {
        FoundIsListed(table, pair.driverA.value, pair.lapA.value);
        FoundIsListed(table, pair.driverB.value, pair.lapB.value);
      }
    }
    forall source: Source, i | server.listed(source).Some? && 0 <= i < |server.listed(source).value|
      ensures server.listed(source).value[i].driver == source.driver
    {
      KeepMember(Of(source.driver), tables(source.session, source.revision), server.listed(source).value[i]);
    }
    LagsExactlyWhenServedLapUnlisted(server);
  }
}
