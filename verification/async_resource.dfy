/** The stale-response-safe resource hook. */
module AsyncResource {
  import opened Support

  type Key = string
  type Item = nat

  datatype Data = Data(items: seq<Item>, total: nat)

  /** `lifecycle` and `request` stand for the identities of the two memo objects: a new key makes both
      new, a retry only the request. The last four fields are the stored state cell. */
  datatype Hook = Hook(
    key: Key, lifecycle: nat, request: nat,
    storedLifecycle: Option<nat>, storedRequest: Option<nat>, data: Option<Data>, error: Option<string>)

  function Mounted(key: Key): Hook {
    Hook(key, 0, 0, None, None, None, None)
  }

  function Rendered(h: Hook, key: Key): Hook {
    if key == h.key then h else h.(key := key, lifecycle := h.lifecycle + 1, request := h.request + 1)
  }

  function Retried(h: Hook): Hook {
    h.(request := h.request + 1)
  }

  function Resolved(h: Hook, request: nat, data: Data): Hook {
    if request != h.request then h
    else h.(storedLifecycle := Some(h.lifecycle), storedRequest := Some(request), data := Some(data), error := None)
  }

  function Rejected(h: Hook, request: nat, message: string): Hook {
    if request != h.request then h
    else h.(storedLifecycle := Some(h.lifecycle), storedRequest := Some(request),
            data := if h.storedLifecycle == Some(h.lifecycle) then h.data else None, error := Some(message))
  }

  function Updated(h: Hook, lifecycle: nat, request: nat, update: Data -> Data): Hook {
    if h.storedLifecycle == Some(lifecycle) && h.storedRequest == Some(request) && h.data.Some?
    then h.(data := Some(update(h.data.value))) else h
  }

  // What the hook returns to its client.

  function ShownData(h: Hook): Option<Data> {
    if h.storedLifecycle == Some(h.lifecycle) then h.data else None
  }

  function ShownError(h: Hook): Option<string> {
    if h.storedRequest == Some(h.request) then h.error else None
  }

  predicate Loading(h: Hook) {
    h.storedRequest != Some(h.request)
  }

  /** The hook's state cells. `active` is the effect's flag: only the newest effect has it. */
  class Resource {
    var key: Key
    var lifecycle: nat
    var attempt: nat
    var request: nat
    var storedLifecycle: Option<nat>
    var storedRequest: Option<nat>
    var data: Option<Data>
    var error: Option<string>

    function State(): Hook
      reads this
    {
      Hook(key, lifecycle, request, storedLifecycle, storedRequest, data, error)
    }

    constructor (key: Key)
      ensures State() == Mounted(key)
    {
      this.key, lifecycle, attempt, request := key, 0, 0, 0;
      storedLifecycle, storedRequest, data, error := None, None, None, None;
    }

    method Render(key: Key)
      modifies this
      ensures State() == Rendered(old(State()), key)
      ensures this.key == key
      ensures key != old(this.key) ==> lifecycle > old(lifecycle) && request > old(request)
      ensures key == old(this.key) ==> lifecycle == old(lifecycle) && request == old(request)
      ensures storedLifecycle == old(storedLifecycle) && storedRequest == old(storedRequest)
      ensures data == old(data) && error == old(error)
    {
      if key != this.key {
        this.key := key;
        lifecycle := lifecycle + 1;
        request := request + 1;
      }
    }

    method Retry()
      modifies this
      ensures State() == Retried(old(State())) && attempt == old(attempt) + 1
      ensures request > old(request) && lifecycle == old(lifecycle) && key == old(key)
      ensures storedLifecycle == old(storedLifecycle) && storedRequest == old(storedRequest)
      ensures data == old(data) && error == old(error)
    {
      attempt := attempt + 1;
      request := request + 1;
    }

    method Resolve(request: nat, data: Data)
      modifies this
      ensures State() == Resolved(old(State()), request, data)
      ensures request == old(this.request) ==>
                ShownData(State()) == Some(data) && ShownError(State()) == None && !Loading(State())
      ensures request != old(this.request) ==> State() == old(State())
      ensures key == old(key) && lifecycle == old(lifecycle) && this.request == old(this.request)
    {
      var active := request == this.request;
      if active {
        storedLifecycle, storedRequest := Some(lifecycle), Some(request);
        this.data, error := Some(data), None;
      }
    }

    method Reject(request: nat, message: string)
      modifies this
      ensures State() == Rejected(old(State()), request, message)
      ensures request == old(this.request) ==>
                ShownData(State()) == ShownData(old(State())) && ShownError(State()) == Some(message) && !Loading(State())
      ensures request != old(this.request) ==> State() == old(State())
      ensures key == old(key) && lifecycle == old(lifecycle) && this.request == old(this.request)
    {
      var active := request == this.request;
      if active {
        if storedLifecycle != Some(lifecycle) {
          data := None;
        }
        storedLifecycle, storedRequest, error := Some(lifecycle), Some(request), Some(message);
      }
    }

    method UpdateData(lifecycle: nat, request: nat, update: Data -> Data)
      modifies this
      ensures State() == Updated(old(State()), lifecycle, request, update)
      ensures old(storedLifecycle) == Some(lifecycle) && old(storedRequest) == Some(request) && old(data).Some? ==>
                data == Some(update(old(data).value))
      ensures old(storedLifecycle) != Some(lifecycle) || old(storedRequest) != Some(request) || old(data).None? ==>
                data == old(data)
      ensures State() == old(State()).(data := data)
    {
      if storedLifecycle == Some(lifecycle) && storedRequest == Some(request) && data.Some? {
        data := Some(update(data.value));
      }
    }
  }
}

/** The entity register: a client of the hook that appends pages to what it shows. */
module EntityDirectory {
  import opened Support
  import opened AsyncResource

  const PAGE: nat := 100

  type Server = Key -> seq<Item>

  function PageAt(server: Server, key: Key, offset: nat): Data {
    var all := server(key);
    var from := if offset > |all| then |all| else offset;
    var to := if offset + PAGE > |all| then |all| else offset + PAGE;
    Data(all[from..to], |all|)
  }

  /** A page request in flight, with everything its closure captured. */
  datatype Page = Page(lifecycle: nat, request: nat, key: Key, offset: nat)

  /** `pending` says whether the newest load is still in flight, `failures` what each load failed with. */
  datatype System = System(
    hook: Hook, pending: bool, loadingMore: Option<nat>, pageError: Option<(nat, string)>,
    pages: map<nat, Page>, nextPage: nat, failures: map<nat, string>)

  datatype Action =
    | Search(key: Key)
    | Retry
    | LoadMore
    | Loaded(request: nat)
    | LoadFailed(request: nat, message: string)
    | PageLoaded(page: nat)
    | PageFailed(page: nat, message: string)

  function Start(key: Key): System {
    System(Mounted(key), true, None, None, map[], 0, map[])
  }

  function Items(s: System): seq<Item> {
    if ShownData(s.hook).Some? then ShownData(s.hook).value.items else []
  }

  function TotalShown(s: System): nat {
    if ShownData(s.hook).Some? then ShownData(s.hook).value.total else 0
  }

  function Finally(s: System, request: nat): System {
    s.(loadingMore := if s.loadingMore == Some(request) then None else s.loadingMore)
  }

  function Append(page: Data): Data -> Data {
    (current: Data) => Data(current.items + page.items, page.total)
  }

  /** `gated` is whether the retry button exists only while an error is shown, as the component has it. */
  function Step(server: Server, gated: bool, s: System, action: Action): System {
    match action
    case Search(key) =>
      var hook := Rendered(s.hook, key);
      s.(hook := hook, pending := s.pending || hook.request != s.hook.request)
    case Retry => if gated && ShownError(s.hook).None? then s else s.(hook := Retried(s.hook), pending := true)
    case LoadMore =>
      if s.loadingMore == Some(s.hook.request) || |Items(s)| >= TotalShown(s) then s
      else
        s.(loadingMore := Some(s.hook.request), pageError := None, nextPage := s.nextPage + 1,
           pages := s.pages[s.nextPage := Page(s.hook.lifecycle, s.hook.request, s.hook.key, |Items(s)|)])
    case Loaded(request) =>
      if request == s.hook.request && !s.pending then s
      else s.(hook := Resolved(s.hook, request, PageAt(server, s.hook.key, 0)),
              pending := s.pending && request != s.hook.request)
    case LoadFailed(request, message) =>
      if request == s.hook.request && !s.pending then s
      else s.(hook := Rejected(s.hook, request, message), failures := s.failures[request := message],
              pending := s.pending && request != s.hook.request)
    case PageLoaded(id) =>
      if id !in s.pages then s
      else
        var page := s.pages[id];
        Finally(s.(hook := Updated(s.hook, page.lifecycle, page.request, Append(PageAt(server, page.key, page.offset))),
                   pages := s.pages - {id}), page.request)
    case PageFailed(id, message) =>
      if id !in s.pages then s
      else Finally(s.(pageError := Some((s.pages[id].request, message)), pages := s.pages - {id}), s.pages[id].request)
  }

  function Run(server: Server, gated: bool, s: System, actions: seq<Action>): System {
    if actions == [] then s
    else Step(server, gated, Run(server, gated, s, actions[..|actions| - 1]), actions[|actions| - 1])
  }

  /** The stored data, while it belongs to the current lifecycle, is a prefix of the server's list. */
  ghost predicate StoredPrefix(server: Server, h: Hook) {
    h.storedLifecycle == Some(h.lifecycle) && h.data.Some? ==>
      && h.data.value.items <= server(h.key) && h.data.value.total == |server(h.key)|
      && h.error == None && h.storedRequest == Some(h.request)
  }

  /** The one page that may be in flight for the current request continues exactly what is stored. */
  ghost predicate PageContinues(s: System, id: nat)
    requires id in s.pages
  {
    var page := s.pages[id];
    && id < s.nextPage && page.request <= s.hook.request
    && (page.request == s.hook.request ==>
          && s.hook.storedLifecycle == Some(s.hook.lifecycle) && s.hook.data.Some?
          && page.lifecycle == s.hook.lifecycle && page.key == s.hook.key
          && page.offset == |s.hook.data.value.items|
          && s.loadingMore == Some(s.hook.request)
          && forall other :: other in s.pages && s.pages[other].request == s.hook.request ==> other == id)
  }

  ghost predicate Invariant(server: Server, s: System) {
    && StoredPrefix(server, s.hook)
    && (s.hook.storedLifecycle.Some? ==> s.hook.storedLifecycle.value <= s.hook.lifecycle)
    && (s.hook.storedRequest.Some? ==> s.hook.storedRequest.value <= s.hook.request)
    && (s.hook.storedRequest == Some(s.hook.request) <==> !s.pending)
    && (s.hook.storedRequest == Some(s.hook.request) ==> s.hook.storedLifecycle == Some(s.hook.lifecycle))
    && (s.hook.error.Some? && s.hook.storedRequest == Some(s.hook.request) ==>
          s.hook.request in s.failures && s.failures[s.hook.request] == s.hook.error.value)
    && (s.loadingMore.Some? ==> s.loadingMore.value <= s.hook.request)
    && (forall id :: id in s.pages ==> PageContinues(s, id))
  }

  lemma PageLoadedKeeps(server: Server, s: System, id: nat)
    requires Invariant(server, s) && id in s.pages
    ensures Invariant(server, Step(server, true, s, PageLoaded(id)))
  {
    var page := s.pages[id];
    var after := Step(server, true, s, PageLoaded(id));
    assert PageContinues(s, id);
    if page.request == s.hook.request {
      var all, n := server(s.hook.key), |s.hook.data.value.items|;
      var more := PageAt(server, page.key, page.offset);
      assert s.hook.data.value.items == all[..n];
      assert all[..n] + more.items == all[..n + |more.items|];
    }
    forall other | other in after.pages
      ensures PageContinues(after, other)
    {
      assert PageContinues(s, other);
    }
  }

  lemma LoadMoreKeeps(server: Server, s: System)
    requires Invariant(server, s)
    ensures Invariant(server, Step(server, true, s, LoadMore))
  {
    var after := Step(server, true, s, LoadMore);
    forall id | id in after.pages
      ensures PageContinues(after, id)
    {
      assert forall other :: other in s.pages ==> PageContinues(s, other);
    }
  }

  lemma PageFailedKeeps(server: Server, s: System, id: nat, message: string)
    requires Invariant(server, s) && id in s.pages
    ensures Invariant(server, Step(server, true, s, PageFailed(id, message)))
  {
    var after := Step(server, true, s, PageFailed(id, message));
    assert PageContinues(s, id);
    forall other | other in after.pages
      ensures PageContinues(after, other)
    {
      assert PageContinues(s, other);
    }
  }

  /** Steps that leave the pages alone and only ever renew the request. */
  lemma SamePagesKeep(server: Server, s: System, after: System)
    requires Invariant(server, s) && after.pages == s.pages && after.nextPage == s.nextPage
    requires after.loadingMore == s.loadingMore && s.hook.request <= after.hook.request
    requires after.hook.request == s.hook.request ==> s.hook == after.hook || s.pending
    ensures forall id :: id in after.pages ==> PageContinues(after, id)
  {
    forall id | id in after.pages
      ensures PageContinues(after, id)
    {
      assert PageContinues(s, id);
    }
  }

  lemma StepKeeps(server: Server, s: System, action: Action)
    requires Invariant(server, s)
    ensures Invariant(server, Step(server, true, s, action))
  {
    match action
    case PageLoaded(id) =>
      if id in s.pages {
        PageLoadedKeeps(server, s, id);
      }
    case PageFailed(id, message) =>
      if id in s.pages {
        PageFailedKeeps(server, s, id, message);
      }
    case LoadMore => LoadMoreKeeps(server, s);
    case _ =>
      SamePagesKeep(server, s, Step(server, true, s, action));
  }

  lemma {:induction false} RunKeeps(server: Server, key: Key, actions: seq<Action>)
    ensures Invariant(server, Run(server, true, Start(key), actions))
  {
    if actions != [] {
      RunKeeps(server, key, actions[..|actions| - 1]);
      StepKeeps(server, Run(server, true, Start(key), actions[..|actions| - 1]), actions[|actions| - 1]);
    }
  }

  // ----- The results -----

  /** What the register was last searched for. */
  function LastSearched(key: Key, actions: seq<Action>): Key {
    if actions == [] then key
    else if actions[|actions| - 1].Search? then actions[|actions| - 1].key
    else LastSearched(key, actions[..|actions| - 1])
  }

  /** The hook always serves the key last searched for. */
  lemma {:induction false} KeyIsLastSearched(server: Server, gated: bool, key: Key, actions: seq<Action>)
    ensures Run(server, gated, Start(key), actions).hook.key == LastSearched(key, actions)
  {
    if actions != [] {
      KeyIsLastSearched(server, gated, key, actions[..|actions| - 1]);
    }
  }

  lemma OnlyRenewed(server: Server, gated: bool, s: System, action: Action)
    ensures var after := Step(server, gated, s, action).hook;
            s.hook.lifecycle <= after.lifecycle && s.hook.request <= after.request
  {
    hide PageAt, Append;
  }

  /** Lifecycles and requests are only ever renewed. */
  lemma {:induction false} NothingComesBack(server: Server, gated: bool, s: System, actions: seq<Action>)
    ensures var after := Run(server, gated, s, actions).hook;
            s.hook.lifecycle <= after.lifecycle && s.hook.request <= after.request
  {
    if actions != [] {
      hide Step;
      NothingComesBack(server, gated, s, actions[..|actions| - 1]);
      OnlyRenewed(server, gated, Run(server, gated, s, actions[..|actions| - 1]), actions[|actions| - 1]);
    }
  }

  /** A search for another key has a lifecycle and a request that the run never had before, and shows nothing of
      what was stored; a search for the same key changes nothing. */
  lemma SearchStartsAfresh(server: Server, key: Key, actions: seq<Action>, other: Key, n: nat)
    requires n <= |actions|
    ensures var earlier, s := Run(server, true, Start(key), actions[..n]), Run(server, true, Start(key), actions);
            var after := Step(server, true, s, Search(other));
            if other == LastSearched(key, actions) then after == s
            else
              && after.hook.lifecycle > earlier.hook.lifecycle && after.hook.request > earlier.hook.request
              && Items(after) == [] && ShownData(after.hook).None? && ShownError(after.hook).None?
              && Loading(after.hook) && after.pending
  {
    KeyIsLastSearched(server, true, key, actions);
    RunKeeps(server, key, actions);
    RunSplits(server, Start(key), actions, n);
    NothingComesBack(server, true, Run(server, true, Start(key), actions[..n]), actions[n..]);
  }

  lemma {:induction false} RunSplits(server: Server, s: System, actions: seq<Action>, n: nat)
    requires n <= |actions|
    ensures Run(server, true, s, actions) == Run(server, true, Run(server, true, s, actions[..n]), actions[n..])
    decreases |actions|
  {
    if n < |actions| {
      var init := actions[..|actions| - 1];
      RunSplits(server, s, init, n);
      assert init[..n] == actions[..n] && actions[n..][..|actions| - n - 1] == init[n..];
    } else {
      assert actions[..n] == actions && actions[n..] == [];
    }
  }

  /** Over every run of searches, gated retries, load-mores and responses in any order, the register shows
      a gap-free, duplicate-free prefix of the server's list for the key last searched for. */
  lemma ShownItemsArePrefix(server: Server, key: Key, actions: seq<Action>)
    ensures var s := Run(server, true, Start(key), actions); var all := server(LastSearched(key, actions));
            && Items(s) <= all
            && (ShownData(s.hook).Some? ==> TotalShown(s) == |all|)
  {
    RunKeeps(server, key, actions);
    KeyIsLastSearched(server, true, key, actions);
  }

  /** An error is shown only when the newest request itself failed with it. */
  lemma ShownErrorIsCurrent(server: Server, key: Key, actions: seq<Action>)
    requires ShownError(Run(server, true, Start(key), actions).hook).Some?
    ensures var s := Run(server, true, Start(key), actions);
            && !Loading(s.hook) && s.hook.request in s.failures
            && ShownError(s.hook) == Some(s.failures[s.hook.request])
  {
    RunKeeps(server, key, actions);
  }

  // ----- What each response and click does -----

  function FirstItems(all: seq<Item>, n: nat): seq<Item> {
    if n < |all| then all[..n] else all
  }

  /** The newest load shows the first hundred items, or its error over what was already shown. */
  lemma LoadShowsFirstPage(server: Server, s: System, message: string)
    requires Invariant(server, s) && s.pending
    ensures var after := Step(server, true, s, Loaded(s.hook.request)); var all := server(s.hook.key);
            && Items(after) == FirstItems(all, 100) && TotalShown(after) == |all|
            && ShownError(after.hook).None? && !Loading(after.hook) && !after.pending
    ensures var after := Step(server, true, s, LoadFailed(s.hook.request, message));
            && Items(after) == Items(s) && ShownError(after.hook) == Some(message) && !Loading(after.hook)
            && !after.pending
  {
    var all := server(s.hook.key);
    assert |all| <= 100 ==> all[0..|all|] == all;
  }

  /** With more to show and nothing under way, load-more asks for what comes after the items shown. */
  lemma LoadMoreContinues(server: Server, s: System)
    requires |Items(s)| < TotalShown(s) && s.loadingMore != Some(s.hook.request)
    ensures var after := Step(server, true, s, LoadMore);
            && s.nextPage in after.pages && after.pages[s.nextPage].offset == |Items(s)|
            && after.pages[s.nextPage].key == s.hook.key && after.pages[s.nextPage].request == s.hook.request
            && after.loadingMore == Some(s.hook.request) && after.hook == s.hook && after.pending == s.pending
            && after.pageError == None
  {
  }

  /** The page of the newest request adds the next hundred items; its failure adds none and is reported. */
  lemma PageAddsHundred(server: Server, s: System, id: nat, message: string)
    requires Invariant(server, s) && id in s.pages && s.pages[id].request == s.hook.request
    ensures var after := Step(server, true, s, PageLoaded(id));
            && Items(after) == FirstItems(server(s.hook.key), |Items(s)| + 100) && after.loadingMore == None
            && ShownData(after.hook).Some? && after.hook == s.hook.(data := after.hook.data) && after.pending == s.pending
    ensures var after := Step(server, true, s, PageFailed(id, message));
            Items(after) == Items(s) && after.loadingMore == None && after.pageError == Some((s.hook.request, message))
  {
    assert PageContinues(s, id);
    var all, n := server(s.hook.key), |Items(s)|;
    var more := PageAt(server, s.hook.key, n).items;
    assert Items(s) == all[..n] && all[..n] + more == all[..n + |more|];
    if n + 100 >= |all| {
      assert all[..n + |more|] == all;
    }
  }

  /** Something is always under way, shown, or offered for retry. */
  ghost predicate NeverStuck(s: System) {
    && (s.pending || s.hook.error.Some? || s.hook.data.Some?)
    && (s.loadingMore == Some(s.hook.request) ==> exists id :: id in s.pages && s.pages[id].request == s.hook.request)
    && s.nextPage !in s.pages
  }

  lemma StepKeepsUnstuck(server: Server, s: System, action: Action)
    requires Invariant(server, s) && NeverStuck(s)
    ensures NeverStuck(Step(server, true, s, action))
  {
    var after := Step(server, true, s, action);
    assert forall id :: id in s.pages ==> PageContinues(s, id);
    match action
    case LoadMore =>
      if after != s {
        assert s.nextPage in after.pages && after.pages[s.nextPage].request == s.hook.request;
      }
    case _ =>
      if after.loadingMore == Some(after.hook.request) {
        var id :| id in s.pages && s.pages[id].request == s.hook.request;
        assert id in after.pages;
      }
  }

  lemma {:induction false} RunKeepsUnstuck(server: Server, key: Key, actions: seq<Action>)
    ensures NeverStuck(Run(server, true, Start(key), actions))
  {
    if actions != [] {
      RunKeeps(server, key, actions[..|actions| - 1]);
      RunKeepsUnstuck(server, key, actions[..|actions| - 1]);
      StepKeepsUnstuck(server, Run(server, true, Start(key), actions[..|actions| - 1]), actions[|actions| - 1]);
    }
  }

  lemma One(server: Server, key: Key, actions: seq<Action>, action: Action) returns (longer: seq<Action>, s: System)
    ensures longer == actions + [action] && s == Run(server, true, Start(key), longer)
    ensures s == Step(server, true, Run(server, true, Start(key), actions), action)
  {
    longer := actions + [action];
    assert longer[..|actions|] == actions;
    s := Run(server, true, Start(key), longer);
  }

  /** From a state with data on show, the next page can be brought in. */
  lemma NextPage(server: Server, key: Key, actions: seq<Action>) returns (more: seq<Action>, s: System)
    requires var now := Run(server, true, Start(key), actions);
             ShownData(now.hook).Some? && !now.pending && now.hook.error.None? && |Items(now)| < |server(now.hook.key)|
    ensures var now := Run(server, true, Start(key), actions);
            && actions <= more && s == Run(server, true, Start(key), more) && s.hook == now.hook.(data := s.hook.data) && !s.pending
            && Items(s) == FirstItems(server(now.hook.key), |Items(now)| + 100) && ShownData(s.hook).Some?
  {
    more, s := actions, Run(server, true, Start(key), actions);
    RunKeeps(server, key, actions);
    RunKeepsUnstuck(server, key, actions);
    assert TotalShown(s) == |server(s.hook.key)|;
    if s.loadingMore != Some(s.hook.request) {
      hide Run, Step, Invariant, NeverStuck, Items, TotalShown;
      LoadMoreContinues(server, s);
      var next := s.nextPage;
      more, s := One(server, key, more, LoadMore);
      RunKeeps(server, key, more);
      PageAddsHundred(server, s, next, "");
      more, s := One(server, key, more, PageLoaded(next));
    } else {
      hide Run, Step, Invariant, Items;
      var id :| id in s.pages && s.pages[id].request == s.hook.request;
      PageAddsHundred(server, s, id, "");
      more, s := One(server, key, more, PageLoaded(id));
    }
  }

  lemma {:induction false} ShowRest(server: Server, key: Key, actions: seq<Action>) returns (more: seq<Action>)
    requires var now := Run(server, true, Start(key), actions);
             ShownData(now.hook).Some? && !now.pending && now.hook.error.None?
    ensures var now, after := Run(server, true, Start(key), actions), Run(server, true, Start(key), more);
            actions <= more && after.hook.key == now.hook.key && Items(after) == server(now.hook.key)
    decreases |server(Run(server, true, Start(key), actions).hook.key)| - |Items(Run(server, true, Start(key), actions))|
  {
    var now := Run(server, true, Start(key), actions);
    RunKeeps(server, key, actions);
    if |Items(now)| < |server(now.hook.key)| {
      hide Run;
      var s;
      more, s := NextPage(server, key, actions);
      more := ShowRest(server, key, more);
    } else {
      more := actions;
    }
  }

  /** Wherever a run has got to, responses, load-mores and at most one retry show the whole list of the key. */
  lemma CanShowEverything(server: Server, key: Key, actions: seq<Action>)
    ensures exists more :: actions <= more && var s := Run(server, true, Start(key), more);
              s.hook.key == LastSearched(key, actions) && Items(s) == server(LastSearched(key, actions))
  {
    KeyIsLastSearched(server, true, key, actions);
    RunKeeps(server, key, actions);
    RunKeepsUnstuck(server, key, actions);
    var trace, s := actions, Run(server, true, Start(key), actions);
    hide Run;
    if !s.pending && s.hook.error.Some? {
      trace, s := One(server, key, trace, Retry);
      RunKeeps(server, key, trace);
    }
    if s.pending {
      LoadShowsFirstPage(server, s, "");
      trace, s := One(server, key, trace, Loaded(s.hook.request));
    }
    var more := ShowRest(server, key, trace);
    assert Run(server, true, Start(key), more).hook.key == LastSearched(key, actions);
  }

  lemma After(server: Server, s: System, actions: seq<Action>, action: Action) returns (longer: seq<Action>, after: System)
    ensures longer == actions + [action] && after == Run(server, false, s, longer)
    ensures after == Step(server, false, Run(server, false, s, actions), action)
  {
    longer := actions + [action];
    assert longer[..|actions|] == actions;
    after := Run(server, false, s, longer);
  }

  /** A register of 250 items showing its first two pages. */
  lemma TwoPagesShown(server: Server, key: Key, all: seq<Item>) returns (trace: seq<Action>, s: System)
    requires |all| == 250 && server(key) == all
    ensures s == Run(server, false, Start(key), trace) && ShownData(s.hook) == Some(Data(all[0..100] + all[100..200], 250))
    ensures s == System(Hook(key, 0, 0, Some(0), Some(0), s.hook.data, None), false, None, None, map[], 1, map[])
  {
    trace, s := After(server, Start(key), [], Loaded(0));
    assert ShownData(s.hook) == Some(Data(all[0..100], 250));
    hide Run;
    trace, s := After(server, Start(key), trace, LoadMore);
    assert s.pages == map[0 := Page(0, 0, key, 100)];
    trace, s := After(server, Start(key), trace, PageLoaded(0));
  }

  /** Were retry offered while data is shown, a load-more started during the reload would land after
      the reloaded first page and leave a gap. */
  lemma UngatedRetryLeavesGap(key: Key)
    ensures exists server: Server, actions :: !(Items(Run(server, false, Start(key), actions)) <= server(key))
  {
    var all := seq(250, i => i);
    var server: Server := k => all;
    var trace, s := TwoPagesShown(server, key, all);
    hide Run;
    trace, s := After(server, Start(key), trace, Retry);
    trace, s := After(server, Start(key), trace, LoadMore);
    assert s.pages == map[1 := Page(0, 1, key, 200)] && s.pending;
    trace, s := After(server, Start(key), trace, Loaded(1));
    assert ShownData(s.hook) == Some(Data(all[0..100], 250));
    trace, s := After(server, Start(key), trace, PageLoaded(1));
    assert Items(s) == all[0..100] + all[200..250];
    assert Items(s)[100] == 200 != server(key)[100];
  }
}
