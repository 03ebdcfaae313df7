/**
  Rotation of the cached ApiClient and DynamicClient (`client.py`).

  The two lock sections of `get_api_client` and `get_dynamic_client`, the two of
  `reset_client_cache`, and the closing of an obsolete client outside every lock are
  separate steps of a transition system, so all interleavings of gets, rotations and
  resets are runs. `ClientGlobals` holds the module globals and updates them in place;
  its methods are proved to compute the lock sections.

  CPython's `id()` is an address, and addresses are reused. The model therefore gives each
  ApiClient an address that only has to differ from those of the clients still referenced
  (by a global, by the wrapped DynamicClient, or by a call in progress).
*/
module ClientCache {
  import opened Foundations

  type Key = string

  /** An ApiClient: the cache key its configuration was loaded for, and its `id()`. */
  datatype Client = Client(key: Key, address: nat)

  /** The cached proxy: its number, the client it wraps, and the (settings, id) pair it was stored under. */
  datatype Dynamic = Dynamic(proxy: nat, wraps: nat, key: Key, address: nat)

  /** Clients and proxies are numbered in the order they are built. */
  datatype Globals = Globals(cachedClient: Option<nat>, cachedKey: Option<Key>, cachedDynamic: Option<Dynamic>)

  // ----- Lock sections ---------------------------------------------------------------

  predicate MustBuild(g: Globals, key: Key) {
    g.cachedClient.None? || g.cachedKey != Some(key)
  }

  /** The api section: the client to return, and the one to close afterwards. */
  function GetApi(g: Globals, key: Key, replacement: nat): (r: (Globals, nat, Option<nat>))
  {
    if MustBuild(g, key) then
      (g.(cachedClient := Some(replacement), cachedKey := Some(key)), replacement, g.cachedClient)
    else (g, g.cachedClient.value, None)
  }

  /** The dynamic section: the client wrapped by the proxy it returns. */
  function GetDynamic(g: Globals, key: Key, client: nat, address: nat, replacement: nat): (Globals, nat)
  {
    if g.cachedDynamic.None? || (g.cachedDynamic.value.key, g.cachedDynamic.value.address) != (key, address) then
      (g.(cachedDynamic := Some(Dynamic(replacement, client, key, address))), client)
    else (g, g.cachedDynamic.value.wraps)
  }

  /** The two sections of `reset_client_cache`. */
  function ClearedDynamic(g: Globals): Globals {
    g.(cachedDynamic := None)
  }

  function ClearedApi(g: Globals): Globals {
    g.(cachedClient := None, cachedKey := None)
  }

  class ClientGlobals {
    var cachedClient: Option<nat>
    var cachedKey: Option<Key>
    var cachedDynamic: Option<Dynamic>

    function View(): Globals
      reads this
    {
      Globals(cachedClient, cachedKey, cachedDynamic)
    }

    constructor ()
      ensures View() == Globals(None, None, None)
    {
      cachedClient, cachedKey, cachedDynamic := None, None, None;
    }

    /** `loaded` is false when building the configuration raises: the globals stay as they were. */
    method GetApiSection(key: Key, replacement: nat, loaded: bool) returns (result: Option<nat>, previous: Option<nat>)
      modifies this`cachedClient, this`cachedKey
      ensures
        if loaded || !MustBuild(old(View()), key)
        then result.Some? && (View(), result.value, previous) == GetApi(old(View()), key, replacement)
        else View() == old(View()) && result.None? && previous.None?
    {
      previous := None;
      if cachedClient.None? || cachedKey != Some(key) {
        if !loaded { return None, None; }
        previous := cachedClient;
        cachedClient, cachedKey := Some(replacement), Some(key);
      }
      result := cachedClient;
    }

    method GetDynamicSection(key: Key, client: nat, address: nat, replacement: nat) returns (wrapped: nat)
      modifies this`cachedDynamic
      ensures (View(), wrapped) == GetDynamic(old(View()), key, client, address, replacement)
    {
      if cachedDynamic.None? || (cachedDynamic.value.key, cachedDynamic.value.address) != (key, address) {
        cachedDynamic := Some(Dynamic(replacement, client, key, address));
      }
      return cachedDynamic.value.wraps;
    }

    method ResetDynamicSection()
      modifies this`cachedDynamic
      ensures View() == ClearedDynamic(old(View()))
    {
      cachedDynamic := None;
    }

    method ResetApiSection() returns (previous: Option<nat>)
      modifies this`cachedClient, this`cachedKey
      ensures View() == ClearedApi(old(View())) && previous == old(cachedClient)
    {
      previous := cachedClient;
      cachedClient, cachedKey := None, None;
    }
  }

  // ----- All interleavings -------------------------------------------------------------

  /** `dynamic` says the call came in through `get_dynamic_client`. */
  datatype Call =
    | Getting(key: Key, dynamic: bool)
    | Closing(key: Key, dynamic: bool, client: nat, doomed: nat)
    | Wrapping(key: Key, client: nat)
    | GotApi(key: Key, client: nat)
    | GotDynamic(key: Key, client: nat, wrapped: nat)
    | ResettingDynamic
    | ResettingApi
    | ClosingReset(doomed: nat)
    | Over

  /** `proxies` counts the DynamicClients built so far. */
  datatype State = State(g: Globals, clients: seq<Client>, proxies: nat, calls: seq<Call>, closes: seq<nat>)

  datatype Action =
    | StartGet(key: Key, dynamic: bool)
    | StartReset
    | ApiLock(c: nat, address: nat)
    | LoadRaises(c: nat)
    | Close(c: nat)
    | DynamicLock(c: nat)
    | ResetDynamicLock(c: nat)
    | ResetApiLock(c: nat)
    | DropResult(c: nat)

  /** Still referenced: cached, wrapped by the cached proxy, or held by a call or its caller. */
  ghost predicate Referenced(s: State, client: nat)
  {
    || s.g.cachedClient == Some(client)
    || (s.g.cachedDynamic.Some? && s.g.cachedDynamic.value.wraps == client)
    || exists c | 0 <= c < |s.calls| :: Holds(s.calls[c], client)
  }

  predicate Holds(call: Call, client: nat)
  {
    match call
    case Closing(_, _, result, doomed) => client == result || client == doomed
    case Wrapping(_, result) => client == result
    case GotApi(_, result) => client == result
    case GotDynamic(_, result, wrapped) => client == result || client == wrapped
    case ClosingReset(doomed) => client == doomed
    case _ => false
  }

  ghost predicate Enabled(s: State, a: Action)
  {
    match a
    case StartGet(_, _) => true
    case StartReset => true
    case ApiLock(c, address) =>
      && c < |s.calls| && s.calls[c].Getting?
      && (MustBuild(s.g, s.calls[c].key) ==>
            forall i | 0 <= i < |s.clients| && Referenced(s, i) :: s.clients[i].address != address)
    case LoadRaises(c) => c < |s.calls| && s.calls[c].Getting? && MustBuild(s.g, s.calls[c].key)
    case Close(c) => c < |s.calls| && (s.calls[c].Closing? || s.calls[c].ClosingReset?)
    case DynamicLock(c) => c < |s.calls| && s.calls[c].Wrapping? && s.calls[c].client < |s.clients|
    case ResetDynamicLock(c) => c < |s.calls| && s.calls[c].ResettingDynamic?
    case ResetApiLock(c) => c < |s.calls| && s.calls[c].ResettingApi?
    case DropResult(c) => c < |s.calls| && (s.calls[c].GotApi? || s.calls[c].GotDynamic?)
  }

  function Obtained(key: Key, dynamic: bool, client: nat): Call {
    if dynamic then Wrapping(key, client) else GotApi(key, client)
  }

  ghost function Apply(s: State, a: Action): State
    requires Enabled(s, a)
  {
    match a
    case StartGet(key, dynamic) => s.(calls := s.calls + [Getting(key, dynamic)])
    case StartReset => s.(calls := s.calls + [ResettingDynamic])
    case ApiLock(c, address) =>
      var Getting(key, dynamic) := s.calls[c];
      var (g, client, previous) := GetApi(s.g, key, |s.clients|);
      s.(g := g,
         clients := if MustBuild(s.g, key) then s.clients + [Client(key, address)] else s.clients,
         calls := s.calls[c := if previous.Some? then Closing(key, dynamic, client, previous.value)
                               else Obtained(key, dynamic, client)])
    case LoadRaises(c) => s.(calls := s.calls[c := Over])
    case Close(c) =>
      s.(closes := s.closes + [s.calls[c].doomed],
         calls := s.calls[c := match s.calls[c]
           case Closing(key, dynamic, client, _) => Obtained(key, dynamic, client)
           case _ => Over])
    case DynamicLock(c) =>
      var Wrapping(key, client) := s.calls[c];
      var (g, wrapped) := GetDynamic(s.g, key, client, s.clients[client].address, s.proxies);
      s.(g := g, proxies := if g == s.g then s.proxies else s.proxies + 1, calls := s.calls[c := GotDynamic(key, client, wrapped)])
    case ResetDynamicLock(c) => s.(g := ClearedDynamic(s.g), calls := s.calls[c := ResettingApi])
    case ResetApiLock(c) =>
      s.(g := ClearedApi(s.g),
         calls := s.calls[c := if s.g.cachedClient.Some? then ClosingReset(s.g.cachedClient.value) else Over])
    case DropResult(c) => s.(calls := s.calls[c := Over])
  }

  function Init(): State {
    State(Globals(None, None, None), [], 0, [], [])
  }

  ghost function Exec(actions: seq<Action>): Option<State>
  {
    if actions == [] then Some(Init())
    else
      var m := Exec(actions[..|actions| - 1]);
      var a := actions[|actions| - 1];
      if m.Some? && Enabled(m.value, a) then Some(Apply(m.value, a)) else None
  }

  // ----- The inductive invariant ----------------------------------------------------------

  predicate Dooms(call: Call, client: nat) {
    (call.Closing? || call.ClosingReset?) && call.doomed == client
  }

  /** How often a client has been closed or is about to be. */
  ghost function Closings(s: State, client: nat): nat {
    Count((call: Call) => Dooms(call, client), s.calls) + Count((i: nat) => i == client, s.closes)
  }

  ghost predicate ClientOk(s: State, client: nat)
    requires client < |s.clients|
  {
    Closings(s, client) == if s.g.cachedClient == Some(client) then 0 else 1
  }

  ghost predicate CallOk(s: State, c: nat)
    requires c < |s.calls|
  {
    match s.calls[c]
    case Closing(key, _, client, doomed) => doomed < client < |s.clients| && s.clients[client].key == key
    case Wrapping(key, client) => client < |s.clients| && s.clients[client].key == key
    case GotApi(key, client) => client < |s.clients| && s.clients[client].key == key
    case GotDynamic(key, client, wrapped) => wrapped == client < |s.clients| && s.clients[client].key == key
    case ClosingReset(doomed) => doomed < |s.clients|
    case _ => true
  }

  ghost predicate GlobalsOk(s: State)
  {
    && (s.g.cachedClient.Some? <==> s.g.cachedKey.Some?)
    && (s.g.cachedClient.Some? ==>
          s.g.cachedClient.value < |s.clients| && s.g.cachedKey == Some(s.clients[s.g.cachedClient.value].key))
    && (s.g.cachedDynamic.Some? ==>
          var d := s.g.cachedDynamic.value;
          d.proxy < s.proxies && d.wraps < |s.clients| && s.clients[d.wraps] == Client(d.key, d.address))
  }

  /** Two referenced clients never share an address. */
  ghost predicate AddressesDistinct(s: State)
  {
    forall i, j | 0 <= i < j < |s.clients| && Referenced(s, i) && Referenced(s, j) ::
      s.clients[i].address != s.clients[j].address
  }

  ghost predicate Inv(s: State)
  {
    && GlobalsOk(s)
    && (forall c | 0 <= c < |s.calls| :: CallOk(s, c))
    && (forall i | 0 <= i < |s.clients| :: ClientOk(s, i))
    && (forall i <- s.closes :: i < |s.clients|)
    && AddressesDistinct(s)
  }

  lemma StepKeepsCallOk(s: State, a: Action, c: nat)
    requires Inv(s) && Enabled(s, a) && c < |Apply(s, a).calls|
    ensures CallOk(Apply(s, a), c)
  {
    if c < |s.calls| { assert CallOk(s, c); }
    if a.DynamicLock? && c == a.c { GetDynamicWrapsItsClient(s, c); }
  }

  /**
    The dynamic section always hands out a proxy around the very client the call obtained:
    an equal `id()` means the same client, because the proxy keeps its client referenced.
  */
  lemma GetDynamicWrapsItsClient(s: State, c: nat)
    requires Inv(s) && Enabled(s, DynamicLock(c))
    ensures GetDynamic(s.g, s.calls[c].key, s.calls[c].client, s.clients[s.calls[c].client].address, s.proxies).1 == s.calls[c].client
  {
    assert CallOk(s, c);
    var client := s.calls[c].client;
    assert Holds(s.calls[c], client);
    assert Referenced(s, client);
    if s.g.cachedDynamic.Some? {
      var w := s.g.cachedDynamic.value.wraps;
      assert Referenced(s, w);
    }
  }

  /** A step references no old client that was not referenced before. */
  lemma ReferencesShrink(s: State, a: Action, i: nat)
    requires Inv(s) && Enabled(s, a) && i < |s.clients| && Referenced(Apply(s, a), i)
    ensures Referenced(s, i)
  {
    var s' := Apply(s, a);
    if a.DynamicLock? {
      GetDynamicWrapsItsClient(s, a.c);
      assert CallOk(s, a.c) && Holds(s.calls[a.c], s.calls[a.c].client);
    }
    if exists c | 0 <= c < |s'.calls| :: Holds(s'.calls[c], i) {
      var c :| 0 <= c < |s'.calls| && Holds(s'.calls[c], i);
      if c < |s.calls| && s'.calls[c] == s.calls[c] {
        assert Holds(s.calls[c], i);
      } else if a.Close? {
        assert Holds(s.calls[c], i);
      }
    }
  }

  lemma StepKeepsAddresses(s: State, a: Action)
    requires Inv(s) && Enabled(s, a)
    ensures AddressesDistinct(Apply(s, a))
  {
    var s' := Apply(s, a);
    forall i, j | 0 <= i < j < |s'.clients| && Referenced(s', i) && Referenced(s', j)
      ensures s'.clients[i].address != s'.clients[j].address
    {
      ReferencesShrink(s, a, i);
      if j < |s.clients| { ReferencesShrink(s, a, j); }
    }
  }

  lemma StepKeepsGlobals(s: State, a: Action)
    requires Inv(s) && Enabled(s, a)
    ensures GlobalsOk(Apply(s, a)) && forall i <- Apply(s, a).closes :: i < |Apply(s, a).clients|
  {
    if a.DynamicLock? || a.Close? { assert CallOk(s, a.c); }
  }

  lemma UnbuiltIsNeverClosed(s: State, client: nat)
    requires Inv(s) && client >= |s.clients|
    ensures Closings(s, client) == 0
  {
    forall call <- s.calls ensures !Dooms(call, client) {
      var c :| 0 <= c < |s.calls| && s.calls[c] == call;
      assert CallOk(s, c);
    }
    CountNone((call: Call) => Dooms(call, client), s.calls);
    CountNone((i: nat) => i == client, s.closes);
  }

  function Dooming(call: Call, client: nat): nat {
    if Dooms(call, client) then 1 else 0
  }

  /** A step moves the closings of a client only through the acting call and a close. */
  lemma ClosingsOfStep(s: State, a: Action, client: nat)
    requires Enabled(s, a)
    ensures
      if a.StartGet? || a.StartReset? then Closings(Apply(s, a), client) == Closings(s, client)
      else
        && a.c < |s.calls| == |Apply(s, a).calls|
        && Closings(Apply(s, a), client) + Dooming(s.calls[a.c], client)
           == Closings(s, client) + Dooming(Apply(s, a).calls[a.c], client)
              + if a.Close? && s.calls[a.c].doomed == client then 1 else 0
  {
    var s' := Apply(s, a);
    var p := (call: Call) => Dooms(call, client);
    hide GetApi, GetDynamic, Referenced, Count;
    if a.StartGet? || a.StartReset? {
      CountAppend(p, s.calls, s'.calls[|s.calls|]);
    } else {
      CountUpdate(p, s.calls, a.c, s'.calls[a.c]);
      if a.Close? { CountAppend((i: nat) => i == client, s.closes, s.calls[a.c].doomed); }
    }
  }

  lemma StepKeepsClientOk(s: State, a: Action, client: nat)
    requires Inv(s) && Enabled(s, a) && client < |Apply(s, a).clients|
    ensures ClientOk(Apply(s, a), client)
  {
    ClosingsOfStep(s, a, client);
    if client < |s.clients| { assert ClientOk(s, client); } else { UnbuiltIsNeverClosed(s, client); }
    assert GlobalsOk(s);
    hide Inv, GlobalsOk, Closings, Referenced, GetDynamic;
  }

  lemma StepKeepsInv(s: State, a: Action)
    requires Inv(s) && Enabled(s, a)
    ensures Inv(Apply(s, a))
  {
    var s' := Apply(s, a);
    StepKeepsGlobals(s, a);
    StepKeepsAddresses(s, a);
    forall c | 0 <= c < |s'.calls| ensures CallOk(s', c) { StepKeepsCallOk(s, a, c); }
    forall i | 0 <= i < |s'.clients| ensures ClientOk(s', i) { StepKeepsClientOk(s, a, i); }
  }

  lemma {:induction false} RunKeepsInv(actions: seq<Action>)
    requires Exec(actions).Some?
    ensures Inv(Exec(actions).value)
  {
    if actions != [] {
      var before := actions[..|actions| - 1];
      RunKeepsInv(before);
      StepKeepsInv(Exec(before).value, actions[|actions| - 1]);
    }
  }

  // ----- Theorems over every run ---------------------------------------------------------

  /** The cached ApiClient has not been closed, and no call is about to close it. */
  lemma CachedClientIsOpen(actions: seq<Action>)
    requires Exec(actions).Some? && Exec(actions).value.g.cachedClient.Some?
    ensures
      var s := Exec(actions).value;
      var cached := s.g.cachedClient.value;
      cached !in s.closes && forall call <- s.calls :: !Dooms(call, cached)
  {
    RunKeepsInv(actions);
    var s := Exec(actions).value;
    var cached := s.g.cachedClient.value;
    assert ClientOk(s, cached);
    if cached in s.closes {
      var i :| 0 <= i < |s.closes| && s.closes[i] == cached;
      CountPositive((i: nat) => i == cached, s.closes, i);
    }
    forall call <- s.calls ensures !Dooms(call, cached) {
      if Dooms(call, cached) {
        var c :| 0 <= c < |s.calls| && s.calls[c] == call;
        CountPositive((call: Call) => Dooms(call, cached), s.calls, c);
      }
    }
  }

  /**
    A get builds a new client, and dooms the cached one, exactly when there is no cached client
    or it was built for another key; otherwise it reuses the cached one.
  */
  lemma RebuildsExactlyOnKeyChange(actions: seq<Action>, c: nat, address: nat)
    requires Exec(actions).Some? && Enabled(Exec(actions).value, ApiLock(c, address))
    ensures
      var s := Exec(actions).value;
      var s' := Apply(s, ApiLock(c, address));
      var key := s.calls[c].key;
      var cached := s.g.cachedClient;
      if cached.Some? && cached.value < |s.clients| && s.clients[cached.value].key == key
      then s'.clients == s.clients && s'.g == s.g && s'.calls[c] == Obtained(key, s.calls[c].dynamic, cached.value)
      else
        && s'.clients == s.clients + [Client(key, address)] && s'.g.cachedClient == Some(|s.clients|)
        && (cached.Some? <==> s'.calls[c].Closing?) && (cached.Some? ==> s'.calls[c].doomed == cached.value)
  {
    RunKeepsInv(actions);
  }

  /**
    `get_dynamic_client` reuses the cached proxy exactly when it wraps the client the call
    obtained; otherwise it builds a new one around that client and caches it.
  */
  lemma ProxyReusedIff(actions: seq<Action>, c: nat)
    requires Exec(actions).Some? && Enabled(Exec(actions).value, DynamicLock(c))
    ensures
      var s := Exec(actions).value;
      var s' := Apply(s, DynamicLock(c));
      var client := s.calls[c].client;
      if s.g.cachedDynamic.Some? && s.g.cachedDynamic.value.wraps == client
      then s'.g == s.g && s'.proxies == s.proxies
      else
        && s'.g.cachedDynamic.Some? && s'.g.cachedDynamic.value.wraps == client
        && s'.g.cachedDynamic.value.proxy == s.proxies && s'.proxies == s.proxies + 1
        && s'.g.cachedClient == s.g.cachedClient
  {
    RunKeepsInv(actions);
    var s := Exec(actions).value;
    GetDynamicWrapsItsClient(s, c);
    assert CallOk(s, c);
  }

  /** The dynamic step of a reset drops the proxy and nothing else. */
  lemma ResetForgetsProxy(actions: seq<Action>, c: nat)
    requires Exec(actions).Some? && Enabled(Exec(actions).value, ResetDynamicLock(c))
    ensures Apply(Exec(actions).value, ResetDynamicLock(c)).g.cachedDynamic == None
    ensures Apply(Exec(actions).value, ResetDynamicLock(c)).g.cachedClient == Exec(actions).value.g.cachedClient
    ensures Apply(Exec(actions).value, ResetDynamicLock(c)).g.cachedKey == Exec(actions).value.g.cachedKey
  {
  }

  /** The api step drops the ApiClient, keeps the proxy, and hands exactly the dropped client over for closing. */
  lemma ResetForgetsClient(actions: seq<Action>, c: nat, client: nat)
    requires Exec(actions).Some? && Enabled(Exec(actions).value, ResetApiLock(c))
    ensures Apply(Exec(actions).value, ResetApiLock(c)).g.cachedClient == None
    ensures Apply(Exec(actions).value, ResetApiLock(c)).g.cachedDynamic == Exec(actions).value.g.cachedDynamic
    ensures Dooms(Apply(Exec(actions).value, ResetApiLock(c)).calls[c], client) <==> Exec(actions).value.g.cachedClient == Some(client)
  {
  }

  /** The cached key is the key the cached client was built for. */
  lemma CachedKeyMatchesClient(actions: seq<Action>)
    requires Exec(actions).Some?
    ensures
      var s := Exec(actions).value;
      match s.g.cachedClient
      case None => s.g.cachedKey == None
      case Some(client) => client < |s.clients| && s.g.cachedKey == Some(s.clients[client].key)
  {
    RunKeepsInv(actions);
  }

  /**
    Each built client is closed at most once, and never before it was replaced or reset: a
    client is cached exactly while no closing of it has been done or scheduled.
  */
  lemma {:induction false} ClosedAtMostOnce(actions: seq<Action>, client: nat)
    requires Exec(actions).Some? && client < |Exec(actions).value.clients|
    ensures
      var s := Exec(actions).value;
      && Count((i: nat) => i == client, s.closes) <= 1
      && (Closings(s, client) == 0 <==> s.g.cachedClient == Some(client))
  {
    RunKeepsInv(actions);
    assert ClientOk(Exec(actions).value, client);
  }

  /** Every call gets a client built for its own key, and `get_dynamic_client` a proxy around it. */
  lemma ResultsMatchTheirCalls(actions: seq<Action>, c: nat)
    requires Exec(actions).Some? && c < |Exec(actions).value.calls|
    requires Exec(actions).value.calls[c].GotApi? || Exec(actions).value.calls[c].GotDynamic?
    ensures
      var s := Exec(actions).value;
      && s.calls[c].client < |s.clients|
      && s.clients[s.calls[c].client].key == s.calls[c].key
      && (s.calls[c].GotDynamic? ==> s.calls[c].wrapped == s.calls[c].client)
  {
    RunKeepsInv(actions);
    assert CallOk(Exec(actions).value, c);
  }

  /** When every call is over, all clients but the cached one have been closed exactly once. */
  lemma NoClientLeaks(actions: seq<Action>, client: nat)
    requires Exec(actions).Some? && client < |Exec(actions).value.clients|
    requires forall call <- Exec(actions).value.calls :: call.Over? || call.GotApi? || call.GotDynamic?
    ensures
      var s := Exec(actions).value;
      Count((i: nat) => i == client, s.closes) == if s.g.cachedClient == Some(client) then 0 else 1
  {
    RunKeepsInv(actions);
    var s := Exec(actions).value;
    assert ClientOk(s, client);
    CountNone((call: Call) => Dooms(call, client), s.calls);
  }
}
