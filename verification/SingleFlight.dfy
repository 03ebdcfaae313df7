/**
  The OpenAPI schema cache of `tools/discovery.py`: a keyed, TTL-bounded, size-capped
  cache shared by many threads, with one leader per key fetching outside the lock,
  followers blocked on the leader's Future, and resets racing with everything.

  `Table` is the module-global state. Each lock section is a function on it; the class
  `SchemaCache` updates the same globals in place and is proved to compute exactly those
  functions. A `State` adds the calls in progress (one program counter each), so that
  every interleaving of lock sections, fetches, wake-ups, resets and clock ticks is a run.
*/
module SingleFlight {
  import opened Foundations

  type Key = string
  type Error = string

  /** A schema together with the UTF-8 lengths of the chunks its JSON encoder emits. */
  datatype Schema = Schema(document: string, chunks: seq<nat>)

  datatype Outcome = Returned(schema: Schema) | Raised(error: Error)

  /** `leader` is the call that created the Future. */
  datatype Future = Future(key: Key, leader: nat, result: Option<Outcome>)

  datatype Table = Table(
    cache: Option<Schema>,
    cacheAt: real,
    cacheKey: Option<Key>,
    inflight: map<Key, nat>,
    futures: seq<Future>)

  datatype Decision = Hit(schema: Schema) | Lead(future: nat) | Follow(future: nat)

  const OPENAPI_CACHE_TTL_SECONDS := 300.0
  const OPENAPI_CACHE_MAX_BYTES := 8 * 1024 * 1024

  // ----- Lock sections ------------------------------------------------------------

  function EncodedSize(chunks: seq<nat>): nat
  {
    if chunks == [] then 0 else EncodedSize(chunks[..|chunks| - 1]) + chunks[|chunks| - 1]
  }

  predicate Fits(schema: Schema) {
    EncodedSize(schema.chunks) <= OPENAPI_CACHE_MAX_BYTES
  }

  function Emptied(t: Table): Table {
    t.(cache := None, cacheAt := 0.0, cacheKey := None)
  }

  /** The first lock section: drop a foreign key's value, then hit, follow or lead. */
  function Enter(t: Table, key: Key, caller: nat, now: real): (Table, Decision)
  {
    var t1 := if t.cacheKey != Some(key) then Emptied(t) else t;
    if t1.cache.Some? && now - t1.cacheAt <= OPENAPI_CACHE_TTL_SECONDS then
      (t1, Hit(t1.cache.value))
    else if key in t1.inflight then
      (t1, Follow(t1.inflight[key]))
    else
      var f := |t1.futures|;
      (t1.(inflight := t1.inflight[key := f], futures := t1.futures + [Future(key, caller, None)]), Lead(f))
  }

  /** The leader's second lock section. */
  function Store(t: Table, key: Key, schema: Schema, now: real): Table
  {
    if Fits(schema) then t.(cache := Some(schema), cacheAt := now, cacheKey := Some(key))
    else Emptied(t)
  }

  /** The leader's last lock section: pop the entry only if it is still this Future. */
  function Unregister(t: Table, key: Key, future: nat): Table
  {
    if key in t.inflight && t.inflight[key] == future then t.(inflight := t.inflight - {key}) else t
  }

  function Reset(t: Table): Table {
    Emptied(t).(inflight := map[])
  }

  function Resolve(t: Table, future: nat, outcome: Outcome): Table
    requires future < |t.futures|
  {
    t.(futures := t.futures[future := t.futures[future].(result := Some(outcome))])
  }

  // ----- The module globals, updated in place -------------------------------------

  /** `_fits_openapi_cache`: measure incrementally and stop once the cap is exceeded. */
  method FitsOpenapiCache(schema: Schema) returns (fits: bool)
    ensures fits == Fits(schema)
  {
    var total := 0;
    var i := 0;
    while i < |schema.chunks|
      invariant 0 <= i <= |schema.chunks|
      invariant total == EncodedSize(schema.chunks[..i]) <= OPENAPI_CACHE_MAX_BYTES
    {
      assert schema.chunks[..i + 1][..i] == schema.chunks[..i];
      total := total + schema.chunks[i];
      i := i + 1;
      if total > OPENAPI_CACHE_MAX_BYTES {
        PrefixIsSmaller(schema.chunks, i);
        return false;
      }
    }
    assert schema.chunks[..i] == schema.chunks;
    return true;
  }

  lemma {:induction false} PrefixIsSmaller(chunks: seq<nat>, i: nat)
    requires i <= |chunks|
    ensures EncodedSize(chunks[..i]) <= EncodedSize(chunks)
  {
    if i == |chunks| {
      assert chunks[..i] == chunks;
    } else {
      PrefixIsSmaller(chunks[..|chunks| - 1], i);
      assert chunks[..|chunks| - 1][..i] == chunks[..i];
    }
  }

  class SchemaCache {
    var cache: Option<Schema>
    var cacheAt: real
    var cacheKey: Option<Key>
    var inflight: map<Key, nat>
    var futures: seq<Future>

    function View(): Table
      reads this
    {
      Table(cache, cacheAt, cacheKey, inflight, futures)
    }

    constructor ()
      ensures View() == EmptyTable()
    {
      cache, cacheAt, cacheKey, inflight, futures := None, 0.0, None, map[], [];
    }

    /** The first lock section of `_get_openapi_schema`. */
    method EnterSection(key: Key, caller: nat, now: real) returns (decision: Decision)
      modifies this
      ensures (View(), decision) == Enter(old(View()), key, caller, now)
    {
      if cacheKey != Some(key) {
        cache, cacheAt, cacheKey := None, 0.0, None;
      }
      if cache.Some? && now - cacheAt <= OPENAPI_CACHE_TTL_SECONDS {
        return Hit(cache.value);
      }
      if key in inflight {
        return Follow(inflight[key]);
      }
      decision := Lead(|futures|);
      inflight := inflight[key := |futures|];
      futures := futures + [Future(key, caller, None)];
    }

    /** `_store_openapi_spec_if_within_cap`: the returned schema is the fetched one, retained or not. */
    method StoreSection(schema: Schema, key: Key, now: real) returns (schemas: Schema)
      modifies this`cache, this`cacheAt, this`cacheKey
      ensures View() == Store(old(View()), key, schema, now)
      ensures schemas == schema
    {
      var fits := FitsOpenapiCache(schema);
      if fits {
        cache, cacheAt, cacheKey := Some(schema), now, Some(key);
        return cache.value;
      }
      cache, cacheAt, cacheKey := None, 0.0, None;
      return schema;
    }

    method UnregisterSection(key: Key, future: nat)
      modifies this`inflight
      ensures View() == Unregister(old(View()), key, future)
    {
      if key in inflight && inflight[key] == future {
        inflight := inflight - {key};
      }
    }

    method ResetSection()
      modifies this
      ensures View() == Reset(old(View()))
    {
      cache, cacheAt, cacheKey := None, 0.0, None;
      inflight := map[];
    }
  }

  // ----- All interleavings ----------------------------------------------------------

  datatype Via = ByHit(event: nat, at: real) | ByLeading(future: nat) | ByFollowing(future: nat)

  /** Where one call of `_get_openapi_schema` stands. */
  datatype Call =
    | Entering(key: Key)
    | Waiting(key: Key, future: nat)
    | Fetching(key: Key, future: nat)
    | Storing(key: Key, future: nat, fetched: Schema)
    | Resolving(key: Key, future: nat, outcome: Outcome)
    | Unregistering(key: Key, future: nat, outcome: Outcome)
    | Finished(key: Key, outcome: Outcome, via: Via)
  {
    /** Between creating its Future and popping it. */
    predicate Leading() { Fetching? || Storing? || Resolving? || Unregistering? }

    predicate OwesResult() { Fetching? || Storing? || Resolving? }
  }

  /** One execution of the store section: what was fetched, under which key, when, and by which call. */
  datatype StoreEvent = StoreEvent(key: Key, schema: Schema, at: real, leader: nat)

  datatype State = State(table: Table, calls: seq<Call>, now: real, stores: seq<StoreEvent>)

  datatype Action =
    | NewCall(key: Key)
    | EnterLock(c: nat)
    | FetchEnds(c: nat, fetched: Outcome)
    | StoreLock(c: nat)
    | MeasureRaises(c: nat, error: Error)
    | ResolveFuture(c: nat)
    | PopLock(c: nat)
    | Wake(c: nat)
    | ResetLock
    | Tick(seconds: real)

  function EmptyTable(): Table {
    Table(None, 0.0, None, map[], [])
  }

  function Init(): State {
    State(EmptyTable(), [], 0.0, [])
  }

  predicate Enabled(s: State, a: Action)
  {
    match a
    case NewCall(_) => true
    case EnterLock(c) => c < |s.calls| && s.calls[c].Entering?
    case FetchEnds(c, _) => c < |s.calls| && s.calls[c].Fetching?
    case StoreLock(c) => c < |s.calls| && s.calls[c].Storing?
    case MeasureRaises(c, _) => c < |s.calls| && s.calls[c].Storing?
    case ResolveFuture(c) => c < |s.calls| && s.calls[c].Resolving? && s.calls[c].future < |s.table.futures|
    case PopLock(c) => c < |s.calls| && s.calls[c].Unregistering?
    case Wake(c) =>
      && c < |s.calls| && s.calls[c].Waiting? && s.calls[c].future < |s.table.futures|
      && s.table.futures[s.calls[c].future].result.Some?
    case ResetLock => true
    case Tick(seconds) => seconds >= 0.0
  }

  function Apply(s: State, a: Action): State
    requires Enabled(s, a)
  {
    match a
    case NewCall(key) => s.(calls := s.calls + [Entering(key)])
    case EnterLock(c) =>
      var key := s.calls[c].key;
      var (t, d) := Enter(s.table, key, c, s.now);
      s.(table := t, calls := s.calls[c := match d
        case Hit(v) => Finished(key, Returned(v), ByHit(if |s.stores| > 0 then |s.stores| - 1 else 0, s.now))
        case Follow(f) => Waiting(key, f)
        case Lead(f) => Fetching(key, f)])
    case FetchEnds(c, fetched) =>
      var Fetching(key, f) := s.calls[c];
      s.(calls := s.calls[c := match fetched
        case Returned(v) => Storing(key, f, v)
        case Raised(_) => Resolving(key, f, fetched)])
    case StoreLock(c) =>
      var Storing(key, f, v) := s.calls[c];
      s.(table := Store(s.table, key, v, s.now),
         calls := s.calls[c := Resolving(key, f, Returned(v))],
         stores := s.stores + [StoreEvent(key, v, s.now, c)])
    case MeasureRaises(c, error) =>
      s.(calls := s.calls[c := Resolving(s.calls[c].key, s.calls[c].future, Raised(error))])
    case ResolveFuture(c) =>
      var Resolving(key, f, outcome) := s.calls[c];
      s.(table := Resolve(s.table, f, outcome), calls := s.calls[c := Unregistering(key, f, outcome)])
    case PopLock(c) =>
      var Unregistering(key, f, outcome) := s.calls[c];
      s.(table := Unregister(s.table, key, f), calls := s.calls[c := Finished(key, outcome, ByLeading(f))])
    case Wake(c) =>
      var Waiting(key, f) := s.calls[c];
      s.(calls := s.calls[c := Finished(key, s.table.futures[f].result.value, ByFollowing(f))])
    case ResetLock => s.(table := Reset(s.table))
    case Tick(seconds) => s.(now := s.now + seconds)
  }

  /** The state a schedule leads to, if every action is enabled when its turn comes. */
  ghost function Exec(s: State, actions: seq<Action>): Option<State>
  {
    if actions == [] then Some(s)
    else
      var m := Exec(s, actions[..|actions| - 1]);
      var a := actions[|actions| - 1];
      if m.Some? && Enabled(m.value, a) then Some(Apply(m.value, a)) else None
  }

  // ----- The inductive invariant ----------------------------------------------------

  /** Every Future belongs to its creator: unresolved exactly while the creator still owes the result. */
  ghost predicate FutureOk(s: State, f: nat)
    requires f < |s.table.futures|
  {
    var fut := s.table.futures[f];
    && fut.leader < |s.calls|
    && var lead := s.calls[fut.leader];
    && lead.key == fut.key
    && match fut.result
       case None => lead.OwesResult() && lead.future == f
       case Some(o) =>
         || lead == Unregistering(fut.key, f, o)
         || lead == Finished(fut.key, o, ByLeading(f))
  }

  ghost predicate CallOk(s: State, c: nat)
    requires c < |s.calls|
  {
    match s.calls[c]
    case Entering(_) => true
    case Waiting(key, f) => f < |s.table.futures| && s.table.futures[f].key == key
    case Finished(key, outcome, via) =>
      (match via
       case ByHit(e, at) =>
         && e < |s.stores|
         && outcome == Returned(s.stores[e].schema)
         && s.stores[e].key == key
         && Fits(s.stores[e].schema)
         && 0.0 <= at - s.stores[e].at <= OPENAPI_CACHE_TTL_SECONDS
       case ByFollowing(f) =>
         f < |s.table.futures| && s.table.futures[f].key == key && s.table.futures[f].result == Some(outcome)
       case ByLeading(f) =>
         f < |s.table.futures| && s.table.futures[f] == Future(key, c, Some(outcome)))
    case Unregistering(key, f, outcome) =>
      f < |s.table.futures| && s.table.futures[f] == Future(key, c, Some(outcome))
    case lead =>
      lead.future < |s.table.futures| && s.table.futures[lead.future] == Future(lead.key, c, None)
  }

  /** A registered Future is the one its still-active leader created for that key. */
  ghost predicate EntryOk(s: State, k: Key)
    requires k in s.table.inflight
  {
    var f := s.table.inflight[k];
    && f < |s.table.futures|
    && var fut := s.table.futures[f];
    && fut.key == k
    && fut.leader < |s.calls|
    && s.calls[fut.leader].Leading()
    && s.calls[fut.leader].future == f
  }

  ghost predicate StoresOk(s: State)
  {
    && (forall e | 0 <= e < |s.stores| ::
          && s.stores[e].at <= s.now
          && s.stores[e].leader < |s.calls|
          && var lead := s.calls[s.stores[e].leader];
             lead.key == s.stores[e].key
             && (lead.Resolving? || lead.Unregistering? || (lead.Finished? && lead.via.ByLeading?))
             && lead.outcome == Returned(s.stores[e].schema))
    && (s.table.cache.Some? ==>
          && |s.stores| > 0
          && var last := s.stores[|s.stores| - 1];
             s.table.cache == Some(last.schema) && s.table.cacheKey == Some(last.key)
             && s.table.cacheAt == last.at && Fits(last.schema))
  }

  ghost predicate Inv(s: State)
  {
    && (forall f | 0 <= f < |s.table.futures| :: FutureOk(s, f))
    && (forall c | 0 <= c < |s.calls| :: CallOk(s, c))
    && (forall k <- s.table.inflight :: EntryOk(s, k))
    && StoresOk(s)
  }

  lemma StepKeepsFutures(s: State, a: Action, f: nat)
    requires Inv(s) && Enabled(s, a) && f < |Apply(s, a).table.futures|
    ensures FutureOk(Apply(s, a), f)
  {
    if f < |s.table.futures| { assert FutureOk(s, f); }
    if OfCall(a) {
      assert CallOk(s, a.c);
      if a.EnterLock? {
        EnteringFutureOk(s, a.c, f);
      } else {
        hide Inv, Fits, Enter, Store;
      }
    }
  }

  lemma EnteringFutureOk(s: State, c: nat, f: nat)
    requires Enabled(s, EnterLock(c)) && f < |Apply(s, EnterLock(c)).table.futures|
    requires f < |s.table.futures| ==> FutureOk(s, f)
    ensures FutureOk(Apply(s, EnterLock(c)), f)
  {
  }

  /** What a step leaves of the things another call's state depends on. */
  ghost predicate UntouchedFor(s: State, s': State, c: nat)
  {
    && c < |s.calls| && c < |s'.calls| && s'.calls[c] == s.calls[c]
    && s.stores <= s'.stores
    && |s.table.futures| <= |s'.table.futures|
    && forall f | 0 <= f < |s.table.futures| ::
         var was, next := s.table.futures[f], s'.table.futures[f];
         next == was || (was.leader != c && was.result.None? && next.key == was.key)
  }

  lemma UntouchedCallOk(s: State, s': State, c: nat)
    requires UntouchedFor(s, s', c) && CallOk(s, c)
    ensures CallOk(s', c)
  {
    hide Fits;
  }

  lemma OthersUntouched(s: State, a: Action, c: nat)
    requires Inv(s) && Enabled(s, a) && c < |s.calls| && (OfCall(a) ==> a.c != c)
    ensures UntouchedFor(s, Apply(s, a), c)
  {
    if a.ResolveFuture? { assert CallOk(s, a.c); }
    hide Inv, Fits;
  }

  lemma ActingCallOk(s: State, a: Action)
    requires Inv(s) && Enabled(s, a) && OfCall(a)
    ensures CallOk(Apply(s, a), a.c)
  {
    assert CallOk(s, a.c) && StoresOk(s);
    if a.EnterLock? {
      EnteringCallOk(s, a.c);
    } else {
      hide Inv, Fits, Enter, StoresOk;
    }
  }

  lemma EnteringCallOk(s: State, c: nat)
    requires Inv(s) && Enabled(s, EnterLock(c))
    ensures CallOk(Apply(s, EnterLock(c)), c)
  {
    assert StoresOk(s);
    var key := s.calls[c].key;
    if key in s.table.inflight { assert EntryOk(s, key); }
    hide Inv, Fits;
  }

  lemma StepKeepsCalls(s: State, a: Action, c: nat)
    requires Inv(s) && Enabled(s, a) && c < |Apply(s, a).calls|
    ensures CallOk(Apply(s, a), c)
  {
    if OfCall(a) && a.c == c {
      ActingCallOk(s, a);
    } else if c < |s.calls| {
      assert CallOk(s, c);
      OthersUntouched(s, a, c);
      UntouchedCallOk(s, Apply(s, a), c);
    }
  }

  lemma StepKeepsEntries(s: State, a: Action, k: Key)
    requires Inv(s) && Enabled(s, a) && k in Apply(s, a).table.inflight
    ensures EntryOk(Apply(s, a), k)
  {
    if k in s.table.inflight { assert EntryOk(s, k); }
    if a.EnterLock? {
      EnteringEntryOk(s, a.c, k);
    } else {
      if OfCall(a) { assert CallOk(s, a.c); }
      hide Inv, Fits, Enter;
    }
  }

  lemma EnteringEntryOk(s: State, c: nat, k: Key)
    requires Enabled(s, EnterLock(c)) && k in Apply(s, EnterLock(c)).table.inflight
    requires k in s.table.inflight ==> EntryOk(s, k)
    ensures EntryOk(Apply(s, EnterLock(c)), k)
  {
  }

  lemma StepKeepsStores(s: State, a: Action)
    requires Inv(s) && Enabled(s, a)
    ensures StoresOk(Apply(s, a))
  {
  }

  lemma StepKeepsInv(s: State, a: Action)
    requires Inv(s) && Enabled(s, a)
    ensures Inv(Apply(s, a))
  {
    var s' := Apply(s, a);
    forall f | 0 <= f < |s'.table.futures| ensures FutureOk(s', f) { StepKeepsFutures(s, a, f); }
    forall c | 0 <= c < |s'.calls| ensures CallOk(s', c) { StepKeepsCalls(s, a, c); }
    forall k <- s'.table.inflight ensures EntryOk(s', k) { StepKeepsEntries(s, a, k); }
    StepKeepsStores(s, a);
  }

  lemma {:induction false} RunKeepsInv(actions: seq<Action>)
    requires Exec(Init(), actions).Some?
    ensures Inv(Exec(Init(), actions).value)
  {
    if actions != [] {
      var before := actions[..|actions| - 1];
      RunKeepsInv(before);
      StepKeepsInv(Exec(Init(), before).value, actions[|actions| - 1]);
    }
  }

  // ----- Futures: one leader, one resolution ----------------------------------------

  /** Each unresolved Future has exactly one active leader, and that leader still owes the result. */
  lemma {:induction false} UnresolvedFutureHasOneLeader(actions: seq<Action>, f: nat)
    requires Exec(Init(), actions).Some?
    requires f < |Exec(Init(), actions).value.table.futures|
    requires Exec(Init(), actions).value.table.futures[f].result.None?
    ensures
      var s := Exec(Init(), actions).value;
      var lead := s.table.futures[f].leader;
      && lead < |s.calls| && s.calls[lead].OwesResult() && s.calls[lead].key == s.table.futures[f].key
      && forall c | 0 <= c < |s.calls| :: s.calls[c].Leading() && s.calls[c].future == f <==> c == lead
  {
    RunKeepsInv(actions);
    var s := Exec(Init(), actions).value;
    assert FutureOk(s, f);
    forall c | 0 <= c < |s.calls| ensures s.calls[c].Leading() && s.calls[c].future == f <==> c == s.table.futures[f].leader {
      assert CallOk(s, c);
    }
  }

  lemma StepKeepsResults(s: State, a: Action, f: nat)
    requires Inv(s) && Enabled(s, a) && f < |s.table.futures|
    ensures f < |Apply(s, a).table.futures|
    ensures s.table.futures[f].result.Some? ==> Apply(s, a).table.futures[f] == s.table.futures[f]
    ensures a.ResolveFuture? ==> s.table.futures[s.calls[a.c].future].result.None?
  {
    if a.ResolveFuture? { assert CallOk(s, a.c); }
  }

  lemma {:induction false} ExecConcat(s: State, first: seq<Action>, second: seq<Action>)
    requires Exec(s, first).Some?
    ensures Exec(s, first + second) == Exec(Exec(s, first).value, second)
  {
    if second == [] {
      assert first + second == first;
    } else {
      assert (first + second)[..|first + second| - 1] == first + second[..|second| - 1];
      ExecConcat(s, first, second[..|second| - 1]);
    }
  }

  /** Once resolved, a Future keeps its outcome through every continuation of the run. */
  lemma {:induction false} ResolvedOnce(actions: seq<Action>, more: seq<Action>, f: nat)
    requires Exec(Init(), actions + more).Some? && Exec(Init(), actions).Some?
    requires f < |Exec(Init(), actions).value.table.futures|
    requires Exec(Init(), actions).value.table.futures[f].result.Some?
    ensures f < |Exec(Init(), actions + more).value.table.futures|
    ensures Exec(Init(), actions + more).value.table.futures[f] == Exec(Init(), actions).value.table.futures[f]
  {
    if more == [] {
      assert actions + more == actions;
    } else {
      var m := more[..|more| - 1];
      assert (actions + more)[..|actions + more| - 1] == actions + m;
      ResolvedOnce(actions, m, f);
      RunKeepsInv(actions + m);
      StepKeepsResults(Exec(Init(), actions + m).value, more[|more| - 1], f);
    }
  }

  /** The Future a leader is about to resolve is still unresolved, so `set_result` never fails. */
  lemma LeaderResolvesUnresolved(actions: seq<Action>, c: nat)
    requires Exec(Init(), actions).Some?
    requires c < |Exec(Init(), actions).value.calls| && Exec(Init(), actions).value.calls[c].Resolving?
    ensures
      var s := Exec(Init(), actions).value;
      Enabled(s, ResolveFuture(c)) && s.table.futures[s.calls[c].future].result.None?
  {
    RunKeepsInv(actions);
    assert CallOk(Exec(Init(), actions).value, c);
  }

  /** A follower ends with the outcome of the leader it followed, for the key it asked for. */
  lemma FollowerGetsItsLeadersOutcome(actions: seq<Action>, c: nat)
    requires Exec(Init(), actions).Some?
    requires c < |Exec(Init(), actions).value.calls|
    requires Exec(Init(), actions).value.calls[c].Finished? && Exec(Init(), actions).value.calls[c].via.ByFollowing?
    ensures
      var s := Exec(Init(), actions).value;
      exists lead | 0 <= lead < |s.calls| ::
        && lead != c
        && s.calls[lead].key == s.calls[c].key
        && (s.calls[lead] == Unregistering(s.calls[c].key, s.calls[c].via.future, s.calls[c].outcome)
            || s.calls[lead] == Finished(s.calls[c].key, s.calls[c].outcome, ByLeading(s.calls[c].via.future)))
  {
    RunKeepsInv(actions);
    var s := Exec(Init(), actions).value;
    assert CallOk(s, c);
    var f := s.calls[c].via.future;
    assert FutureOk(s, f);
    var lead := s.table.futures[f].leader;
    assert s.calls[lead].key == s.calls[c].key;
  }

  // ----- Registration: stale leaders and resets ---------------------------------------

  /** Popping takes away at most the popper's own Future: every other leader stays registered. */
  lemma StaleLeaderNeverPopsAnother(actions: seq<Action>, c: nat, d: nat)
    requires Exec(Init(), actions).Some? && Enabled(Exec(Init(), actions).value, PopLock(c))
    requires d < |Exec(Init(), actions).value.calls| && d != c
    requires
      var s := Exec(Init(), actions).value;
      && s.calls[d].Leading()
      && s.calls[d].key in s.table.inflight && s.table.inflight[s.calls[d].key] == s.calls[d].future
    ensures
      var s := Exec(Init(), actions).value;
      var after := Apply(s, PopLock(c)).table.inflight;
      && s.calls[d].key in after && after[s.calls[d].key] == s.calls[d].future
      && !(s.calls[c].key in after && after[s.calls[c].key] == s.calls[c].future)
  {
    RunKeepsInv(actions);
    var s := Exec(Init(), actions).value;
    assert CallOk(s, c) && CallOk(s, d);
  }

  /** The in-flight entry of the call's key is its own Future. */
  predicate Registered(s: State, c: nat)
    requires c < |s.calls| && s.calls[c].Leading()
  {
    s.calls[c].key in s.table.inflight && s.table.inflight[s.calls[c].key] == s.calls[c].future
  }

  ghost predicate Leads(s: State, c: nat, key: Key) {
    c < |s.calls| && s.calls[c].Leading() && s.calls[c].key == key
  }

  /** No active leader of the key has lost its entry to a reset. */
  ghost predicate AllRegistered(s: State, key: Key) {
    forall c: nat | Leads(s, c, key) :: Registered(s, c)
  }

  ghost predicate OneLeader(s: State, key: Key) {
    forall c: nat, d: nat | Leads(s, c, key) && Leads(s, d, key) :: c == d
  }

  ghost predicate NoLeader(s: State, key: Key) {
    forall c: nat :: !Leads(s, c, key)
  }

  ghost predicate NoReset(actions: seq<Action>) {
    forall a <- actions :: !a.ResetLock?
  }

  lemma StepKeepsRegistered(s: State, a: Action, c: nat)
    requires Inv(s) && Enabled(s, a) && !a.ResetLock? && c < |Apply(s, a).calls| && Apply(s, a).calls[c].Leading()
    requires c < |s.calls| && s.calls[c].Leading() ==> Registered(s, c)
    ensures Registered(Apply(s, a), c)
  {
    if c < |s.calls| { assert CallOk(s, c); }
    if OfCall(a) { assert CallOk(s, a.c); }
    hide Inv, Fits;
  }

  lemma StepKeepsKeyOfCall(s: State, a: Action, c: nat)
    requires Enabled(s, a) && c < |s.calls|
    ensures c < |Apply(s, a).calls| && Apply(s, a).calls[c].key == s.calls[c].key
  {
    hide Enter, Store;
  }

  /** Without resets the leaders stay registered. */
  lemma {:induction false} RunKeepsRegistered(s: State, more: seq<Action>, key: Key)
    requires Inv(s) && AllRegistered(s, key) && Exec(s, more).Some? && NoReset(more)
    ensures Inv(Exec(s, more).value) && AllRegistered(Exec(s, more).value, key)
  {
    if more != [] {
      var before, a := more[..|more| - 1], more[|more| - 1];
      assert a in more;
      RunKeepsRegistered(s, before, key);
      var m := Exec(s, before).value;
      StepKeepsInv(m, a);
      hide Enabled, Apply, Inv, Registered;
      forall c: nat | Leads(Apply(m, a), c, key) ensures Registered(Apply(m, a), c) {
        if c < |m.calls| { StepKeepsKeyOfCall(m, a, c); }
        StepKeepsRegistered(m, a, c);
      }
    }
  }

  lemma RegisteredLeadsAlone(s: State, key: Key)
    requires Inv(s) && AllRegistered(s, key)
    ensures OneLeader(s, key)
  {
    forall c: nat, d: nat | Leads(s, c, key) && Leads(s, d, key) ensures c == d {
      assert CallOk(s, c) && CallOk(s, d);
    }
  }

  /** The run that gives an unregistered leader a rival: let the cache expire, then ask for the key. */
  function Rival(s: State, key: Key): seq<Action> {
    [Tick(OPENAPI_CACHE_TTL_SECONDS + 1.0), NewCall(key), EnterLock(|s.calls|)]
  }

  lemma {:induction false} RivalRuns(s: State, key: Key)
    ensures
      var s2 := Apply(Apply(s, Tick(OPENAPI_CACHE_TTL_SECONDS + 1.0)), NewCall(key));
      Enabled(s2, EnterLock(|s.calls|)) && Exec(s, Rival(s, key)) == Some(Apply(s2, EnterLock(|s.calls|)))
  {
    var run := Rival(s, key);
    var s1 := Apply(s, run[0]);
    var s2 := Apply(s1, run[1]);
    assert Enabled(s2, run[2]);
    hide Enter, Apply, Enabled, Rival;
    ExecPrefix(s, run, 0);
    ExecPrefix(s, run, 1);
    ExecPrefix(s, run, 2);
    assert run[..3] == run;
  }

  lemma ExecPrefix(s: State, run: seq<Action>, k: nat)
    requires k < |run| && (k == 0 || Exec(s, run[..k]).Some?)
    requires Enabled(if k == 0 then s else Exec(s, run[..k]).value, run[k])
    ensures Exec(s, run[..k + 1]) == Some(Apply(if k == 0 then s else Exec(s, run[..k]).value, run[k]))
  {
    hide Apply, Enabled;
    assert run[..k + 1][..k] == run[..k];
    if k == 0 { assert Exec(s, run[..0]) == Some(s); }
  }

  lemma UnregisteredMeetsRival(s: State, key: Key, c: nat) returns (more: seq<Action>)
    requires Inv(s) && Leads(s, c, key) && !Registered(s, c)
    ensures Exec(s, more).Some? && NoReset(more) && !OneLeader(Exec(s, more).value, key)
  {
    if key in s.table.inflight {
      assert EntryOk(s, key);
      var d := s.table.futures[s.table.inflight[key]].leader;
      assert CallOk(s, d) && Leads(s, d, key) && d != c;
      more := [];
    } else {
      more := Rival(s, key);
      RivalRuns(s, key);
      RivalLeads(s, key, c);
    }
  }

  lemma RivalLeads(s: State, key: Key, c: nat)
    requires Inv(s) && Leads(s, c, key) && key !in s.table.inflight
    ensures
      var s2 := Apply(Apply(s, Tick(OPENAPI_CACHE_TTL_SECONDS + 1.0)), NewCall(key));
      var s3 := Apply(s2, EnterLock(|s.calls|));
      Leads(s3, c, key) && Leads(s3, |s.calls|, key)
  {
    assert StoresOk(s);
    hide Inv, Fits;
  }

  /**
    One leader per key: from a reachable state on, two calls never fetch the key at once,
    whatever happens short of another reset, if and only if every active leader of the key is
    registered.
  */
  lemma OneLeaderPerKeyIff(actions: seq<Action>, key: Key)
    requires Exec(Init(), actions).Some?
    ensures
      var s := Exec(Init(), actions).value;
      (forall more | Exec(s, more).Some? && NoReset(more) :: OneLeader(Exec(s, more).value, key)) <==> AllRegistered(s, key)
  {
    RunKeepsInv(actions);
    LeadersStayAloneIff(Exec(Init(), actions).value, key);
  }

  lemma LeadersStayAloneIff(s: State, key: Key)
    requires Inv(s)
    ensures
      (forall more | Exec(s, more).Some? && NoReset(more) :: OneLeader(Exec(s, more).value, key)) <==> AllRegistered(s, key)
  {
    if AllRegistered(s, key) {
      forall more | Exec(s, more).Some? && NoReset(more) ensures OneLeader(Exec(s, more).value, key) {
        RunKeepsRegistered(s, more, key);
        RegisteredLeadsAlone(Exec(s, more).value, key);
      }
    } else {
      var c: nat :| Leads(s, c, key) && !Registered(s, c);
      var more := UnregisteredMeetsRival(s, key, c);
    }
  }

  /** A reset leaves the key with one leader from then on if and only if nobody is fetching it at that moment. */
  lemma ResetIsHarmlessIff(actions: seq<Action>, key: Key)
    requires Exec(Init(), actions).Some?
    ensures
      var s := Exec(Init(), actions).value;
      var s' := Apply(s, ResetLock);
      (forall more | Exec(s', more).Some? && NoReset(more) :: OneLeader(Exec(s', more).value, key)) <==> NoLeader(s, key)
  {
    RunKeepsInv(actions);
    var s := Exec(Init(), actions).value;
    StepKeepsInv(s, ResetLock);
    LeadersStayAloneIff(Apply(s, ResetLock), key);
    assert forall c: nat :: Leads(Apply(s, ResetLock), c, key) <==> Leads(s, c, key);
  }

  /** Over whole runs: when no reset happens while the key is being fetched, the key never has two leaders. */
  lemma {:induction false} OneLeaderPerKey(actions: seq<Action>, key: Key)
    requires Exec(Init(), actions).Some?
    requires forall i | 0 <= i < |actions| && actions[i].ResetLock? && Exec(Init(), actions[..i]).Some? ::
               NoLeader(Exec(Init(), actions[..i]).value, key)
    ensures AllRegistered(Exec(Init(), actions).value, key) && OneLeader(Exec(Init(), actions).value, key)
  {
    RunKeepsInv(actions);
    if actions != [] {
      var n := |actions| - 1;
      var before, a := actions[..n], actions[n];
      assert forall i | 0 <= i < n :: before[..i] == actions[..i];
      OneLeaderPerKey(before, key);
      RunKeepsInv(before);
      OneStepKeepsRegistered(Exec(Init(), before).value, a, key);
    }
    RegisteredLeadsAlone(Exec(Init(), actions).value, key);
  }

  lemma OneStepKeepsRegistered(s: State, a: Action, key: Key)
    requires Inv(s) && Enabled(s, a) && AllRegistered(s, key) && (a.ResetLock? ==> NoLeader(s, key))
    ensures AllRegistered(Apply(s, a), key)
  {
    if a.ResetLock? {
      assert forall c: nat :: Leads(Apply(s, a), c, key) <==> Leads(s, c, key);
    } else {
      assert [a][..0] == [] && Exec(s, [a]) == Some(Apply(s, a));
      RunKeepsRegistered(s, [a], key);
    }
  }

  /**
    A call hits when a fresh value is cached for its key, follows when a registered leader is
    fetching the key, and starts a fetch exactly when there is neither. While all leaders of
    the key are registered that means: exactly when nobody is fetching it.
  */
  lemma FetchesOnlyWhenNobodyDoes(actions: seq<Action>, c: nat)
    requires Exec(Init(), actions).Some?
    requires Enabled(Exec(Init(), actions).value, EnterLock(c))
    ensures
      var s := Exec(Init(), actions).value;
      var key := s.calls[c].key;
      var isFresh := s.table.cache.Some? && s.table.cacheKey == Some(key) && s.now - s.table.cacheAt <= OPENAPI_CACHE_TTL_SECONDS;
      var led := exists d: nat | Leads(s, d, key) :: Registered(s, d);
      var call := Apply(s, EnterLock(c)).calls[c];
      && (call.Finished? <==> isFresh)
      && (call.Finished? ==> call.outcome == Returned(s.table.cache.value))
      && (call.Waiting? <==> !isFresh && led)
      && (call.Fetching? <==> !isFresh && !led)
      && (AllRegistered(s, key) ==> (led <==> !NoLeader(s, key)))
  {
    RunKeepsInv(actions);
    var s := Exec(Init(), actions).value;
    var key := s.calls[c].key;
    if key in s.table.inflight {
      assert EntryOk(s, key);
      var d := s.table.futures[s.table.inflight[key]].leader;
      assert CallOk(s, d) && Leads(s, d, key) && Registered(s, d);
    }
    hide Inv, Fits, Exec;
  }

  /** With a reset two leaders can fetch the same key at once. */
  lemma ResetAdmitsSecondLeader(key: Key)
    ensures
      var actions := [NewCall(key), EnterLock(0), ResetLock, NewCall(key), EnterLock(1)];
      && Exec(Init(), actions).Some?
      && Exec(Init(), actions).value.calls == [Fetching(key, 0), Fetching(key, 1)]
  {
    var a0 := NewCall(key);
    var a1 := EnterLock(0);
    var a3 := NewCall(key);
    var a4 := EnterLock(1);
    var s1 := Apply(Init(), a0);
    var s2 := Apply(s1, a1);
    var s3 := Apply(s2, ResetLock);
    var s4 := Apply(s3, a3);
    assert Exec(Init(), []) == Some(Init());
    assert [a0][..0] == [];
    assert Exec(Init(), [a0]) == Some(s1);
    assert [a0, a1][..1] == [a0];
    assert Exec(Init(), [a0, a1]) == Some(s2);
    assert [a0, a1, ResetLock][..2] == [a0, a1];
    assert Exec(Init(), [a0, a1, ResetLock]) == Some(s3);
    assert [a0, a1, ResetLock, a3][..3] == [a0, a1, ResetLock];
    assert Exec(Init(), [a0, a1, ResetLock, a3]) == Some(s4);
    assert [a0, a1, ResetLock, a3, a4][..4] == [a0, a1, ResetLock, a3];
  }

  // ----- Cache coherence ----------------------------------------------------------------

  ghost predicate FetchedIn(actions: seq<Action>, s: State)
  {
    && (forall c | 0 <= c < |s.calls| && s.calls[c].Storing? ::
          FetchEnds(c, Returned(s.calls[c].fetched)) in actions)
    && (forall e | 0 <= e < |s.stores| :: FetchEnds(s.stores[e].leader, Returned(s.stores[e].schema)) in actions)
  }

  lemma {:induction false} StoredValuesWereFetched(actions: seq<Action>)
    requires Exec(Init(), actions).Some?
    ensures FetchedIn(actions, Exec(Init(), actions).value)
  {
    if actions != [] {
      var before := actions[..|actions| - 1];
      StoredValuesWereFetched(before);
      assert actions == before + [actions[|actions| - 1]];
    }
  }

  /**
    A hit for key `k` returned a schema that some leader's fetch for `k` produced, stored at
    most the TTL before the hit, and within the byte cap.
  */
  lemma {:induction false} HitIsFreshAndFetched(actions: seq<Action>, c: nat)
    requires Exec(Init(), actions).Some?
    requires c < |Exec(Init(), actions).value.calls|
    requires Exec(Init(), actions).value.calls[c].Finished? && Exec(Init(), actions).value.calls[c].via.ByHit?
    ensures
      var s := Exec(Init(), actions).value;
      && s.calls[c].outcome.Returned?
      && Fits(s.calls[c].outcome.schema)
      && exists e | 0 <= e < |s.stores| ::
           && s.stores[e].key == s.calls[c].key
           && s.stores[e].schema == s.calls[c].outcome.schema
           && 0.0 <= s.calls[c].via.at - s.stores[e].at <= OPENAPI_CACHE_TTL_SECONDS
           && s.stores[e].leader < |s.calls| && s.calls[s.stores[e].leader].key == s.calls[c].key
           && FetchEnds(s.stores[e].leader, s.calls[c].outcome) in actions
  {
    RunKeepsInv(actions);
    StoredValuesWereFetched(actions);
    var s := Exec(Init(), actions).value;
    assert CallOk(s, c);
    var e := s.calls[c].via.event;
    assert s.stores[e].key == s.calls[c].key;
  }

  /**
    Whatever is retained fits the byte cap and is the latest schema stored, under its own key.
    After an oversized schema nothing is retained until a later store.
  */
  lemma RetainedWithinCap(actions: seq<Action>)
    requires Exec(Init(), actions).Some?
    ensures
      var s := Exec(Init(), actions).value;
      s.table.cache.Some? ==>
        && EncodedSize(s.table.cache.value.chunks) <= OPENAPI_CACHE_MAX_BYTES
        && |s.stores| > 0
        && s.table.cacheKey == Some(s.stores[|s.stores| - 1].key)
        && s.table.cache == Some(s.stores[|s.stores| - 1].schema)
    ensures
      var s := Exec(Init(), actions).value;
      |s.stores| > 0 && !Fits(s.stores[|s.stores| - 1].schema) ==> s.table.cache.None?
  {
    RunKeepsInv(actions);
  }

  // ----- Retention: exactly when a call hits ---------------------------------------------------

  lemma {:induction false} EncodedSizeIsTheSum(a: seq<nat>, b: seq<nat>, n: nat)
    ensures EncodedSize([]) == 0 && EncodedSize([n]) == n
    ensures EncodedSize(a + b) == EncodedSize(a) + EncodedSize(b)
  {
    assert [n][..0] == [];
    if b == [] {
      assert a + b == a;
    } else {
      var m := |b| - 1;
      assert (a + b)[..|a + b| - 1] == a + b[..m];
      EncodedSizeIsTheSum(a, b[..m], n);
    }
  }

  /** In state `s` a leader of the key stores this schema, which is at most 8 MiB. */
  ghost predicate StoresNow(s: State, a: Action, key: Key, schema: Schema, at: real)
  {
    && a.StoreLock? && Enabled(s, a)
    && s.calls[a.c].key == key && s.calls[a.c].fetched == schema && s.now == at
    && EncodedSize(schema.chunks) <= 8388608
  }

  /** What makes the cache forget the key: a reset, another store, a call entering for another key. */
  ghost predicate ForgetsNow(s: State, a: Action, key: Key)
  {
    || a.ResetLock? || a.StoreLock?
    || (a.EnterLock? && Enabled(s, a) && s.calls[a.c].key != key)
  }

  /** Step `k` of the run stored the schema, and nothing since then made the cache forget the key. */
  ghost predicate StoredAndKept(actions: seq<Action>, k: nat, key: Key, schema: Schema, at: real)
  {
    && k < |actions| && Exec(Init(), actions[..k]).Some?
    && StoresNow(Exec(Init(), actions[..k]).value, actions[k], key, schema, at)
    && forall i | k < i < |actions| :: KeepsAt(actions, i, key)
  }

  ghost predicate KeepsAt(actions: seq<Action>, i: nat, key: Key)
    requires i < |actions|
  {
    Exec(Init(), actions[..i]).Some? ==> !ForgetsNow(Exec(Init(), actions[..i]).value, actions[i], key)
  }

  predicate Caches(t: Table, key: Key, schema: Schema, at: real) {
    t.cache == Some(schema) && t.cacheKey == Some(key) && t.cacheAt == at
  }

  lemma StepCaches(s: State, a: Action, key: Key, schema: Schema, at: real)
    requires Enabled(s, a)
    ensures Caches(Apply(s, a).table, key, schema, at) <==>
              StoresNow(s, a, key, schema, at) || (Caches(s.table, key, schema, at) && !ForgetsNow(s, a, key))
  {
    hide EncodedSize;
  }

  lemma KeptOneMore(actions: seq<Action>, k: nat, key: Key, schema: Schema, at: real)
    requires k < |actions| - 1
    ensures StoredAndKept(actions, k, key, schema, at) <==>
              StoredAndKept(actions[..|actions| - 1], k, key, schema, at) && KeepsAt(actions, |actions| - 1, key)
  {
    hide StoresNow, ForgetsNow, Exec;
    var n := |actions| - 1;
    var before := actions[..n];
    assert forall i | 0 <= i < n :: before[..i] == actions[..i] && before[i] == actions[i];
    assert forall i | 0 <= i < n :: KeepsAt(before, i, key) <==> KeepsAt(actions, i, key);
    hide KeepsAt;
  }

  lemma KeptLast(actions: seq<Action>, key: Key, schema: Schema, at: real)
    requires actions != [] && Exec(Init(), actions[..|actions| - 1]).Some?
    ensures
      var n := |actions| - 1;
      var s := Exec(Init(), actions[..n]).value;
      && (KeepsAt(actions, n, key) <==> !ForgetsNow(s, actions[n], key))
      && (StoredAndKept(actions, n, key, schema, at) <==> StoresNow(s, actions[n], key, schema, at))
  {
    hide StoresNow, ForgetsNow, Exec;
  }

  lemma KeptInRange(actions: seq<Action>, k: nat, key: Key, schema: Schema, at: real)
    ensures StoredAndKept(actions, k, key, schema, at) ==> k < |actions|
  {
    hide StoresNow, KeepsAt, Exec;
  }

  lemma StoredAndKeptGrows(actions: seq<Action>, key: Key, schema: Schema, at: real)
    requires actions != [] && Exec(Init(), actions[..|actions| - 1]).Some?
    ensures
      var n := |actions| - 1;
      var s := Exec(Init(), actions[..n]).value;
      (exists k :: StoredAndKept(actions, k, key, schema, at)) <==>
        || StoresNow(s, actions[n], key, schema, at)
        || ((exists k :: StoredAndKept(actions[..n], k, key, schema, at)) && !ForgetsNow(s, actions[n], key))
  {
    hide *;
    var n := |actions| - 1;
    KeptLast(actions, key, schema, at);
    forall k: nat ensures StoredAndKept(actions, k, key, schema, at) ==> k <= n {
      KeptInRange(actions, k, key, schema, at);
    }
    forall k: nat ensures StoredAndKept(actions[..n], k, key, schema, at) ==> k < n {
      KeptInRange(actions[..n], k, key, schema, at);
    }
    forall k: nat | k < n
      ensures StoredAndKept(actions, k, key, schema, at) <==>
                StoredAndKept(actions[..n], k, key, schema, at) && KeepsAt(actions, n, key)
    {
      KeptOneMore(actions, k, key, schema, at);
    }
  }

  /** The cache holds a schema exactly when it was stored, within the cap, and has been kept since. */
  lemma {:induction false} CacheHoldsIff(actions: seq<Action>, key: Key, schema: Schema, at: real)
    requires Exec(Init(), actions).Some?
    ensures Caches(Exec(Init(), actions).value.table, key, schema, at)
       <==> exists k :: StoredAndKept(actions, k, key, schema, at)
  {
    if actions != [] {
      var n := |actions| - 1;
      CacheHoldsIff(actions[..n], key, schema, at);
      StoredAndKeptGrows(actions, key, schema, at);
      StepCaches(Exec(Init(), actions[..n]).value, actions[n], key, schema, at);
      hide Caches, StoredAndKept, StoresNow, ForgetsNow, Enabled, Apply;
    }
  }

  /**
    A call finishes by a hit with a schema exactly when that schema was stored for its key, at
    most 8 MiB large and at most 300 s ago, and since then there was no reset, no other store
    and no call entering for another key.
  */
  lemma HitsIff(actions: seq<Action>, c: nat, schema: Schema)
    requires Exec(Init(), actions).Some? && Enabled(Exec(Init(), actions).value, EnterLock(c))
    ensures
      var s := Exec(Init(), actions).value;
      var call := Apply(s, EnterLock(c)).calls[c];
      call.Finished? && call.outcome == Returned(schema) <==>
        exists k, at :: StoredAndKept(actions, k, s.calls[c].key, schema, at) && s.now - at <= 300.0
  {
    var s := Exec(Init(), actions).value;
    var key := s.calls[c].key;
    var call := Apply(s, EnterLock(c)).calls[c];
    FetchesOnlyWhenNobodyDoes(actions, c);
    CacheHoldsIff(actions, key, schema, s.table.cacheAt);
    hide StoredAndKept, Apply, Enabled, Exec;
    if k: nat, at: real :| StoredAndKept(actions, k, key, schema, at) && s.now - at <= 300.0 {
      CacheHoldsIff(actions, key, schema, at);
    }
    if call.Finished? && call.outcome == Returned(schema) {
      var k: nat :| StoredAndKept(actions, k, key, schema, s.table.cacheAt);
      assert StoredAndKept(actions, k, key, schema, s.table.cacheAt) && s.now - s.table.cacheAt <= 300.0;
    }
  }

  /**
    What a leader measured, oversized or not, is what the leader and every one of its
    followers ends with.
  */
  lemma StoredSchemaReachesEveryone(actions: seq<Action>, e: nat, c: nat)
    requires Exec(Init(), actions).Some?
    requires e < |Exec(Init(), actions).value.stores| && c < |Exec(Init(), actions).value.calls|
    requires Exec(Init(), actions).value.calls[c].Finished?
    requires
      var s := Exec(Init(), actions).value;
      match s.calls[c].via
      case ByHit(_, _) => false
      case ByLeading(f) => c == s.stores[e].leader
      case ByFollowing(f) => f < |s.table.futures| && s.table.futures[f].leader == s.stores[e].leader
    ensures
      var s := Exec(Init(), actions).value;
      s.calls[c].outcome == Returned(s.stores[e].schema) && s.calls[c].key == s.stores[e].key
  {
    RunKeepsInv(actions);
    var s := Exec(Init(), actions).value;
    assert CallOk(s, c);
    if s.calls[c].via.ByFollowing? { assert FutureOk(s, s.calls[c].via.future); }
  }

  // ----- Deadlock freedom ---------------------------------------------------------------

  /** The next action of call `c`, if it can move by itself. */
  function NextAction(s: State, c: nat): Action
    requires c < |s.calls|
  {
    match s.calls[c]
    case Entering(_) => EnterLock(c)
    case Waiting(_, _) => Wake(c)
    case Fetching(_, _) => FetchEnds(c, Raised("fetch failed"))
    case Storing(_, _, _) => StoreLock(c)
    case Resolving(_, _, _) => ResolveFuture(c)
    case Unregistering(_, _, _) => PopLock(c)
    case Finished(_, _, _) => Tick(0.0)
  }

  /** Steps a call still has to take. */
  function Remaining(call: Call): nat
  {
    match call
    case Entering(_) => 5
    case Fetching(_, _) => 4
    case Storing(_, _, _) => 3
    case Resolving(_, _, _) => 2
    case Unregistering(_, _, _) => 1
    case Waiting(_, _) => 1
    case Finished(_, _, _) => 0
  }

  function TotalRemaining(calls: seq<Call>): nat
  {
    if calls == [] then 0 else TotalRemaining(calls[..|calls| - 1]) + Remaining(calls[|calls| - 1])
  }

  lemma {:induction false} RemainingUpdate(calls: seq<Call>, c: nat, call: Call)
    requires c < |calls|
    ensures TotalRemaining(calls[c := call]) == TotalRemaining(calls) - Remaining(calls[c]) + Remaining(call)
  {
    var n := |calls| - 1;
    if c == n {
      assert calls[c := call][..n] == calls[..n];
    } else {
      RemainingUpdate(calls[..n], c, call);
      assert calls[c := call][..n] == calls[..n][c := call];
    }
  }

  predicate OfCall(a: Action) {
    !a.NewCall? && !a.ResetLock? && !a.Tick?
  }

  /** Every step of a call uses up at least one remaining step, so calls cannot run for ever. */
  lemma CallStepsRunOut(s: State, a: Action)
    requires Enabled(s, a) && OfCall(a)
    ensures TotalRemaining(Apply(s, a).calls) < TotalRemaining(s.calls)
  {
    RemainingUpdate(s.calls, a.c, Apply(s, a).calls[a.c]);
  }

  /** An unfinished call can move itself, or waits for a Future whose leader can. */
  lemma MovableCall(s: State, c: nat) returns (d: nat)
    requires Inv(s) && c < |s.calls| && !s.calls[c].Finished?
    ensures d < |s.calls| && Enabled(s, NextAction(s, d)) && OfCall(NextAction(s, d))
    ensures s.calls[d].key == s.calls[c].key && (d == c || (s.calls[c].Waiting? && s.calls[d].OwesResult()))
  {
    assert CallOk(s, c);
    d := c;
    if s.calls[c].Waiting? {
      var f := s.calls[c].future;
      assert FutureOk(s, f);
      if s.table.futures[f].result.None? {
        d := s.table.futures[f].leader;
        assert CallOk(s, d);
      }
    }
  }

  /** No reachable state with an unfinished call is deadlocked. */
  lemma NoDeadlock(actions: seq<Action>, c: nat)
    requires Exec(Init(), actions).Some?
    requires c < |Exec(Init(), actions).value.calls| && !Exec(Init(), actions).value.calls[c].Finished?
    ensures
      var s := Exec(Init(), actions).value;
      exists d | 0 <= d < |s.calls| :: Enabled(s, NextAction(s, d)) && OfCall(NextAction(s, d)) && s.calls[d].key == s.calls[c].key
  {
    RunKeepsInv(actions);
    var d := MovableCall(Exec(Init(), actions).value, c);
    assert Enabled(Exec(Init(), actions).value, NextAction(Exec(Init(), actions).value, d));
  }

  lemma {:induction false} AllFinishedAtZero(calls: seq<Call>)
    ensures TotalRemaining(calls) == 0 <==> forall c | 0 <= c < |calls| :: calls[c].Finished?
  {
    if calls != [] { AllFinishedAtZero(calls[..|calls| - 1]); }
  }

  lemma {:induction false} DriveToCompletion(s: State) returns (more: seq<Action>)
    requires Inv(s)
    ensures |more| <= TotalRemaining(s.calls) && forall a <- more :: OfCall(a)
    ensures Exec(s, more).Some? && |Exec(s, more).value.calls| == |s.calls|
    ensures forall c | 0 <= c < |s.calls| :: Exec(s, more).value.calls[c].Finished?
    decreases TotalRemaining(s.calls)
  {
    AllFinishedAtZero(s.calls);
    if TotalRemaining(s.calls) == 0 {
      more := [];
    } else {
      var c :| 0 <= c < |s.calls| && !s.calls[c].Finished?;
      var d := MovableCall(s, c);
      var a := NextAction(s, d);
      CallStepsRunOut(s, a);
      StepKeepsInv(s, a);
      assert [a][..0] == [];
      assert Exec(s, [a]) == Some(Apply(s, a));
      var rest := DriveToCompletion(Apply(s, a));
      ExecConcat(s, [a], rest);
      more := [a] + rest;
    }
  }

  /** From every reachable state the calls in progress can all be driven to completion. */
  lemma EveryCallCanFinish(actions: seq<Action>) returns (more: seq<Action>)
    requires Exec(Init(), actions).Some?
    ensures |more| <= TotalRemaining(Exec(Init(), actions).value.calls) && forall a <- more :: OfCall(a)
    ensures Exec(Init(), actions + more).Some?
    ensures
      var s := Exec(Init(), actions + more).value;
      |s.calls| == |Exec(Init(), actions).value.calls| && forall c | 0 <= c < |s.calls| :: s.calls[c].Finished?
  {
    RunKeepsInv(actions);
    more := DriveToCompletion(Exec(Init(), actions).value);
    ExecConcat(Init(), actions, more);
  }
}
