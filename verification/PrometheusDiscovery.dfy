/**
  Prometheus URL discovery (`tools/prometheus.py`, `_resolve_prometheus_url_locked`): a
  candidate ladder behind a positive and a negative cache with different lifetimes. The
  discovery lock serializes callers, so a run is a sequence of calls; within a call the
  clock is read at the positive check, at the negative check and when the scan ends.
*/
module PrometheusDiscovery {
  import opened Foundations
  import opened WideScan

  type Key = string

  const POSITIVE_TTL_SECONDS := 300.0
  const NEGATIVE_TTL_SECONDS := 30.0

  const PROM_CANDIDATES: seq<(string, string)> := [
    ("monitoring", "kube-prometheus-stack-prometheus"),
    ("monitoring", "prometheus-operated"),
    ("monitoring", "prometheus"),
    ("monitoring", "prometheus-server"),
    ("prometheus", "prometheus"),
    ("prometheus", "prometheus-server"),
    ("prometheus", "prometheus-operated"),
    ("kube-prometheus", "prometheus"),
    ("kube-prometheus", "prometheus-operated"),
    ("observability", "prometheus"),
    ("observability", "prometheus-operated")]

  // ----- The ladder ---------------------------------------------------------------------

  /** What reading a candidate Service gives: 404, another error, no usable URL, or a URL. */
  datatype Probe = Missing | ReadError | Unbuildable | Reachable(url: Url)

  /** What the cluster answers to single reads and to list calls; the allowlist bounds both. */
  datatype World = World(probes: map<(string, string), Probe>, services: Services)

  predicate Skipped(w: World, candidate: (string, string)) {
    !Allowed(w.services, candidate.0)
  }

  function ProbeOf(w: World, candidate: (string, string)): Probe {
    if candidate in w.probes then w.probes[candidate] else Missing
  }

  /** The URL of the wide scan's first match, if it has one. */
  function WideUrl(w: World): Option<Url> {
    match WideMatches(w.services)
    case ScanRaised => None
    case Matched(matches) => if matches == [] then None else matches[0].url
  }

  function Ladder(w: World, candidates: seq<(string, string)>): Option<Url>
  {
    if candidates == [] then WideUrl(w)
    else if Skipped(w, candidates[0]) then Ladder(w, candidates[1..])
    else match ProbeOf(w, candidates[0])
      case Missing => Ladder(w, candidates[1..])
      case ReadError => None
      case Unbuildable => Ladder(w, candidates[1..])
      case Reachable(url) => Some(url)
  }

  /** The ladder ends at this candidate: a URL, or a read error other than 404. */
  predicate Stops(w: World, candidate: (string, string)) {
    && (w.services.allowlist.Some? ==> candidate.0 in w.services.allowlist.value)
    && candidate in w.probes && (w.probes[candidate].ReadError? || w.probes[candidate].Reachable?)
  }

  /** The ladder's answer is that of the first candidate it stops at, found or not. */
  lemma {:induction false} LadderStopsAtFirst(w: World, candidates: seq<(string, string)>, i: nat)
    requires i < |candidates| && Stops(w, candidates[i]) && forall k | 0 <= k < i :: !Stops(w, candidates[k])
    ensures Ladder(w, candidates) ==
      if w.probes[candidates[i]].Reachable? then Some(w.probes[candidates[i]].url) else None
  {
    if i > 0 { LadderStopsAtFirst(w, candidates[1..], i - 1); }
  }

  lemma {:induction false} FallsThrough(w: World, candidates: seq<(string, string)>)
    requires forall k | 0 <= k < |candidates| :: !Stops(w, candidates[k])
    ensures Ladder(w, candidates) == WideUrl(w)
  {
    hide WideUrl;
    if candidates != [] { FallsThrough(w, candidates[1..]); }
  }

  /**
    When it stops nowhere, the answer is the preferred Service of the wide scan: the first
    NodePort or LoadBalancer match in listing order, otherwise the first match. It is nothing
    when a list call failed or nothing matches.
  */
  lemma {:induction false} LadderFallsThrough(w: World, candidates: seq<(string, string)>)
    requires forall k | 0 <= k < |candidates| :: !Stops(w, candidates[k])
    ensures Ladder(w, candidates) == WideUrl(w)
    ensures Listed(w.services).None? ==> Ladder(w, candidates) == None
    ensures Listed(w.services).Some? ==>
      var services := Listed(w.services).value;
      && ((forall k | 0 <= k < |services| :: !Hit(w.services, services[k])) ==> Ladder(w, candidates) == None)
      && forall i: nat | Preferred(w.services, services, i) :: Ladder(w, candidates) == services[i].url
  {
    FallsThrough(w, candidates);
    hide Stops, Ladder, Hit, Listed;
    if Listed(w.services).Some? {
      var services := Listed(w.services).value;
      MatchesNothingIff(w.services, services);
      forall i: nat | Preferred(w.services, services, i) ensures Ladder(w, candidates) == services[i].url {
        assert i < |services|;
        FirstMatchIsPreferred(w.services, services, i);
      }
    }
  }

  // ----- The two caches -----------------------------------------------------------------------

  datatype Cache = Cache(url: Option<Url>, urlAt: real, key: Option<Key>, tried: bool, failedAt: real)

  /** Clock readings of one call: positive check, negative check, end of the scan. */
  datatype Clock = Clock(positive: real, negative: real, done: real)

  /** `clientOk` is false when obtaining the ApiClient raises, before anything is scanned. */
  datatype Call = Call(key: Key, clock: Clock, clientOk: bool, world: World)

  datatype Answer = FromCache(url: Url) | Discovered(url: Url) | StillFailed | ScanFailed | ClientFailed
  {
    predicate Scanned() { Discovered? || ScanFailed? }
  }

  function Rekeyed(c: Cache, key: Key): Cache {
    if c.key != Some(key) then Cache(None, 0.0, Some(key), false, 0.0) else c
  }

  predicate PositiveFresh(c: Cache, now: real) { c.url.Some? && now - c.urlAt < POSITIVE_TTL_SECONDS }

  predicate NegativeFresh(c: Cache, now: real) { c.tried && now - c.failedAt < NEGATIVE_TTL_SECONDS }

  function Resolve(c: Cache, call: Call): (Cache, Answer)
  {
    var c1 := Rekeyed(c, call.key);
    if PositiveFresh(c1, call.clock.positive) then (c1, FromCache(c1.url.value))
    else
      var c2 := if c1.url.Some? then c1.(url := None, urlAt := 0.0) else c1;
      if NegativeFresh(c2, call.clock.negative) then (c2, StillFailed)
      else
        var c3 := if c2.tried then c2.(tried := false, failedAt := 0.0) else c2;
        if !call.clientOk then (c3, ClientFailed)
        else match Ladder(call.world, PROM_CANDIDATES)
          case Some(url) => (Cache(Some(url), call.clock.done, c3.key, false, 0.0), Discovered(url))
          case None => (c3.(tried := true, failedAt := call.clock.done), ScanFailed)
  }

  class DiscoveryGlobals {
    var url: Option<Url>
    var urlAt: real
    var key: Option<Key>
    var tried: bool
    var failedAt: real

    function View(): Cache
      reads this
    {
      Cache(url, urlAt, key, tried, failedAt)
    }

    constructor ()
      ensures View() == EmptyCache()
    {
      url, urlAt, key, tried, failedAt := None, 0.0, None, false, 0.0;
    }

    method ResolvePrometheusUrlLocked(call: Call) returns (answer: Answer)
      modifies this
      ensures (View(), answer) == Resolve(old(View()), call)
    {
      if key != Some(call.key) {
        url, urlAt, tried, failedAt := None, 0.0, false, 0.0;
        key := Some(call.key);
      }
      if url.Some? {
        if call.clock.positive - urlAt < POSITIVE_TTL_SECONDS { return FromCache(url.value); }
        url, urlAt := None, 0.0;
      }
      if tried {
        if call.clock.negative - failedAt < NEGATIVE_TTL_SECONDS { return StillFailed; }
        tried, failedAt := false, 0.0;
      }
      if !call.clientOk { return ClientFailed; }
      for i := 0 to |PROM_CANDIDATES|
        invariant Ladder(call.world, PROM_CANDIDATES) == Ladder(call.world, PROM_CANDIDATES[i..])
      {
        var candidate := PROM_CANDIDATES[i];
        assert PROM_CANDIDATES[i..][0] == candidate && PROM_CANDIDATES[i..][1..] == PROM_CANDIDATES[i + 1..];
        if call.world.services.allowlist.Some? && candidate.0 !in call.world.services.allowlist.value { continue; }
        match ProbeOf(call.world, candidate) {
          case Missing =>
          case ReadError =>
            tried, failedAt := true, call.clock.done;
            return ScanFailed;
          case Unbuildable =>
          case Reachable(found) =>
            url, urlAt, tried, failedAt := Some(found), call.clock.done, false, 0.0;
            return Discovered(found);
        }
      }
      var matches := WideScanMatches(call.world.services);
      if matches.Matched? && matches.services != [] && matches.services[0].url.Some? {
        url, urlAt, tried, failedAt := matches.services[0].url, call.clock.done, false, 0.0;
        return Discovered(matches.services[0].url.value);
      }
      tried, failedAt := true, call.clock.done;
      return ScanFailed;
    }
  }

  // ----- Runs -------------------------------------------------------------------------------------

  function EmptyCache(): Cache {
    Cache(None, 0.0, None, false, 0.0)
  }

  function CacheAfter(calls: seq<Call>): Cache
  {
    if calls == [] then EmptyCache() else Resolve(CacheAfter(calls[..|calls| - 1]), calls[|calls| - 1]).0
  }

  /** The answer of call `i`. */
  function AnswerOf(calls: seq<Call>, i: nat): Answer
    requires i < |calls|
  {
    Resolve(CacheAfter(calls[..i]), calls[i]).1
  }

  /** The lock serializes the calls and the clock never goes back. */
  ghost predicate Serialized(calls: seq<Call>)
  {
    && (forall i | 0 <= i < |calls| :: calls[i].clock.positive <= calls[i].clock.negative <= calls[i].clock.done)
    && (forall i, j | 0 <= i < j < |calls| :: calls[i].clock.done <= calls[j].clock.positive)
  }

  /** Call `i` found `url` (or, with None, nothing) and recorded it at `at`. */
  predicate ScanResult(calls: seq<Call>, i: nat, key: Key, at: real, url: Option<Url>)
    requires i < |calls|
  {
    && calls[i].key == key && calls[i].clock.done == at
    && AnswerOf(calls, i) == match url case Some(u) => Discovered(u) case None => ScanFailed
  }

  ghost predicate CacheOk(calls: seq<Call>)
  {
    var c := CacheAfter(calls);
    && !(c.url.Some? && c.tried)
    && (c.url.Some? || c.tried ==> c.key.Some?)
    && (c.url.Some? ==> exists i | 0 <= i < |calls| :: ScanResult(calls, i, c.key.value, c.urlAt, c.url))
    && (c.tried ==> exists i | 0 <= i < |calls| :: ScanResult(calls, i, c.key.value, c.failedAt, None))
  }

  lemma ScanResultExtends(calls: seq<Call>, i: nat, key: Key, at: real, url: Option<Url>)
    requires i < |calls| - 1 && ScanResult(calls[..|calls| - 1], i, key, at, url)
    ensures ScanResult(calls, i, key, at, url)
  {
    assert calls[..|calls| - 1][..i] == calls[..i];
  }

  lemma {:induction false} RunKeepsCacheOk(calls: seq<Call>)
    ensures CacheOk(calls)
  {
    hide Ladder;
    if calls != [] {
      var n := |calls| - 1;
      RunKeepsCacheOk(calls[..n]);
      var c := CacheAfter(calls);
      var a := AnswerOf(calls, n);
      if c.url.Some? {
        if a.Discovered? {
          assert ScanResult(calls, n, c.key.value, c.urlAt, c.url);
        } else {
          var i :| 0 <= i < n && ScanResult(calls[..n], i, c.key.value, c.urlAt, c.url);
          ScanResultExtends(calls, i, c.key.value, c.urlAt, c.url);
        }
      }
      if c.tried {
        if a.ScanFailed? {
          assert ScanResult(calls, n, c.key.value, c.failedAt, None);
        } else {
          var i :| 0 <= i < n && ScanResult(calls[..n], i, c.key.value, c.failedAt, None);
          ScanResultExtends(calls, i, c.key.value, c.failedAt, None);
        }
      }
    }
  }

  /** A positive URL and the failure flag are never set together. */
  lemma NeverBothCached(calls: seq<Call>)
    ensures !(CacheAfter(calls).url.Some? && CacheAfter(calls).tried)
  {
    RunKeepsCacheOk(calls);
  }

  /**
    Every cached answer was discovered by an earlier scan under the same configuration key,
    less than its lifetime ago.
  */
  lemma CachedAnswersAreFresh(calls: seq<Call>, i: nat)
    requires i < |calls|
    ensures AnswerOf(calls, i).FromCache? ==>
      exists j | 0 <= j < i ::
        && calls[j].key == calls[i].key && AnswerOf(calls, j) == Discovered(AnswerOf(calls, i).url)
        && calls[i].clock.positive - calls[j].clock.done < 300.0
    ensures AnswerOf(calls, i).StillFailed? ==>
      exists j | 0 <= j < i ::
        && calls[j].key == calls[i].key && AnswerOf(calls, j) == ScanFailed
        && calls[i].clock.negative - calls[j].clock.done < 30.0
  {
    RunKeepsCacheOk(calls[..i]);
    var c := CacheAfter(calls[..i]);
    var a := AnswerOf(calls, i);
    if a.FromCache? {
      var j :| 0 <= j < i && ScanResult(calls[..i], j, c.key.value, c.urlAt, c.url);
      assert calls[..i][..j] == calls[..j];
      assert AnswerOf(calls, j) == Discovered(a.url);
    }
    if a.StillFailed? {
      var j :| 0 <= j < i && ScanResult(calls[..i], j, c.key.value, c.failedAt, None);
      assert calls[..i][..j] == calls[..j];
      assert AnswerOf(calls, j) == ScanFailed;
    }
  }

  // ----- What the answers say ---------------------------------------------------------------------------

  /** Where a discovered URL can come from. */
  ghost predicate ComesFrom(w: World, url: Url) {
    || (exists i | 0 <= i < |PROM_CANDIDATES| :: FromCandidate(w, PROM_CANDIDATES[i], url))
    || (Listed(w.services).Some? && exists s <- Listed(w.services).value :: FromService(w, s, url))
  }

  predicate FromCandidate(w: World, candidate: (string, string), url: Url) {
    && (w.services.allowlist.Some? ==> candidate.0 in w.services.allowlist.value)
    && candidate in w.probes && w.probes[candidate] == Reachable(url)
  }

  ghost predicate FromService(w: World, s: Service, url: Url) {
    && (w.services.allowlist.Some? ==> s.namespace in w.services.allowlist.value)
    && s.url == Some(url) && exists i :: OccursAt(Lower(s.name), "prom", i)
  }

  lemma {:induction false} FirstStop(w: World, candidates: seq<(string, string)>) returns (i: nat)
    ensures i <= |candidates| && forall k | 0 <= k < i :: !Stops(w, candidates[k])
    ensures i < |candidates| ==> Stops(w, candidates[i])
  {
    hide Stops;
    i := 0;
    if candidates != [] && !Stops(w, candidates[0]) {
      var j := FirstStop(w, candidates[1..]);
      i := j + 1;
    }
  }

  /** A URL belongs to an allowed candidate, or to a listed Service in an allowed namespace with "prom" in its name. */
  lemma LadderStaysInAllowlist(w: World)
    requires Ladder(w, PROM_CANDIDATES).Some?
    ensures ComesFrom(w, Ladder(w, PROM_CANDIDATES).value)
  {
    hide Ladder, Listed, WideUrl, PROM_CANDIDATES;
    var url := Ladder(w, PROM_CANDIDATES).value;
    var i := FirstStop(w, PROM_CANDIDATES);
    if i < |PROM_CANDIDATES| {
      LadderStopsAtFirst(w, PROM_CANDIDATES, i);
      assert FromCandidate(w, PROM_CANDIDATES[i], url);
    } else {
      LadderFallsThrough(w, PROM_CANDIDATES);
      var services := Listed(w.services).value;
      MatchesNothingIff(w.services, services);
      var k: nat :| Preferred(w.services, services, k);
      HitIff(w.services, services[k]);
      assert FromService(w, services[k], url);
    }
  }

  /**
    Why a call answers as it does: a scan's answer is the ladder's, failure or URL, and a call
    fails before scanning only when there is no client.
  */
  lemma AnswersSayWhy(calls: seq<Call>, i: nat)
    requires i < |calls|
    ensures
      var w := calls[i].world;
      match AnswerOf(calls, i)
      case Discovered(url) => calls[i].clientOk && Ladder(w, PROM_CANDIDATES) == Some(url) && ComesFrom(w, url)
      case ScanFailed => calls[i].clientOk && Ladder(w, PROM_CANDIDATES) == None
      case ClientFailed => !calls[i].clientOk
      case _ => true
  {
    hide Ladder, ComesFrom, CacheAfter;
    if AnswerOf(calls, i).Discovered? { LadderStaysInAllowlist(calls[i].world); }
  }

  // ----- How often scans start ------------------------------------------------------------------------

  function Lifetime(a: Answer): real {
    if a.Discovered? then 300.0 else 30.0
  }

  /** The configuration key did not change from call `i` to call `j`. */
  predicate SameKey(calls: seq<Call>, i: nat, j: nat)
    requires i <= j < |calls|
  {
    forall k | i <= k <= j :: calls[k].key == calls[i].key
  }

  /** A scan that ended at `at` with answer `a` still guards the ladder, or its lifetime has passed by `now`. */
  predicate Guards(c: Cache, a: Answer, at: real, now: real)
  {
    || at + Lifetime(a) <= now
    || (c.url.Some? && at <= c.urlAt)
    || (a.ScanFailed? && c.tried && at <= c.failedAt)
  }

  lemma CallKeepsGuard(c: Cache, call: Call, a: Answer, at: real)
    requires Guards(c, a, at, call.clock.positive) && a.Scanned() && at <= call.clock.positive
    requires c.key == Some(call.key) && !(c.url.Some? && c.tried)
    requires call.clock.positive <= call.clock.negative <= call.clock.done
    ensures Guards(Resolve(c, call).0, a, at, call.clock.done)
  {
    hide Ladder;
  }

  lemma {:induction false} ScansKeepGuarding(calls: seq<Call>, i: nat, now: real)
    requires Serialized(calls) && i < |calls| && SameKey(calls, i, |calls| - 1) && AnswerOf(calls, i).Scanned()
    requires calls[|calls| - 1].clock.done <= now
    ensures Guards(CacheAfter(calls), AnswerOf(calls, i), calls[i].clock.done, now)
    decreases |calls|
  {
    hide Resolve, Guards;
    var n := |calls| - 1;
    var at := calls[i].clock.done;
    if i == n {
      ScanIsRecorded(CacheAfter(calls[..n]), calls[n]);
      GuardOutlasts(CacheAfter(calls), AnswerOf(calls, i), at, at, now);
    } else {
      assert calls[..n][..i] == calls[..i];
      ScansKeepGuarding(calls[..n], i, calls[n].clock.positive);
      NeverBothCached(calls[..n]);
      KeyIsCurrent(calls[..n]);
      CallKeepsGuard(CacheAfter(calls[..n]), calls[n], AnswerOf(calls, i), at);
      GuardOutlasts(CacheAfter(calls), AnswerOf(calls, i), at, calls[n].clock.done, now);
    }
  }

  lemma GuardOutlasts(c: Cache, a: Answer, at: real, since: real, now: real)
    requires Guards(c, a, at, since) && since <= now
    ensures Guards(c, a, at, now)
  {
  }

  lemma ScanIsRecorded(c: Cache, call: Call)
    requires Resolve(c, call).1.Scanned()
    ensures Guards(Resolve(c, call).0, Resolve(c, call).1, call.clock.done, call.clock.done)
  {
    hide Ladder;
  }

  lemma {:induction false} KeyIsCurrent(calls: seq<Call>)
    requires calls != []
    ensures CacheAfter(calls).key == Some(calls[|calls| - 1].key)
  {
    var n := |calls| - 1;
    ResolveSetsKey(CacheAfter(calls[..n]), calls[n]);
    hide Resolve;
  }

  lemma ResolveSetsKey(c: Cache, call: Call)
    ensures Resolve(c, call).0.key == Some(call.key)
  {
    hide Ladder;
  }

  /**
    While the key is unchanged no scan starts within 30 s after a failed one or 300 s after a
    successful one, whatever happened before. (A scan starts after the negative check.)
  */
  lemma ScansKeepTheirDistance(calls: seq<Call>, i: nat, j: nat)
    requires Serialized(calls) && i < j < |calls| && SameKey(calls, i, j)
    requires AnswerOf(calls, i).Scanned() && AnswerOf(calls, j).Scanned()
    ensures calls[j].clock.negative - calls[i].clock.done >= Lifetime(AnswerOf(calls, i))
  {
    var before := calls[..j];
    assert before[..i] == calls[..i];
    ScansKeepGuarding(before, i, calls[j].clock.positive);
    KeyIsCurrent(before);
    GuardDelaysScan(CacheAfter(before), calls[j], AnswerOf(calls, i), calls[i].clock.done);
  }

  lemma GuardDelaysScan(c: Cache, call: Call, a: Answer, at: real)
    requires Guards(c, a, at, call.clock.positive) && a.Scanned() && c.key == Some(call.key)
    requires call.clock.positive <= call.clock.negative && Resolve(c, call).1.Scanned()
    ensures call.clock.negative - at >= Lifetime(a)
  {
    hide Ladder;
  }

  /** How often the key changes between consecutive calls among calls `i` to `j - 1`. */
  function KeyChanges(calls: seq<Call>, i: nat, j: nat): nat
    requires i <= j <= |calls|
  {
    if j <= i + 1 then 0
    else KeyChanges(calls, i, j - 1) + (if calls[j - 1].key != calls[j - 2].key then 1 else 0)
  }

  lemma {:induction false} KeyChangesGrow(calls: seq<Call>, i: nat, c: nat, d: nat)
    requires i <= c <= d < |calls|
    ensures KeyChanges(calls, i, c + 1) <= KeyChanges(calls, i, d + 1)
    ensures KeyChanges(calls, i, c + 1) == KeyChanges(calls, i, d + 1) <==> SameKey(calls, c, d)
  {
    if c < d {
      KeyChangesGrow(calls, i, c, d - 1);
      assert SameKey(calls, c, d) ==> SameKey(calls, c, d - 1) && calls[d].key == calls[c].key == calls[d - 1].key;
      assert SameKey(calls, c, d - 1) ==> calls[d - 1].key == calls[c].key;
    }
  }

  /** When a scan starts, and how many key changes precede it. */
  datatype Start = Start(at: real, changes: nat)

  /** The scans that calls `i` to `j - 1` of a run start. */
  function ScanStarts(calls: seq<Call>, i: nat, j: nat): seq<Start>
    requires i <= j <= |calls|
  {
    if j == i then []
    else
      ScanStarts(calls, i, j - 1)
      + (if AnswerOf(calls, j - 1).Scanned() then [Start(calls[j - 1].clock.negative, KeyChanges(calls, i, j))] else [])
  }

  function StartsIn(starts: seq<Start>, from: real, to: real): nat
  {
    if starts == [] then 0
    else StartsIn(starts[..|starts| - 1], from, to) + (if from <= starts[|starts| - 1].at <= to then 1 else 0)
  }

  /** Later scans start later, and 30 s later unless the key changed in between. */
  predicate KeepsDistance(a: Start, b: Start) {
    && a.at <= b.at && a.changes <= b.changes
    && (a.changes == b.changes ==> b.at - a.at >= 30.0)
  }

  ghost predicate Spaced(starts: seq<Start>) {
    forall i, j | 0 <= i < j < |starts| :: KeepsDistance(starts[i], starts[j])
  }

  lemma {:induction false} StartsAreScans(calls: seq<Call>, i: nat, j: nat, k: nat) returns (c: nat)
    requires i <= j <= |calls| && k < |ScanStarts(calls, i, j)|
    ensures i <= c < j && AnswerOf(calls, c).Scanned()
    ensures ScanStarts(calls, i, j)[k] == Start(calls[c].clock.negative, KeyChanges(calls, i, c + 1))
  {
    if k < |ScanStarts(calls, i, j - 1)| {
      c := StartsAreScans(calls, i, j - 1, k);
    } else {
      c := j - 1;
    }
  }

  lemma ScansAreSpaced(calls: seq<Call>, i: nat, c: nat, d: nat)
    requires Serialized(calls) && i <= c < d < |calls| && AnswerOf(calls, c).Scanned() && AnswerOf(calls, d).Scanned()
    ensures KeepsDistance(Start(calls[c].clock.negative, KeyChanges(calls, i, c + 1)),
                          Start(calls[d].clock.negative, KeyChanges(calls, i, d + 1)))
  {
    KeyChangesGrow(calls, i, c, d);
    if SameKey(calls, c, d) { ScansKeepTheirDistance(calls, c, d); }
  }

  lemma {:induction false} ScanStartsSpaced(calls: seq<Call>, i: nat, j: nat)
    requires Serialized(calls) && i <= j <= |calls|
    ensures Spaced(ScanStarts(calls, i, j))
  {
    hide AnswerOf, KeyChanges, KeepsDistance, Serialized;
    if i < j {
      var earlier, starts := ScanStarts(calls, i, j - 1), ScanStarts(calls, i, j);
      ScanStartsSpaced(calls, i, j - 1);
      forall a, b | 0 <= a < b < |starts| ensures KeepsDistance(starts[a], starts[b]) {
        if b < |earlier| {
          assert starts[a] == earlier[a] && starts[b] == earlier[b];
        } else {
          var c := StartsAreScans(calls, i, j - 1, a);
          ScansAreSpaced(calls, i, c, j - 1);
        }
      }
    }
  }

  lemma {:induction false} SpacedStartsAreFew(starts: seq<Start>, from: real, to: real)
    requires Spaced(starts) && from <= to
    ensures
      var n := StartsIn(starts, from, to);
      n > 0 ==>
        && (n - 1 - starts[|starts| - 1].changes) as real * 30.0 <= to - from
        && starts[|starts| - 1].at >= from + (n - 1 - starts[|starts| - 1].changes) as real * 30.0
  {
    if starts != [] {
      var m := |starts| - 1;
      SpacedStartsAreFew(starts[..m], from, to);
      if m > 0 { assert KeepsDistance(starts[m - 1], starts[m]); }
    }
  }

  /**
    In any stretch of any run a window of T seconds sees at most T / 30 + 1 scans start, plus
    one for each change of the key within the stretch: T / 30 + 1 while the key is unchanged.
  */
  lemma FewScansPerWindow(calls: seq<Call>, i: nat, j: nat, from: real, seconds: real)
    requires Serialized(calls) && i <= j <= |calls| && seconds >= 0.0
    ensures StartsIn(ScanStarts(calls, i, j), from, from + seconds) as real
         <= seconds / 30.0 + 1.0 + KeyChanges(calls, i, j) as real
    ensures i < j && SameKey(calls, i, j - 1) ==> KeyChanges(calls, i, j) == 0
  {
    hide *;
    var starts, to := ScanStarts(calls, i, j), from + seconds;
    ScanStartsSpaced(calls, i, j);
    SpacedStartsAreFew(starts, from, to);
    NoChangesWithOneKey(calls, i, j);
    if StartsIn(starts, from, to) > 0 {
      var last := LastStartChanges(calls, i, j, from, to);
      FewWhenSpaced(StartsIn(starts, from, to), last, KeyChanges(calls, i, j), seconds);
    } else {
      FewWhenSpaced(0, 0, KeyChanges(calls, i, j), seconds);
    }
  }

  lemma NoChangesWithOneKey(calls: seq<Call>, i: nat, j: nat)
    requires i <= j <= |calls|
    ensures i < j && SameKey(calls, i, j - 1) ==> KeyChanges(calls, i, j) == 0
  {
    if i < j { KeyChangesGrow(calls, i, i, j - 1); }
  }

  lemma LastStartChanges(calls: seq<Call>, i: nat, j: nat, from: real, to: real) returns (changes: nat)
    requires i <= j <= |calls| && StartsIn(ScanStarts(calls, i, j), from, to) > 0
    ensures ScanStarts(calls, i, j) != []
    ensures changes == ScanStarts(calls, i, j)[|ScanStarts(calls, i, j)| - 1].changes <= KeyChanges(calls, i, j)
  {
    var starts := ScanStarts(calls, i, j);
    assert starts != [];
    var c := StartsAreScans(calls, i, j, |starts| - 1);
    KeyChangesGrow(calls, i, c, j - 1);
    changes := starts[|starts| - 1].changes;
  }

  lemma FewWhenSpaced(n: nat, changes: nat, atMost: nat, seconds: real)
    requires n > 0 ==> (n - 1 - changes) as real * 30.0 <= seconds
    requires changes <= atMost && seconds >= 0.0
    ensures n as real <= seconds / 30.0 + 1.0 + atMost as real
  {
  }
}
