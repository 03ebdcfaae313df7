/**
  The multi-pod log fetch of `tools/logs.py` (`_fetch_logs_multi`): below a threshold pods
  are read one after the other, above it by a thread pool whose workers write into two
  shared dictionaries in whatever order they finish.
*/
module LogFanOut {
  import opened Foundations

  datatype Record = Record(pod: string, container: string, time: string, line: string)

  /** How the read of one pod's log ends: lines, an error the caller tolerates, or one it does not. */
  datatype Fetch = Lines(records: seq<Record>) | Tolerated(message: string) | Fatal(message: string)

  datatype Outcome = Records(records: seq<Record>) | Raised(message: string)

  const MULTI_PARALLEL_THRESHOLD := 5

  function Placeholder(pod: string, container: string, message: string): Record {
    Record(pod, container, "", "[error: " + message + "]")
  }

  /** What pod `i` contributes to the result. */
  function Contribution(pod: string, container: string, f: Fetch): seq<Record>
  {
    match f
    case Lines(records) => records
    case Tolerated(message) => [Placeholder(pod, container, message)]
    case Fatal(_) => []
  }

  /** The serial semantics: pods in order, up to the first intolerable error. */
  function SerialFrom(names: seq<string>, container: string, fetches: seq<Fetch>, i: nat): Outcome
    requires |names| == |fetches| && i <= |names|
    decreases |names| - i
  {
    if i == |names| then Records([])
    else if fetches[i].Fatal? then Raised(fetches[i].message)
    else match SerialFrom(names, container, fetches, i + 1)
      case Records(rest) => Records(Contribution(names[i], container, fetches[i]) + rest)
      case Raised(message) => Raised(message)
  }

  method FetchSerial(names: seq<string>, container: string, fetches: seq<Fetch>) returns (outcome: Outcome)
    requires |names| == |fetches|
    ensures outcome == SerialFrom(names, container, fetches, 0)
  {
    var records: seq<Record> := [];
    for i := 0 to |names|
      invariant SerialFrom(names, container, fetches, 0) == Continue(records, SerialFrom(names, container, fetches, i))
    {
      match fetches[i] {
        case Lines(lines) => records := records + lines;
        case Tolerated(message) => records := records + [Placeholder(names[i], container, message)];
        case Fatal(message) => return Raised(message);
      }
    }
    assert records + [] == records;
    return Records(records);
  }

  /** Prepends records already collected to what follows. */
  function Continue(records: seq<Record>, rest: Outcome): Outcome {
    match rest
    case Records(more) => Records(records + more)
    case Raised(message) => Raised(message)
  }

  /** What the source does with one pod: its records, or one error line in its name. */
  ghost predicate Block(pod: string, container: string, f: Fetch, block: seq<Record>) {
    match f
    case Lines(records) => block == records
    case Tolerated(message) => block == [Record(pod, container, "", "[error: " + message + "]")]
    case Fatal(_) => false
  }

  /** `records` falls into the blocks of pods `i` onwards, in order. */
  ghost predicate InBlocks(names: seq<string>, container: string, fetches: seq<Fetch>, i: nat, records: seq<Record>)
    requires |names| == |fetches| && i <= |names|
    decreases |names| - i
  {
    if i == |names| then records == []
    else exists cut | 0 <= cut <= |records| ::
      Block(names[i], container, fetches[i], records[..cut]) && InBlocks(names, container, fetches, i + 1, records[cut..])
  }

  /** The first intolerable error, from pod `i` on. */
  predicate FailsFirstAt(fetches: seq<Fetch>, i: nat, k: nat) {
    i <= k < |fetches| && fetches[k].Fatal? && forall j | i <= j < k :: !fetches[j].Fatal?
  }

  /**
    The serial result, spelled out: the message of the first intolerable error or, when there
    is none, the blocks of all pods in order.
  */
  lemma {:induction false} SerialIs(names: seq<string>, container: string, fetches: seq<Fetch>, i: nat)
    requires |names| == |fetches| && i <= |names|
    ensures
      var o := SerialFrom(names, container, fetches, i);
      && (o.Raised? ==> exists k: nat | k < |fetches| :: FailsFirstAt(fetches, i, k) && o.message == fetches[k].message)
      && (o.Records? ==>
            && (forall k | i <= k < |fetches| :: !fetches[k].Fatal?)
            && InBlocks(names, container, fetches, i, o.records))
    decreases |names| - i
  {
    if i < |names| {
      SerialIs(names, container, fetches, i + 1);
      var first := Contribution(names[i], container, fetches[i]);
      assert !fetches[i].Fatal? ==> Block(names[i], container, fetches[i], first);
      hide Contribution, Block, InBlocks;
      match SerialFrom(names, container, fetches, i + 1) {
        case Raised(message) =>
          if fetches[i].Fatal? {
            assert FailsFirstAt(fetches, i, i);
          } else {
            var k: nat :| k < |fetches| && FailsFirstAt(fetches, i + 1, k) && message == fetches[k].message;
            assert FailsFirstAt(fetches, i, k);
          }
        case Records(rest) =>
          if fetches[i].Fatal? {
            assert FailsFirstAt(fetches, i, i);
          } else {
            OneMoreBlock(names, container, fetches, i, first, rest);
          }
      }
    }
  }

  lemma OneMoreBlock(names: seq<string>, container: string, fetches: seq<Fetch>, i: nat, first: seq<Record>, rest: seq<Record>)
    requires |names| == |fetches| && i < |names|
    requires Block(names[i], container, fetches[i], first) && InBlocks(names, container, fetches, i + 1, rest)
    ensures InBlocks(names, container, fetches, i, first + rest)
  {
    var all := first + rest;
    assert all[..|first|] == first && all[|first|..] == rest;
    hide Block;
  }

  // ----- The thread pool --------------------------------------------------------------------

  /** The dictionaries the workers share, and which work items are done. */
  datatype Pool = Pool(perPod: map<string, seq<Record>>, errors: map<string, string>, done: set<nat>)

  function StartPool(names: seq<string>): Pool {
    Pool(map pn | pn in names :: [], map[], {})
  }

  /** Worker `i` finishes: its single write to the shared dictionaries. */
  function WorkerWrites(p: Pool, names: seq<string>, fetches: seq<Fetch>, i: nat): Pool
    requires |names| == |fetches| && i < |names|
  {
    var q := p.(done := p.done + {i});
    match fetches[i]
    case Lines(records) => q.(perPod := q.perPod[names[i] := records])
    case Tolerated(message) => q.(errors := q.errors[names[i] := message])
    case Fatal(_) => q
  }

  ghost predicate Within(order: seq<nat>, n: nat) {
    forall k | 0 <= k < |order| :: order[k] < n
  }

  /** The pool after the workers finished in the given order. */
  ghost function RunPool(names: seq<string>, fetches: seq<Fetch>, order: seq<nat>): Pool
    requires |names| == |fetches| && Within(order, |names|)
  {
    if order == [] then StartPool(names)
    else
      var before := RunPool(names, fetches, order[..|order| - 1]);
      WorkerWrites(before, names, fetches, order[|order| - 1])
  }

  /** An interleaving finishes every work item exactly once. */
  ghost predicate Interleaving(order: seq<nat>, n: nat)
  {
    && |order| == n
    && Within(order, n)
    && (forall i, j | 0 <= i < j < n :: order[i] != order[j])
    && (forall i | 0 <= i < n :: i in order)
  }

  predicate Distinct(names: seq<string>) {
    forall i, j | 0 <= i < j < |names| :: names[i] != names[j]
  }

  /** `list(ex.map(...))` re-raises the first error in list order. */
  function FirstFatal(fetches: seq<Fetch>): Option<string>
  {
    if fetches == [] then None
    else if fetches[0].Fatal? then Some(fetches[0].message)
    else FirstFatal(fetches[1..])
  }

  /** The merge loop, in the order of the pod list. */
  function Collect(p: Pool, names: seq<string>, container: string): seq<Record>
    requires forall pn <- names :: pn in p.perPod
  {
    if names == [] then []
    else
      (if names[0] in p.errors then [Placeholder(names[0], container, p.errors[names[0]])] else p.perPod[names[0]])
      + Collect(p, names[1..], container)
  }

  lemma {:induction false} CollectConcat(p: Pool, a: seq<string>, b: seq<string>, container: string)
    requires forall pn <- a + b :: pn in p.perPod
    ensures (forall pn <- a :: pn in p.perPod) && (forall pn <- b :: pn in p.perPod)
    ensures Collect(p, a + b, container) == Collect(p, a, container) + Collect(p, b, container)
  {
    forall pn <- b ensures pn in p.perPod { assert pn in a + b; }
    if a == [] {
      assert a + b == b;
    } else {
      assert (a + b)[1..] == a[1..] + b;
      CollectConcat(p, a[1..], b, container);
    }
  }

  lemma {:induction false} PoolKnowsAllNames(names: seq<string>, fetches: seq<Fetch>, order: seq<nat>)
    requires |names| == |fetches| && Within(order, |names|)
    ensures forall pn <- names :: pn in RunPool(names, fetches, order).perPod
  {
    if order != [] { PoolKnowsAllNames(names, fetches, order[..|order| - 1]); }
  }

  /** What the parallel branch returns when the workers finish in the given order. */
  ghost function ParallelOutcome(names: seq<string>, container: string, fetches: seq<Fetch>, order: seq<nat>): Outcome
    requires |names| == |fetches| && Within(order, |names|)
  {
    PoolKnowsAllNames(names, fetches, order);
    match FirstFatal(fetches)
    case Some(message) => Raised(message)
    case None => Records(Collect(RunPool(names, fetches, order), names, container))
  }

  /** The parallel branch, for one completion order. */
  method FetchParallel(names: seq<string>, container: string, fetches: seq<Fetch>, order: seq<nat>) returns (outcome: Outcome)
    requires |names| == |fetches| && Interleaving(order, |names|)
    ensures outcome == ParallelOutcome(names, container, fetches, order)
  {
    var perPod: map<string, seq<Record>> := map pn | pn in names :: [];
    var errors: map<string, string> := map[];
    ghost var done: set<nat> := {};
    for w := 0 to |order|
      invariant Pool(perPod, errors, done) == RunPool(names, fetches, order[..w])
    {
      assert order[..w + 1][..w] == order[..w];
      var i := order[w];
      match fetches[i] {
        case Lines(records) => perPod := perPod[names[i] := records];
        case Tolerated(message) => errors := errors[names[i] := message];
        case Fatal(_) =>
      }
      done := done + {i};
    }
    assert order[..|order|] == order;
    PoolKnowsAllNames(names, fetches, order);
    for i := 0 to |names|
      invariant FirstFatal(fetches) == FirstFatal(fetches[i..])
    {
      if fetches[i].Fatal? { return Raised(fetches[i].message); }
      assert fetches[i..][1..] == fetches[i + 1..];
    }
    ghost var p := Pool(perPod, errors, done);
    var records: seq<Record> := [];
    for i := 0 to |names|
      invariant forall pn <- names[..i] :: pn in p.perPod
      invariant records == Collect(p, names[..i], container)
    {
      assert names[..i + 1] == names[..i] + [names[i]];
      CollectConcat(p, names[..i], [names[i]], container);
      if names[i] in errors {
        records := records + [Placeholder(names[i], container, errors[names[i]])];
      } else {
        records := records + perPod[names[i]];
      }
    }
    assert names[..|names|] == names;
    return Records(records);
  }

  // ----- Parallel equals serial ------------------------------------------------------------------

  /** After any prefix of a completion order, exactly the finished pods have left their mark. */
  lemma {:induction false} PoolHoldsFinishedFetches(names: seq<string>, fetches: seq<Fetch>, order: seq<nat>, i: nat)
    requires |names| == |fetches| && i < |names| && Distinct(names)
    requires Within(order, |names|)
    ensures
      var p := RunPool(names, fetches, order);
      && names[i] in p.perPod
      && (names[i] in p.errors <==> i in order && fetches[i].Tolerated?)
      && (names[i] in p.errors ==> p.errors[names[i]] == fetches[i].message)
      && (i in order && fetches[i].Lines? ==> p.perPod[names[i]] == fetches[i].records)
  {
    PoolKnowsAllNames(names, fetches, order);
    if order != [] {
      var n := |order| - 1;
      PoolHoldsFinishedFetches(names, fetches, order[..n], i);
      assert order == order[..n] + [order[n]];
    }
  }

  lemma {:induction false} CollectIsSerial(names: seq<string>, container: string, fetches: seq<Fetch>, order: seq<nat>, i: nat)
    requires |names| == |fetches| && Distinct(names) && Interleaving(order, |names|) && i <= |names|
    requires forall f <- fetches :: !f.Fatal?
    ensures forall pn <- names[i..] :: pn in RunPool(names, fetches, order).perPod
    ensures Records(Collect(RunPool(names, fetches, order), names[i..], container)) == SerialFrom(names, container, fetches, i)
    decreases |names| - i
  {
    PoolKnowsAllNames(names, fetches, order);
    if i < |names| {
      CollectIsSerial(names, container, fetches, order, i + 1);
      PoolHoldsFinishedFetches(names, fetches, order, i);
      assert names[i..][1..] == names[i + 1..];
      assert fetches[i] in fetches;
    }
  }

  lemma {:induction false} FirstFatalIsSerial(names: seq<string>, container: string, fetches: seq<Fetch>, i: nat)
    requires |names| == |fetches| && i <= |names|
    ensures
      match FirstFatal(fetches[i..])
      case Some(message) => SerialFrom(names, container, fetches, i) == Raised(message)
      case None => (forall f <- fetches[i..] :: !f.Fatal?) && SerialFrom(names, container, fetches, i).Records?
    decreases |names| - i
  {
    if i < |names| {
      assert fetches[i..][1..] == fetches[i + 1..];
      FirstFatalIsSerial(names, container, fetches, i + 1);
    }
  }

  lemma DistinctNamesAgree(names: seq<string>, container: string, fetches: seq<Fetch>, order: seq<nat>)
    requires |names| == |fetches| && Interleaving(order, |names|) && Distinct(names)
    ensures ParallelOutcome(names, container, fetches, order) == SerialFrom(names, container, fetches, 0)
  {
    assert fetches[0..] == fetches && names[0..] == names;
    FirstFatalIsSerial(names, container, fetches, 0);
    if FirstFatal(fetches).None? {
      CollectIsSerial(names, container, fetches, order, 0);
    }
  }

  // ----- Exactly when -----------------------------------------------------------------------------

  /** One pod fails, every other one is silent. */
  function OneFailure(n: nat, i: nat): seq<Fetch> {
    seq(n, k => if k == i then Tolerated("") else Lines([]))
  }

  lemma {:induction false} OneFailureSerial(names: seq<string>, container: string, i: nat, k: nat)
    requires i < |names| && k <= |names|
    ensures SerialFrom(names, container, OneFailure(|names|, i), k)
         == Records(if k <= i then [Placeholder(names[i], container, "")] else [])
    decreases |names| - k
  {
    if k < |names| { OneFailureSerial(names, container, i, k + 1); }
  }

  lemma {:induction false} FailureIsRemembered(names: seq<string>, fetches: seq<Fetch>, order: seq<nat>, i: nat)
    requires |names| == |fetches| && Within(order, |names|)
    requires i in order && fetches[i].Tolerated?
    ensures names[i] in RunPool(names, fetches, order).errors
  {
    var n := |order| - 1;
    if order[n] != i { FailureIsRemembered(names, fetches, order[..n], i); }
  }

  lemma {:induction false} CollectGrows(p: Pool, names: seq<string>, container: string, i: nat)
    requires (forall pn <- names :: pn in p.perPod) && i < |names| && names[i] in p.errors
    ensures |Collect(p, names, container)| >= 1
    ensures forall j | i < j < |names| && names[j] in p.errors :: |Collect(p, names, container)| >= 2
  {
    if i > 0 {
      CollectGrows(p, names[1..], container, i - 1);
      forall j | i < j < |names| && names[j] in p.errors ensures |Collect(p, names, container)| >= 2 {
        assert names[1..][j - 1] == names[j];
      }
    } else {
      forall j | i < j < |names| && names[j] in p.errors ensures |Collect(p, names, container)| >= 2 {
        CollectGrows(p, names[1..], container, j - 1);
      }
    }
  }

  lemma FailuresAreNoFatal(fetches: seq<Fetch>)
    requires forall f <- fetches :: !f.Fatal?
    ensures FirstFatal(fetches) == None
  {
    if fetches != [] { FailuresAreNoFatal(fetches[1..]); }
  }

  lemma DuplicateNamesDisagree(names: seq<string>, container: string, i: nat, j: nat, order: seq<nat>)
    requires i < j < |names| && names[i] == names[j] && Interleaving(order, |names|)
    ensures
      var fetches := OneFailure(|names|, i);
      ParallelOutcome(names, container, fetches, order) != SerialFrom(names, container, fetches, 0)
  {
    var fetches := OneFailure(|names|, i);
    OneFailureSerial(names, container, i, 0);
    FailuresAreNoFatal(fetches);
    FailureIsRemembered(names, fetches, order, i);
    PoolKnowsAllNames(names, fetches, order);
    CollectGrows(RunPool(names, fetches, order), names, container, i);
  }

  /** What `_fetch_logs_multi` returns: the serial loop below the threshold, the pool from it on. */
  ghost function LogsOutcome(names: seq<string>, container: string, fetches: seq<Fetch>, order: seq<nat>): Outcome
    requires |names| == |fetches| && Within(order, |names|)
  {
    if |names| < MULTI_PARALLEL_THRESHOLD then SerialFrom(names, container, fetches, 0)
    else ParallelOutcome(names, container, fetches, order)
  }

  /**
    `_fetch_logs_multi` returns the serial record list, placeholders and exceptions included,
    whatever the fetches answer and in whatever order they finish, if and only if the pod names
    are distinct or too few for the pool. (One listing of a namespace never repeats a name.)
  */
  lemma ParallelIsSerialIff(names: seq<string>, container: string)
    ensures
      (forall fetches, order | |fetches| == |names| && Interleaving(order, |names|) ::
         LogsOutcome(names, container, fetches, order) == SerialFrom(names, container, fetches, 0))
      <==> |names| < 5 || Distinct(names)
  {
    if Distinct(names) {
      forall fetches, order | |fetches| == |names| && Interleaving(order, |names|)
        ensures ParallelOutcome(names, container, fetches, order) == SerialFrom(names, container, fetches, 0)
      {
        DistinctNamesAgree(names, container, fetches, order);
      }
    } else if |names| >= MULTI_PARALLEL_THRESHOLD {
      var i, j :| 0 <= i < j < |names| && names[i] == names[j];
      var order: seq<nat> := seq(|names|, k => k);
      forall k | 0 <= k < |names| ensures k in order { assert order[k] == k; }
      DuplicateNamesDisagree(names, container, i, j, order);
      var fetches := OneFailure(|names|, i);
      assert |fetches| == |names| && Interleaving(order, |names|);
    }
  }

  /** `_fetch_logs_multi`: with distinct pod names the branch taken does not show in the result. */
  method FetchLogsMulti(names: seq<string>, container: string, fetches: seq<Fetch>, order: seq<nat>) returns (outcome: Outcome)
    requires |names| == |fetches| && Interleaving(order, |names|)
    ensures outcome == LogsOutcome(names, container, fetches, order)
    ensures |names| < MULTI_PARALLEL_THRESHOLD || Distinct(names) ==> outcome == SerialFrom(names, container, fetches, 0)
  {
    if |names| == 0 { return Records([]); }
    if |names| < MULTI_PARALLEL_THRESHOLD {
      outcome := FetchSerial(names, container, fetches);
    } else {
      outcome := FetchParallel(names, container, fetches, order);
      if Distinct(names) { DistinctNamesAgree(names, container, fetches, order); }
    }
  }
}
