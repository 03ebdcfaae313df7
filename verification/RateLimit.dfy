/**
  The per-tool rate limiter of `safety.py`, over exact (real) arithmetic.

  `TokenBucket` and `RateLimiter` update their fields in place; `Bucket` is the value of one
  bucket's fields and `TakeTokens` the step the method is proved to take. The theorems are
  about whole traces of attempts. The clock is an input that never goes back: it is read
  inside the bucket's lock, so attempts reach a bucket in clock order.
*/
module RateLimit {

  // ----- One bucket --------------------------------------------------------------------

  datatype Bucket = Bucket(capacity: int, rate: real, tokens: real, lastRefill: real)

  /** Accepted, or rejected with the advised waiting time. */
  datatype Verdict = Accepted | Rejected(retryAfter: real)

  function Min(x: real, y: real): real {
    if x <= y then x else y
  }

  /** Tokens that accrue in some seconds. */
  function Earned(rate: real, seconds: real): real {
    seconds * rate
  }

  /** Seconds until some tokens have accrued. */
  function WaitFor(rate: real, tokens: real): real
    requires rate > 0.0
  {
    tokens / rate
  }

  function Refilled(b: Bucket, now: real): Bucket {
    if now - b.lastRefill > 0.0 then
      b.(tokens := Min(b.capacity as real, b.tokens + Earned(b.rate, now - b.lastRefill)), lastRefill := now)
    else b
  }

  function TakeTokens(b: Bucket, n: int, now: real): (Bucket, Verdict) {
    var r := Refilled(b, now);
    if r.tokens >= n as real then (r.(tokens := r.tokens - n as real), Accepted)
    else (r, Rejected(if r.rate > 0.0 then WaitFor(r.rate, n as real - r.tokens) else 60.0))
  }

  class TokenBucket {
    const capacity: int
    const refillPerSec: real
    var tokens: real
    var lastRefill: real

    function View(): Bucket
      reads this
    {
      Bucket(capacity, refillPerSec, tokens, lastRefill)
    }

    constructor (capacity: int, refillPerSec: real, now: real)
      ensures View() == Bucket(capacity, refillPerSec, capacity as real, now)
    {
      this.capacity, this.refillPerSec, this.tokens, this.lastRefill := capacity, refillPerSec, capacity as real, now;
    }

    method TryConsume(n: int, now: real) returns (ok: bool, retryAfter: real)
      modifies this
      ensures View() == TakeTokens(old(View()), n, now).0
      ensures TakeTokens(old(View()), n, now).1 == if ok then Accepted else Rejected(retryAfter)
      ensures ok ==> retryAfter == 0.0
    {
      var elapsed := now - lastRefill;
      if elapsed > 0.0 {
        tokens := Min(capacity as real, tokens + elapsed * refillPerSec);
        lastRefill := now;
      }
      if tokens >= n as real {
        tokens := tokens - n as real;
        return true, 0.0;
      }
      var needed := n as real - tokens;
      return false, if refillPerSec > 0.0 then needed / refillPerSec else 60.0;
    }
  }

  // ----- Traces of one bucket -------------------------------------------------------------

  datatype Attempt = Attempt(n: int, at: real)

  /** Clock order, starting no earlier than `from`. */
  predicate InOrder(from: real, trace: seq<Attempt>)
    decreases trace
  {
    trace == [] || (from <= trace[0].at && InOrder(trace[0].at, trace[1..]))
  }

  function RunBucket(b: Bucket, trace: seq<Attempt>): Bucket
    decreases trace
  {
    if trace == [] then b else RunBucket(TakeTokens(b, trace[0].n, trace[0].at).0, trace[1..])
  }

  function Verdicts(b: Bucket, trace: seq<Attempt>): seq<Verdict>
    decreases trace
  {
    if trace == [] then []
    else
      var (b', v) := TakeTokens(b, trace[0].n, trace[0].at);
      [v] + Verdicts(b', trace[1..])
  }

  /** Tokens handed out to attempts inside the window [start, end]. */
  function Consumed(b: Bucket, trace: seq<Attempt>, start: real, end: real): int
    decreases trace
  {
    if trace == [] then 0
    else
      var (b', v) := TakeTokens(b, trace[0].n, trace[0].at);
      (if v.Accepted? && start <= trace[0].at <= end then trace[0].n else 0) + Consumed(b', trace[1..], start, end)
  }

  predicate Sound(b: Bucket) {
    b.rate >= 0.0 && 0.0 <= b.tokens <= b.capacity as real
  }

  predicate NonNegative(trace: seq<Attempt>) {
    forall a <- trace :: a.n >= 0
  }

  lemma EarnedMonotone(rate: real, s: real, t: real)
    requires rate >= 0.0 && 0.0 <= s <= t
    ensures 0.0 <= Earned(rate, s) <= Earned(rate, t)
    ensures rate > 0.0 && s < t ==> Earned(rate, s) < Earned(rate, t)
  {
    assert Earned(rate, t) - Earned(rate, s) == (t - s) * rate;
  }

  lemma EarnedAdds(rate: real, s: real, t: real)
    ensures Earned(rate, s) + Earned(rate, t) == Earned(rate, s + t)
  {
  }

  lemma EarnedWait(rate: real, tokens: real)
    requires rate > 0.0
    ensures Earned(rate, WaitFor(rate, tokens)) == tokens
    ensures tokens > 0.0 ==> WaitFor(rate, tokens) > 0.0
  {
  }

  lemma ConsumeKeepsSound(b: Bucket, n: int, now: real)
    requires Sound(b) && n >= 0
    ensures Sound(TakeTokens(b, n, now).0)
    ensures TakeTokens(b, n, now).0.(tokens := 0.0, lastRefill := 0.0) == b.(tokens := 0.0, lastRefill := 0.0)
    ensures b.lastRefill <= now ==> TakeTokens(b, n, now).0.lastRefill == now
  {
    hide Earned, WaitFor;
    if now - b.lastRefill > 0.0 {
      EarnedMonotone(b.rate, 0.0, now - b.lastRefill);
    }
  }

  /** Tokens stay within [0, capacity] along every trace. */
  lemma {:induction false} TokensStayInRange(b: Bucket, trace: seq<Attempt>)
    requires Sound(b) && NonNegative(trace)
    ensures Sound(RunBucket(b, trace)) && RunBucket(b, trace).capacity == b.capacity && RunBucket(b, trace).rate == b.rate
    decreases trace
  {
    if trace != [] {
      ConsumeKeepsSound(b, trace[0].n, trace[0].at);
      TokensStayInRange(TakeTokens(b, trace[0].n, trace[0].at).0, trace[1..]);
    }
  }

  /** What a bucket can still hand out in a window: its own tokens if the window is open, a full bucket if not. */
  function Allowance(b: Bucket, start: real, end: real): real
  {
    if b.lastRefill > end then 0.0
    else if b.lastRefill >= start then b.tokens + Earned(b.rate, end - b.lastRefill)
    else b.capacity as real + Earned(b.rate, end - start)
  }

  lemma AllowanceStep(b: Bucket, n: int, now: real, start: real, end: real)
    requires Sound(b) && n >= 0 && b.lastRefill <= now && start <= end
    ensures
      var (b', v) := TakeTokens(b, n, now);
      (if v.Accepted? && start <= now <= end then n as real else 0.0) + Allowance(b', start, end) <= Allowance(b, start, end)
  {
    hide Earned, WaitFor;
    ConsumeKeepsSound(b, n, now);
    RefillGain(b, now);
    if now > end {
      AllowanceNonNegative(b, start, end);
    } else if now >= start {
      if b.lastRefill >= start {
        EarnedAdds(b.rate, now - b.lastRefill, end - now);
      } else {
        EarnedMonotone(b.rate, end - now, end - start);
      }
    }
  }

  lemma RefillGain(b: Bucket, now: real)
    requires Sound(b) && b.lastRefill <= now
    ensures
      var r := Refilled(b, now);
      && b.tokens <= r.tokens <= b.capacity as real && r.tokens <= b.tokens + Earned(b.rate, now - b.lastRefill)
      && r == b.(tokens := r.tokens, lastRefill := now)
  {
    hide Earned;
    EarnedMonotone(b.rate, 0.0, now - b.lastRefill);
  }

  lemma AllowanceNonNegative(b: Bucket, start: real, end: real)
    requires Sound(b) && start <= end
    ensures 0.0 <= Allowance(b, start, end) <= b.capacity as real + Earned(b.rate, end - start)
  {
    hide Earned;
    EarnedMonotone(b.rate, 0.0, end - start);
    if start <= b.lastRefill <= end {
      EarnedMonotone(b.rate, end - b.lastRefill, end - start);
    }
  }

  lemma {:induction false} ConsumedWithinAllowance(b: Bucket, trace: seq<Attempt>, start: real, end: real)
    requires Sound(b) && NonNegative(trace) && InOrder(b.lastRefill, trace) && start <= end
    ensures Consumed(b, trace, start, end) as real <= Allowance(b, start, end)
    decreases trace
  {
    hide Earned, WaitFor;
    if trace == [] {
      AllowanceNonNegative(b, start, end);
    } else {
      var b' := TakeTokens(b, trace[0].n, trace[0].at).0;
      ConsumeKeepsSound(b, trace[0].n, trace[0].at);
      AllowanceStep(b, trace[0].n, trace[0].at, start, end);
      ConsumedWithinAllowance(b', trace[1..], start, end);
    }
  }

  lemma ConsumedWithinEarnings(b: Bucket, trace: seq<Attempt>, start: real, end: real)
    requires Sound(b) && NonNegative(trace) && InOrder(b.lastRefill, trace) && start <= end
    ensures Consumed(b, trace, start, end) as real <= b.capacity as real + Earned(b.rate, end - start)
  {
    hide Earned, WaitFor;
    ConsumedWithinAllowance(b, trace, start, end);
    AllowanceNonNegative(b, start, end);
  }

  /** In every window of every trace at most capacity + rate * length tokens are handed out. */
  lemma RateBound(b: Bucket, trace: seq<Attempt>, start: real, length: real)
    requires Sound(b) && NonNegative(trace) && InOrder(b.lastRefill, trace) && length >= 0.0
    ensures Consumed(b, trace, start, start + length) as real <= b.capacity as real + length * b.rate
  {
    ConsumedWithinEarnings(b, trace, start, start + length);
    assert start + length - start == length;
    EarnedIsTheProduct(b.rate, length);
    hide *;
  }

  lemma EarnedIsTheProduct(rate: real, seconds: real)
    ensures Earned(rate, seconds) == seconds * rate
  {
  }

  // ----- Retry ---------------------------------------------------------------------------------

  lemma RefillTwice(b: Bucket, t: real, u: real)
    requires Sound(b) && b.lastRefill <= t <= u
    ensures Refilled(Refilled(b, t), u) == Refilled(b, u)
  {
    hide Earned;
    EarnedMonotone(b.rate, 0.0, t - b.lastRefill);
    EarnedMonotone(b.rate, 0.0, u - t);
    EarnedAdds(b.rate, t - b.lastRefill, u - t);
  }

  predicate AllRejected(vs: seq<Verdict>) {
    forall v <- vs :: v.Rejected?
  }

  /** Rejected attempts only refill: afterwards the bucket looks as if they had not happened. */
  lemma {:induction false} RejectionsLeaveNoTrace(b: Bucket, trace: seq<Attempt>, now: real)
    requires Sound(b) && NonNegative(trace) && InOrder(b.lastRefill, trace)
    requires forall a <- trace :: a.at <= now
    requires b.lastRefill <= now
    requires AllRejected(Verdicts(b, trace))
    ensures Refilled(RunBucket(b, trace), now) == Refilled(b, now)
    decreases trace
  {
    hide Earned, WaitFor;
    if trace != [] {
      var (b', v) := TakeTokens(b, trace[0].n, trace[0].at);
      assert Verdicts(b, trace)[0] == v && Verdicts(b, trace)[1..] == Verdicts(b', trace[1..]);
      forall w <- Verdicts(b', trace[1..]) ensures w.Rejected? { assert w in Verdicts(b, trace); }
      assert trace[0] in trace;
      assert v in Verdicts(b, trace);
      assert b' == Refilled(b, trace[0].at);
      ConsumeKeepsSound(b, trace[0].n, trace[0].at);
      RejectionsLeaveNoTrace(b', trace[1..], now);
      RefillTwice(b, trace[0].at, now);
    }
  }

  /**
    After a rejection at `now` with advice r, and any number of failed attempts in between,
    an attempt for the same n at `later` succeeds exactly when later >= now + r. This needs
    n <= capacity and a positive rate.
  */
  lemma RetryIsExact(b: Bucket, n: int, now: real, between: seq<Attempt>, later: real)
    requires Sound(b) && b.lastRefill <= now && 0 <= n <= b.capacity && b.rate > 0.0
    requires TakeTokens(b, n, now).1.Rejected?
    requires
      var b1 := TakeTokens(b, n, now).0;
      && NonNegative(between) && InOrder(now, between) && (forall a <- between :: a.at <= later)
      && AllRejected(Verdicts(b1, between))
    requires now <= later
    ensures
      var (b1, v) := TakeTokens(b, n, now);
      TakeTokens(RunBucket(b1, between), n, later).1.Accepted? <==> later >= now + v.retryAfter
  {
    hide Earned, WaitFor;
    var (b1, v) := TakeTokens(b, n, now);
    ConsumeKeepsSound(b, n, now);
    RejectionsLeaveNoTrace(b1, between, later);
    assert TakeTokens(RunBucket(b1, between), n, later).1.Accepted? <==> Refilled(b1, later).tokens >= n as real;
    WaitIsExact(b1, n, v.retryAfter, later);
  }

  /** A bucket short of n tokens has them exactly from its advised waiting time on. */
  lemma WaitIsExact(b: Bucket, n: int, wait: real, later: real)
    requires Sound(b) && b.rate > 0.0 && b.tokens < n as real <= b.capacity as real && b.lastRefill <= later
    requires wait == WaitFor(b.rate, n as real - b.tokens)
    ensures Refilled(b, later).tokens >= n as real <==> later >= b.lastRefill + wait
  {
    hide Earned, WaitFor;
    var elapsed := later - b.lastRefill;
    EarnedWait(b.rate, n as real - b.tokens);
    if elapsed >= wait {
      EarnedMonotone(b.rate, wait, elapsed);
    } else {
      EarnedMonotone(b.rate, elapsed, wait);
    }
  }

  /**
    The advice is right (waiting that long and trying again succeeds) exactly when the request
    fits the bucket and the bucket refills at all.
  */
  lemma RetryAdviceHoldsIff(b: Bucket, n: int, now: real)
    requires Sound(b) && b.lastRefill <= now && 0 <= n
    requires TakeTokens(b, n, now).1.Rejected?
    ensures
      var (b1, v) := TakeTokens(b, n, now);
      TakeTokens(b1, n, now + v.retryAfter).1.Accepted? <==> n <= b.capacity && b.rate > 0.0
  {
    hide Earned, WaitFor;
    var (b1, v) := TakeTokens(b, n, now);
    ConsumeKeepsSound(b, n, now);
    if n <= b.capacity && b.rate > 0.0 {
      EarnedWait(b1.rate, n as real - b1.tokens);
      RetryIsExact(b, n, now, [], now + v.retryAfter);
    } else if b.rate > 0.0 {
      EarnedWait(b1.rate, n as real - b1.tokens);
      RefillGain(b1, now + v.retryAfter);
    } else {
      RefillGain(b1, now + v.retryAfter);
      NothingEarned(v.retryAfter);
    }
  }

  lemma NothingEarned(seconds: real)
    ensures Earned(0.0, seconds) == 0.0
  {
  }

  // ----- The bound is sharp -----------------------------------------------------------------------

  function Burst(size: nat, at: real): seq<Attempt> {
    seq(size, _ => Attempt(1, at))
  }

  /** One attempt at each of (i + 1) / rate, ..., k / rate. */
  function Steady(rate: real, i: nat, k: nat): seq<Attempt>
    requires rate > 0.0 && i <= k
    decreases k - i
  {
    if i == k then [] else [Attempt(1, WaitFor(rate, (i + 1) as real))] + Steady(rate, i + 1, k)
  }

  lemma OneMoreToken(rate: real, i: nat, k: nat)
    requires rate > 0.0 && i < k
    ensures 0.0 <= WaitFor(rate, i as real) < WaitFor(rate, (i + 1) as real) <= WaitFor(rate, k as real)
    ensures Earned(rate, WaitFor(rate, (i + 1) as real) - WaitFor(rate, i as real)) == 1.0
  {
    WaitMonotone(rate, 0.0, i as real);
    WaitMonotone(rate, i as real, (i + 1) as real);
    WaitMonotone(rate, (i + 1) as real, k as real);
    var x, y := WaitFor(rate, i as real), WaitFor(rate, (i + 1) as real);
    EarnedWait(rate, i as real);
    EarnedWait(rate, (i + 1) as real);
    EarnedAdds(rate, y - x, x);
  }

  lemma WaitMonotone(rate: real, s: real, t: real)
    requires rate > 0.0 && 0.0 <= s <= t
    ensures 0.0 <= WaitFor(rate, s) <= WaitFor(rate, t) && (s < t ==> WaitFor(rate, s) < WaitFor(rate, t))
  {
    hide Earned, WaitFor;
    EarnedWait(rate, s);
    EarnedWait(rate, t);
    if s > 0.0 && WaitFor(rate, t) <= WaitFor(rate, s) { EarnedMonotone(rate, WaitFor(rate, t), WaitFor(rate, s)); }
    if s == 0.0 { NoWait(rate); }
  }

  lemma NoWait(rate: real)
    requires rate > 0.0
    ensures WaitFor(rate, 0.0) == 0.0
  {
  }

  lemma {:induction false} SteadyAllAccepted(b: Bucket, i: nat, k: nat)
    requires b.rate > 0.0 && b.capacity >= 1 && i <= k
    requires b.tokens == 0.0 && b.lastRefill == WaitFor(b.rate, i as real)
    ensures Consumed(b, Steady(b.rate, i, k), 0.0, WaitFor(b.rate, k as real)) == k - i
    ensures InOrder(b.lastRefill, Steady(b.rate, i, k))
    decreases k - i
  {
    hide Earned, WaitFor;
    if i < k {
      OneMoreToken(b.rate, i, k);
      var at := WaitFor(b.rate, (i + 1) as real);
      var b' := b.(lastRefill := at);
      assert Refilled(b, at) == b'.(tokens := 1.0);
      SteadyAllAccepted(b', i + 1, k);
    }
  }

  lemma {:induction false} BurstThenSteady(b: Bucket, size: nat, k: nat)
    requires b.rate > 0.0 && b.capacity >= 1 && b.tokens == size as real && b.lastRefill == 0.0
    ensures Consumed(b, Burst(size, 0.0) + Steady(b.rate, 0, k), 0.0, WaitFor(b.rate, k as real)) == size + k
    ensures InOrder(0.0, Burst(size, 0.0) + Steady(b.rate, 0, k))
    decreases size
  {
    hide Earned, WaitFor;
    var trace := Burst(size, 0.0) + Steady(b.rate, 0, k);
    NoWait(b.rate);
    WaitMonotone(b.rate, 0.0, k as real);
    if size == 0 {
      assert trace == Steady(b.rate, 0, k);
      SteadyAllAccepted(b, 0, k);
    } else {
      assert trace[0] == Attempt(1, 0.0);
      assert trace[1..] == Burst(size - 1, 0.0) + Steady(b.rate, 0, k);
      BurstThenSteady(b.(tokens := (size - 1) as real), size - 1, k);
    }
  }

  /** A full bucket meets the window bound exactly: a burst, then one call per refilled token. */
  lemma RateBoundIsSharp(capacity: nat, rate: real, k: nat)
    requires capacity >= 1 && rate > 0.0
    ensures
      var b := Bucket(capacity, rate, capacity as real, 0.0);
      var trace := Burst(capacity, 0.0) + Steady(rate, 0, k);
      var end := k as real / rate;
      && Sound(b) && InOrder(b.lastRefill, trace)
      && Consumed(b, trace, 0.0, end) as real == capacity as real + end * rate
  {
    assert WaitFor(rate, k as real) == k as real / rate;
    assert Earned(rate, k as real / rate) == (k as real / rate) * rate;
    hide Earned, WaitFor;
    BurstThenSteady(Bucket(capacity, rate, capacity as real, 0.0), capacity, k);
    EarnedWait(rate, k as real);
  }

  // ----- One bucket per tool ------------------------------------------------------------------------

  function Capacity(rpm: int): int {
    if rpm > 0 then (if rpm / 6 >= 1 then rpm / 6 else 1) else 0
  }

  function RefillPerSec(rpm: int): real {
    if rpm > 0 then rpm as real / 60.0 else 0.0
  }

  function FreshBucket(rpm: int, created: real): Bucket {
    Bucket(Capacity(rpm), RefillPerSec(rpm), Capacity(rpm) as real, created)
  }

  /** One `check`: a new bucket is stamped at `created`, the attempt itself happens at `at`. */
  datatype Check = Check(tool: string, created: real, at: real)

  function CheckTool(rpm: int, buckets: map<string, Bucket>, c: Check): (map<string, Bucket>, Verdict)
  {
    if rpm <= 0 then (buckets, Accepted)
    else
      var b := if c.tool in buckets then buckets[c.tool] else FreshBucket(rpm, c.created);
      var (b', v) := TakeTokens(b, 1, c.at);
      (buckets[c.tool := b'], v)
  }

  class RateLimiter {
    const rpm: int
    const capacity: int
    const refillPerSec: real
    var buckets: map<string, TokenBucket>

    ghost predicate Valid()
      reads this, buckets.Values
    {
      && capacity == Capacity(rpm) && refillPerSec == RefillPerSec(rpm)
      && forall t, u | t in buckets && u in buckets && t != u :: buckets[t] != buckets[u]
    }

    ghost function View(): map<string, Bucket>
      reads this, buckets.Values
    {
      map t | t in buckets :: buckets[t].View()
    }

    constructor (rpm: int)
      ensures Valid() && this.rpm == rpm && View() == map[]
    {
      this.rpm := rpm;
      this.capacity := if rpm > 0 then (if rpm / 6 >= 1 then rpm / 6 else 1) else 0;
      this.refillPerSec := if rpm > 0 then rpm as real / 60.0 else 0.0;
      this.buckets := map[];
    }

    /** Returns Rejected where the source raises RateLimitedError. */
    method CheckCall(tool: string, created: real, now: real) returns (verdict: Verdict)
      requires Valid()
      modifies this`buckets, buckets.Values
      ensures Valid() && fresh(buckets.Values - old(buckets.Values))
      ensures (View(), verdict) == CheckTool(rpm, old(View()), Check(tool, created, now))
    {
      if rpm <= 0 { return Accepted; }
      ghost var before := View();
      var bucket: TokenBucket;
      if tool in buckets {
        bucket := buckets[tool];
      } else {
        bucket := new TokenBucket(capacity, refillPerSec, created);
        buckets := buckets[tool := bucket];
      }
      ghost var was := bucket.View();
      assert was == if tool in before then before[tool] else FreshBucket(rpm, created);
      var ok, retry := bucket.TryConsume(1, now);
      assert View() == before[tool := bucket.View()];
      return if ok then Accepted else Rejected(retry);
    }
  }

  function Decisions(rpm: int, buckets: map<string, Bucket>, trace: seq<Check>): seq<Verdict>
    decreases trace
  {
    if trace == [] then []
    else
      var (buckets', v) := CheckTool(rpm, buckets, trace[0]);
      [v] + Decisions(rpm, buckets', trace[1..])
  }

  function Projection(tool: string, trace: seq<Check>): seq<Attempt>
  {
    if trace == [] then []
    else (if trace[0].tool == tool then [Attempt(1, trace[0].at)] else []) + Projection(tool, trace[1..])
  }

  /** The decisions a mixed trace makes for one tool, in order. */
  function DecisionsFor(tool: string, rpm: int, buckets: map<string, Bucket>, trace: seq<Check>): seq<Verdict>
    decreases trace
  {
    if trace == [] then []
    else
      var (buckets', v) := CheckTool(rpm, buckets, trace[0]);
      (if trace[0].tool == tool then [v] else []) + DecisionsFor(tool, rpm, buckets', trace[1..])
  }

  /** Every clock reading is no earlier than the one before it. */
  predicate ClockOrder(from: real, trace: seq<Check>)
    decreases trace
  {
    trace == [] || (from <= trace[0].created <= trace[0].at && ClockOrder(trace[0].at, trace[1..]))
  }

  lemma {:induction false} DecisionsOfExisting(tool: string, rpm: int, buckets: map<string, Bucket>, trace: seq<Check>)
    requires rpm > 0 && tool in buckets
    ensures DecisionsFor(tool, rpm, buckets, trace) == Verdicts(buckets[tool], Projection(tool, trace))
    decreases trace
  {
    if trace != [] {
      var rest := Projection(tool, trace[1..]);
      DecisionsOfExisting(tool, rpm, CheckTool(rpm, buckets, trace[0]).0, trace[1..]);
      if trace[0].tool == tool {
        assert Projection(tool, trace)[1..] == rest;
      } else {
        assert Projection(tool, trace) == rest;
      }
    }
  }

  /** A full bucket forgets when it was created. */
  lemma FreshBucketForgetsItsAge(rpm: int, c: real, d: real, trace: seq<Attempt>)
    requires rpm > 0 && InOrder(c, trace) && InOrder(d, trace)
    ensures Verdicts(FreshBucket(rpm, c), trace) == Verdicts(FreshBucket(rpm, d), trace)
  {
    if trace != [] {
      var at := trace[0].at;
      EarnedMonotone(RefillPerSec(rpm), 0.0, at - c);
      EarnedMonotone(RefillPerSec(rpm), 0.0, at - d);
      assert Refilled(FreshBucket(rpm, c), at) == FreshBucket(rpm, at) == Refilled(FreshBucket(rpm, d), at);
    }
  }

  lemma {:induction false} ProjectionInOrder(tool: string, from: real, trace: seq<Check>)
    requires ClockOrder(from, trace)
    ensures InOrder(from, Projection(tool, trace))
    decreases trace
  {
    if trace != [] {
      ProjectionInOrder(tool, trace[0].at, trace[1..]);
      var rest := Projection(tool, trace[1..]);
      if trace[0].tool == tool {
        assert Projection(tool, trace)[1..] == rest;
      } else {
        assert Projection(tool, trace) == rest;
      }
    }
  }

  /**
    The limiter's decisions for one tool in a mixed trace are those of a single fresh bucket
    run on that tool's own attempts: tools never influence each other.
  */
  lemma {:induction false} ToolsAreIsolated(tool: string, rpm: int, buckets: map<string, Bucket>, trace: seq<Check>, from: real)
    requires rpm > 0 && ClockOrder(from, trace) && tool !in buckets
    ensures DecisionsFor(tool, rpm, buckets, trace) == Verdicts(FreshBucket(rpm, from), Projection(tool, trace))
    decreases trace
  {
    if trace != [] {
      var c := trace[0];
      var buckets' := CheckTool(rpm, buckets, c).0;
      ProjectionInOrder(tool, c.at, trace[1..]);
      ProjectionInOrder(tool, from, trace);
      if c.tool == tool {
        DecisionsOfExisting(tool, rpm, buckets', trace[1..]);
        assert Projection(tool, trace)[1..] == Projection(tool, trace[1..]);
        assert InOrder(c.created, Projection(tool, trace));
        FreshBucketForgetsItsAge(rpm, c.created, from, Projection(tool, trace));
      } else {
        ToolsAreIsolated(tool, rpm, buckets', trace[1..], c.at);
        assert Projection(tool, trace) == Projection(tool, trace[1..]);
        FreshBucketForgetsItsAge(rpm, from, c.at, Projection(tool, trace));
      }
    }
  }

  /** A non-positive rpm accepts everything and creates no bucket. */
  lemma {:induction false} DisabledLimiterAcceptsAll(rpm: int, buckets: map<string, Bucket>, trace: seq<Check>)
    requires rpm <= 0
    ensures forall v <- Decisions(rpm, buckets, trace) :: v.Accepted?
    decreases trace
  {
    if trace != [] { DisabledLimiterAcceptsAll(rpm, buckets, trace[1..]); }
  }

  /** Accepted calls, in the window [start, end], of attempts whose verdicts are given. */
  function AcceptedIn(attempts: seq<Attempt>, verdicts: seq<Verdict>, start: real, end: real): nat
    requires |attempts| == |verdicts|
    decreases attempts
  {
    if attempts == [] then 0
    else
      (if verdicts[0].Accepted? && start <= attempts[0].at <= end then 1 else 0)
      + AcceptedIn(attempts[1..], verdicts[1..], start, end)
  }

  lemma {:induction false} AcceptedIsConsumed(b: Bucket, trace: seq<Attempt>, start: real, end: real)
    requires forall a <- trace :: a.n == 1
    ensures |Verdicts(b, trace)| == |trace|
    ensures AcceptedIn(trace, Verdicts(b, trace), start, end) == Consumed(b, trace, start, end)
    decreases trace
  {
    if trace != [] {
      var (b', v) := TakeTokens(b, trace[0].n, trace[0].at);
      AcceptedIsConsumed(b', trace[1..], start, end);
      assert Verdicts(b, trace)[1..] == Verdicts(b', trace[1..]);
    }
  }

  lemma {:induction false} ProjectionIsSingles(tool: string, trace: seq<Check>)
    ensures forall a <- Projection(tool, trace) :: a.n == 1
  {
    if trace != [] { ProjectionIsSingles(tool, trace[1..]); }
  }

  /**
    Whatever the other tools do, one tool gets at most max(1, rpm div 6) + rpm accepted calls
    in any minute.
  */
  lemma PerMinuteBound(tool: string, rpm: int, trace: seq<Check>, from: real, start: real)
    requires rpm > 0 && ClockOrder(from, trace)
    ensures |DecisionsFor(tool, rpm, map[], trace)| == |Projection(tool, trace)|
    ensures AcceptedIn(Projection(tool, trace), DecisionsFor(tool, rpm, map[], trace), start, start + 60.0)
         <= (if rpm / 6 >= 1 then rpm / 6 else 1) + rpm
  {
    ToolsAreIsolated(tool, rpm, map[], trace, from);
    ProjectionIsSingles(tool, trace);
    ProjectionInOrder(tool, from, trace);
    FreshMinuteBound(rpm, from, Projection(tool, trace), start);
  }

  lemma FreshMinuteBound(rpm: int, from: real, attempts: seq<Attempt>, start: real)
    requires rpm > 0 && InOrder(from, attempts) && forall a <- attempts :: a.n == 1
    ensures |Verdicts(FreshBucket(rpm, from), attempts)| == |attempts|
    ensures AcceptedIn(attempts, Verdicts(FreshBucket(rpm, from), attempts), start, start + 60.0) <= Capacity(rpm) + rpm
  {
    var b := FreshBucket(rpm, from);
    AcceptedIsConsumed(b, attempts, start, start + 60.0);
    ConsumedWithinEarnings(b, attempts, start, start + 60.0);
    MinuteOfTokens(rpm, start);
    hide Earned, Consumed, Verdicts, AcceptedIn, RefillPerSec;
  }

  lemma MinuteOfTokens(rpm: int, start: real)
    requires rpm > 0
    ensures Earned(RefillPerSec(rpm), start + 60.0 - start) == rpm as real
  {
    assert start + 60.0 - start == 60.0;
  }

  // ----- What a rejection advises, and the burst a fresh limiter admits ------------------------------

  /** A rejection advises the time the missing tokens take to accrue, or 60 s when nothing accrues. */
  lemma RejectionAdvice(b: Bucket, n: int, now: real)
    requires Sound(b) && b.lastRefill <= now && TakeTokens(b, n, now).1.Rejected?
    ensures
      var (b1, v) := TakeTokens(b, n, now);
      && b1.lastRefill == now && b1.tokens < n as real
      && (b.rate > 0.0 ==> v.retryAfter * b.rate == n as real - b1.tokens)
      && (b.rate == 0.0 ==> v.retryAfter == 60.0)
  {
    ConsumeKeepsSound(b, n, now);
    var b1 := TakeTokens(b, n, now).0;
    if b.rate > 0.0 { WaitTimesRate(b.rate, n as real - b1.tokens); }
    hide Earned, WaitFor, Min;
  }

  lemma WaitTimesRate(rate: real, tokens: real)
    requires rate > 0.0
    ensures WaitFor(rate, tokens) * rate == tokens
  {
  }

  /** `k` checks of one tool at one instant. */
  function SameInstant(tool: string, at: real, k: nat): seq<Check>
  {
    if k == 0 then [] else [Check(tool, at, at)] + SameInstant(tool, at, k - 1)
  }

  /**
    A fresh limiter admits exactly max(1, rpm div 6) calls of a tool at one instant; every
    further one is told to wait 60 / rpm seconds, the time one token takes.
  */
  lemma FreshLimiterAdmitsBurst(tool: string, rpm: int, at: real, k: nat, i: nat)
    requires rpm > 0 && i < k
    ensures |Decisions(rpm, map[], SameInstant(tool, at, k))| == k
    ensures Decisions(rpm, map[], SameInstant(tool, at, k))[i] ==
              if i < (if rpm / 6 >= 1 then rpm / 6 else 1) then Accepted else Rejected(60.0 / rpm as real)
  {
    var c := if rpm / 6 >= 1 then rpm / 6 else 1;
    var b := Bucket(c, rpm as real / 60.0, c as real, at);
    assert FreshBucket(rpm, at) == b;
    if k > 0 {
      FirstCheckIsFresh(rpm, tool, at, k);
      BurstOfBucket(tool, rpm, map[tool := b], at, k, c, i);
    }
  }

  /** Creating the bucket first makes no difference. */
  lemma FirstCheckIsFresh(rpm: int, tool: string, at: real, k: nat)
    requires rpm > 0 && k > 0
    ensures Decisions(rpm, map[], SameInstant(tool, at, k)) == Decisions(rpm, map[tool := FreshBucket(rpm, at)], SameInstant(tool, at, k))
  {
    var b := FreshBucket(rpm, at);
    assert map[tool := b][tool := TakeTokens(b, 1, at).0] == map[][tool := TakeTokens(b, 1, at).0];
    hide TakeTokens, FreshBucket;
  }

  lemma {:induction false} BurstOfBucket(
    tool: string, rpm: int, buckets: map<string, Bucket>, at: real, k: nat, left: nat, i: nat)
    requires rpm > 0 && i < k && tool in buckets
    requires buckets[tool].tokens == left as real && buckets[tool].lastRefill == at && buckets[tool].rate == rpm as real / 60.0
    ensures |Decisions(rpm, buckets, SameInstant(tool, at, k))| == k
    ensures Decisions(rpm, buckets, SameInstant(tool, at, k))[i] == if i < left then Accepted else Rejected(60.0 / rpm as real)
  {
    var b := buckets[tool];
    InstantStep(b, rpm, at, left);
    var (b', v) := TakeTokens(b, 1, at);
    var rest := SameInstant(tool, at, k - 1);
    assert SameInstant(tool, at, k)[0] == Check(tool, at, at) && SameInstant(tool, at, k)[1..] == rest;
    assert Decisions(rpm, buckets, SameInstant(tool, at, k)) == [v] + Decisions(rpm, buckets[tool := b'], rest);
    hide TakeTokens, Decisions;
    if k > 1 {
      BurstOfBucket(tool, rpm, buckets[tool := b'], at, k - 1, if left > 0 then left - 1 else 0, if i > 0 then i - 1 else 0);
    } else {
      assert Decisions(rpm, buckets[tool := b'], []) == [] by { NoDecisions(rpm, buckets[tool := b']); }
    }
  }

  lemma NoDecisions(rpm: int, buckets: map<string, Bucket>)
    ensures Decisions(rpm, buckets, []) == []
  {
  }

  lemma InstantStep(b: Bucket, rpm: int, at: real, left: nat)
    requires rpm > 0 && b.tokens == left as real && b.lastRefill == at && b.rate == rpm as real / 60.0
    ensures
      var (b', v) := TakeTokens(b, 1, at);
      && b' == b.(tokens := if left > 0 then (left - 1) as real else 0.0)
      && v == if left > 0 then Accepted else Rejected(60.0 / rpm as real)
  {
    if left == 0 { OneTokenTakes(rpm); }
    hide WaitFor, Earned;
  }

  lemma OneTokenTakes(rpm: int)
    requires rpm > 0
    ensures WaitFor(rpm as real / 60.0, 1.0) == 60.0 / rpm as real
  {
    var r := rpm as real;
    assert 1.0 / (r / 60.0) == 60.0 / r;
  }
}
