/**
  Bounded tool execution at the MCP boundary (`_K8sMCP.call_tool` in `server.py`): a
  bounded semaphore of execution slots, a diagnostic in-flight counter, an executor with
  as many workers as slots, a shielded timeout, and a done-callback that first releases
  the slot and then decrements the counter.

  `ExecutionGate` holds the semaphore and the counter and updates them in place. A `State`
  adds every admitted call; its actions interleave freely.
*/
module ExecutionSlots {
  import opened Foundations

  /** `timeoutS` is TOOL_TIMEOUT_S: positive means the body's future is shielded from the caller. */
  datatype Config = Config(max: nat, timeoutS: real)

  predicate Shielded(cfg: Config) { cfg.timeoutS > 0.0 }

  // ----- The semaphore and the counter ------------------------------------------------

  /** `free` slots of the BoundedSemaphore and the global `_in_flight`. */
  datatype Gate = Gate(free: nat, inFlight: nat)

  function Decremented(inFlight: nat): nat {
    if inFlight > 0 then inFlight - 1 else inFlight
  }

  class ExecutionGate {
    const max: nat
    var free: nat
    var inFlight: nat

    function View(): Gate
      reads this
    {
      Gate(free, inFlight)
    }

    constructor (max: nat)
      ensures this.max == max && View() == Gate(max, 0)
    {
      this.max, this.free, this.inFlight := max, max, 0;
    }

    /** Non-blocking acquire. */
    method Acquire() returns (ok: bool)
      modifies this`free
      ensures ok == (old(free) > 0)
      ensures View() == if ok then Gate(old(free) - 1, old(inFlight)) else old(View())
    {
      ok := free > 0;
      if ok { free := free - 1; }
    }

    /** A BoundedSemaphore refuses (raises) when every slot is already free. */
    method Release() returns (ok: bool)
      modifies this`free
      ensures ok == (old(free) < max)
      ensures View() == if ok then Gate(old(free) + 1, old(inFlight)) else old(View())
    {
      ok := free < max;
      if ok { free := free + 1; }
    }

    method InFlightInc()
      modifies this`inFlight
      ensures View() == Gate(old(free), old(inFlight) + 1)
    {
      inFlight := inFlight + 1;
    }

    method InFlightDec()
      modifies this`inFlight
      ensures View() == Gate(old(free), Decremented(old(inFlight)))
    {
      if inFlight > 0 { inFlight := inFlight - 1; }
    }

    /**
      The admission part of `call_tool`, run without interruption: refuse when busy, undo both
      updates when the executor rejects the work item, otherwise leave slot and count taken.
    */
    method Admit(submitOk: bool) returns (caller: Caller)
      requires free <= max
      modifies this
      ensures caller == if old(free) == 0 then Busy else if submitOk then Awaiting else SubmitRaised
      ensures View() == if caller.Awaiting? then Gate(old(free) - 1, old(inFlight) + 1) else old(View())
    {
      var acquired := Acquire();
      if !acquired { return Busy; }
      InFlightInc();
      if !submitOk {
        InFlightDec();
        var released := Release();
        return SubmitRaised;
      }
      return Awaiting;
    }

    /** `_release_slot`: undoes exactly one successful admission. */
    method ReleaseSlot() returns (ok: bool)
      modifies this
      ensures ok == (old(free) < max)
      ensures old(free) < max && old(inFlight) > 0 ==> View() == Gate(old(free) + 1, old(inFlight) - 1)
      ensures View().inFlight == if ok then Decremented(old(inFlight)) else old(inFlight)
    {
      ok := Release();
      if ok { InFlightDec(); }
    }
  }

  // ----- One call -----------------------------------------------------------------------

  /** The event-loop side of one `call_tool`. */
  datatype Caller =
    | Arrived                     // about to try the semaphore
    | Busy                        // ToolBusyError
    | Acquired                    // holds a slot, not yet counted
    | Counted                     // about to submit
    | SubmitFailed                // about to undo the count
    | Uncounted                   // about to undo the acquire
    | SubmitRaised
    | Awaiting
    | Answered
    | TimedOut
    | Cancelled

  /** The executor side; `Abandoned` is a work item cancelled while still queued. */
  datatype Body = NoBody | Queued | Running | Ended | Abandoned

  /** The done-callback of the asyncio future. */
  datatype Callback = Unarmed | Armed | Released | Finished

  /** `releases` counts semaphore releases; `cut` says the asyncio future itself was cancelled. */
  datatype Call = Call(caller: Caller, body: Body, callback: Callback, cut: bool, releases: nat)
  {
    /** Acquired a slot and has not released it. */
    predicate Holds() {
      caller.Acquired? || caller.Counted? || caller.SubmitFailed? || caller.Uncounted? || callback.Armed?
    }

    /** Counted in `_in_flight`. */
    predicate Counts() {
      caller.Counted? || caller.SubmitFailed? || callback.Armed? || callback.Released?
    }

    predicate Admitted() { !caller.Arrived? && !caller.Busy? }

    predicate Quiet() {
      caller.Busy? || caller.SubmitRaised? || callback.Finished?
    }

    predicate Executing() { body.Queued? || body.Running? }
  }

  // ----- All interleavings ----------------------------------------------------------------

  /** `faults` counts releases the semaphore refused and decrements the clamp swallowed. */
  datatype State = State(gate: Gate, calls: seq<Call>, faults: nat)

  datatype Action =
    | Arrive
    | TryAcquire(c: nat)
    | Count(c: nat)
    | Submit(c: nat, ok: bool)
    | UndoCount(c: nat)
    | UndoAcquire(c: nat)
    | StartBody(c: nat)
    | EndBody(c: nat)
    | CallbackRelease(c: nat)
    | CallbackDecrement(c: nat)
    | Answer(c: nat)
    | Timeout(c: nat)
    | CancelCaller(c: nat)

  function Init(cfg: Config): State {
    State(Gate(cfg.max, 0), [], 0)
  }

  ghost function HeldSlots(calls: seq<Call>): nat {
    Foundations.Count((c: Call) => c.Holds(), calls)
  }

  ghost function CountedCalls(calls: seq<Call>): nat {
    Foundations.Count((c: Call) => c.Counts(), calls)
  }

  ghost function RunningBodies(calls: seq<Call>): nat {
    Foundations.Count((c: Call) => c.body.Running?, calls)
  }

  ghost function ExecutingBodies(calls: seq<Call>): nat {
    Foundations.Count((c: Call) => c.Executing(), calls)
  }

  ghost predicate Enabled(cfg: Config, s: State, a: Action)
  {
    if a.Arrive? then true
    else if a.c >= |s.calls| then false
    else
      var call := s.calls[a.c];
      match a
      case TryAcquire(_) => call.caller.Arrived?
      case Count(_) => call.caller.Acquired?
      case Submit(_, _) => call.caller.Counted?
      case UndoCount(_) => call.caller.SubmitFailed?
      case UndoAcquire(_) => call.caller.Uncounted?
      case StartBody(_) => call.body.Queued? && RunningBodies(s.calls) < cfg.max
      case EndBody(_) => call.body.Running?
      case CallbackRelease(_) => call.callback.Armed? && (call.body.Ended? || call.cut)
      case CallbackDecrement(_) => call.callback.Released?
      case Answer(_) => call.caller.Awaiting? && call.body.Ended?
      case Timeout(_) => call.caller.Awaiting? && Shielded(cfg)
      case CancelCaller(_) => call.caller.Awaiting?
      case Arrive => true
  }

  function ReturnSlot(cfg: Config, s: State): State {
    if s.gate.free < cfg.max then s.(gate := s.gate.(free := s.gate.free + 1))
    else s.(faults := s.faults + 1)
  }

  function Uncount(s: State): State {
    s.(gate := s.gate.(inFlight := Decremented(s.gate.inFlight)),
       faults := if s.gate.inFlight > 0 then s.faults else s.faults + 1)
  }

  function Update(s: State, c: nat, call: Call): State
    requires c < |s.calls|
  {
    s.(calls := s.calls[c := call])
  }

  ghost function Apply(cfg: Config, s: State, a: Action): State
    requires Enabled(cfg, s, a)
  {
    if a.Arrive? then s.(calls := s.calls + [Call(Arrived, NoBody, Unarmed, false, 0)])
    else
      var call := s.calls[a.c];
      match a
      case TryAcquire(c) =>
        if s.gate.free > 0 then Update(s.(gate := s.gate.(free := s.gate.free - 1)), c, call.(caller := Acquired))
        else Update(s, c, call.(caller := Busy))
      case Count(c) =>
        Update(s.(gate := s.gate.(inFlight := s.gate.inFlight + 1)), c, call.(caller := Counted))
      case Submit(c, ok) =>
        Update(s, c, if ok then call.(caller := Awaiting, body := Queued, callback := Armed)
                     else call.(caller := SubmitFailed))
      case UndoCount(c) => Update(Uncount(s), c, call.(caller := Uncounted))
      case UndoAcquire(c) =>
        Update(ReturnSlot(cfg, s), c, call.(caller := SubmitRaised, releases := call.releases + 1))
      case StartBody(c) => Update(s, c, call.(body := Running))
      case EndBody(c) => Update(s, c, call.(body := Ended))
      case CallbackRelease(c) =>
        Update(ReturnSlot(cfg, s), c, call.(callback := Released, releases := call.releases + 1))
      case CallbackDecrement(c) => Update(Uncount(s), c, call.(callback := Finished))
      case Answer(c) => Update(s, c, call.(caller := Answered))
      case Timeout(c) => Update(s, c, call.(caller := TimedOut))
      case CancelCaller(c) =>
        // A shielded future survives; an unshielded one is cancelled together with its awaiter,
        // which drops a queued work item but cannot stop a running body.
        if Shielded(cfg) || call.body.Ended? then Update(s, c, call.(caller := Cancelled))
        else Update(s, c, call.(caller := Cancelled, cut := true,
                                body := if call.body.Queued? then Abandoned else call.body))
      case Arrive => s
  }

  ghost function Exec(cfg: Config, actions: seq<Action>): Option<State>
  {
    if actions == [] then Some(Init(cfg))
    else
      var m := Exec(cfg, actions[..|actions| - 1]);
      var a := actions[|actions| - 1];
      if m.Some? && Enabled(cfg, m.value, a) then Some(Apply(cfg, m.value, a)) else None
  }

  // ----- The inductive invariant -------------------------------------------------------------

  /** What the three parts of one call can look like together. */
  ghost predicate CallOk(cfg: Config, call: Call)
  {
    && (call.callback.Unarmed? <==> call.body.NoBody?)
    && (call.caller.Arrived? || call.caller.Busy? || call.caller.Acquired? || call.caller.Counted?
        || call.caller.SubmitFailed? || call.caller.Uncounted? || call.caller.SubmitRaised?
        <==> call.callback.Unarmed?)
    && (call.cut ==> !Shielded(cfg) && call.caller.Cancelled? && !call.body.Queued?)
    && (call.body.Abandoned? ==> call.cut)
    && (call.callback.Released? || call.callback.Finished? ==> call.body.Ended? || call.cut)
    && call.releases == (if call.caller.SubmitRaised? || call.callback.Released? || call.callback.Finished? then 1 else 0)
  }

  ghost predicate Inv(cfg: Config, s: State)
  {
    && s.faults == 0
    && s.gate.free + HeldSlots(s.calls) == cfg.max
    && s.gate.inFlight == CountedCalls(s.calls)
    && forall c | 0 <= c < |s.calls| :: CallOk(cfg, s.calls[c])
  }

  lemma InitOk(cfg: Config)
    ensures Inv(cfg, Init(cfg))
  {
  }

  function HeldBy(call: Call): nat { if call.Holds() then 1 else 0 }

  function CountedFor(call: Call): nat { if call.Counts() then 1 else 0 }

  lemma ArrivalCounts(calls: seq<Call>, call: Call)
    ensures HeldSlots(calls + [call]) == HeldSlots(calls) + HeldBy(call)
    ensures CountedCalls(calls + [call]) == CountedCalls(calls) + CountedFor(call)
  {
    CountAppend((c: Call) => c.Holds(), calls, call);
    CountAppend((c: Call) => c.Counts(), calls, call);
  }

  lemma UpdateCounts(calls: seq<Call>, c: nat, call: Call)
    requires c < |calls|
    ensures HeldSlots(calls[c := call]) + HeldBy(calls[c]) == HeldSlots(calls) + HeldBy(call)
    ensures CountedCalls(calls[c := call]) + CountedFor(calls[c]) == CountedCalls(calls) + CountedFor(call)
    ensures HeldSlots(calls) >= HeldBy(calls[c]) && CountedCalls(calls) >= CountedFor(calls[c])
  {
    CountUpdate((c: Call) => c.Holds(), calls, c, call);
    CountUpdate((c: Call) => c.Counts(), calls, c, call);
    if calls[c].Holds() { CountPositive((c: Call) => c.Holds(), calls, c); }
    if calls[c].Counts() { CountPositive((c: Call) => c.Counts(), calls, c); }
  }

  lemma StepKeepsCallOk(cfg: Config, s: State, a: Action, c: nat)
    requires Inv(cfg, s) && Enabled(cfg, s, a) && c < |Apply(cfg, s, a).calls|
    ensures CallOk(cfg, Apply(cfg, s, a).calls[c])
  {
    if a.Arrive? || a.c != c {
      assert c < |s.calls| ==> Apply(cfg, s, a).calls[c] == s.calls[c] && CallOk(cfg, s.calls[c]);
    } else {
      ActingCallOk(cfg, s, a);
    }
  }

  lemma ActingCallOk(cfg: Config, s: State, a: Action)
    requires Enabled(cfg, s, a) && !a.Arrive? && CallOk(cfg, s.calls[a.c])
    ensures CallOk(cfg, Apply(cfg, s, a).calls[a.c])
  {
    assert ReturnSlot(cfg, s).calls == s.calls == Uncount(s).calls;
    hide ReturnSlot, Uncount;
  }

  /** The gate moves by exactly what the acting call gains or loses. */
  lemma ActingCallBalances(cfg: Config, s: State, a: Action)
    requires Enabled(cfg, s, a) && !a.Arrive? && CallOk(cfg, s.calls[a.c])
    requires s.calls[a.c].Holds() ==> s.gate.free < cfg.max
    requires s.calls[a.c].Counts() ==> s.gate.inFlight > 0
    ensures
      var s' := Apply(cfg, s, a);
      && s'.faults == s.faults
      && |s'.calls| == |s.calls| && s'.calls == s.calls[a.c := s'.calls[a.c]]
      && s'.gate.free + HeldBy(s'.calls[a.c]) == s.gate.free + HeldBy(s.calls[a.c])
      && s'.gate.inFlight + CountedFor(s.calls[a.c]) == s.gate.inFlight + CountedFor(s'.calls[a.c])
  {
  }

  lemma StepKeepsGate(cfg: Config, s: State, a: Action)
    requires Inv(cfg, s) && Enabled(cfg, s, a)
    ensures
      var s' := Apply(cfg, s, a);
      && s'.faults == 0
      && s'.gate.free + HeldSlots(s'.calls) == cfg.max
      && s'.gate.inFlight == CountedCalls(s'.calls)
  {
    var s' := Apply(cfg, s, a);
    if a.Arrive? {
      ArrivalCounts(s.calls, s'.calls[|s.calls|]);
    } else {
      hide Apply, HeldSlots, CountedCalls, CallOk;
      assert CallOk(cfg, s.calls[a.c]);
      UpdateCounts(s.calls, a.c, s.calls[a.c]);
      ActingCallBalances(cfg, s, a);
      UpdateCounts(s.calls, a.c, s'.calls[a.c]);
    }
  }

  lemma StepKeepsInv(cfg: Config, s: State, a: Action)
    requires Inv(cfg, s) && Enabled(cfg, s, a)
    ensures Inv(cfg, Apply(cfg, s, a))
  {
    StepKeepsGate(cfg, s, a);
    forall c | 0 <= c < |Apply(cfg, s, a).calls| ensures CallOk(cfg, Apply(cfg, s, a).calls[c]) {
      StepKeepsCallOk(cfg, s, a, c);
    }
  }

  lemma {:induction false} RunKeepsInv(cfg: Config, actions: seq<Action>)
    requires Exec(cfg, actions).Some?
    ensures Inv(cfg, Exec(cfg, actions).value)
  {
    if actions == [] {
      InitOk(cfg);
    } else {
      var before := actions[..|actions| - 1];
      RunKeepsInv(cfg, before);
      StepKeepsInv(cfg, Exec(cfg, before).value, actions[|actions| - 1]);
    }
  }

  // ----- Theorems over every run ----------------------------------------------------------------

  /**
    Free plus held slots are always the maximum, no release is ever refused, the zero clamp
    never fires, and the counter counts exactly the calls between increment and decrement.
  */
  lemma SlotsBalance(cfg: Config, actions: seq<Action>)
    requires Exec(cfg, actions).Some?
    ensures
      var s := Exec(cfg, actions).value;
      && s.gate.free + HeldSlots(s.calls) == cfg.max
      && s.gate.inFlight == CountedCalls(s.calls)
      && s.faults == 0
  {
    RunKeepsInv(cfg, actions);
  }

  /** A call is refused exactly when every slot is held. */
  lemma BusyOnlyWhenFull(cfg: Config, actions: seq<Action>, c: nat)
    requires Exec(cfg, actions).Some? && Enabled(cfg, Exec(cfg, actions).value, TryAcquire(c))
    ensures
      var s := Exec(cfg, actions).value;
      var call := Apply(cfg, s, TryAcquire(c)).calls[c];
      && (call.caller.Busy? <==> HeldSlots(s.calls) == cfg.max)
      && (call.caller.Acquired? <==> HeldSlots(s.calls) < cfg.max)
  {
    RunKeepsInv(cfg, actions);
  }

  /** A call that is through with its slot released it exactly once, any other admitted call not at all. */
  lemma ReleasedExactlyOnce(cfg: Config, actions: seq<Action>, c: nat)
    requires Exec(cfg, actions).Some? && c < |Exec(cfg, actions).value.calls|
    ensures
      var call := Exec(cfg, actions).value.calls[c];
      call.releases == if call.Admitted() && !call.Holds() then 1 else 0
  {
    RunKeepsInv(cfg, actions);
    assert CallOk(cfg, Exec(cfg, actions).value.calls[c]);
  }

  /** Once every call is through, the semaphore and the counter are back where they started. */
  lemma QuiescenceRestoresGate(cfg: Config, actions: seq<Action>)
    requires Exec(cfg, actions).Some?
    requires forall call <- Exec(cfg, actions).value.calls :: call.Quiet()
    ensures Exec(cfg, actions).value.gate == Init(cfg).gate
  {
    RunKeepsInv(cfg, actions);
    var s := Exec(cfg, actions).value;
    forall call <- s.calls ensures !call.Holds() && !call.Counts() {
      var c :| 0 <= c < |s.calls| && s.calls[c] == call;
      assert CallOk(cfg, s.calls[c]);
    }
    CountNone((c: Call) => c.Holds(), s.calls);
    CountNone((c: Call) => c.Counts(), s.calls);
  }

  /** Steps a call and its body still have to take. */
  function Remaining(call: Call): nat {
    (match call.caller
     case Arrived => 8
     case Acquired => 7
     case Counted => 6
     case SubmitFailed => 2
     case Uncounted => 1
     case _ => 0)
    + (if call.body.Queued? then 2 else if call.body.Running? then 1 else 0)
    + (if call.callback.Armed? then 2 else if call.callback.Released? then 1 else 0)
  }

  ghost function TotalRemaining(calls: seq<Call>): nat
  {
    if calls == [] then 0 else TotalRemaining(calls[..|calls| - 1]) + Remaining(calls[|calls| - 1])
  }

  lemma {:induction false} RemainingUpdate(calls: seq<Call>, c: nat, call: Call)
    requires c < |calls|
    ensures TotalRemaining(calls[c := call]) == TotalRemaining(calls) - Remaining(calls[c]) + Remaining(call)
  {
    hide Remaining;
    var n := |calls| - 1;
    if c == n {
      assert calls[c := call][..n] == calls[..n];
    } else {
      RemainingUpdate(calls[..n], c, call);
      assert calls[c := call][..n] == calls[..n][c := call];
    }
  }

  /** What the event loop, a worker or the callback does next for call `c`. */
  function NextAction(call: Call, c: nat): Action {
    if call.caller.Arrived? then TryAcquire(c)
    else if call.caller.Acquired? then Count(c)
    else if call.caller.Counted? then Submit(c, true)
    else if call.caller.SubmitFailed? then UndoCount(c)
    else if call.caller.Uncounted? then UndoAcquire(c)
    else if call.body.Queued? then StartBody(c)
    else if call.body.Running? then EndBody(c)
    else if call.callback.Armed? then CallbackRelease(c)
    else CallbackDecrement(c)
  }

  lemma NextActionProgresses(cfg: Config, s: State, c: nat)
    requires Inv(cfg, s) && c < |s.calls| && Remaining(s.calls[c]) > 0
    ensures
      var a := NextAction(s.calls[c], c);
      && (!s.calls[c].body.Queued? ==> Enabled(cfg, s, a))
      && (Enabled(cfg, s, a) ==>
            var s' := Apply(cfg, s, a);
            s'.calls == s.calls[c := s'.calls[c]] && Remaining(s'.calls[c]) < Remaining(s.calls[c]))
  {
    assert CallOk(cfg, s.calls[c]);
    assert ReturnSlot(cfg, s).calls == s.calls == Uncount(s).calls;
    hide Inv, ReturnSlot, Uncount;
  }

  /** A queued body that finds no free worker waits for a running one. */
  lemma MovableCall(cfg: Config, s: State, c: nat) returns (d: nat)
    requires Inv(cfg, s) && c < |s.calls| && Remaining(s.calls[c]) > 0
    ensures d < |s.calls| && Remaining(s.calls[d]) > 0 && Enabled(cfg, s, NextAction(s.calls[d], d))
  {
    d := c;
    NextActionProgresses(cfg, s, c);
    if !Enabled(cfg, s, NextAction(s.calls[c], c)) {
      assert CallOk(cfg, s.calls[c]) && s.calls[c].Holds();
      UpdateCounts(s.calls, c, s.calls[c]);
      if forall call <- s.calls :: !call.body.Running? {
        CountNone((c: Call) => c.body.Running?, s.calls);
        assert false;
      } else {
        d :| 0 <= d < |s.calls| && s.calls[d].body.Running?;
        NextActionProgresses(cfg, s, d);
      }
    }
  }

  lemma {:induction false} NothingRemains(calls: seq<Call>)
    ensures TotalRemaining(calls) == 0 <==> forall c | 0 <= c < |calls| :: Remaining(calls[c]) == 0
  {
    if calls != [] { NothingRemains(calls[..|calls| - 1]); }
  }

  /**
    Every run can be wound down without new arrivals: each admitted call then has released its
    slot exactly once, no body is left queued or running, and the gate is as it was at the start.
  */
  lemma {:induction false} EveryRunCanDrain(cfg: Config, actions: seq<Action>) returns (more: seq<Action>)
    requires Exec(cfg, actions).Some?
    ensures Exec(cfg, actions + more).Some? && forall a <- more :: !a.Arrive?
    ensures |Exec(cfg, actions + more).value.calls| == |Exec(cfg, actions).value.calls|
    ensures Exec(cfg, actions + more).value.gate == Init(cfg).gate
    ensures forall call <- Exec(cfg, actions + more).value.calls ::
              !call.Executing() && call.releases == if call.Admitted() then 1 else 0
    decreases TotalRemaining(Exec(cfg, actions).value.calls)
  {
    hide *;
    var s := Exec(cfg, actions).value;
    NothingRemains(s.calls);
    if TotalRemaining(s.calls) == 0 {
      more := [];
      assert actions + more == actions;
      DrainedIsQuiet(cfg, actions);
    } else {
      var c :| 0 <= c < |s.calls| && Remaining(s.calls[c]) > 0;
      var a := DrainStep(cfg, actions, c);
      var rest := EveryRunCanDrain(cfg, actions + [a]);
      more := [a] + rest;
      assert actions + more == actions + [a] + rest;
    }
  }

  lemma DrainStep(cfg: Config, actions: seq<Action>, c: nat) returns (a: Action)
    requires Exec(cfg, actions).Some?
    requires c < |Exec(cfg, actions).value.calls| && Remaining(Exec(cfg, actions).value.calls[c]) > 0
    ensures !a.Arrive? && Exec(cfg, actions + [a]).Some?
    ensures |Exec(cfg, actions + [a]).value.calls| == |Exec(cfg, actions).value.calls|
    ensures TotalRemaining(Exec(cfg, actions + [a]).value.calls) < TotalRemaining(Exec(cfg, actions).value.calls)
  {
    RunKeepsInv(cfg, actions);
    var s := Exec(cfg, actions).value;
    var d := MovableCall(cfg, s, c);
    a := NextAction(s.calls[d], d);
    assert !a.Arrive?;
    NextActionProgresses(cfg, s, d);
    RemainingUpdate(s.calls, d, Apply(cfg, s, a).calls[d]);
    assert (actions + [a])[..|actions + [a]| - 1] == actions;
    hide Enabled, Apply, NextAction, Remaining, TotalRemaining, Inv;
    assert Exec(cfg, actions + [a]) == Some(Apply(cfg, s, a));
  }

  lemma DrainedIsQuiet(cfg: Config, actions: seq<Action>)
    requires Exec(cfg, actions).Some?
    requires forall c | 0 <= c < |Exec(cfg, actions).value.calls| :: Remaining(Exec(cfg, actions).value.calls[c]) == 0
    ensures Exec(cfg, actions).value.gate == Init(cfg).gate
    ensures forall call <- Exec(cfg, actions).value.calls ::
              !call.Executing() && call.releases == if call.Admitted() then 1 else 0
  {
    RunKeepsInv(cfg, actions);
    var s := Exec(cfg, actions).value;
    forall call <- s.calls
      ensures call.Quiet() && !call.Executing() && call.releases == if call.Admitted() then 1 else 0
    {
      var c :| 0 <= c < |s.calls| && s.calls[c] == call;
      assert CallOk(cfg, s.calls[c]);
    }
    QuiescenceRestoresGate(cfg, actions);
  }

  /** The slot of every body that has not ended is still held, and no body waits for a worker. */
  ghost predicate Backpressure(cfg: Config, s: State)
  {
    && (forall c | 0 <= c < |s.calls| && s.calls[c].Executing() :: s.calls[c].Holds())
    && ExecutingBodies(s.calls) <= cfg.max
    && (forall c | 0 <= c < |s.calls| && s.calls[c].body.Queued? :: Enabled(cfg, s, StartBody(c)))
  }

  lemma ShieldedKeepsBackpressure(cfg: Config, actions: seq<Action>)
    requires cfg.timeoutS > 0.0 && Exec(cfg, actions).Some?
    ensures Backpressure(cfg, Exec(cfg, actions).value)
  {
    RunKeepsInv(cfg, actions);
    var s := Exec(cfg, actions).value;
    forall c | 0 <= c < |s.calls| && s.calls[c].Executing() ensures s.calls[c].Holds() {
      assert CallOk(cfg, s.calls[c]);
    }
    CountMonotone((c: Call) => c.Executing(), (c: Call) => c.Holds(), s.calls);
    forall c | 0 <= c < |s.calls| && s.calls[c].body.Queued? ensures Enabled(cfg, s, StartBody(c)) {
      QueuedLeavesRoom(s.calls, c);
    }
  }

  lemma {:induction false} QueuedLeavesRoom(calls: seq<Call>, c: nat)
    requires c < |calls| && calls[c].body.Queued?
    ensures RunningBodies(calls) < ExecutingBodies(calls)
  {
    var n := |calls| - 1;
    if c < n {
      QueuedLeavesRoom(calls[..n], c);
    } else {
      CountMonotone((c: Call) => c.body.Running?, (c: Call) => c.Executing(), calls[..n]);
    }
  }

  /** The run in which an unshielded call is cancelled while its body runs. */
  function CancelRun(): seq<Action> {
    [Arrive, TryAcquire(0), Count(0), Submit(0, true), StartBody(0), CancelCaller(0), CallbackRelease(0)]
  }

  lemma SubmittedAlone(cfg: Config)
    requires cfg.max > 0
    ensures Exec(cfg, CancelRun()[..4]) == Some(State(Gate(cfg.max - 1, 1), [Call(Awaiting, Queued, Armed, false, 0)], 0))
  {
    var run := CancelRun();
    var arrived := Call(Arrived, NoBody, Unarmed, false, 0);
    assert run[..0] == [];
    ExecPrefix(cfg, run, 0, State(Gate(cfg.max, 0), [arrived], 0));
    ExecPrefix(cfg, run, 1, State(Gate(cfg.max - 1, 0), [arrived.(caller := Acquired)], 0));
    ExecPrefix(cfg, run, 2, State(Gate(cfg.max - 1, 1), [arrived.(caller := Counted)], 0));
    ExecPrefix(cfg, run, 3, State(Gate(cfg.max - 1, 1), [Call(Awaiting, Queued, Armed, false, 0)], 0));
  }

  lemma CancelRunFreesARunningSlot(cfg: Config)
    requires cfg.timeoutS <= 0.0 && cfg.max > 0
    ensures Exec(cfg, CancelRun()) == Some(State(Gate(cfg.max, 1), [Call(Cancelled, Running, Released, true, 1)], 0))
  {
    var run := CancelRun();
    SubmittedAlone(cfg);
    var queued := Call(Awaiting, Queued, Armed, false, 0);
    CountNone((c: Call) => c.body.Running?, [queued]);
    ExecPrefix(cfg, run, 4, State(Gate(cfg.max - 1, 1), [queued.(body := Running)], 0));
    ExecPrefix(cfg, run, 5, State(Gate(cfg.max - 1, 1), [Call(Cancelled, Running, Armed, true, 0)], 0));
    ExecPrefix(cfg, run, 6, State(Gate(cfg.max, 1), [Call(Cancelled, Running, Released, true, 1)], 0));
    assert run[..7] == run;
  }

  lemma ExecPrefix(cfg: Config, run: seq<Action>, k: nat, next: State)
    requires k < |run| && Exec(cfg, run[..k]).Some? && Enabled(cfg, Exec(cfg, run[..k]).value, run[k])
    requires Apply(cfg, Exec(cfg, run[..k]).value, run[k]) == next
    ensures Exec(cfg, run[..k + 1]) == Some(next)
  {
    assert run[..k + 1][..k] == run[..k];
  }

  /**
    A slot outlives its body on every run, and nothing ever queues behind the workers, if and
    only if the timeout is on: with TOOL_TIMEOUT_S = 0 a cancelled caller gives the slot back
    while the body still runs.
  */
  lemma BackpressureIffShielded(cfg: Config)
    requires cfg.max > 0
    ensures (forall actions :: Exec(cfg, actions).Some? ==> Backpressure(cfg, Exec(cfg, actions).value)) <==> cfg.timeoutS > 0.0
  {
    if Shielded(cfg) {
      forall actions | Exec(cfg, actions).Some? ensures Backpressure(cfg, Exec(cfg, actions).value) {
        ShieldedKeepsBackpressure(cfg, actions);
      }
    } else {
      CancelRunFreesARunningSlot(cfg);
      assert !Exec(cfg, CancelRun()).value.calls[0].Holds() && Exec(cfg, CancelRun()).value.calls[0].Executing();
    }
  }

  /** Call `c`'s own caller was cancelled, unshielded, before its body ended. */
  ghost predicate CancelledUnended(cfg: Config, actions: seq<Action>, c: nat)
    requires Exec(cfg, actions).Some?
  {
    cfg.timeoutS <= 0.0 && exists k | 0 <= k < |actions| :: actions[k] == CancelCaller(c) && UnendedAt(cfg, actions, k, c)
  }

  ghost predicate UnendedAt(cfg: Config, actions: seq<Action>, k: nat, c: nat)
    requires k <= |actions|
  {
    var s := Exec(cfg, actions[..k]);
    s.Some? && c < |s.value.calls| && !s.value.calls[c].body.Ended?
  }

  /** The asyncio future of a call is cut exactly by such a cancellation of that call. */
  lemma {:induction false} CutIff(cfg: Config, actions: seq<Action>, c: nat)
    requires Exec(cfg, actions).Some? && c < |Exec(cfg, actions).value.calls|
    ensures Exec(cfg, actions).value.calls[c].cut <==> CancelledUnended(cfg, actions, c)
  {
    hide Enabled, Apply;
    if actions == [] { return; }
    var n := |actions| - 1;
    var before, a := actions[..n], actions[n];
    var s := Exec(cfg, before).value;
    CancellationsGrow(cfg, actions, c);
    if c < |s.calls| {
      CutIff(cfg, before, c);
      StepCuts(cfg, s, a, c);
    } else {
      ArrivesUncut(cfg, s, a, c);
      if CancelledUnended(cfg, before, c) { CancelledCallExists(cfg, before, c); }
    }
  }

  lemma {:induction false} CancellationsGrow(cfg: Config, actions: seq<Action>, c: nat)
    requires Exec(cfg, actions).Some? && actions != []
    ensures
      var n := |actions| - 1;
      CancelledUnended(cfg, actions, c) <==>
        || CancelledUnended(cfg, actions[..n], c)
        || (!Shielded(cfg) && actions[n] == CancelCaller(c) && UnendedAt(cfg, actions, n, c))
  {
    var n := |actions| - 1;
    assert Exec(cfg, actions[..n]).Some?;
    hide Exec, Enabled, Apply;
    forall k | 0 <= k < n ensures UnendedAt(cfg, actions, k, c) <==> UnendedAt(cfg, actions[..n], k, c) {
      assert actions[..n][..k] == actions[..k];
    }
  }

  lemma CancelledCallExists(cfg: Config, actions: seq<Action>, c: nat)
    requires Exec(cfg, actions).Some? && CancelledUnended(cfg, actions, c)
    ensures c < |Exec(cfg, actions).value.calls|
  {
    var k :| 0 <= k < |actions| && actions[k] == CancelCaller(c) && UnendedAt(cfg, actions, k, c);
    CallsStay(cfg, actions, k);
  }

  lemma {:induction false} CallsStay(cfg: Config, actions: seq<Action>, k: nat)
    requires Exec(cfg, actions).Some? && k <= |actions|
    ensures Exec(cfg, actions[..k]).Some? && |Exec(cfg, actions[..k]).value.calls| <= |Exec(cfg, actions).value.calls|
  {
    hide Enabled, Apply;
    if k == |actions| {
      assert actions[..k] == actions;
    } else {
      var n := |actions| - 1;
      assert actions[..n][..k] == actions[..k];
      CallsStay(cfg, actions[..n], k);
      StepKeepsCalls(cfg, Exec(cfg, actions[..n]).value, actions[n]);
    }
  }

  lemma StepKeepsCalls(cfg: Config, s: State, a: Action)
    requires Enabled(cfg, s, a)
    ensures |s.calls| <= |Apply(cfg, s, a).calls|
  {
  }

  lemma StepCuts(cfg: Config, s: State, a: Action, c: nat)
    requires Enabled(cfg, s, a) && c < |s.calls|
    ensures c < |Apply(cfg, s, a).calls|
    ensures Apply(cfg, s, a).calls[c].cut <==>
              s.calls[c].cut || (!Shielded(cfg) && a == CancelCaller(c) && !s.calls[c].body.Ended?)
  {
    hide RunningBodies;
  }

  lemma ArrivesUncut(cfg: Config, s: State, a: Action, c: nat)
    requires Enabled(cfg, s, a) && |s.calls| <= c < |Apply(cfg, s, a).calls|
    ensures !Apply(cfg, s, a).calls[c].cut && !(a.CancelCaller? && a.c == c)
  {
  }

  /**
    A slot is released only after the body ended or its submission failed, unless this very
    call was cancelled, unshielded, while its body had not ended; other calls' cancellations do
    not matter.
  */
  lemma {:induction false} ReleaseOnlyAfterBody(cfg: Config, actions: seq<Action>, c: nat)
    requires Exec(cfg, actions).Some? && c < |Exec(cfg, actions).value.calls|
    ensures
      var call := Exec(cfg, actions).value.calls[c];
      call.releases > 0 ==> call.body.Ended? || call.caller.SubmitRaised? || CancelledUnended(cfg, actions, c)
  {
    RunKeepsInv(cfg, actions);
    CutIff(cfg, actions, c);
    hide Exec, CancelledUnended;
    assert CallOk(cfg, Exec(cfg, actions).value.calls[c]);
  }

  /**
    Exactly when a slot is freed early: while a body runs, its slot has been released or can be
    released at once if and only if its own caller was cancelled unshielded.
  */
  lemma FreedEarlyIff(cfg: Config, actions: seq<Action>, c: nat)
    requires Exec(cfg, actions).Some? && c < |Exec(cfg, actions).value.calls|
    requires Exec(cfg, actions).value.calls[c].body.Running?
    ensures
      var s := Exec(cfg, actions).value;
      s.calls[c].releases > 0 || Enabled(cfg, s, CallbackRelease(c)) <==> CancelledUnended(cfg, actions, c)
  {
    RunKeepsInv(cfg, actions);
    CutIff(cfg, actions, c);
    hide Exec, CancelledUnended;
    assert CallOk(cfg, Exec(cfg, actions).value.calls[c]);
  }
}
