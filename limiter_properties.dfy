/** What the rate limiter guarantees over whole runs of events. */
module LimiterProperties {
  import opened GoUint
  import opened LimiterModel

  // ---------------------------------------------------------------------------
  // The invariant and the fixed configuration

  lemma StepPreservesInv(s: State, e: Event)
    requires Inv(s) && Enabled(s, e)
    ensures Inv(Step(s, e))
  {
  }

  lemma {:induction false} RunPreservesInv(s: State, trace: seq<Event>)
    requires Inv(s) && Run(s, trace).Some?
    ensures Inv(Run(s, trace).value)
    decreases |trace|
  {
    if trace != [] {
      StepPreservesInv(s, trace[0]);
      RunPreservesInv(Step(s, trace[0]), trace[1..]);
    }
  }

  /** No event writes `limit`, `tickInterval` or `resetInterval`. */
  lemma {:induction false} RunKeepsConfig(s: State, trace: seq<Event>)
    requires Run(s, trace).Some?
    ensures Run(s, trace).value.config == s.config
    decreases |trace|
  {
    if trace != [] {
      RunKeepsConfig(Step(s, trace[0]), trace[1..]);
    }
  }

  /** Running `a` and then `b` is running `a + b`. */
  lemma {:induction false} RunAppend(s: State, a: seq<Event>, b: seq<Event>)
    requires Run(s, a).Some?
    ensures Run(s, a + b) == Run(Run(s, a).value, b)
    ensures Delivered(s, a + b) == Delivered(s, a) + Delivered(Run(s, a).value, b)
    decreases |a|
  {
    if a != [] {
      assert (a + b)[0] == a[0];
      assert (a + b)[1..] == a[1..] + b;
      RunAppend(Step(s, a[0]), a[1..], b);
    } else {
      assert a + b == b;
    }
  }

  /** A trace of two events runs them one after the other. */
  lemma RunTwo(s: State, a: Event, b: Event)
    requires Enabled(s, a) && Enabled(Step(s, a), b)
    ensures Run(s, [a, b]) == Some(Step(Step(s, a), b))
    ensures Delivered(s, [a, b]) == Handed(s, a) + Handed(Step(s, a), b)
  {
    var s1 := Step(s, a);
    assert [a, b][0] == a && [a, b][1..] == [b];
    assert [b][0] == b && [b][1..] == [];
    assert Run(s1, [b]) == Run(Step(s1, b), []);
    assert Delivered(s1, [b]) == Handed(s1, b) + Delivered(Step(s1, b), []);
  }

  // ---------------------------------------------------------------------------
  // Permits and the counter

  /** `Wait`s interleaved with the loop's events, with no direct receive and no stray `Count`. */
  predicate WaitOnly(trace: seq<Event>) {
    forall i :: 0 <= i < |trace| ==> !trace[i].Receive? && !trace[i].Count?
  }

  /**
   * When every consumer uses `Wait`, and a `Wait` is one step, the counter
   * never leaves `[0, limit]` and never wraps.
   */
  lemma {:induction false} WaitOnlyKeepsBalance(s: State, trace: seq<Event>)
    requires Balanced(s) && WaitOnly(trace) && Run(s, trace).Some?
    ensures Balanced(Run(s, trace).value)
    decreases |trace|
  {
    if trace != [] {
      assert !trace[0].Receive? && !trace[0].Count?;
      assert WaitOnly(trace[1..]) by {
        forall i | 0 <= i < |trace[1..]| ensures !trace[1..][i].Receive? && !trace[1..][i].Count? {
          assert trace[1..][i] == trace[i + 1];
        }
      }
      WaitOnlyKeepsBalance(Step(s, trace[0]), trace[1..]);
    }
  }

  /** Runs in which the reset timer does not fire: one reset window. */
  predicate NoReset(trace: seq<Event>) {
    forall i :: 0 <= i < |trace| ==> !trace[i].ResetFired?
  }

  /**
   * Within one reset window, when every consumer uses `Wait` and a `Wait` is
   * one step, no more ticks are handed out than there were permits left, and
   * so never more than `limit`.
   */
  lemma {:induction false} WaitOnlyWindowBound(s: State, trace: seq<Event>)
    requires Balanced(s) && WaitOnly(trace) && NoReset(trace) && Run(s, trace).Some?
    ensures |Delivered(s, trace)| <= s.limitLeft as int <= s.config.limit as int
    decreases |trace|
  {
    if trace != [] {
      var e, rest := trace[0], trace[1..];
      assert !e.Receive? && !e.Count? && !e.ResetFired?;
      assert WaitOnly(rest) && NoReset(rest) by {
        forall i | 0 <= i < |rest|
          ensures !rest[i].Receive? && !rest[i].Count? && !rest[i].ResetFired?
        {
          assert rest[i] == trace[i + 1];
        }
      }
      var next := Step(s, e);
      assert Balanced(next) by {
        assert [e][0] == e && [e][1..] == [];
        assert Run(s, [e]) == Some(next);
        WaitOnlyKeepsBalance(s, [e]);
      }
      WaitOnlyWindowBound(next, rest);
      assert |Handed(s, e)| + next.limitLeft as int <= s.limitLeft as int;
    }
  }

  /**
   * The source's `Wait` is a receive followed by a separate `Count`, and the
   * loop runs in between. With a limit of 1 the loop can offer a second tick
   * before the first consumer has counted; the second count wraps the counter.
   */
  lemma InterleavedWaitWraps()
    ensures Balanced(Initial(1, 1, 1))
    ensures var trace := [TickFired(10), Receive, TickFired(20), Count, Receive, Count];
      && Run(Initial(1, 1, 1), trace).Some?
      && Run(Initial(1, 1, 1), trace).value.limitLeft == MaxUint
      && Delivered(Initial(1, 1, 1), trace) == [10, 20]
      && !Balanced(Run(Initial(1, 1, 1), trace).value)
  {
  }

  /** Events that cannot replenish nor wrap the counter. */
  predicate NoRefill(trace: seq<Event>) {
    forall i :: 0 <= i < |trace| ==> !trace[i].ResetFired? && !trace[i].Count?
  }

  /**
   * With no permit left and none in flight, nothing is offered on `Tick` and
   * nothing is delivered until the reset timer fires.
   */
  lemma {:induction false} NoEmissionWhileExhausted(s: State, trace: seq<Event>)
    requires s.limitLeft == 0 && !s.phase.Delivering?
    requires NoRefill(trace) && Run(s, trace).Some?
    ensures Run(s, trace).value.limitLeft == 0
    ensures !Run(s, trace).value.phase.Delivering?
    ensures Delivered(s, trace) == []
    decreases |trace|
  {
    if trace != [] {
      assert !trace[0].ResetFired? && !trace[0].Count?;
      assert NoRefill(trace[1..]) by {
        forall i | 0 <= i < |trace[1..]| ensures !trace[1..][i].ResetFired? && !trace[1..][i].Count? {
          assert trace[1..][i] == trace[i + 1];
        }
      }
      NoEmissionWhileExhausted(Step(s, trace[0]), trace[1..]);
    }
  }

  /** A tick followed by a `Wait`, once per timestamp. */
  function TickWaits(ts: seq<Time>): (trace: seq<Event>)
    ensures |trace| == 2 * |ts|
    ensures WaitOnly(trace)
  {
    if ts == [] then [] else [TickFired(ts[0]), Wait] + TickWaits(ts[1..])
  }

  /**
   * `n` back-to-back `Wait`s with at least `n` permits left each succeed, hand
   * out the ticks in order, and leave the counter exactly `n` lower.
   */
  lemma {:induction false} ConsecutiveWaits(s: State, ts: seq<Time>)
    requires s.phase == Idle && !s.stopRequested && |ts| <= s.limitLeft as int
    ensures Run(s, TickWaits(ts)) == Some(s.(limitLeft := (s.limitLeft as int - |ts|) as uint))
    ensures Delivered(s, TickWaits(ts)) == ts
    decreases |ts|
  {
    if ts != [] {
      var rest := TickWaits(ts[1..]);
      var trace := [TickFired(ts[0]), Wait] + rest;
      assert trace[0] == TickFired(ts[0]);
      assert trace[1..] == [Wait] + rest;
      assert ([Wait] + rest)[1..] == rest;
      var next := s.(limitLeft := (s.limitLeft as int - 1) as uint);
      assert Step(Step(s, TickFired(ts[0])), Wait) == next;
      ConsecutiveWaits(next, ts[1..]);
      assert [ts[0]] + ts[1..] == ts;
    }
  }

  /**
   * A full window: `limit` ticks consumed by `Wait`, the next tick finds no
   * permit, the reset fires, and the limiter is back where it started with the
   * reset timer armed once more.
   */
  lemma WindowCycle(s: State, ts: seq<Time>, t: Time)
    requires Inv(s) && s.phase == Idle && !s.stopRequested
    requires s.limitLeft == s.config.limit && |ts| == s.config.limit as int
    ensures Run(s, TickWaits(ts) + [TickFired(t), ResetFired]) == Some(s.(resetArms := s.resetArms + 1))
    ensures Delivered(s, TickWaits(ts) + [TickFired(t), ResetFired]) == ts
  {
    var waits := TickWaits(ts);
    var exhausted := s.(limitLeft := 0);
    assert Run(s, waits) == Some(exhausted) && Delivered(s, waits) == ts by {
      ConsecutiveWaits(s, ts);
    }
    AbsorbThenReset(exhausted, t);
    assert exhausted.(limitLeft := exhausted.config.limit, resetArms := exhausted.resetArms + 1)
      == s.(resetArms := s.resetArms + 1);
    RunAppend(s, waits, [TickFired(t), ResetFired]);
  }

  /** With no permit left, a tick is absorbed and the reset fire refills the counter. */
  lemma AbsorbThenReset(s: State, t: Time)
    requires Inv(s) && s.phase == Idle && !s.stopRequested && s.limitLeft == 0
    ensures Run(s, [TickFired(t), ResetFired])
      == Some(s.(limitLeft := s.config.limit, resetArms := s.resetArms + 1))
    ensures Delivered(s, [TickFired(t), ResetFired]) == []
  {
    var waiting := s.(phase := AwaitingReset);
    assert Step(s, TickFired(t)) == waiting;
    assert Step(waiting, ResetFired) == s.(limitLeft := s.config.limit, resetArms := s.resetArms + 1);
    RunTwo(s, TickFired(t), ResetFired);
  }

  // ---------------------------------------------------------------------------
  // Stopping

  /** Once stop is requested the ticker delivers no further tick. */
  lemma {:induction false} NoTicksAfterStop(s: State, trace: seq<Event>)
    requires s.stopRequested && Run(s, trace).Some?
    ensures Run(s, trace).value.stopRequested
    ensures forall i :: 0 <= i < |trace| ==> !trace[i].TickFired?
    decreases |trace|
  {
    if trace != [] {
      NoTicksAfterStop(Step(s, trace[0]), trace[1..]);
      forall i | 0 <= i < |trace| ensures !trace[i].TickFired? {
        if i > 0 { assert trace[i] == trace[1..][i - 1]; }
      }
    }
  }

  /** `Tick` is closed only by the loop, from the select, after a stop request. */
  lemma CloseOnlyFromIdle(s: State, e: Event)
    requires Enabled(s, e) && s.tickOpen && !Step(s, e).tickOpen
    ensures e == StopSeen && s.phase == Idle && s.stopRequested
  {
  }

  /** Once closed, `Tick` never reopens, the loop stays returned and nothing more is delivered. */
  lemma {:induction false} StoppedIsFinal(s: State, trace: seq<Event>)
    requires Inv(s) && s.phase == Stopped && Run(s, trace).Some?
    ensures Run(s, trace).value.phase == Stopped && !Run(s, trace).value.tickOpen
    ensures Delivered(s, trace) == []
    decreases |trace|
  {
    if trace != [] {
      StepPreservesInv(s, trace[0]);
      StoppedIsFinal(Step(s, trace[0]), trace[1..]);
    }
  }

  /**
   * A stop request is not seen while the loop is blocked offering a tick or
   * waiting for the reset timer; `Tick` stays open until that operation
   * completes.
   */
  lemma StopDeferredWhileBlocked(s: State)
    requires s.phase.Delivering? || s.phase == AwaitingReset
    ensures !Enabled(s, StopSeen)
    ensures forall t :: !Enabled(s, TickFired(t))
  {
  }

  /** The operations that let a stopping loop reach the select and close `Tick`. */
  function DrainTrace(s: State): (trace: seq<Event>)
    ensures |trace| <= 2
  {
    match s.phase
    case Idle => [StopSeen]
    case Delivering(_) => [Receive, StopSeen]
    case AwaitingReset => [ResetFired, StopSeen]
    case Stopped => []
  }

  /**
   * After a stop request, at most two more completed operations (the pending
   * delivery or reset, then the select) close `Tick`.
   */
  lemma StopCompletes(s: State)
    requires Inv(s) && s.stopRequested
    ensures Run(s, DrainTrace(s)).Some?
    ensures Run(s, DrainTrace(s)).value.phase == Stopped
    ensures !Run(s, DrainTrace(s)).value.tickOpen
  {
    match s.phase
    case Idle =>
      assert [StopSeen][1..] == [];
    case Delivering(_) =>
      RunTwo(s, Receive, StopSeen);
    case AwaitingReset =>
      RunTwo(s, ResetFired, StopSeen);
    case Stopped =>
  }

  /**
   * The scenario of the package's own test: a limiter of 5 permits hands out
   * one tick through `Wait` and has 4 left; after `Stop`, a `Wait` reports the
   * stopped error with the zero time.
   */
  lemma NewRateLimiterScenario(t: Time)
    ensures var s := Initial(100, 5, 1000);
      && s.limitLeft == 5
      && Run(s, [TickFired(t), Wait]) == Some(s.(limitLeft := 4))
      && Delivered(s, [TickFired(t), Wait]) == [t]
    ensures var s := Initial(100, 5, 1000).(limitLeft := 4);
      && Run(s, [StopCalled, StopSeen]).Some?
      && WaitResult(Run(s, [StopCalled, StopSeen]).value) == (ZeroTime, Some(StoppedMessage))
  {
    var s := Initial(100, 5, 1000);
    RunTwo(s, TickFired(t), Wait);
    assert [TickFired(t)][1..] == [] && [Wait][1..] == [];
    var four := s.(limitLeft := 4);
    RunTwo(four, StopCalled, StopSeen);
  }
}
