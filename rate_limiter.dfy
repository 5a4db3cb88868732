/**
 * The `RateLimiter` of package rlimit. The coordination goroutine started by
 * `NewRateLimiter` is represented by its phase and by one method per branch of
 * its select loop (`OnTick`, `OnReset`, `OnStopSignal`); the environment calls
 * whichever event completes next. `Stop`, `Receive` (a direct read from the
 * exported `Tick` channel), `Wait`, `Count` and `LimitLeft` are the public API.
 * Every state-changing method states its whole new state and agrees with
 * `LimiterModel.Step`, so the lemmas of `LimiterProperties` apply to it.
 */
module RLimit {
  import opened GoUint
  import opened LimiterModel

  class RateLimiter {
    const tickInterval: Duration
    const limit: uint
    const resetInterval: Duration

    var limitLeft: uint
    var stopRequested: bool
    var tickOpen: bool
    var phase: Phase
    var resetArmedFor: Duration
    var resetArms: nat

    /** The limiter's state as a value. */
    function Snapshot(): State
      reads this
    {
      State(Config(tickInterval, limit, resetInterval), limitLeft, stopRequested, tickOpen, phase,
            resetArmedFor, resetArms)
    }

    predicate Valid()
      reads this
    {
      Inv(Snapshot())
    }

    /** `NewRateLimiter`: arms the ticker and the reset timer and starts the loop in its select. */
    constructor (tickInterval: Duration, limit: uint, resetInterval: Duration)
      requires tickInterval > 0
      ensures Valid()
      ensures this.tickInterval == tickInterval && this.limit == limit && this.resetInterval == resetInterval
      ensures limitLeft == limit && phase == Idle && tickOpen && !stopRequested
      ensures resetArmedFor == resetInterval && resetArms == 1
      ensures Snapshot() == Initial(tickInterval, limit, resetInterval)
    {
      this.tickInterval := tickInterval;
      this.limit := limit;
      this.resetInterval := resetInterval;
      limitLeft := limit;
      stopRequested := false;
      tickOpen := true;
      phase := Idle;
      resetArmedFor := resetInterval;
      resetArms := 1;
    }

    /** The select takes a tick stamped `t`: offer it on `Tick` if a permit is left, else wait for the reset. */
    method OnTick(t: Time)
      requires Valid() && phase == Idle && !stopRequested
      modifies this
      ensures Valid()
      ensures old(limitLeft) > 0 ==> phase == Delivering(t)
      ensures old(limitLeft) == 0 ==> phase == AwaitingReset
      ensures limitLeft == old(limitLeft) && stopRequested == old(stopRequested) && tickOpen == old(tickOpen)
      ensures resetArmedFor == old(resetArmedFor) && resetArms == old(resetArms)
      ensures Snapshot() == Step(old(Snapshot()), TickFired(t))
    {
      if limitLeft > 0 {
        phase := Delivering(t);
      } else {
        phase := AwaitingReset;
      }
    }

    /** The reset timer fires: re-arm it with `resetInterval`, refill the counter, return to the select. */
    method OnReset()
      requires Valid() && phase == AwaitingReset
      modifies this
      ensures Valid()
      ensures limitLeft == limit && phase == Idle
      ensures resetArmedFor == resetInterval && resetArms == old(resetArms) + 1
      ensures stopRequested == old(stopRequested) && tickOpen == old(tickOpen)
      ensures Snapshot() == Step(old(Snapshot()), ResetFired)
    {
      resetArmedFor := resetInterval;
      resetArms := resetArms + 1;
      limitLeft := limit;
      phase := Idle;
    }

    /** The select takes the stop case: close `Tick` and end the loop. */
    method OnStopSignal()
      requires Valid() && phase == Idle && stopRequested
      modifies this
      ensures Valid()
      ensures !tickOpen && phase == Stopped
      ensures limitLeft == old(limitLeft) && stopRequested
      ensures resetArmedFor == old(resetArmedFor) && resetArms == old(resetArms)
      ensures Snapshot() == Step(old(Snapshot()), StopSeen)
    {
      tickOpen := false;
      phase := Stopped;
    }

    /** `Stop`: stops the ticker and closes the stop channel; a second call would close it twice. */
    method Stop()
      requires Valid() && !stopRequested
      modifies this
      ensures Valid()
      ensures stopRequested
      ensures limitLeft == old(limitLeft) && tickOpen == old(tickOpen) && phase == old(phase)
      ensures resetArmedFor == old(resetArmedFor) && resetArms == old(resetArms)
      ensures Snapshot() == Step(old(Snapshot()), StopCalled)
    {
      stopRequested := true;
    }

    /**
     * A receive from `Tick`: takes the tick the loop is offering, or yields the
     * zero time and `false` once `Tick` is closed. The counter is not touched.
     */
    method Receive() returns (t: Time, ok: bool)
      requires Valid() && (phase.Delivering? || !tickOpen)
      modifies this
      ensures Valid()
      ensures ok == old(phase).Delivering?
      ensures ok ==> t == old(phase).t && phase == Idle
      ensures !ok ==> t == ZeroTime && phase == old(phase) && !tickOpen
      ensures limitLeft == old(limitLeft) && stopRequested == old(stopRequested) && tickOpen == old(tickOpen)
      ensures resetArmedFor == old(resetArmedFor) && resetArms == old(resetArms)
      ensures (t, ok) == old(Received(Snapshot()))
      ensures Snapshot() == Step(old(Snapshot()), LimiterModel.Receive)
    {
      if phase.Delivering? {
        t, ok := phase.t, true;
        phase := Idle;
      } else {
        t, ok := ZeroTime, false;
      }
    }

    /** `Count`: `limitLeft -= 1` on a `uint`, wrapping from 0 to the largest value. */
    method Count()
      requires Valid()
      modifies this
      ensures Valid()
      ensures limitLeft == Decrement(old(limitLeft))
      ensures stopRequested == old(stopRequested) && tickOpen == old(tickOpen) && phase == old(phase)
      ensures resetArmedFor == old(resetArmedFor) && resetArms == old(resetArms)
      ensures Snapshot() == Step(old(Snapshot()), LimiterModel.Count)
    {
      limitLeft := Decrement(limitLeft);
    }

    /**
     * `Wait`: receives one tick and counts it, returning its timestamp and no
     * error; on a closed `Tick` returns the zero time and the stopped error and
     * leaves the counter alone.
     */
    method Wait() returns (t: Time, err: Option<string>)
      requires Valid() && (phase.Delivering? || !tickOpen)
      modifies this
      ensures Valid()
      ensures old(tickOpen) ==>
        (t == old(phase).t && err == None && limitLeft == Decrement(old(limitLeft)) && phase == Idle)
      ensures !old(tickOpen) ==>
        (t == ZeroTime && err == Some(StoppedMessage) && limitLeft == old(limitLeft) && phase == old(phase))
      ensures stopRequested == old(stopRequested) && tickOpen == old(tickOpen)
      ensures resetArmedFor == old(resetArmedFor) && resetArms == old(resetArms)
      ensures old(Balanced(Snapshot())) ==> Balanced(Snapshot())
      ensures old(Balanced(Snapshot())) && old(tickOpen) ==> limitLeft as int == old(limitLeft) as int - 1
      ensures (t, err) == old(WaitResult(Snapshot()))
      ensures Snapshot() == Step(old(Snapshot()), LimiterModel.Wait)
    {
      var ok;
      t, ok := Receive();
      if ok {
        Count();
        err := None;
      } else {
        t := ZeroTime;
        err := Some(StoppedMessage);
      }
    }

    /** `LimitLeft`: the permits left, with no side effect. */
    method LimitLeft() returns (n: uint)
      ensures n == limitLeft
    {
      n := limitLeft;
    }
  }
}
