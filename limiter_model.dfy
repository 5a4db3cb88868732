/**
 * The state of a rate limiter and the events that change it, as values.
 *
 * The limiter's coordination goroutine and its consumers are modelled as a
 * discrete-event system: each `Event` is one blocking operation that completes
 * (the loop's `select` taking a case, a consumer's receive from `Tick`, a call
 * of `Count` or `Stop`). `Enabled` says when an event can complete at all;
 * `Step` gives the state it leaves behind.
 */
module LimiterModel {
  import opened GoUint

  /** Timestamps and durations are opaque integers; 0 stands for Go's zero `time.Time{}`. */
  type Time = int
  type Duration = int

  const ZeroTime: Time := 0

  /** The error text `Wait` reports once the limiter has been stopped. */
  const StoppedMessage: string := "Rate limiter has stopped"

  datatype Option<T> = None | Some(value: T)

  /** The three values fixed at construction. */
  datatype Config = Config(tickInterval: Duration, limit: uint, resetInterval: Duration)

  /** Where the coordination loop is. */
  datatype Phase =
    | Idle              // waiting in the select on the ticker and the stop channel
    | Delivering(t: Time)  // blocked sending the tick `t` on the unbuffered `Tick` channel
    | AwaitingReset     // blocked receiving from the reset timer
    | Stopped           // `Tick` closed and the goroutine returned

  datatype State = State(
    config: Config,
    limitLeft: uint,        // permits left in the current window
    stopRequested: bool,    // `Stop` stopped the ticker and closed the stop channel
    tickOpen: bool,         // the `Tick` channel is still open
    phase: Phase,
    resetArmedFor: Duration, // the duration the reset timer was last armed with
    resetArms: nat)          // how many times the reset timer has been armed

  datatype Event =
    | TickFired(t: Time)  // the loop receives a tick stamped `t` from the ticker
    | ResetFired          // the loop's receive from the reset timer completes
    | StopSeen            // the loop's select takes the stop case
    | StopCalled          // a client calls `Stop`
    | Receive             // a consumer receives from `Tick` directly
    | Count               // a client calls `Count`
    | Wait                // a client's `Wait` returns: a receive from `Tick`, then `Count` on success

  /** The state `NewRateLimiter` returns, with the reset timer armed once. */
  function Initial(tickInterval: Duration, limit: uint, resetInterval: Duration): (s: State)
    requires tickInterval > 0
    ensures s.config == Config(tickInterval, limit, resetInterval)
    ensures s.limitLeft == limit && s.phase == Idle && s.tickOpen && !s.stopRequested
    ensures s.resetArmedFor == resetInterval && s.resetArms == 1
    ensures Inv(s) && Balanced(s)
  {
    State(Config(tickInterval, limit, resetInterval), limit, false, true, Idle, resetInterval, 1)
  }

  /** What holds of every state a limiter can be in. */
  predicate Inv(s: State) {
    && s.config.tickInterval > 0
    && (s.tickOpen <==> !s.phase.Stopped?)
    && (s.phase.Stopped? ==> s.stopRequested)
    && s.resetArmedFor == s.config.resetInterval
    && s.resetArms >= 1
  }

  /**
   * The counter has not been over-counted: it lies within the limit, and a
   * permit in flight is backed by at least one permit left.
   */
  predicate Balanced(s: State) {
    s.limitLeft <= s.config.limit && (s.phase.Delivering? ==> s.limitLeft > 0)
  }

  /** A receive from `Tick` completes: a tick is being offered, or the channel is closed. */
  predicate CanReceive(s: State) {
    s.phase.Delivering? || !s.tickOpen
  }

  predicate Enabled(s: State, e: Event) {
    match e
    case TickFired(_) => s.phase == Idle && !s.stopRequested
    case ResetFired => s.phase == AwaitingReset
    case StopSeen => s.phase == Idle && s.stopRequested
    case StopCalled => !s.stopRequested
    case Receive => CanReceive(s)
    case Count => true
    case Wait => CanReceive(s)
  }

  /** A tick with permits left is offered on `Tick`; without permits the loop waits for the reset. */
  function OnTick(s: State, t: Time): State {
    if s.limitLeft > 0 then s.(phase := Delivering(t)) else s.(phase := AwaitingReset)
  }

  /** The reset timer fired: re-arm it, replenish the counter and go back to the select. */
  function OnReset(s: State): State {
    s.(resetArmedFor := s.config.resetInterval, resetArms := s.resetArms + 1,
       limitLeft := s.config.limit, phase := Idle)
  }

  /** The loop saw the stop request: close `Tick` and return. */
  function OnStop(s: State): State {
    s.(tickOpen := false, phase := Stopped)
  }

  /** `Stop`: stop the ticker and close the stop channel. */
  function RequestStop(s: State): State {
    s.(stopRequested := true)
  }

  /** What a receive from `Tick` yields: the offered tick, or the zero time and `false` once closed. */
  function Received(s: State): (Time, bool)
    requires CanReceive(s)
  {
    if s.phase.Delivering? then (s.phase.t, true) else (ZeroTime, false)
  }

  function AfterReceive(s: State): State
    requires CanReceive(s)
  {
    if s.phase.Delivering? then s.(phase := Idle) else s
  }

  function AfterCount(s: State): State {
    s.(limitLeft := Decrement(s.limitLeft))
  }

  /** What `Wait` returns: the tick and no error, or the zero time and the stopped error. */
  function WaitResult(s: State): (Time, Option<string>)
    requires CanReceive(s)
  {
    if Received(s).1 then (Received(s).0, None) else (ZeroTime, Some(StoppedMessage))
  }

  function AfterWait(s: State): State
    requires CanReceive(s)
  {
    if Received(s).1 then AfterCount(AfterReceive(s)) else AfterReceive(s)
  }

  function Step(s: State, e: Event): State
    requires Enabled(s, e)
  {
    match e
    case TickFired(t) => OnTick(s, t)
    case ResetFired => OnReset(s)
    case StopSeen => OnStop(s)
    case StopCalled => RequestStop(s)
    case Receive => AfterReceive(s)
    case Count => AfterCount(s)
    case Wait => AfterWait(s)
  }

  /** Runs a trace of events; `None` when some event of it cannot complete in the state it meets. */
  function Run(s: State, trace: seq<Event>): Option<State>
    decreases |trace|
  {
    if trace == [] then Some(s)
    else if Enabled(s, trace[0]) then Run(Step(s, trace[0]), trace[1..])
    else None
  }

  /** The timestamp an event hands to a consumer, if it is a successful receive or `Wait`. */
  function Handed(s: State, e: Event): seq<Time>
    requires Enabled(s, e)
  {
    if (e.Receive? || e.Wait?) && Received(s).1 then [Received(s).0] else []
  }

  /** The timestamps that receives and `Wait`s hand to consumers along a trace, in order. */
  function Delivered(s: State, trace: seq<Event>): seq<Time>
    decreases |trace|
  {
    if trace == [] || !Enabled(s, trace[0]) then []
    else Handed(s, trace[0]) + Delivered(Step(s, trace[0]), trace[1..])
  }
}
