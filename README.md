# rlimit RateLimiter in Dafny

A model of the `RateLimiter` of the Go package rlimit. The limiter hands out
"permits" on its `Tick` channel, one per ticker interval, at most `limit` of
them per reset window. When the permits run out it waits for the reset timer,
then refills the counter. `Stop` makes its background loop close `Tick`.

The background goroutine is modelled as a discrete-event system. Its position
is an explicit phase:

- `Idle`: waiting in the select on the ticker and the stop channel.
- `Delivering(t)`: blocked on the unbuffered send of tick `t`.
- `AwaitingReset`: blocked on the reset timer.
- `Stopped`: `Tick` is closed and the goroutine has returned.

Each completed blocking operation is one event. The environment picks which
event happens next among those that can complete.

- `GoUint` (uint.dfy): Go's 64-bit `uint` and its wrap-around decrement.
- `LimiterModel` (limiter_model.dfy): the limiter state as a value, the
  events, `Enabled` (when an event can complete), `Step`, `Run` over a trace
  of events, and `Delivered` (the timestamps handed to consumers).
- `LimiterProperties` (limiter_properties.dfy): what holds over whole runs.
  This covers the invariant, the fixed configuration, the counter bound under
  `Wait`-only use, no emission while exhausted, full windows, and stopping.
- `RLimit` (rate_limiter.dfy): the `RateLimiter` class. It has one method per
  branch of the select loop (`OnTick`, `OnReset`, `OnStopSignal`) and the
  public API (`Stop`, `Receive` for a direct read of `Tick`, `Wait`, `Count`,
  `LimitLeft`). Each state-changing method states its whole new state and
  equals `Step` on the corresponding event, so the trace lemmas apply to it.

`limit`, `tickInterval` and `resetInterval` are `const` fields of the class.
Only the constructor assigns them. `RunKeepsConfig` states the same for the
value model.

The model follows the code as written, including where a reader might expect otherwise:

- A stop request is only seen from the select. It is not seen while the loop
  waits for the reset timer or blocks on a send (`StopDeferredWhileBlocked`).
- `Count` wraps from 0 to 2^64-1. It does not clamp.
- `Stop` is not idempotent. A second call closes the stop channel twice, so
  the model requires `!stopRequested`.
- The counter is not confined to `[0, limit]` in general. It is confined when
  every consumer uses `Wait` and a `Wait` is one step (`WaitOnlyKeepsBalance`).
  Under the same condition at most `limit` ticks are handed out between two
  resets (`WaitOnlyWindowBound`).
  See Findings.

The constructor requires `tickInterval > 0` because Go's `time.NewTicker`
panics on a non-positive interval.

## Model

| member | source | states |
|---|---|---|
| GoUint.Decrement | rlimit.go:105 | `limitLeft -= 1` on a 64-bit uint. The result is one less for a positive value and 2^64-1 for 0, and adding one modulo 2^64 gives the input back |
| LimiterModel.Initial | rlimit.go:46-56 | the state `NewRateLimiter` builds keeps the three configuration values, has the counter at the limit, sits in Idle with `Tick` open and no stop requested, has the reset timer armed once with `resetInterval`, and satisfies the invariant and the counter bound |
| RLimit.RateLimiter.constructor | rlimit.go:46-60 | stores the three configuration values unchanged. Sets `limitLeft == limit`, phase Idle, `Tick` open, no stop requested, and the reset timer armed once with `resetInterval` |
| RLimit.RateLimiter.OnTick | rlimit.go:63-66 | a tick taken in Idle with permits left moves to Delivering carrying that tick's own timestamp. With no permit left it emits nothing and moves to AwaitingReset. The counter and everything else are unchanged |
| RLimit.RateLimiter.OnReset | rlimit.go:70-75 | the reset fire in AwaitingReset re-arms the timer with `resetInterval`, sets `limitLeft := limit` and returns to Idle. Stop flag and `Tick` are unchanged |
| RLimit.RateLimiter.OnStopSignal | rlimit.go:77-79 | the stop case, taken only from Idle after a stop request, closes `Tick` and moves to Stopped. The counter is unchanged |
| RLimit.RateLimiter.Stop | rlimit.go:87-90 | requires no earlier stop, because a second close panics. Afterwards stop is requested and nothing else changes |
| RLimit.RateLimiter.Receive | rlimit.go:94 | a receive from `Tick` returns the offered tick with `ok` and frees the loop back to Idle. On a closed `Tick` it returns the zero time and `false`. The counter is never touched |
| RLimit.RateLimiter.Wait | rlimit.go:93-99 | on an open `Tick`: returns the delivered timestamp with no error, back to Idle, counter decremented once (modular). On a closed `Tick`: zero time, the "Rate limiter has stopped" error, counter unchanged. A balanced state stays balanced and then the decrement does not wrap |
| RLimit.RateLimiter.Count | rlimit.go:103-107 | `limitLeft` becomes its wrap-around decrement. Nothing else changes |
| RLimit.RateLimiter.LimitLeft | rlimit.go:110-112 | returns `limitLeft` and changes nothing |
| LimiterProperties.StepPreservesInv | rlimit.go:60-82 | every event that can complete keeps the invariant: `Tick` is open exactly until Stopped, Stopped only after a stop request, and the reset timer is always armed with `resetInterval` |
| LimiterProperties.RunPreservesInv | rlimit.go:60-82 | the invariant holds after any run of events |
| LimiterProperties.RunKeepsConfig | rlimit.go:46-112 | no run of events changes `limit`, `tickInterval` or `resetInterval` |
| LimiterProperties.WaitOnlyKeepsBalance | rlimit.go:63-96 | when every consumer uses an atomic `Wait` and nobody calls `Count` directly, the counter stays in `[0, limit]` and a permit in flight is backed by a permit left, after any run |
| LimiterProperties.WaitOnlyWindowBound | rlimit.go:2-3 | under an atomic `Wait` with no direct receive or `Count`, a run with no reset fire hands out at most as many ticks as there were permits left, and so at most `limit` |
| LimiterProperties.InterleavedWaitWraps | rlimit.go:93-96 | with limit 1, a tick taken between a `Wait`'s receive and its `Count` hands out two permits in one window and wraps the counter to 2^64-1 |
| LimiterProperties.NoEmissionWhileExhausted | rlimit.go:63-76 | with no permit left and none in flight, any run without a reset fire or a direct `Count` delivers nothing, keeps the counter at 0 and never offers a tick |
| LimiterProperties.ConsecutiveWaits | rlimit.go:63-96 | n tick-then-`Wait` pairs with at least n permits left all succeed. They hand out exactly the ticks' timestamps, in order, and leave the counter exactly n lower |
| LimiterProperties.WindowCycle | rlimit.go:61-76 | a full window (`limit` consumed ticks, one absorbed tick, the reset fire) delivers exactly those ticks and returns to the starting state with the reset timer armed once more |
| LimiterProperties.AbsorbThenReset | rlimit.go:63-75 | with no permit left, a tick in Idle is absorbed without delivering anything, and the reset fire refills the counter to `limit`, re-arms the timer and returns to Idle |
| LimiterProperties.NoTicksAfterStop | rlimit.go:87-90 | once stop is requested it stays requested, and no run contains a further ticker fire |
| LimiterProperties.CloseOnlyFromIdle | rlimit.go:77-79 | `Tick` goes from open to closed only through the stop case, taken from Idle after a stop request |
| LimiterProperties.StoppedIsFinal | rlimit.go:77-79 | once Stopped, every run stays Stopped with `Tick` closed and delivers nothing. So `Tick` is closed at most once |
| LimiterProperties.StopDeferredWhileBlocked | rlimit.go:65-70 | while the loop is blocked on a send or on the reset timer, the stop case cannot be taken and no tick can be taken |
| LimiterProperties.StopCompletes | rlimit.go:61-81 | after a stop request, at most two further operations close `Tick`: the pending delivery or reset, then the select |
| LimiterProperties.NewRateLimiterScenario | rlimit_test.go:13-28 | a limiter of 5 starts with 5 left. One tick and `Wait` deliver that tick and leave 4. After `Stop` and the loop's close, `Wait` returns the zero time and the stopped error |

## Left out

- Goroutines, the select's random choice and real time. Ticker fires, timer fires and the stop case are events the caller invokes. Durations and timestamps are opaque integers, and 0 stands for Go's zero `time.Time`.
- Blocking. `Receive` and `Wait` require that the receive can complete: a tick is offered or `Tick` is closed. A `Wait` that blocks in Idle or AwaitingReset is not a state of the model.
- RLimit.RateLimiter.Wait: is one atomic step. The source's receive and `Count` are separate steps, and the loop can run between them. That interleaving is modelled in the value model by the separate `Receive` and `Count` events (see `InterleavedWaitWraps`).
- `sync.RWMutex` locking, including a read lock guarding writes and the unlocked read in `LimitLeft`. These are data-race concerns, not sequential behaviour.
- `ticker.Stop()` and `close(stop)` in `Stop` are one step that sets `stopRequested`. A tick already buffered in the ticker's channel when `Stop` runs is not modelled: no tick is taken after a stop request.
- The reset timer's buffered fire. A fire that happens before the permits run out is taken as soon as the loop reaches AwaitingReset; the model lets `ResetFired` occur any time the loop is in AwaitingReset, and does not track when the fire happened.
- GoUint.Decrement: assumes a 64-bit platform. On a 32-bit platform Go's `uint` has 32 bits, and `Count` at 0 wraps to 2^32-1 instead of 2^64-1.
- Fan-out of `Tick` to several consumers. Each direct read is one `Receive` event; which consumer gets it is not modelled.
- The example programs under examples/ (tickchan, workers, blocking). They only sleep, spawn goroutines and print.

## Findings

| source | as written | input that shows it | evidently intended | confidence | as-written member | corrected member |
|---|---|---|---|---|---|---|
| rlimit.go:93-96 | `Wait` receives the tick, then calls `Count` as a separate step. In between, the loop can take the next tick and test `limitLeft > 0` against the stale value | limit 1, a consumer slower than the tick interval: tick 10 received, tick 20 taken before the first `Count`, then `Count`, receive 20, `Count`. Two permits are handed out in one window and `limitLeft` wraps to 2^64-1 | at most `limit` permits per window, and the counter stays in `[0, limit]` when all consumers use `Wait` | medium, not executed | LimiterProperties.InterleavedWaitWraps | LimiterProperties.WaitOnlyKeepsBalance, LimiterProperties.WaitOnlyWindowBound |
