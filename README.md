# steady_timers: a verified model of the virtual-time timer scheduler

steady_timers is a C++ library of timers that run on a logical clock rather
than on wall time. A `TimerManager` creates timers, keeps a registry of them,
and composes the "now" every timer reads. That "now" is the raw steady clock,
or the frozen pausing instant while paused, plus a fast-forward offset and a
pausing offset. While a poll runs, "now" is frozen at the expiry instant of
the timer being dispatched. `poll` samples a horizon once, then keeps
dispatching the earliest due timer until none is due:

- stamp the logical time;
- stop the timer;
- invoke its callback;
- re-arm it if it is cyclic.

Dead registry entries are pruned during the scan. `fastForward`, `pause` and
`resume` move the offsets, and all three are ignored while a poll runs. The
destructor rebinds timers that are still owned to a stand-alone clock. That
clock keeps the manager's lead over the raw clock.

The model is split into these modules:

- `Timers` (timers.dfy) is the per-timer state machine of Timer.cpp. It holds the
  state as a value (`TimerState`) and the transitions `Started` and `Stopped` as
  functions. The `Timer` class performs those transitions in place.
- `SingleShotTimers` (single_shot_timer.dfy) holds the older stand-alone
  `SingleShotTimer`. It has no zero-duration guard, and its remaining time is
  not guarded by the running flag.
- `Clock` (clock.dfy) models the composed clock of the manager and the offset
  bookkeeping of `fastForward`, `pause`, `resume` and teardown.
- `Scheduler` (scheduler.dfy) models the scan, one dispatch and the whole
  poll as functions on the registry. The poll is the function `Run`. Its
  termination argument is a lower bound on the pending expiries together with
  the number of timers due exactly at that bound.
- `Manager` (timer_manager.dfy) is the `TimerManager` class. Its fields are the
  manager's fields. `NextExpiredTimer` is the in-place scan that erases dead
  entries. `Poll` is the dispatch loop, proved equal to `Run`. `PollRound` is one
  turn of that loop and `DispatchStep` one dispatch. `RunCallback` performs a
  callback's calls one by one, and `Destroy` is the teardown loop.
- `Scenarios` (scenarios.dfy) holds the expectations of the repository's
  tests, stated on the model.

The raw steady clock is an input: every operation that reads it takes a
parameter `raw`. A timer callback is data, namely the list of calls it makes
(`Effect`): start, stop or release a timer by its handle id, or call `poll`,
`fastForward`, `pause` or `resume` on the manager. Each registry entry is one
weak reference. Its `alive` flag says whether the reference can still be
locked.

## Model

| member | source | states |
|---|---|---|
| Timers.TimeSource.Read | TimerManager.cpp:49-53 | a manager-bound timer reads the manager's composed clock; after teardown it reads the raw clock plus a fixed offset |
| Timers.Fresh | Timer.cpp:3-6 | a new timer is stopped, has zero expiry and duration, has no callback, and keeps its kind and time source |
| Timers.Started | Timer.cpp:26-35 | a running timer or a non-positive duration leaves the timer unchanged; otherwise the timer runs with duration d and expires d after now, strictly later; nothing else changes (corrected guard, see Findings) |
| Timers.StartedAsWritten | Timer.cpp:26-35 | the original guard: only a running timer or a zero duration is rejected; any other d arms the timer at now + d |
| Timers.Stopped | Timer.cpp:8-14 | stop clears the running flag and keeps expiry, duration, callback, kind and source |
| Timers.RemainingOf | Timer.cpp:42-52 | when running, the remaining time plus now is the expiry (it may be negative); when stopped it is 0 |
| Timers.StopIdempotent | Timer.cpp:8-14 | stop is idempotent and changes only the running flag |
| Timers.StartThenRemaining | Timer.cpp:26-52 | right after an accepted start the remaining time equals the duration; a rejected start leaves the remaining time as it was |
| Timers.StartStopKeepsSchedule | Timer.cpp:8-35 | start followed by stop leaves the new duration and expiry recorded on a stopped timer |
| Timers.Timer.constructor | Timer.cpp:3-6 | the constructed timer's state is the fresh state for its kind and time source, and its expired flag is false |
| Timers.Timer.Stop | Timer.cpp:8-14 | the new state is the stopped old state |
| Timers.Timer.IsRunning | Timer.cpp:16-19 | returns the running flag |
| Timers.Timer.SetTimeoutCallback | Timer.cpp:21-24 | only the callback changes |
| Timers.Timer.Start | Timer.cpp:26-35 | the new state is the started old state for the duration and the time the timer's own source reads |
| Timers.Timer.Expired | Timer.cpp:37-40 | always false, because the expired flag is never set |
| Timers.Timer.RemainingMilliseconds | Timer.cpp:42-52 | the remaining time of the current state at the time the timer's own source reads |
| SingleShotTimers.SingleShotTimer.constructor | SingleShotTimer.cpp:3-5 | stopped, no callback, the given time source, and an indeterminate expiry passed in |
| SingleShotTimers.SingleShotTimer.Stop | SingleShotTimer.cpp:7-13 | clears the running flag and keeps expiry, callback and source |
| SingleShotTimers.SingleShotTimer.SetTimeoutCallback | SingleShotTimer.cpp:15-18 | only the callback changes |
| SingleShotTimers.SingleShotTimer.Start | SingleShotTimer.cpp:20-28 | a running timer is unchanged; otherwise any duration, zero and negative included, arms the timer at the time its own source reads plus the duration |
| SingleShotTimers.SingleShotTimer.Expired | SingleShotTimer.cpp:30-33 | always false |
| SingleShotTimers.SingleShotTimer.RemainingMilliseconds | SingleShotTimer.cpp:35-38 | the time its own source reads plus the result is the expiry, whether running or not |
| SingleShotTimers.StopKeepsRemaining | SingleShotTimer.cpp:7-13 | stopping does not change the remaining time |
| SingleShotTimers.StartThenRemaining | SingleShotTimer.cpp:20-38 | a start of a stopped timer is always taken, and the remaining time is then the requested duration |
| Clock.Initial | TimerManager.hpp:40-45 | not polling, not paused, all offsets and instants zero |
| Clock.ComposedNow | TimerManager.cpp:17-40 | the poll timestamp while polling; otherwise the raw time, or the pausing time while paused, plus both offsets |
| Clock.WithFastForward | TimerManager.cpp:84-93 | ignored while polling; otherwise adds delta to the fast-forward offset and changes nothing else |
| Clock.Paused | TimerManager.cpp:95-107 | ignored while polling or already paused; otherwise records the raw time and sets the paused flag, nothing else |
| Clock.Resumed | TimerManager.cpp:109-121 | ignored while polling or not paused; otherwise clears the paused flag and adds the pause length to the pausing offset, and changes nothing else (corrected, see Findings) |
| Clock.ResumedAsWritten | TimerManager.cpp:109-121 | the original resume: assigns the last pause length to the pausing offset, so "now" right after it is the pausing time plus the fast-forward offset; nothing else changes |
| Clock.TeardownSource | TimerManager.cpp:49-53 | the stand-alone source reads the composed "now" at the raw time of teardown |
| Clock.NowFrozenWhilePaused | TimerManager.cpp:27-37 | while paused and not polling, "now" does not depend on the raw clock |
| Clock.PauseIsContinuous | TimerManager.cpp:95-107 | pausing does not move "now" |
| Clock.ResumeIsContinuous | TimerManager.cpp:109-121 | resuming does not move "now", whatever pauses came before |
| Clock.PauseResumeDelaysByPauseLength | TimerManager.cpp:95-121 | a pause from p to q delays every later reading by q - p |
| Clock.ResumeAsWrittenJumps | TimerManager.cpp:109-121 | with the original resume, a second pause/resume cycle makes "now" jump by the first pause's length |
| Clock.ResumeTwiceIsContinuous | TimerManager.cpp:109-121 | with the corrected resume, the same calls keep "now" continuous |
| Clock.TeardownKeepsNow | TimerManager.cpp:49-63 | after teardown a surviving timer reads the manager's "now" at that instant and then advances with the raw clock |
| Scheduler.Live | TimerManager.cpp:156-160 | pruning never lengthens the registry |
| Scheduler.LiveMembers | TimerManager.cpp:141-160 | pruning removes exactly the dead entries |
| Scheduler.LiveKeepsOrder | TimerManager.cpp:154-160 | pruning keeps the live entries in creation order |
| Scheduler.LiveOfLive | TimerManager.cpp:136-163 | pruning a pruned registry changes nothing |
| Scheduler.LiveAppend | TimerManager.cpp:71-80 | a created timer is appended after the live entries |
| Scheduler.Earliest | TimerManager.cpp:136-163 | the scan's choice, if any, is a position in the registry |
| Scheduler.EarliestSpec | TimerManager.cpp:136-163 | the chosen entry is alive, running and due by the horizon; its expiry is minimal among the due entries; it is strictly earlier than every due entry before it (first in registry order among equals); none is chosen iff none is due |
| Scheduler.EarliestIsFloor | TimerManager.cpp:143-151 | the chosen entry expires no later than any pending entry |
| Scheduler.Due | TimerManager.cpp:143-145 | the scan's test: alive, running, and expired by the horizon |
| Scheduler.Touch | Timer.cpp:8-35 | start and stop change the timer as Timer.cpp does, release drops the last owning handle, and the handle and kind never change |
| Scheduler.ApplyEffect | Timer.cpp:8-35 | a call on a handle applies start, stop or release to exactly the entry with that handle |
| Scheduler.ApplyEffects | TimerManager.cpp:170-173 | a callback's calls keep every entry in its place in the registry |
| Scheduler.ApplyEffectsEvolve | TimerManager.cpp:170-173 | while the clock is frozen at t, a callback never revives an entry or changes its id or kind; a running entry either kept its expiry or now expires after t |
| Scheduler.Dispatch | TimerManager.cpp:166-177 | a dispatch keeps every entry in its place in the registry |
| Scheduler.WithCallback | Timer.cpp:21-24 | only the addressed timer's callback changes |
| Scheduler.DispatchEvolves | TimerManager.cpp:166-177 | over one dispatch every entry evolves from its state once the fired timer is stopped |
| Scheduler.CyclicRearmed | TimerManager.cpp:174-177 | a cyclic timer is running again after its dispatch, strictly later, even if its callback stopped it |
| Scheduler.CyclicRearmedAtNextPeriod | TimerManager.cpp:168-177 | unless its own callback made a call on it, a cyclic timer runs again with the same duration and is due one duration after the instant it fired at |
| Scheduler.CallbackRestartKept | TimerManager.cpp:170-177 | a callback that restarts its own timer for d > 0 wins over the re-arm, for either kind: the timer runs for d from the instant it fired at |
| Scheduler.SingleShotStaysStopped | TimerManager.cpp:168-173 | a single-shot timer is stopped after its dispatch unless its own callback addressed it |
| Scheduler.UntouchedByEffects | TimerManager.cpp:170-173 | calls that do not address an entry leave it unchanged |
| Scheduler.DispatchAsWritten | TimerManager.cpp:166-177 | dispatch with the original start guard changes only the fired entry |
| Scheduler.DispatchedAsWritten | TimerManager.cpp:166-177 | n dispatches of the same entry with the original guard keep the registry's length and leave the entry without a callback |
| Scheduler.NegativeDurationNeverSettles | Timer.cpp:28-34 | with the original guard, a cyclic timer started with a negative duration is due again after every dispatch, one period earlier each time |
| Scheduler.LowerBound | TimerManager.cpp:130 | the bound is at most the horizon and at most every pending expiry |
| Scheduler.CountMonotone | TimerManager.cpp:166-178 | the number of timers due exactly at t cannot grow when no entry newly becomes due at t |
| Scheduler.CountStrict | TimerManager.cpp:166-178 | that number drops when one such entry leaves the instant |
| Scheduler.CountLive | TimerManager.cpp:156-160 | pruning does not change that number |
| Scheduler.DispatchProgress | TimerManager.cpp:166-178 | dispatching an earliest pending timer keeps every pending timer at or after its instant, and strictly lowers the number due exactly then |
| Scheduler.RunChronological | TimerManager.cpp:130-178 | a poll dispatches timers at non-decreasing instants, all within the lower bound and the horizon sampled at entry |
| Scheduler.ChronologicalCons | TimerManager.cpp:166-178 | prepending a firing that is no later than the rest keeps the trace chronological |
| Scheduler.RunQuiescent | TimerManager.cpp:166-179 | when a poll ends, no dead entry is left and no timer is due by the horizon |
| Scheduler.RunIdle | TimerManager.cpp:166 | if nothing is due, a poll only prunes and fires nothing |
| Scheduler.Run | TimerManager.cpp:130-179 | the poll loop from a lower bound: it never adds entries, and it dispatches something iff some timer of the pruned registry is due by the horizon |
| Scheduler.RunPoll | TimerManager.cpp:123-179 | a whole poll at a horizon: the same two facts, from the initial lower bound |
| Scheduler.RunStepMeasure | TimerManager.cpp:143-178 | the chosen instant lies between the lower bound and the horizon; after the dispatch and the next pruning every pending timer is at or after it, and the termination measure has dropped |
| Scheduler.RunStep | TimerManager.cpp:166-178 | one loop turn fires the chosen timer at its expiry and continues on the pruned registry after the dispatch, with the measure lowered |
| Scheduler.PollInvariantStep | TimerManager.cpp:166-178 | one loop turn preserves the poll loop's invariant |
| Scheduler.PollStarts | TimerManager.cpp:123-136 | the poll loop's invariant holds on the registry pruned by the first scan, with nothing fired yet |
| Scheduler.PollEnds | TimerManager.cpp:166-179 | when the scan finds nothing, the loop's registry and trace are the poll's outcome |
| Scheduler.RunStop | TimerManager.cpp:166 | the loop ends when the scan of a pruned registry finds nothing |
| Scheduler.RunOfLive | TimerManager.cpp:136-163 | a poll depends on the registry only through its live entries |
| Manager.Rebound | TimerManager.cpp:55-63 | an owned timer gets the new time source; a dead entry is skipped |
| Manager.TimerManager.Now | TimerManager.cpp:17-40 | the time every manager-bound timer reads: the poll timestamp while polling, else the raw time (or the pausing time while paused) plus both offsets |
| Manager.TimerManager.constructor | TimerManager.cpp:14-41 | empty registry, initial clock state |
| Manager.TimerManager.CreateSingleShotTimer | TimerManager.cpp:66-73 | appends a fresh single-shot timer bound to the manager's clock, with a new handle |
| Manager.TimerManager.CreateTickTimer | TimerManager.cpp:75-82 | appends a fresh cyclic timer bound to the manager's clock, with a new handle |
| Manager.TimerManager.StartTimer | Timer.cpp:26-35 | starts the addressed timer against the composed clock |
| Manager.TimerManager.StopTimer | Timer.cpp:8-14 | stops the addressed timer |
| Manager.TimerManager.ReleaseHandle | TimerManager.cpp:141 | the addressed timer's weak reference can no longer be locked |
| Manager.TimerManager.SetTimeoutCallback | Timer.cpp:21-24 | replaces the addressed timer's callback |
| Manager.TimerManager.FastForward | TimerManager.cpp:84-93 | ignored while polling; otherwise the registry, trace and clock are those of a poll after the fast-forward offset grew by delta |
| Manager.TimerManager.Pause | TimerManager.cpp:95-107 | the clock state becomes the paused state and the registry is unchanged |
| Manager.TimerManager.Resume | TimerManager.cpp:109-121 | the clock state becomes the resumed state (corrected) and the registry is unchanged |
| Manager.TimerManager.NextExpiredTimer | TimerManager.cpp:136-163 | erases the dead entries in place and returns the scan's choice on the pruned registry |
| Manager.TimerManager.Poll | TimerManager.cpp:123-180 | ignored while polling; otherwise the new registry and the dispatches made are those of the whole poll at the horizon sampled on entry, and only the poll timestamp changes, to the last dispatch instant |
| Manager.TimerManager.PollRound | TimerManager.cpp:166-178 | one loop turn: fires the chosen timer at its expiry, leaves the registry pruned after its dispatch, stamps the clock there, keeps the loop's invariant and lowers the measure |
| Manager.TimerManager.DispatchStep | TimerManager.cpp:168-177 | stamps the logical time at the expiry, and the registry becomes the dispatch of the chosen timer |
| Manager.TimerManager.RunCallback | TimerManager.cpp:170-173 | a callback's calls are made in order with the clock frozen, the registry becomes their combined effect, and only callback calls on timers change it |
| Manager.TimerManager.NestedManagerCall | TimerManager.cpp:86-129 | poll, fastForward, pause or resume called while a poll runs changes neither the registry nor the clock |
| Manager.TimerManager.Destroy | TimerManager.cpp:43-64 | every owned timer is rebound to the teardown source and then reads the manager's current "now"; dead entries are untouched |
| Manager.ScanKeeps | TimerManager.cpp:139-151 | a live entry is kept where it is, and the scan moves past it |
| Manager.ScanErases | TimerManager.cpp:154-160 | a dead entry is erased in place, and the scan goes on at the same position |
| Manager.ScanDone | TimerManager.cpp:136-163 | at the end of the scan the registry is the pruned original |
| Manager.LiveSnoc | TimerManager.cpp:139-161 | the scan's pruning, one entry further |
| Manager.EarliestSnoc | TimerManager.cpp:143-151 | the scan's choice, one entry further: a later entry replaces the candidate only if strictly earlier |
| Manager.ApplyEffectKeepsIds | TimerManager.cpp:170-173 | calls on timers keep handles ordered and unchanged |
| Manager.ApplyManagerOp | TimerManager.cpp:86-129 | poll, fastForward, pause and resume called from a callback leave the registry alone |
| Manager.LiveKeepsValid | TimerManager.cpp:156-160 | handles stay distinct, ordered and issued through pruning |
| Scenarios.SimpleExpire | TimerTest.cpp:26-42 | a timer armed for 1000 ms does not fire by 0 or 999 and fires once at 1000 |
| Scenarios.SimpleExpireTest | TimerTest.cpp:26-42 | the same test driven through the manager: polls at 0 and 999 fire nothing, the poll at 1000 fires the timer |
| Scenarios.LiveOfOne | TimerTest.cpp:51-56 | an owned timer survives pruning |
| Scenarios.LiveOfTwo | TimerTest.cpp:51-56 | two owned timers survive pruning |
| Scenarios.LiveOfThree | TimerTest.cpp:51-56 | three owned timers survive pruning |
| Scenarios.EarliestOfOne | TimerTest.cpp:63-73 | the scan over one timer picks it iff it is due |
| Scenarios.EarliestOfTwo | TimerTest.cpp:63-73 | the scan over two timers, one entry further |
| Scenarios.EarliestOfThree | TimerTest.cpp:63-73 | the scan over three timers, one entry further |
| Scenarios.KnownStep | TimerTest.cpp:63-73 | a loop turn whose choice and dispatch are known fires that timer at its expiry |
| Scenarios.OrderDispatches | TimerTest.cpp:63-73 | the three dispatches of the ordering tests produce the expected registries |
| Scenarios.OrderFirstDispatch | TimerTest.cpp:63-69 | the 500 ms timer fires first and its callback restarts it until 1000 |
| Scenarios.OrderSecondDispatch | TimerTest.cpp:63-69 | it fires again at 1000 and is restarted until 1500 |
| Scenarios.OrderThirdDispatch | TimerTest.cpp:70-73 | the 1100 ms timer fires last |
| Scenarios.OrderSettles | TimerTest.cpp:70-73 | after that nothing else is due by 1100 |
| Scenarios.OrderAfterSecondDispatch | TimerTest.cpp:70-73 | after the second dispatch the poll fires only at 1100 |
| Scenarios.OrderAfterFirstDispatch | TimerTest.cpp:68-73 | after the first dispatch the poll fires at 1000 then at 1100 |
| Scenarios.OrderLowerBound | TimerTest.cpp:51-59 | the poll's termination bound starts at or before the first expiry, 500 |
| Scenarios.ExpireInRightOrder | TimerTest.cpp:45-74 | a poll reaching 1100 fires timer 1 at 500 and 1000, then timer 0 at 1100, and leaves timer 1 running until 1500 |
| Scenarios.SetUpOrder | TimerTest.cpp:51-59 | builds the three timers of the ordering tests |
| Scenarios.MultipleTimersExpireInRightOrderTest | TimerTest.cpp:45-74 | a poll at raw time 1100 fires in that order, and timer 1 then has 400 ms left |
| Scenarios.MultipleTimersExpireInRightOrderFastForwardTest | TimerTest.cpp:76-104 | a fast-forward by 1100 at raw time 0 fires in the same order, with 400 ms left |

## Left out

- The real steady clock (`getChronoSteadyClockTicks`) is not modelled. Every reading of the raw clock is a parameter `raw`.
- The destructor reads the raw clock twice, once through the composed clock and once directly. The model reads it once, so both readings are equal.
- Callback bodies are arbitrary code in the original. The model represents each callback as a list of calls on timers (start, stop, release) and on the manager (poll, fastForward, pause, resume). A callback that creates timers or replaces callbacks is not modelled. Exceptions escaping a callback are not modelled either.
- `shared_ptr`/`weak_ptr` ownership is reduced to an `alive` flag per registry entry. A timer released by its own callback is still re-armed within that dispatch, as the locked pointer keeps it alive; the next scan prunes it.
- The registry holds timer states by value, and callers reach a timer through its handle id (`StartTimer`, `StopTimer`, ...). The `Timer` class stands alone, specified by the same state functions. Aliasing between a caller's handle and the registry's reference is not modelled.
- Manager.TimerManager.Resume: does not model the original assignment of the pausing offset; it adds to it instead, as in the second Findings row. The assignment is `Clock.ResumedAsWritten`.
- Manager.TimerManager.StartTimer: does not model a negative duration being accepted; it rejects it, as in the first Findings row. The original guard is `Timers.StartedAsWritten`.
- Timers.Timer.Start: rejects negative durations, as in the first Findings row.
- SingleShotTimers.SingleShotTimer.constructor: the original leaves the expiry uninitialised. The model takes its indeterminate value as an argument.
- `std::chrono::milliseconds` is a fixed-width count. The model uses unbounded integers, so overflow is not modelled.
- The interface headers, ChronoHelpers.cpp/.hpp (duration printing) and main.cpp (a demo on the real clock) hold no scheduling logic. They are not part of this model.
- The model follows the code except for the two corrections in Findings: the model's `resume` accumulates the pausing offset, where the code assigns it, and the model's `start` rejects every non-positive duration, where the code rejects only zero.
- The corrected start guard is used by `Scheduler.Touch` (a start made by a callback) and by the re-arm in `Scheduler.Dispatch`. So `Scheduler.Run`, `Scheduler.RunPoll`, `Manager.TimerManager.Poll`, `Manager.TimerManager.FastForward` and every poll property (termination, `Scheduler.RunChronological`, `Scheduler.RunQuiescent`) hold for the corrected program only. With the original guard, more than termination fails: a callback firing at 500 that starts a stopped timer with -100 ms arms it at 400, so the next dispatch is at 400, before the 500 it follows, and the trace is not chronological.
- The remaining time of a running timer whose expiry has passed is negative, as in the code; it is not clamped at zero.
- `Manager.TimerManager.Valid` does not require registry timers to read the manager's clock, and nothing stops a caller from using the manager after `Destroy`; in the original the manager no longer exists then.

## Findings

| source | as written | input that shows it | evidently intended | confidence | as-written member | corrected member |
|---|---|---|---|---|---|---|
| Timer.cpp:28 | `start` rejects only a zero duration, so a negative duration arms the timer in the past; the poll loop re-arms a cyclic timer one period earlier each time and never runs out of due timers | a tick timer started with -5 ms, then `poll()` | reject every non-positive duration, so a re-armed timer is due strictly later and `poll` ends | medium, not executed | Scheduler.NegativeDurationNeverSettles | Timers.Started |
| TimerManager.cpp:119 | `resume` assigns `m_pausingOffset`, forgetting earlier pauses, so "now" jumps forward by their total length | pause at raw 0, resume at 100, pause at 200, resume at 300: "now" goes from 100 to 200 | accumulate the pause length into `m_pausingOffset`, so "now" is continuous across every resume | high, not executed | Clock.ResumeAsWrittenJumps | Clock.ResumeIsContinuous |
