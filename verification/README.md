# A Dafny model of pulsedThread

`pulsedThread` is a C++ class that drives a POSIX thread. A controller object and one worker
thread share a `taskParams` record, a mutex and a condition variable. The worker emits high and
low callbacks on a schedule; the controller asks for tasks, cancels them and retunes their timing.
This project models the controller and the worker and proves what they keep.

`dafny verify dfyconfig.toml` checks everything.

## How the model is laid out

- `Words.dfy`, `Bits.dfy`: the shared word `doTask`, 29 bits of task count and three signal bits,
  and the record it stands for. Every operator the program applies to the word is compared with
  the record, for all words.
- `Machine.dfy`: a step system with one worker and any number of controller threads. One step is
  one access to shared state. The program counters follow the code, so the tests and stores that
  methods make outside the lock are steps of their own. `Safety.dfy`, `Freshness.dfy`,
  `Requests.dfy`, `Trains.dfy` and `Drain.dfy` prove invariants of every interleaving.
- `Traces.dfy`: the worker of the step system emits the logs of the imperative worker.
- `Faults.dfy`, `Cancelling.dfy`, `Staleness.dfy`, `Modes.dfy`: runs of the program as it is in which a
  promise fails, with the exact condition: counts, late cancellations, cached timers and pending
  requests, and changes between finite and infinite tasks.
- `Clocks.dfy`, `Deadlines.dfy`, `Logs.dfy`, `Levels.dfy`, `Scripts.dfy`, `Pulses.dfy`: the C time
  structures, a monotone clock, the three ways of waiting, the deadline chain of accuracy level 2,
  what each kind of task emits and what that means for the wire, what others may do to an infinite
  train, and the worker's loops as a class. The clock has usual bounds on readings, sleeps and
  callbacks; it may exceed each by any amount at any time, and counts that as a jolt. It also keeps
  the record of what happened: the callbacks, which run on it, enter themselves, and the worker notes
  each wait that is over.
- `Timing.dfy`, `FloatTiming.dfy`: ticks against frequency, duty cycle and train duration, over
  the reals and in floating point.
- `ArrayWalk.dfy`, `Controller.dfy`: the array end functions and the controller object as classes.

History fields (`h` and `calls` of a state, `laps` of a worker, the record and the `jolts` of a clock) record
what happened; no step tests them. The field `h.fault` is set by uses the program does not support:
`DoTasks` with 2^29 tasks or more, `DoOrUndoTasks` that empties the count of a running task, and a
change between finite and infinite tasks while a task is queued or running or while a method relies
on the kind of task. Results that need supported use say `!h.fault`; the runs outside it are in
`Faults.dfy` and `Modes.dfy`.

## What the code does that its documentation does not say

- `DoOrUndoTasks` keeps only the parity of the count when the sum is negative, and treats a sum of
  2^31 or more as negative (`Words.AdjustClampsExactly`, `Faults.ClampMissed`). Inside a running
  task a sum of 0 leaves the task uncounted (`Faults.UndercutExactly`, `Faults.UndercutHappens`).
- `DoTasks` is sound exactly below 2^29 tasks (`Words.AddTasksExact`, `Faults.OverfullHappens`).
- `UnDoTasks`, `stopInfiniteTrain` and both saturating branches of `DoOrUndoTasks` discard pending
  signals, so that a task can start with old timers (`Staleness.DelayFreshExactly`,
  `Staleness.StaleDelayHappens` and the same for the duration) and a requested callback never run
  (`Staleness.RequestRunsExactly`).
- `UnDoTasks` can leave a task that nobody asked for. Its write adds one exactly when none is counted
  at that moment (`Cancelling.UndoWriteExactly`): when only a signal is pending
  (`Faults.UndoAddsTask`), and also without any signal, when the worker completes all the tasks
  counted at the unlocked test before the write (`Cancelling.UndoAddsExactly`,
  `Cancelling.UndoTooLate`). A caller is safe from it only when the word is at most 1, and the call
  does nothing (`Cancelling.UndoMayAddExactly`).
- After `stopInfiniteTrain` the guard of `ticks2Times` lets `modTrainLength` turn the train into a
  finite task while the worker is still in its last pulse; its decrement then wraps the empty
  counter (`Faults.ResizeAfterStopExactly`). In the other direction there is no guard, although a
  comment says so: `modTrainLength(0)` for a finite task is accepted wherever the worker is. It then
  runs an infinite train if the number of tasks that stay counted is odd, and turns in its loop for
  ever if it is even and not 0; a task in progress stays counted unless the worker has already come to
  its decrement (`Modes.IntoInfiniteExactly`, `Modes.TurnsForEver`). `times2Ticks` has no such
  guard at all (`Timing.FreqMakesInfiniteExactly`); a started train that it makes finite goes on, and
  `stopInfiniteTrain` then refuses to end it (`Modes.RunawayTrain`).
- The manual says that pulse parameters never change inside a train. The cached timers do not
  (`Requests.BoundaryOnly`), but the loop reads the delay and duration fields and the number of
  pulses directly, so a `modDelay` in the middle adds or drops low callbacks, and a
  `modTrainLength` lengthens or shortens the train (`Faults.TrainChangesMidway`; for any one store
  `Trains.RetimedTrainCalls`, and exactly when it changes nothing `Trains.RetimedTrainExactly`).
- `configureTurnaroundSleeper` does not take the turnaround off, so accuracy level 1 never spins
  after it has slept (`Clocks.WaitInline1`).
- `ticks2Times` adds delay and duration in 32 bits; the two descriptions agree exactly when the sum
  fits (`Timing.TicksAgreeExactly`). The tick constructor calls it before `nPulses` and `doTask`
  are set. `times2Ticks` accepts frequency 0. The array end functions ignore its refusal.
- The limits callback accepts a position equal to the end, from which the walk runs away
  (`ArrayWalk.SetPosStaysInsideExactly`, `ArrayWalk.SetLimitsStaysInsideExactly`,
  `ArrayWalk.RunsAway`).

## Model

| member | source | states |
|---|---|---|
| Words.PackAbs | pulsedThread.h:45-52 | a word is determined by its count and its three signals |
| Words.AbsPack | pulsedThread.h:45-52 | every count below 2^29 with any signals is a word that reads back the same |
| Words.RaiseRefines | pulsedThread.cpp:570 | setting a signal sets that signal of the record and nothing else |
| Words.ClearRefines | pulsedThread.cpp:80-103 | the consuming subtractions clear exactly their signal if and only if it is set |
| Words.DecrementRefines | pulsedThread.cpp:281 | the decrement takes one task off and keeps the signals if and only if the count is at least 1 |
| Words.AddTaskRefines | pulsedThread.cpp:416-418 | DoTask adds one task below the bound, never touching a signal |
| Words.AddTasksRefines | pulsedThread.cpp:435-437 | below 2^29 DoTasks adds all tasks when they fit and none otherwise, never touching a signal |
| Words.AddTasksExact | pulsedThread.cpp:435-437 | DoTasks takes all or none on every word if and only if fewer than 2^29 tasks are asked for |
| Words.AdjustRefines | pulsedThread.cpp:470-479 | the three branches of DoOrUndoTasks on the record, decided by the exact integer sum |
| Words.AdjustClampsExactly | pulsedThread.cpp:463-479 | DoOrUndoTasks scrunches the sum between 0 and the first signal bit, keeping signals, exactly under the stated conditions |
| Bits.SignalsAreMasks | pulsedThread.h:49-52 | the signal tests are the program's bit masks, for every 32-bit word |
| Bits.CountIsMask | pulsedThread.cpp:470 | the count is the word with the signal bits masked off |
| Bits.RaiseDelayIsOr | pulsedThread.cpp:570 | raising the delay signal is the program's bitwise or |
| Bits.RaiseDurIsOr | pulsedThread.cpp:589 | raising the duration signal is the program's bitwise or |
| Bits.RaiseCustomIsOr | pulsedThread.cpp:807 | raising the custom signal is the program's bitwise or |
| Safety.LockStep | pulsedThread.cpp:58-112 | every step keeps mutual exclusion between the worker and all controllers |
| Safety.NoLostWakeup | pulsedThread.cpp:58-60 | in every run a blocked worker has an empty word, or the writer still holds the lock and its enabled signal wakes it |
| Safety.DecrementNeverBorrows | pulsedThread.cpp:279-283 | in every supported run the worker decrements only finite tasks and always with a count of at least 1 |
| Safety.TasksConserved | pulsedThread.cpp:279-283 | in every supported run tasks accepted equal tasks completed plus tasks counted minus adjustments |
| Safety.AdjustedOnlyBy | pulsedThread.cpp:450-483 | for finite tasks only UnDoTasks and the saturating branches adjust the tally, by the change they make |
| Safety.StepRefinesRecord | pulsedThread.cpp:410-483 | in every supported run every step of the packed word is the step of the record in unbounded arithmetic |
| Freshness.TimersFresh | pulsedThread.cpp:62-112 | in every supported run each private timer is the shared field, or its signal is pending, or a store awaits its signal, or the news was discarded |
| Freshness.TasksStartFresh | pulsedThread.cpp:105-112 | without discarded news or unfinished stores every task, and every pulse of an infinite train, starts with the timers of the current fields |
| Freshness.StartsOnlyWhenAbout | pulsedThread.cpp:105-112 | a task or pulse is started only where the worker has just consumed the signals or found none, and none is pending |
| Staleness.DelayFreshExactly | pulsedThread.cpp:450-483 | after any task call or modCustom the worker starts its next task or pulse with the current delay if and only if it had it already, was about to look, or the signal is up and the call does not overwrite the word |
| Staleness.DurFreshExactly | pulsedThread.cpp:450-483 | the same for the duration |
| Staleness.UntoldFreshExactly | pulsedThread.cpp:637-645 | after the unsignalled stores of modTrainDur the timers hold the new values if and only if they did before, or the worker was about to look anyway |
| Staleness.RequestRunsExactly | pulsedThread.cpp:801-815 | a custom request pending at a call runs, alone, if and only if the call neither overwrites the word nor installs another request |
| Staleness.StaleDelayHappens | pulsedThread.cpp:453 | modDelay and then UnDoTasks leads to a train that starts with the old delay |
| Staleness.StaleDurHappens | pulsedThread.cpp:453 | modDur and then UnDoTasks leads to a train that starts with the old duration |
| Requests.EveryRequestAccounted | pulsedThread.cpp:801-815 | every locking modCustom request is pending, has run, was overwritten while pending or was discarded, in one way only, and callbacks run in order |
| Requests.RequestsRunOnce | pulsedThread.cpp:101-104 | with nothing pending, a request neither overwritten nor discarded has run exactly once |
| Requests.BoundaryOnly | pulsedThread.cpp:157-196 | whatever controllers do, timers do not change and custom callbacks do not run inside a finite task or inside a pulse of an infinite train |
| Trains.InfiniteNeverDecremented | pulsedThread.cpp:278-283 | while the task stays an infinite train its count is 0 or 1 and nothing is counted off |
| Trains.StopsWithinOnePulse | pulsedThread.cpp:156-234 | while a train stays stopped hiFunc is called at most once more, only by a worker past its test, and every pulse begun is finished |
| Trains.StopTheorem | pulsedThread.cpp:548-555 | whatever other controllers do after stopInfiniteTrain writes 0, until somebody starts the train again at most one more high callback occurs, and outside the loop no pulse is left unfinished |
| Modes.StoppedTrainRests | pulsedThread.cpp:156-234 | the worker alone with a stopped train makes at most 44 steps, with at most one more high callback, and where no step is left sleeps on an empty word with every pulse finished |
| Modes.StopSleeps | pulsedThread.cpp:548-555 | after a whole stopInfiniteTrain the worker alone comes to sleep on an empty word within 44 steps and one high callback |
| Modes.IntoInfiniteExactly | pulsedThread.cpp:598-611 | modTrainLength(0) for a finite task is accepted wherever the worker is; an infinite train then runs if and only if the number of tasks that stay counted is odd, and the worker turns for ever when it is even and not 0 |
| Modes.StaysAdrift | pulsedThread.cpp:155-156 | on an even number no infinite train runs and no further task is taken off, in any run of the worker, which finds out within five steps and then, unless the number is 0, always has a step |
| Modes.TurnsForEver | pulsedThread.cpp:155-156 | from then on it never makes a callback or counts a task off |
| Modes.QueuedHappens | pulsedThread.cpp:429-441 | a finite task queued twice with the worker at the top of its loop is reached |
| Modes.RunawayTrain | pulsedThread.cpp:548-549 | a started infinite train that modTrainDur makes finite goes on until somebody writes the word, and stopInfiniteTrain acts again only when the length is back at 0 |
| Traces.TaskEmitsItsLog | pulsedThread.cpp:117-277 | in the step system a finite task that starts with fresh timers and is not retimed emits exactly the log of the imperative worker, whatever the controllers do meanwhile |
| Traces.PulseEmitsItsLog | pulsedThread.cpp:197-234 | so does each pulse of an infinite train |
| Traces.SupportedTaskEmitsItsLog | pulsedThread.cpp:105-277 | in every supported run, when no news was discarded and no store is under way, every task or pulse that starts and is not retimed emits the log of the current fields |
| Traces.TraceIsHeard | pulsedThread.cpp:56-287 | in every run the high and low callbacks counted are those of the emitted events |
| Trains.SteadyTrainCalls | pulsedThread.cpp:241-272 | between stores to the timing fields a train calls high and low once for each pulse passed, whatever else controllers do |
| Trains.RetimedTrainCalls | pulsedThread.cpp:241-272 | a train with one store to a timing field somewhere in it has the new number of pulses, or those begun if more, and each half is heard by the fields of its moment |
| Trains.RetimedTrainExactly | pulsedThread.cpp:241-272 | the store leaves the number of pulses, the low and the high callbacks of the untouched train if and only if a condition on the two values and the worker's place holds |
| Drain.EveryRunDrains | pulsedThread.cpp:56-283 | from every state in which no controller holds the lock, every run of the worker without further steps of controllers, with whatever end functions choose, has a length bounded beforehand, completes one task for each taken off the count, and where no step is left it sleeps on an empty word having completed exactly the counted tasks |
| Drain.Drains | pulsedThread.cpp:56-283 | such a run to sleep exists from every such state |
| Drain.NeverStuckNeverForever | pulsedThread.cpp:56-283 | without further steps of controllers the worker always has a step until it sleeps, and each step lowers a lexicographic measure |
| Faults.UndercutExactly | pulsedThread.cpp:465-483 | after DoOrUndoTasks(n) inside a finite task, from its choice to the lock of its decrement, in every run of the worker the decrement takes one task off if and only if the sum of the count and n is in the stated range |
| Faults.UndercutComes | pulsedThread.cpp:279-283 | that decrement is reached |
| Faults.ClampMissed | pulsedThread.cpp:471-472 | DoTasks(3) and DoOrUndoTasks(-5) lead to a count of 1 |
| Faults.OverfullHappens | pulsedThread.cpp:435-436 | DoTask and DoTasks(2^29) lead to one counted task and a signal that nobody raised |
| Faults.AdjustKeepsTaskExactly | pulsedThread.cpp:471-479 | the sums for which DoOrUndoTasks leaves a running task counted |
| Faults.UndercutHappens | pulsedThread.cpp:477 | DoOrUndoTasks(-1) on one running pulse leads to a word of all ones |
| Faults.ResizeAfterStopExactly | pulsedThread.h:196-201 | after a stop the guard accepts a finite length; the decrements that follow are sound if and only if the worker has left its task, and then in every supported run |
| Faults.ResizeMidPulseHappens | pulsedThread.cpp:548-555 | a stopped train with the worker still in its pulse is reached |
| Faults.UndoAddsTask | pulsedThread.cpp:450-457 | UnDoTasks with only a signal pending leaves one task, and discards the signal |
| Cancelling.UndoWriteExactly | pulsedThread.cpp:453 | the write leaves one task and no signal, and adds one if and only if none is counted |
| Cancelling.UndoAddsExactly | pulsedThread.cpp:450-457 | while no other controller writes the word, a call adds a task if and only if the worker completes all those counted at its unlocked test before its write |
| Cancelling.UndoMayAddExactly | pulsedThread.cpp:451 | a call for a finite task may find none counted at its write if and only if the word is above 1 at its test |
| Cancelling.UndoTooLate | pulsedThread.cpp:450-457 | with two tasks asked for and two completed UnDoTasks leaves a third, without a signal |
| Faults.TrainChangesMidway | pulsedThread.cpp:257-258 | modDelay between two pulses gives one train of two pulses with one low callback |
| Clocks.TimerAdd | pulsedThread.cpp:127 | timeradd on normal forms adds microseconds, also in place |
| Clocks.TimerSub | pulsedThread.h:171 | timersub on normal forms subtracts microseconds, also in place |
| Clocks.TimerLess | pulsedThread.h:173 | timercmp on normal forms compares microseconds |
| Clocks.ConfigureTimer | pulsedThread.h:149-152 | every unsigned number of microseconds is split exactly into normal form |
| Clocks.ConfigureSleeper | pulsedThread.h:120-124 | every unsigned number of microseconds is split exactly into seconds and nanoseconds |
| Clocks.ConfigureTurnaroundSleeper | pulsedThread.h:128-136 | sleeps for 200 microseconds and more, with the whole period in the sleeper |
| Clocks.DoubleQuotientTruncates | pulsedThread.h:121 | the truncated double quotient is the integer quotient, for every unsigned argument |
| Clocks.Spin | pulsedThread.h:144 | the spin loop ends at or after the end time and within one reading of it, and reads the clock once more than it was too early |
| Clocks.WaitInline1 | pulsedThread.h:139-145 | level 1 sleeps exactly once if it sleeps, returns at or after the end time, and does not spin when it slept for the whole period |
| Clocks.WaitInline2 | pulsedThread.h:166-180 | level 2 returns at or after the end time, within a slack of the later of it and its start, sleeps at most once and never past the end time less the turnaround, and does sleep when that is far enough away |
| Deadlines.NoDrift | pulsedThread.cpp:114-116 | without stalls, when callbacks and slack fit into every period, every wait ends within the slack of its deadline, for any number of waits |
| Deadlines.CatchUpStep | pulsedThread.cpp:208-210 | whatever happened before, a wait without a stall lowers the lateness by its period less work and slack, and no wait lowers it by more than its period |
| Deadlines.CatchUp | pulsedThread.cpp:208-229 | after any stall m waits with room to spare lower the lateness m times, down to the slack |
| Deadlines.Recovers | pulsedThread.cpp:251-269 | after any stall a computable number of waits brings the worker back on schedule, where it stays |
| Deadlines.RecoversNoSooner | pulsedThread.cpp:251-269 | there are chains on which no smaller number does |
| Deadlines.StallIsKept | pulsedThread.h:166-180 | a wait may end late by any amount in the chains these results are about |
| Logs.TasksAlternate | pulsedThread.cpp:241-275 | N train tasks alternate high and low throughout, with n of each per task and N end functions |
| Logs.TrainKeepsFrequency | pulsedThread.cpp:241-272 | at level 2 the k-th cycle of a train ends k periods after the start and at most the slack later |
| Logs.TrainRecovers | pulsedThread.cpp:241-272 | after a stall anywhere in a train its later waits end on the schedule it had from the start, for a computable number of waits |
| Logs.LoopKeepsSchedule | pulsedThread.cpp:156-230 | at level 2 the k-th pulse of an infinite train ends when the time its pulses asked for is over and at most the slack later, for every k and however often it is retimed |
| Logs.LoopRecovers | pulsedThread.cpp:156-230 | after a stall anywhere in an infinite train its later waits end on the schedule it had from the start, after a computable number of waits |
| Logs.SteadyBeats | pulsedThread.cpp:156-230 | without retiming k pulses ask for k periods |
| Logs.AllowedIsAsked | pulsedThread.cpp:113-277 | the time a log is allowed at levels 0 and 1 is the time it asks for and a fixed amount for each wait and each callback |
| Levels.PulseLevels | pulsedThread.cpp:119-149 | a single pulse is low for the delay, then high for the duration, and ends low |
| Levels.TrainLevels | pulsedThread.cpp:241-272 | a train of n pulses is high n times the duration and low n times the delay |
| Levels.LoopLevels | pulsedThread.cpp:156-234 | an infinite train is high for the durations of its pulses and low for their delays |
| Levels.BeatOrder | pulsedThread.cpp:156-234 | a pulse of an infinite train calls the custom callback first, then high, then low if there is a delay, and the end function last |
| Levels.TaskEndsOnce | pulsedThread.cpp:273-276 | a task calls its end function once and last |
| Scripts.StartedExactly | pulsedThread.cpp:156 | an infinite train is started at a test exactly when it was at first and nobody has stopped it since |
| Scripts.PlayedLength | pulsedThread.cpp:156-235 | of the first k pulses all are made exactly when nobody stops the train before the last, and otherwise those up to the stop |
| Scripts.PlayedBeats | pulsedThread.cpp:156-235 | each pulse has the last timing stored and the custom callback asked for since the one before |
| Scripts.LeftInPeace | pulsedThread.cpp:156-235 | a started train that nobody touches makes every pulse, all alike and without custom callbacks |
| Pulses.Worker.Setup | pulsedThread.cpp:22-50 | the first configuration gives timers of the fields at every level |
| Pulses.Worker.ConfigureDelay | pulsedThread.cpp:67-79 | the delay timers of the accuracy level hold the delay field |
| Pulses.Worker.ConfigureDur | pulsedThread.cpp:86-98 | the duration timers of the accuracy level hold the duration field |
| Pulses.Worker.Wait | pulsedThread.cpp:244-255 | a wait is one sleep of its period at level 0 and at most one at the others; it lasts at least its period at levels 0 and 1 and without a jolt no longer than the usual bounds; at level 2 it extends the chain of deadlines |
| Pulses.Worker.WaitFromNow | pulsedThread.cpp:247-250 | level 1 sleeps for the period exactly when that is not too short, and reads the clock once before and once after the sleep |
| Pulses.Worker.RunPulse | pulsedThread.cpp:119-149 | a pulse waits for a nonzero delay, goes high for the duration, and goes low |
| Pulses.Worker.RunTrain | pulsedThread.cpp:241-272 | the train loop emits its n cycles, the same at all three levels |
| Pulses.Worker.RunTask | pulsedThread.cpp:113-277 | what the clock records of a finite task is exactly its specification; at levels 0 and 1 it takes its waits and without jolts a bounded amount more for each wait and callback; at level 2 it leaves a chain of its deadlines with at most one rough lap for each jolt |
| Pulses.Worker.ConsumeSignals | pulsedThread.cpp:62-110 | consuming the signals leaves fresh timers and the bare count, and runs the custom callback if it was asked for |
| Pulses.Worker.RunQueue | pulsedThread.cpp:56-287 | the loop runs a pending custom callback and the counted number of tasks and empties the word, also when end functions raise signals each time |
| Pulses.Worker.RunBeat | pulsedThread.cpp:156-234 | once around the loop of an infinite train emits a pending custom callback, the pulse of the current fields and the end function, consumes the signals and leaves the word otherwise alone |
| Pulses.Worker.RunLoop | pulsedThread.cpp:156-235 | of k pulses of an infinite train exactly those are made that the moves of others, given as a script, call for, and the word and fields end as the script leaves them |
| Pulses.Worker.RunInfinite | pulsedThread.cpp:113-235 | the same from the choice of the task, with the pace of levels 0 and 1 and the deadlines of level 2 |
| Timing.TicksAgreeExactly | pulsedThread.h:185-207 | ticks2Times followed by times2Ticks gives back the ticks if and only if delay plus duration fits 32 bits |
| Timing.TimesMean | pulsedThread.h:203-206 | the stored frequency, duty cycle and train duration are those of n pulses of that period and that share high |
| Timing.TicksAreRounded | pulsedThread.h:220-223 | the stored delay, duration and number of pulses are the nearest integers |
| Timing.ChangeAgreesExactly | pulsedThread.cpp:562-662 | from an agreeing state a timing call or array end function leaves an agreeing state if and only if it passes the stated check |
| Timing.AgreeAlways | pulsedThread.cpp:562-662 | the descriptions agree after every sequence of calls that pass their checks |
| Timing.TickConstructorAgrees | pulsedThread.cpp:304-315 | whatever the unset fields hold, the tick constructor refuses or agrees |
| Timing.TrainDurKeepsTicks | pulsedThread.cpp:637-645 | modTrainDur, which raises no signal, leaves delay and duration as they are |
| Timing.FreqMakesInfiniteExactly | pulsedThread.cpp:620-632 | a new frequency gives an infinite train exactly when less than half a pulse fits |
| Timing.TrainDurMakesInfiniteExactly | pulsedThread.cpp:637-645 | a new train duration gives an infinite train exactly when less than half a pulse fits |
| Timing.PeriodWithin | pulsedThread.h:220-222 | delay plus duration is within one microsecond of the period |
| Timing.DutyWithin | pulsedThread.h:220-222 | the realised duty cycle is within half a microsecond's share of the request |
| Timing.TrainWithin | pulsedThread.h:220-223 | the realised train lasts as requested up to half a period and a microsecond per pulse |
| FloatTiming.FloatRoundTrip | pulsedThread.h:185-229 | through every float and double rounding the original three integers come back, for periods and pulse numbers up to 2^20 |
| FloatTiming.WithoutRounding | pulsedThread.h:185-229 | without rounding the floating-point conversions are those over the reals |
| ArrayWalk.WalkIsModular | pulsedThread.cpp:1015-1018 | k end functions move the position k further modulo the section, always reading inside it |
| ArrayWalk.WalkVisitsAll | pulsedThread.cpp:1015-1018 | every position of the section is reached within one round |
| ArrayWalk.SetPosStaysInsideExactly | pulsedThread.cpp:723-735 | after setEndFuncArrayPos every later read is inside the section exactly when it is not empty and the new position is not its end |
| ArrayWalk.SetLimitsStaysInsideExactly | pulsedThread.cpp:741-754 | after setEndFuncArrayLimits every later read is inside the new section exactly when it is not empty and the present position is not its end |
| ArrayWalk.SetPosReads | pulsedThread.cpp:723-735 | the k-th read after setEndFuncArrayPos is k further on from the position asked for, or from the start when that is outside |
| ArrayWalk.SetLimitsReads | pulsedThread.cpp:741-754 | the k-th read after setEndFuncArrayLimits is k further on from the present position, or from the new start when that is outside |
| ArrayWalk.RunsAway | pulsedThread.cpp:1015-1018 | a position on the end moves away from the section |
| ArrayWalk.PositionOnEndAccepted | pulsedThread.cpp:996-998 | the position callback accepts the end of a section of ten |
| ArrayWalk.ArrayCursor.constructor | pulsedThread.cpp:703-716 | a new array section covers the whole array and can be walked exactly when it is not empty |
| ArrayWalk.ArrayCursor.Next | pulsedThread.cpp:1015-1021 | moves on as specified and reads the value there |
| ArrayWalk.ArrayCursor.SetLimits | pulsedThread.cpp:980-998 | sets the chosen limits and the chosen position, which goes to the start only when it lies outside |
| Controller.PulsedThread.FromTicks | pulsedThread.cpp:301-325 | the tick constructor reports a refusal exactly, and otherwise stores the ticks and the times they describe |
| Controller.PulsedThread.FromTimes | pulsedThread.cpp:353-375 | the times constructor reports a refusal exactly, and otherwise its two descriptions agree |
| Controller.PulsedThread.Ticks2Times | pulsedThread.h:185-207 | refuses exactly as coded and otherwise stores the frequency, duty cycle and train duration that the ticks describe |
| Controller.PulsedThread.Times2Ticks | pulsedThread.h:210-229 | refuses exactly as coded and otherwise stores the nearest ticks |
| Controller.PulsedThread.ModDelay | pulsedThread.cpp:562-574 | refuses exactly a zero duration, as the step system does; otherwise sets the delay and the times it describes, raises its signal, keeps the count and the agreement |
| Controller.PulsedThread.ModDur | pulsedThread.cpp:581-593 | refuses exactly a new duration of zero, as the step system does; otherwise sets the duration and the times it describes, raises its signal, keeps the count and the agreement |
| Controller.PulsedThread.ModTrainLength | pulsedThread.cpp:603-611 | refuses exactly a zero duration and leaving a started infinite train, as the step system does; otherwise sets the number of pulses and the times, keeps the word and the agreement |
| Controller.PulsedThread.ModFreq | pulsedThread.cpp:620-632 | refuses exactly as coded; otherwise stores the frequency and its nearest ticks, keeps duty cycle and train duration, raises both signals, keeps the count and the agreement |
| Controller.PulsedThread.ModTrainDur | pulsedThread.cpp:637-645 | refuses exactly as coded; otherwise stores the train duration and its nearest ticks, leaves the word, and from agreement leaves delay and duration |
| Controller.PulsedThread.ModDutyCycle | pulsedThread.cpp:650-662 | refuses exactly as coded; otherwise stores the duty cycle and its nearest ticks, keeps frequency and train duration, raises both signals, keeps the count and the agreement |
| Controller.PulsedThread.FreqFromArray | pulsedThread.cpp:1011-1024 | stores the next frequency of the array whatever it is, and its nearest ticks when it is not refused, and raises both signals |
| Controller.PulsedThread.DutyCycleFromArray | pulsedThread.cpp:1029-1041 | stores the next duty cycle of the array whatever it is, and its nearest ticks when it is not refused, and raises both signals |
| Controller.PulsedThread.DoTask | pulsedThread.cpp:410-422 | adds a finite task below the bound, or starts an infinite train, leaving the signals; writes what the step system writes |
| Controller.PulsedThread.DoTasks | pulsedThread.cpp:429-441 | below 2^29 adds all tasks or none, or starts an infinite train, leaving the signals; writes what the step system writes |
| Controller.PulsedThread.UnDoTasks | pulsedThread.cpp:450-457 | leaves at most one task and no signal, and one task exactly when a task was counted or a signal pending; does what the step system does |
| Controller.PulsedThread.DoOrUndoTasks | pulsedThread.cpp:465-483 | adds a signed number in range, saturates above, keeps the parity otherwise, and does nothing to an infinite train; does what the step system does |
| Controller.PulsedThread.StartInfiniteTrain | pulsedThread.cpp:529-540 | starts an infinite train that is not started, keeping signals and count otherwise; does what the step system does |
| Controller.PulsedThread.StopInfiniteTrain | pulsedThread.cpp:548-555 | the train is not started afterwards; exactly a started one is touched, and loses its count and every signal; does what the step system does, so that Modes.StopSleeps follows |
| Controller.PulsedThread.WaitOnBusy | pulsedThread.cpp:500-524 | given what each poll sees, returns 0 exactly at the first poll that sees an empty word, otherwise the last word after the deadline, with one nap of 200 microseconds between polls, no more polls than fit, and without jolts not much later |

## Left out

- The thread function itself never ends; `RunQueue` is its loop until the word is empty, `RunLoop` an infinite train over a script of moves of any length, and the steps of `Machine.dfy` go on for ever.
- RunLoop: between two tests of the loop the script may retime, ask for a custom callback or stop, but not stop and start again with a signal pending; that loss is in `Staleness.dfy`. Stores in the middle of a pulse are in `Machine.dfy` only.
- The custom callback of `RunQueue` and `RunLoop` changes nothing but the time; locking takes time only when a controller holds the mutex, which counts as a jolt.
- `Controller.dfy` runs each method without interruption; interleavings of the same writes are in `Machine.dfy`, on values.
- In the step system the three timing stores of an array end function are one step and its signal write another; the signal write is made outside the lock, as in the code, and taken as atomic.
- Memory is sequentially consistent; torn reads and compiler reordering of the unlocked accesses are not modelled.
- Custom callbacks, hiFunc, loFunc and user end functions take bounded time and change nothing else; end functions other than the array ones leave timing alone.
- modCustom without locking runs its callback in the caller; only its effect on the array section is modelled (`ArrayCursor`).
- The raw mutex access of getTaskMutex and giveUpTaskMutex, isBusy, getters and setters: they do not write the word.
- Thread creation and destruction, initFunc, delete callbacks, priorities, allocation, and getModCustomStatus.
- WaitOnBusy: the float number of seconds is passed as whole microseconds, because only its conversion would be added.
- Conversions that C leaves undefined (frequency 0, values beyond 32 bits) are preconditions `Defined`, not outcomes.
- FloatRoundTrip: assumes of the roundings their relative error on 0 and on 10^-10 to 10^14, and exact small integers; the intermediate values are proved to lie there, and subnormal numbers and overflow are not modelled.
- cosineDutyCycleArray: its content is the library cosine.
- The Python wrappers and the greeter programs.
