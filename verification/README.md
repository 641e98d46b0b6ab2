# Verification of the kernel, the Ethernet ring and the printer

This project models the parts of the firmware in which most of its hard state lives, and proves what they promise:

- the FreeRTOS V10.3.1 kernel it carries: the intrusive list, the scheduler with its clock, priority inheritance, queues, software timers, stream and message buffers, event groups (`lib/freertos/`);
- the zero-copy Ethernet receive ring (`CM7/core/src/ethernetif.c`);
- formatted output (`lib/printf/printf.c`) and its two-pass use by the diagnostics FIFO (`common/src/diag.cpp`).

Fixed configuration: 32-bit ticks, `configMAX_PRIORITIES` 7, preemption, mutexes, task suspension and tickless idle on, no queue sets, nine receive descriptors. `configUSE_TIMERS` is 0 in both configurations; the timers are modelled as the kernel carries them, for when they are switched on.

`dafny verify dfyconfig.toml` checks everything.

## How it is built

Code that changes things in place is written as classes, methods and loops; what they compute is said by functions on values (`ListSpec.Ring`, `Scheduler.State`, `QueueProtocol.Half`, `EventGroup.Group`, `RxRing.Ring`, `PrintfText.Text`), and the promises are lemmas about those values and about runs of steps on them.

| file | what it holds |
|---|---|
| `ListSpec.dfy`, `List.dfy` | the circular list with its cursor: pointer code (`Lists.List`) against a sequence |
| `Numbers.dfy`, `Options.dfy`, `Ticks.dfy` | minimum and maximum, ring positions, optional values, 32-bit ticks |
| `ItemTable.dfy` | all list items of one kind together with the list each is in |
| `Scheduler.dfy`, `SchedulerOps.dfy`, `SchedulerTasks.dfy` | the kernel's state, its invariant, and what each kernel function makes of it |
| `Kernel.dfy` | those functions as imperative code, with the tick and resume loops |
| `SchedulerTurns.dfy` | who runs next: turns among equals, the order of those who wait, and when a switch is asked for |
| `SchedulerRuns.dfy` | whole runs: the invariant, exact delays, no tick lost, the most urgent task runs, the partition of the tasks over the lists |
| `Timeouts.dfy` | block-time budgets and periodic delays |
| `MutexProtocol.dfy` | priority inheritance over all interleavings of taking, waiting, timing out and giving |
| `QueueProtocol.dfy`, `Queue.dfy` | lost wake-ups under the queue lock; the ring buffer and the critical sections |
| `Timers.dfy`, `TimerDaemon.dfy` | timer expiry under the wrap; the daemon's lists and loops |
| `StreamBuffer.dfy`, `MessageProtocol.dfy` | the byte ring and its framing; writer and reader interleaved byte by byte |
| `EventGroup.dfy` | waiting for bits, waking by list walk, rendezvous |
| `RxRing.dfy` | descriptors and buffers going round between DMA, driver and pbufs |
| `PrintfText.dfy`, `Printf.dfy` | the text of a format; the code that emits it through a gadget |
| `PrintfStandard.dfy` | what the C standard asks of integers and strings, and exactly when the code prints it |

Time is unbounded in the specifications (`State.Now`, `AutoTimer.now`) and 32 bits wide in the code; that the one implements the other is part of what is proved.

## What was found

- **`int8_t` lock counts** (`lib/freertos/queue.c:1095`): the 128th interrupt post in one lock window makes the count negative, and every wake-up it stood for is lost. `QueueProtocol.LockCountMustNotWrap` gives the exact condition, for both counts; `QueueProtocol.LockCountCanWrap` is a run that gets there.
- **An assertion in `xQueueSemaphoreTake` that can fail** (`lib/freertos/queue.c:1509`): when the block time of a task that has lent its priority runs out just as the mutex is given back, it goes round once more with `xTicksToWait` 0 (`lib/freertos/tasks.c:3327`). If another task takes the mutex first, `configASSERT( xInheritanceOccurred == pdFALSE )` stops the firmware. `MutexProtocol.WhatRetriesMeet` gives the exact condition, `MutexProtocol.AssertionTakesARival` says what it takes in any run, `MutexProtocol.AssertionIsMet` is such a run.
- **Overwriting on a semaphore** (`lib/freertos/queue.c:2083-2141`): on a full semaphore of length one, which the assertion of `xQueueGenericSend` accepts, `queueOVERWRITE` makes the count 2. `Queue.Queue.Send` says exactly when the count stays within the length.
- **Block-time checks two wraps apart** (`lib/freertos/tasks.c:3274-3334`): `Timeouts.ExactUnlessMissed` gives the exact condition under which an expired budget is taken for a running one; `Timeouts.MissedExists` is an instance.
- **`vTaskDelayUntil` more than one wrap late** (`lib/freertos/tasks.c:1266-1316`): right exactly under the condition in `Timeouts.DelayUntilIsRight`; `Timeouts.LateBlockExists` is an input for which it is not.
- **Timer commands a full wrap old** (`lib/freertos/timers.c:693-731`): `Timers.PlacementNeedsTheBound` gives the exact condition under which an expired timer is still recognised; `Timers.ForgottenTimerExists` is one that is not.
- **Old lengths in the receive ring** (`CM7/core/src/ethernetif.c:1257-1262`): the length field is read before the DMA pointer. If the DMA had not completed the descriptor by then, what is read is 0, if the descriptor had been prepared, or else the length of the ninth frame before, still in `DESC3`. `RxRing.LengthIsRight` says exactly when the length a frame is taken for is its own; `RxRing.BlankLengthHappens` and `RxRing.StaleLengthHappens` are runs in which it is not, the second one because a free writes `DESC0` before and `DESC3` after the input task reads them.
- **Stale buffer address in the receive ring** (`CM7/core/src/ethernetif.c:1257-1267`): if all eight buffers are out when `DESC0` is read, and a pbuf is freed and refilled before `DMACCARDR` is read, the buffer handed out may be one that another pbuf owns (`RxRing.OvertakenSharesABuffer`; `RxRing.OvertakingHappens` is such a run from initialisation on). The ring's invariant holds all along a run if and only if this does not happen (`RxRing.ValidIffCalm`), that is, if reading `DESC0` again after `DMACCARDR` would always give the same address. It does harm if and only if the input task then parts with a buffer that is elsewhere too, or hands out one that does not hold the frame (`RxRing.WholeIffHarmless`).
- **The ninth receive buffer** is given up at the first recycling, because the descriptor at the tail is prepared anew without having been used: eight buffers circulate (`RxRing.EightBuffers` in the invariant).
- **Turns can be lost** (`lib/freertos/list.c:74-100` and `183-186`): a running task that leaves its ready list and comes back before a switch does not always come last: the cursor has stepped back to the task in front of it, which is now met after it. `ListSpec.ReturningOvertakes` says exactly when.
- **`list.h` documentation of `vListInsertEnd`** says that a new item comes after all others in cursor order. The item under the cursor, which has just been returned, comes after it (`ListSpec.InsertEndIsLast`).
- **Looking at a message's length while the writer is at work** (`lib/freertos/stream_buffer.c:817-858`): `xStreamBufferNextMessageLengthBytes`, and a receiver whose memory is too small, move `xTail` and put it back. If the writer has been given that room meanwhile, a full buffer looks as if it held at most three bytes; `MessageProtocol.ValidIffUndisturbed` and `MessageProtocol.PutBackExactly` give the exact condition, `MessageProtocol.OverrunHappens` is such a run. And the assertion that there is more than a length or nothing fails exactly if the writer is between its two publications and all before has been received (`MessageProtocol.LookFindsLengthOnly`, `MessageProtocol.LookCanStop`).
- **Message lengths of 2^32 - 4 and more** (`lib/freertos/stream_buffer.c:628`): `xStreamBufferSendFromISR` adds the length of the prefix without the check that `xStreamBufferSend` makes; `StreamBuffer.StreamBuffer.SendFromISR` says when that ends in an assertion.
- **Integers and the C standard** (`lib/printf/printf.c:472-567`, `1069-1100`): `PrintfStandard.IntegerAsStandard` gives the exact condition, on the format and the arguments, under which a conversion `d`, `i`, `u`, `x`, `X` or `o` is printed as section 7.21.6.1 of ISO/IEC 9899:2011 asks for. There are three ways to fail: width or precision of 2^32 and more; sign, prefix and digits that do not fit the digit buffer of 32 characters; and a negative argument for the precision.
- **Negative precisions** (`lib/printf/printf.c:1088-1097`): paragraph 5 of that section takes a negative `*` precision as if it were omitted; the code takes it for 0. So `%.*d` of -1 and 0 prints nothing (`PrintfStandard.WithdrawnIsMissed`), `%05.*d` loses its zeros, and `%.*s` prints no character of the string. `PrintfStandard.WithdrawnExactly` and `PrintfStandard.StringAsStandard` say exactly when it makes no difference.
- **`%llb`** prints the low 32 binary digits only (`PrintfText.DigitsDenote`).
- **`%lln`** (`lib/printf/printf.c:1337-1349`) stores a `long`, because `ll` sets the flag for `l` as well, which is looked at first (`PrintfText.StoresAsAsked`).
- **`carbon_diag_push`** (`common/src/diag.cpp:59-67`) uses its argument list again after `va_end`. `Printf.DiagPush` takes both passes to read the same arguments, as the code intends.

## Model

| member | source | states |
|---|---|---|
| ListSpec.InsertPosUnique | lib/freertos/list.c:137-167 | the place `vListInsert` searches for is the only one with smaller-or-equal values in front and a greater one behind |
| ListSpec.InsertKeepsSorted | lib/freertos/list.c:103-167 | inserting there keeps the list sorted and is stable: equal values stay in front |
| ListSpec.InsertSortedKeepsCursor | lib/freertos/list.c:103-167 | the cursor stays on its item, wherever the new one goes |
| ListSpec.AdvanceRotates | lib/freertos/tasks.c:144-147 | taking the next entry returns the head of the order to come and sends it to the back |
| ListSpec.InsertEndIsLast | lib/freertos/list.c:74-100 | an item inserted at the end is the last the cursor meets, but for the one it stands on |
| ListSpec.RemoveKeepsTurns | lib/freertos/list.c:170-196 | whichever item is removed, the cursor meets all others in the same order as before |
| ListSpec.LeavingKeepsTurns | lib/freertos/list.c:183-186 | removing the item under the cursor, which has had its turn, leaves the next one in turn the same |
| ListSpec.ReturningOvertakes | lib/freertos/list.c:74-100 | if that item is inserted again at once, it comes last exactly if it was the first of the list; otherwise it is met before one of the others |
| ListSpec.WalkIsFair | lib/freertos/list.c:74-100 | while nothing is removed, every item but the one under the cursor is returned after exactly its present distance, however many insertions come between |
| Lists.List.InsertEnd | lib/freertos/list.c:74-100 | the pointer writes keep a closed doubly linked circle and do to items and cursor what the sequence view says |
| Lists.List.FindPredecessor | lib/freertos/list.c:120-158 | the search ends, for `portMAX_DELAY` too, at the item after which the value belongs |
| Lists.List.Insert | lib/freertos/list.c:103-167 | sorted, stable insertion on pointers refines insertion into the sequence |
| Lists.ListRemove | lib/freertos/list.c:170-196 | removes exactly that item, keeps the order of the others and does to the cursor what keeps their turns |
| Lists.List.NextEntry | lib/freertos/tasks.c:144-147 | advances past the end marker to a live item |
| Scheduler.DeadlinesAhead | lib/freertos/tasks.c:5214-5246 | whatever list a delayed task is in, its unbounded deadline lies ahead by less than one wrap |
| Scheduler.EmptyAtSwitch | lib/freertos/tasks.c:198-210 | the delayed list is empty whenever the two lists are swapped, as the code asserts |
| Scheduler.AdvancedKeeps | lib/freertos/tasks.c:2707-2735 | one tick of the wrapping counter with its list swap is one tick of the unbounded clock and moves no deadline |
| Scheduler.DrainIsFullScan | lib/freertos/tasks.c:2742-2815 | taking expired heads off one list readies exactly the tasks a scan of all delayed tasks against the unbounded clock would |
| Scheduler.SkipIsSafe | lib/freertos/tasks.c:2736-2740 | below `xNextTaskUnblockTime` no task is due |
| Scheduler.TickedIsFullScan | lib/freertos/tasks.c:2707-2816 | the whole fast tick catches up with the clock by one tick: exactly the tasks due are ready, every other deadline is unchanged, the invariant holds |
| Scheduler.CaughtUpTwice | lib/freertos/tasks.c:2248-2276 | catching up by n and then m ticks is catching up by n + m, so replaying pended ticks loses nothing |
| SchedulerOps.DelayedKeeps | lib/freertos/tasks.c:5177-5247 | a delay of d adds exactly the deadline now + d, whichever list the wrapped wake time goes to |
| SchedulerOps.BlockedOnKeeps | lib/freertos/tasks.c:3064-3080 | blocking on an object keeps the invariant and gives the task its deadline, or none for an indefinite wait |
| SchedulerOps.EventWokenNow | lib/freertos/tasks.c:3156-3178 | an event takes the first waiter off both lists into the ready list of its priority and touches nobody else |
| SchedulerOps.EventWokenLater | lib/freertos/tasks.c:3179-3184 | with the scheduler suspended it waits in the pending list instead, its deadline standing |
| SchedulerTasks.ReprioritisedKeeps | lib/freertos/tasks.c:4034-4070 | changing a priority keeps a ready task in the list of its own priority |
| SchedulerTasks.FirstReadyIsHighest | lib/freertos/tasks.c:115-150 | the downward search for a ready list ends at the highest ready priority |
| SchedulerTasks.SelectedIsHighest | lib/freertos/tasks.c:2989-3042 | the task switched to is ready and outranked by no ready task |
| SchedulerTurns.SelectedIsOnTurn | lib/freertos/tasks.c:127-150 | choosing a task leaves the cursor of its list on it |
| SchedulerTurns.TurnPasses | lib/freertos/tasks.c:115-150 | when the task on turn leaves its ready list, the next of its equals in turn gets the processor |
| SchedulerTurns.DelayedLeaves | lib/freertos/tasks.c:5177-5247 | that is what a delay does, the turns of the others staying as they were |
| SchedulerTurns.BlockedOnLeaves | lib/freertos/tasks.c:3064-3080 | so does blocking on an object |
| SchedulerTurns.SuspendedLeaves | lib/freertos/tasks.c:1714-1746 | so does suspension of the running task |
| SchedulerTurns.DeletedSelfLeaves | lib/freertos/tasks.c:1170-1215 | so does its deletion |
| SchedulerTurns.ReadiedIsLast | lib/freertos/tasks.c:218-222 | a readied task comes last in turn, but for the one the cursor stands on |
| SchedulerTurns.CreatedIsLast | lib/freertos/tasks.c:1134 | so does a new one |
| SchedulerTurns.ReprioritisedIsLast | lib/freertos/tasks.c:4044-4062 | so does one whose priority changes |
| SchedulerTurns.BlocksInOrder | lib/freertos/tasks.c:3064-3080 | a task that blocks joins the waiters in front of the first less urgent one and behind all as urgent; nobody else moves, and the order by event value is kept |
| SchedulerTurns.WakesMostUrgent | lib/freertos/tasks.c:3138-3184 | waking takes the first waiter off, whom nobody who waits outranks; the others keep their order |
| SchedulerTurns.SharesSliceExactly | lib/freertos/tasks.c:2818-2831 | the time slice ends exactly if another task is in the ready list of the running task's priority |
| SchedulerTurns.TickAsksExactly | lib/freertos/tasks.c:2707-2868 | with nobody more urgent before, the tick asks for a switch if and only if a yield is pending or another ready task is as urgent as the running one afterwards |
| SchedulerTurns.WakeAsksExactly | lib/freertos/tasks.c:3186-3203 | waking leaves a yield pending if and only if one was, or the running task is outranked afterwards |
| SchedulerTurns.WakeLaterAsksExactly | lib/freertos/tasks.c:3179-3203 | with the scheduler suspended, if and only if one was, or the task that has become pending outranks the running one |
| SchedulerTurns.CreateAsksExactly | lib/freertos/tasks.c:1140-1151 | creating a task asks for a switch if and only if the running task is outranked afterwards |
| SchedulerTurns.ResumeAsksExactly | lib/freertos/tasks.c:1864-1885 | resuming one, if and only if another ready task is as urgent afterwards |
| SchedulerTurns.PendingAskExactly | lib/freertos/tasks.c:2212-2235 | moving the pending tasks, if and only if one was asked for or one of them is as urgent |
| SchedulerTurns.PendingKeepTurns | lib/freertos/tasks.c:2212-2235 | the pending tasks of one priority get their turns in the order in which they became pending |
| SchedulerTurns.ResumesSettles | lib/freertos/tasks.c:2194-2301 | after resuming the scheduler nobody outranks the running task unless a yield is pending |
| SchedulerTurns.RearmedIsArmed | lib/freertos/tasks.c:3943-3964 | `xNextTaskUnblockTime` is set to the earliest wake time of the current list, and to the maximum if there is none |
| SchedulerTurns.DelayedIsArmed | lib/freertos/tasks.c:5223-5240 | a delay keeps it exactly that |
| SchedulerTurns.TickedIsArmed | lib/freertos/tasks.c:2736-2815 | so does the tick |
| SchedulerTurns.SuspensionIsTold | lib/freertos/tasks.c:1805-1844 | a suspended task counts as suspended, one that waits without a timeout does not, though both are in the same list |
| Kernel.Kernel.ResetNextTaskUnblockTime | lib/freertos/tasks.c:3943-3964 | the earliest wake time of the current list, or the maximum |
| Kernel.Kernel.DrainDelayedList | lib/freertos/tasks.c:2742-2815 | the loop computes the drain and reports whether a readied task may preempt |
| Kernel.Kernel.IncrementTick | lib/freertos/tasks.c:2707-2868 | the tick interrupt is `Ticked`, or a pended tick, and asks for a switch exactly if one is pending or another ready task is as urgent as the running one |
| Kernel.Kernel.AddCurrentTaskToDelayedList | lib/freertos/tasks.c:5177-5247 | delays or parks the running task |
| Kernel.Kernel.PlaceOnEventList | lib/freertos/tasks.c:3064-3080 | queues the running task by priority and delays it |
| Kernel.Kernel.RemoveFromEventList | lib/freertos/tasks.c:3138-3203 | wakes the first waiter and reports whether it outranks the running task |
| Kernel.Kernel.ResumeAll | lib/freertos/tasks.c:2194-2301 | readies the pending tasks and catches up with all pended ticks; no yield is forgotten |
| Kernel.Kernel.MovePendingReady | lib/freertos/tasks.c:2212-2235 | readies the pending tasks one by one until the list is empty, and says whether there were any |
| Kernel.Kernel.ReplayPendedTicks | lib/freertos/tasks.c:2252-2276 | replays every pended tick once and notes every switch asked for |
| SchedulerOps.ResumingCatchesUp | lib/freertos/tasks.c:2194-2301 | those two loops, one after the other, ready the pending tasks and all tasks whose deadline has come by the time caught up with, touch no others, keep the invariant and forget no yield |
| Kernel.Kernel.PriorityInherit | lib/freertos/tasks.c:4014-4096 | raises the holder to the running task's priority if lower, moves it between ready lists, reports inheritance |
| Kernel.Kernel.IncrementMutexHeldCount | lib/freertos/tasks.c:4618-4629 | counts one more mutex for the running task, which becomes the holder |
| Kernel.Kernel.PriorityDisinherit | lib/freertos/tasks.c:4104-4176 | returns to the base priority exactly if an inherited one is held and the last mutex is given back |
| Kernel.Kernel.PriorityDisinheritAfterTimeout | lib/freertos/tasks.c:4184-4285 | leaves the holder of one mutex with the larger of base and highest waiting priority |
| Kernel.Kernel.CreateTask | lib/freertos/tasks.c:1077-1157 | a new task is ready at its priority and counted; it becomes the current one if there is none, and before the scheduler runs if none so far is more urgent; afterwards it asks to run if it is more urgent than the running one |
| Kernel.Kernel.DeleteTask | lib/freertos/tasks.c:1162-1250 | a deleted task leaves all lists and deadlines, the running one waiting for the idle task; the invariant holds, and a reschedule is forced exactly for the running task |
| Kernel.Kernel.CheckTasksWaitingTermination | lib/freertos/tasks.c:3639-3665 | empties the termination list, forgets exactly those tasks and moves no deadline |
| Kernel.Kernel.SuspendTask | lib/freertos/tasks.c:1704-1793 | takes the task off its lists into the suspended list, keeps the invariant, and yields if it is the running one; before the scheduler runs the current task hands over, to none exactly if all tasks are suspended |
| SchedulerTasks.SuspendedEarlyKeeps | lib/freertos/tasks.c:1762-1793 | that keeps the invariant, all other lists and deadlines, and the task it hands over to is ready and outranked by none |
| SchedulerTasks.AllSuspendedCounts | lib/freertos/tasks.c:1775-1782 | the suspended list is as long as there are tasks if and only if all tasks are suspended |
| Kernel.Kernel.ResumeTask | lib/freertos/tasks.c:1805-1897 | readies exactly a truly suspended task, and asks to run it if it is at least as urgent as the running one |
| Kernel.Kernel.SelectHighestPriorityTask | lib/freertos/tasks.c:127-150 | the search loop selects the head of the highest non-empty ready list |
| SchedulerRuns.BootedIsValid | lib/freertos/tasks.c:3607-3636 | the kernel with its first task satisfies the invariant |
| SchedulerRuns.StepKeeps | lib/freertos/tasks.c:2707-2816 | every tick and kernel call keeps the invariant and wakes sleepers only when due |
| SchedulerRuns.RunsStayValid | lib/freertos/tasks.c:218-222 | the invariant holds in every state of every run |
| SchedulerRuns.ExactDelay | lib/freertos/tasks.c:1341-1380 | a task that delays d ticks at T sleeps before T + d and is ready in the first state from T + d on, across any number of wraps and suspensions |
| SchedulerRuns.ExactTimeout | lib/freertos/tasks.c:3064-3080 | a task that blocks on an object for d ticks at T and is not woken waits on it before T + d, and is ready and off its list in the first state from T + d on |
| SchedulerRuns.NoTickLost | lib/freertos/tasks.c:2248-2276 | in every run the clock and the pended ticks together have gone on by as many ticks as there were interrupts |
| SchedulerRuns.MostUrgentRuns | lib/freertos/tasks.c:2986-3045 | in every run in which requests for a switch are followed, the running task is ready and nobody outranks it, unless a yield is pending or the switch is just about to be made |
| SchedulerRuns.WaitersStayInOrder | lib/freertos/tasks.c:3064-3080 | in every run that changes no priority of a waiting task, those who wait for an event are in order in every state |
| SchedulerRuns.Partition | lib/freertos/tasks.c:1077-1250 | every task is in exactly one state list, ready ones in that of their priority, in at most one event list, and both task counters are the lengths of the lists |
| Timeouts.CheckForTimeOut | lib/freertos/tasks.c:3274-3334 | the 32-bit case analysis is the unbounded check |
| Timeouts.NeverEarly | lib/freertos/tasks.c:3274-3334 | over any number of retries no timeout is reported before the budget has passed |
| Timeouts.BudgetIsExact | lib/freertos/tasks.c:3274-3334 | with fewer than two wraps between checks it expires exactly when the budget has passed, and what remains is budget minus elapsed |
| Timeouts.ExactUnlessMissed | lib/freertos/tasks.c:3274-3334 | a single check is right if and only if the case Missed does not apply |
| Timeouts.MissedExists | lib/freertos/tasks.c:3309-3324 | an input on which it is wrong |
| Timeouts.ForeverNeverExpires | lib/freertos/tasks.c:3298-3307 | a budget of `portMAX_DELAY` never expires |
| Timeouts.DelayUntil | lib/freertos/tasks.c:1266-1316 | the modular case analysis blocks exactly for the ticks left of the period modulo 2^32 |
| Timeouts.DelayUntilIsRight | lib/freertos/tasks.c:1266-1316 | the decision on 32-bit numbers agrees with unbounded time if and only if the task is less than a wrap late or does not block anyway |
| Timeouts.LateBlockExists | lib/freertos/tasks.c:1266-1316 | an input on which it blocks though the next period began long ago |
| Timeouts.NoDrift | lib/freertos/tasks.c:1268-1312 | after k calls the stored wake time is start + k periods |
| MutexProtocol.TakeKeeps | lib/freertos/queue.c:1456-1497 | taking a free mutex keeps the protocol invariant: the taker outranks all who wait |
| MutexProtocol.BlockKeeps | lib/freertos/queue.c:1548-1579 | waiting lends the holder the waiter's priority and queues by priority |
| MutexProtocol.BlockJoins | lib/freertos/queue.c:1569 | who waits joins in front of the less urgent and behind all as urgent, and nobody else moves |
| MutexProtocol.GiveKeeps | lib/freertos/queue.c:2083-2101 | giving back disinherits and wakes the most urgent waiter |
| MutexProtocol.GiveWakesFirst | lib/freertos/queue.c:839-841 | giving back wakes the first waiter, to look at the mutex again |
| MutexProtocol.TimeOutKeeps | lib/freertos/tasks.c:2778-2794 | a wait that runs out leaves the holder with a priority someone still accounts for |
| MutexProtocol.LeaveKeeps | lib/freertos/queue.c:1594-1620 | disinheriting after a timeout keeps the holder above base and waiters |
| MutexProtocol.JoinKeeps | lib/freertos/tasks.c:1077-1134 | a new task, at its own priority and without a mutex, keeps the invariant |
| MutexProtocol.RunsStayValid | lib/freertos/queue.c:1438-1625 | the invariant holds in every state of every run, going round after a timeout and finding the mutex taken included |
| MutexProtocol.HoldersOutrankWaiters | lib/freertos/tasks.c:4014-4285 | at every point a holder is at least as urgent as its base and all its waiters, `uxMutexesHeld` counts the mutexes naming the task, and without a mutex priority is base |
| MutexProtocol.NoInversion | lib/freertos/tasks.c:4014-4096 | while the holder can run, only tasks at least as urgent as each waiter run |
| MutexProtocol.LeaveIsExact | lib/freertos/queue.c:1605-1619 | the timeout path leaves the holder exactly the larger of base and most urgent remaining waiter |
| MutexProtocol.SettledIsExact | lib/freertos/tasks.c:4184-4285 | once nobody is leaving, every holder's priority is exactly that |
| MutexProtocol.TakerOutranks | lib/freertos/queue.c:1454-1456 | whoever runs and finds the mutex free outranks everyone waiting for it |
| MutexProtocol.WhatRetriesMeet | lib/freertos/queue.c:1454-1518 | a retry after the block time is up takes the mutex exactly if it is free, returns without it exactly if it is taken and nothing was inherited, runs into the assertion exactly if it is taken and priority was inherited, and can do nothing else |
| MutexProtocol.AssertionTakesARival | lib/freertos/queue.c:1501-1510 | in every run, whoever runs into the assertion has gone round with the mutex free, and has then been overtaken by somebody at least as urgent, who has the mutex still and is off the ready lists or just as urgent |
| MutexProtocol.AssertionIsMet | lib/freertos/queue.c:1501-1510 | a run of three tasks and one mutex that gets there |
| MutexProtocol.TakeIsKernel | lib/freertos/tasks.c:4618-4629 | on the kernel's tables `pvTaskIncrementMutexHeldCount` does what the protocol's taking step says |
| MutexProtocol.JoinIsKernel | lib/freertos/tasks.c:932-950 | the fields that a new task gets are those of the joining step |
| MutexProtocol.BootedIsKernel | lib/freertos/tasks.c:932-950 | so are those of the first task |
| MutexProtocol.BlockIsKernel | lib/freertos/tasks.c:4014-4096 | on the kernel's tables `xTaskPriorityInherit` does what the protocol's waiting step says, and returns what the step remembers |
| MutexProtocol.GiveIsKernel | lib/freertos/tasks.c:4104-4176 | the same of `xTaskPriorityDisinherit` and giving back; it asks for a switch exactly if the priority falls |
| MutexProtocol.LeaveIsKernel | lib/freertos/tasks.c:4184-4285 | the same of `vTaskPriorityDisinheritAfterTimeout` and giving up |
| QueueProtocol.UnlockedWakes | lib/freertos/queue.c:2171-2288 | unlocking turns min(recorded posts, waiters) into wake-ups, from the head |
| QueueProtocol.WakesFirst | lib/freertos/tasks.c:3156-3158 | an event wakes exactly the task at the front of the list |
| QueueProtocol.PeekKeeps | lib/freertos/queue.c:1668-1702 | a peek, which uses nothing up, passes its wake-up on |
| QueueProtocol.StepKeeps | lib/freertos/queue.c:740-947 | every critical section, interrupt and expiry keeps the accounting of wake-ups in both directions |
| QueueProtocol.RunsStayValid | lib/freertos/queue.c:1277-1415 | it holds in every state of every interleaving |
| QueueProtocol.NoLostWakeUp | lib/freertos/queue.c:740-947 | while a receiver waits, the messages are at most the receivers woken plus the posts recorded; while a sender waits, the same for free slots |
| QueueProtocol.QuietQueue | lib/freertos/queue.c:2171-2288 | unlocked and with all woken tasks served, only an empty (full) queue has waiters |
| QueueProtocol.SuppliedExactly | lib/freertos/queue.c:1089-1096 | with somebody waiting, an interrupt's post on a locked queue stays accounted for, then and after unlocking, if and only if the count is below 127 or enough tasks have been woken already |
| QueueProtocol.LockCountMustNotWrap | lib/freertos/queue.c:1095 | that for `cTxLock` and messages and for `cRxLock` and free slots, in every state of a run |
| QueueProtocol.LockCountCanWrap | lib/freertos/queue.c:1095 | a run in which it is lost |
| QueueProtocol.BumpedMeans | lib/freertos/queue.c:1095 | the count is one more modulo 2^8, within the range of `int8_t` |
| Queue.PushBack | lib/freertos/queue.c:2099-2110 | writing at `pcWriteTo` appends, at every wrap position |
| Queue.PushFront | lib/freertos/queue.c:2111-2122 | writing at `pcReadFrom` prepends, or replaces the only item |
| Queue.Pop | lib/freertos/queue.c:2153-2167 | the item after the last one read is the head |
| Queue.StepRefines | lib/freertos/queue.c:2074-2167 | posting to the back or front, overwriting, peeking and receiving on cells and pointers give the reply and leave the items that they do on a bounded sequence |
| Queue.RingIsDeque | lib/freertos/queue.c:2074-2167 | so does every run of such operations, however often the pointers go round |
| Queue.FirstInFirstOut | lib/freertos/queue.c:740-1415 | on the ring, without posts to the front or overwriting, every accepted item is received once, in order, or is still there |
| Queue.Queue.Send | lib/freertos/queue.c:761-867 | back, front and overwriting sends on the bounded queue, and the wake-up of the receiver at the front of the list, the others keeping their order; the count stays within the length if and only if it does not overwrite on a full semaphore |
| Queue.Queue.SendFromISR | lib/freertos/queue.c:981-1108 | the same from an interrupt, which only records the post while the queue is locked; what is more, the count recorded stays valid if and only if it was not 127 |
| Queue.Queue.Receive | lib/freertos/queue.c:1303-1362 | hands out the head and wakes the first sender |
| Queue.Queue.ReceiveFromISR | lib/freertos/queue.c:1810-1872 | the same from an interrupt, `cRxLock` staying valid if and only if it was not 127 |
| Queue.Queue.Peek | lib/freertos/queue.c:1663-1702 | returns the head, changes no contents, wakes the next receiver |
| Queue.Queue.Lock | lib/freertos/queue.c:240-252 | marks both directions locked |
| Queue.Queue.UnlockTx | lib/freertos/queue.c:2179-2257 | the loop wakes whom the specification says, in order |
| Queue.Queue.UnlockRx | lib/freertos/queue.c:2260-2287 | the same for senders |
| Queue.Queue.Reset | lib/freertos/queue.c:255-302 | empties and unlocks the queue and wakes one blocked sender, whatever their number |
| Timers.PlacementIsExact | lib/freertos/timers.c:693-731 | process now exactly if C + p has been reached; otherwise current list exactly if the expiry lies before the next wrap |
| Timers.PlacementNeedsTheBound | lib/freertos/timers.c:693-731 | however late, an expired timer is recognised if and only if the command is less than a wrap old or its age modulo 2^32 covers the period |
| Timers.ForgottenTimerExists | lib/freertos/timers.c:693-731 | a timer that is not |
| Timers.DrainedIsExact | lib/freertos/timers.c:882-932 | before the swap a timer is called back 1 + (2^32 - 1 - v) / p times, p apart |
| Timers.ExpireKeeps | lib/freertos/timers.c:507-545 | an expired auto-reload timer is filed from its own expiry |
| Timers.CarryKeeps | lib/freertos/timers.c:795-824 | a restart command serves one overdue period |
| Timers.NoDrift | lib/freertos/timers.c:507-545 | the k-th callback is for start + (k + 1) periods, none skipped, none early, across all wraps |
| Timers.CaughtUp | lib/freertos/timers.c:795-824 | once served there has been one callback per full period |
| TimerDaemon.TurnKeeps | lib/freertos/timers.c:893-932 | one turn of the swap loop makes one callback, keeps the order, and gets nearer the end |
| TimerDaemon.Daemon.SwitchTimerLists | lib/freertos/timers.c:882-938 | the loop ends though it refills the list it empties; every timer on it is called back for each expiry up to the wrap and every auto-reload timer is restarted once, from its last one |
| TimerDaemon.Daemon.SampleTimeNow | lib/freertos/timers.c:670-691 | a tick count below the last one swaps the lists, any other changes nothing |
| TimerDaemon.Daemon.Insert | lib/freertos/timers.c:693-731 | files the timer where `Place` decides, or reports it due |
| TimerDaemon.Daemon.ProcessExpiredTimer | lib/freertos/timers.c:507-545 | calls back once, and files an auto-reload timer from its own expiry or restarts it from there |
| TimerDaemon.Daemon.ProcessStart | lib/freertos/timers.c:795-824 | files the timer, or serves one period and asks for the next |
| TimerDaemon.Daemon.ProcessChangePeriod | lib/freertos/timers.c:832-845 | the new period runs from now, on the list of its epoch |
| TimerDaemon.AgainExpiries | lib/freertos/timers.c:908-921 | putting a timer back leaves all callbacks and its restart as they were due |
| StreamBuffer.PrefixRoundTrip | lib/freertos/stream_buffer.c:686-694 | the length read back from its four bytes is the length written |
| StreamBuffer.WrittenBytes | lib/freertos/stream_buffer.c:1088-1131 | the split copy appends, wherever it wraps |
| StreamBuffer.ReadsBytes | lib/freertos/stream_buffer.c:1134-1186 | the split copy takes from the front |
| StreamBuffer.StreamBuffer.BytesInBuffer | lib/freertos/stream_buffer.c:1189-1206 | the number of bytes stored |
| StreamBuffer.StreamBuffer.SpacesAvailable | lib/freertos/stream_buffer.c:470-491 | one less than the cells that are free |
| StreamBuffer.StreamBuffer.WriteBytes | lib/freertos/stream_buffer.c:1088-1131 | appends the bytes |
| StreamBuffer.StreamBuffer.ReadBytes | lib/freertos/stream_buffer.c:1134-1186 | removes as many bytes as wanted and available |
| StreamBuffer.StreamBuffer.WriteMessage | lib/freertos/stream_buffer.c:661-710 | with the required space as the callers compute it, modulo 2^32: what is stored, and when the copy runs into an assertion |
| StreamBuffer.StreamBuffer.Send | lib/freertos/stream_buffer.c:575-584 | with the space found while waiting, which may be out of date, or looked for now: a stream takes what fits; a message buffer takes the whole message with its length, or nothing; a length whose sum wraps stops the firmware |
| StreamBuffer.StreamBuffer.SendFromISR | lib/freertos/stream_buffer.c:610-658 | the same without that check: exactly when such a length stops the firmware, and that it stores nothing otherwise |
| StreamBuffer.StreamBuffer.ReceiveMessage | lib/freertos/stream_buffer.c:861-967 | hands out exactly the first message, or leaves the buffer as it was if it does not fit |
| StreamBuffer.StreamBuffer.NextMessageLength | lib/freertos/stream_buffer.c:817-858 | the length of the first message, nothing changed |
| MessageProtocol.WholeMessage | lib/freertos/stream_buffer.c:787-794 | more than a length beyond a message boundary means a whole message beyond it |
| MessageProtocol.CopyInKeeps | lib/freertos/stream_buffer.c:1104-1113 | a byte the writer copies overwrites none that is still to be read |
| MessageProtocol.CopyOutKeeps | lib/freertos/stream_buffer.c:1144-1166 | a byte the reader copies is the next one of the message sent |
| MessageProtocol.PutBackExactly | lib/freertos/stream_buffer.c:933-949 | putting the tail back keeps the invariant if and only if all that is stored or being sent still fits, counted from there |
| MessageProtocol.StepKeeps | lib/freertos/stream_buffer.c:661-967 | every other step of writer and reader keeps it |
| MessageProtocol.RunsStayValid | lib/freertos/stream_buffer.c:661-710 | in every state of every interleaving up to which no tail is put back into room that has been used |
| MessageProtocol.ValidIffUndisturbed | lib/freertos/stream_buffer.c:837-840 | the invariant holds all along a run if and only if no tail is put back too late in it |
| MessageProtocol.ReceivedAsSent | lib/freertos/stream_buffer.c:918-967 | what has been received is the beginning of what was sent, message by message; the length read is that of the next message, and what is being copied is its beginning |
| MessageProtocol.NothingLost | lib/freertos/stream_buffer.c:713-810 | at rest and empty, everything sent has been received |
| MessageProtocol.NeverStuck | lib/freertos/stream_buffer.c:787-794 | a message completely sent can be received |
| MessageProtocol.RingPositions | lib/freertos/stream_buffer.c:1189-1206 | the code's positions, which are the protocol's modulo the buffer's length, give the same number of bytes, delimit the published part of the stream, and move on alike |
| MessageProtocol.StartsAsCounted | lib/freertos/stream_buffer.c:470-491 | writer and reader of the protocol may start exactly when the code's count of the bytes, taken from its positions, lets them |
| MessageProtocol.OverrunLooksEmpty | lib/freertos/stream_buffer.c:837-840 | with the writer at rest, the code's count of the bytes is right after the tail has been put back if it was in time, and otherwise less than a length, short by the whole buffer |
| MessageProtocol.OverrunHappens | lib/freertos/stream_buffer.c:837-840 | a run that gets there with two messages sent and none received |
| MessageProtocol.LookFindsLengthOnly | lib/freertos/stream_buffer.c:829-848 | a look finds some bytes but no more than a length, which the code asserts not to happen, if and only if all before has been received and the writer is between the publication of a length and that of its message |
| MessageProtocol.LookCanStop | lib/freertos/stream_buffer.c:842-848 | a run that gets there |
| EventGroup.ItemRoundTrip | lib/freertos/event_groups.c:361-391 | request and answer survive in the one word that carries both |
| EventGroup.MetMeans | lib/freertos/event_groups.c:671-705 | bit by bit: the condition is met if and only if all the bits wanted are set, or some bit wanted is |
| EventGroup.SatisfiedMeans | lib/freertos/event_groups.c:545-575 | so is a request, as the walk reads it from the event list item |
| EventGroup.RequestsSurvive | lib/freertos/tasks.c:4022-4031 | a change of priority leaves alone what a task has asked for or been handed |
| EventGroup.Monotone | lib/freertos/event_groups.c:671-705 | more bits satisfy no fewer waiters |
| EventGroup.ClearMaskIsUnion | lib/freertos/event_groups.c:577-587 | what is cleared is exactly the union of what the woken tasks asked to have cleared |
| EventGroup.ClearMaskIgnoresOrder | lib/freertos/event_groups.c:545-606 | whatever the order of the list |
| EventGroup.KeptSplits | lib/freertos/event_groups.c:545-600 | those not woken stay in order |
| EventGroup.KeptOne | lib/freertos/event_groups.c:545-600 | and each of them stays exactly if its request is not answered |
| EventGroup.SetLeavesBits | lib/freertos/event_groups.c:541-606 | a bit is left if and only if it was there or is set, and no task that is answered has asked to have it cleared |
| EventGroup.SetWakes | lib/freertos/event_groups.c:545-600 | a waiting task is woken if and only if its request is answered, with all the bits, and nobody else's word changes |
| EventGroup.WaitMeans | lib/freertos/event_groups.c:329-396 | bit by bit: an answered wait returns the bits and clears exactly those waited for, if it is to; any other returns them or queues its request |
| EventGroup.TimedOutLooksAgain | lib/freertos/event_groups.c:416-448 | a wait whose time has run out does what one does that may not block |
| EventGroup.SyncPolls | lib/freertos/event_groups.c:241-247 | a party that may not block sees the bits that are left |
| EventGroup.EventGroup.SetBits | lib/freertos/event_groups.c:532-606 | the walk that removes while it walks does what one look at all waiters would: wakes exactly the satisfied, hands all of them the same bits, keeps the others in order, then clears |
| EventGroup.EventGroup.WaitBits | lib/freertos/event_groups.c:311-398 | returns the bits if the condition is met or blocking is not wanted, and queues the request otherwise |
| EventGroup.EventGroup.Sync | lib/freertos/event_groups.c:191-250 | sets its bits, and returns all and clears them if the rendezvous is complete |
| EventGroup.EventGroup.Resume | lib/freertos/event_groups.c:414-448 | takes the answer handed over, or looks once more after a timeout |
| EventGroup.EventGroup.ClearBits | lib/freertos/event_groups.c:461-485 | clears bits and returns those before |
| EventGroup.StepKeeps | lib/freertos/event_groups.c:519-610 | set, clear, wait, rendezvous, timeout and resumption leave no satisfied waiter |
| EventGroup.NoneStranded | lib/freertos/event_groups.c:311-396 | in every state between calls no waiting task has all the bits, or some bit, it waits for |
| EventGroup.Gathering | lib/freertos/event_groups.c:206-249 | while some bit of the rendezvous is neither there nor set by a party, the parties pile up in order and their bits stay |
| EventGroup.LastArrivalReleasesAll | lib/freertos/event_groups.c:206-249 | the party with which every bit is there releases all of them with all the bits and leaves the rendezvous bits cleared |
| RxRing.CreatedIsValid | CM7/core/src/ethernetif.c:855-881 | initialisation arms eight of nine descriptors with distinct buffers |
| RxRing.BufferHoldsFrame | CM7/core/src/ethernetif.c:98 | a buffer is the least number of whole cache lines that holds a frame of 1528 bytes |
| RxRing.NeverCritical | CM7/core/src/ethernetif.c:1337-1352 | both critical errors are unreachable while a buffer is on its way back |
| RxRing.CriticalMeans | CM7/core/src/ethernetif.c:1337-1352 | they would make the ring look empty to the DMA or to the driver |
| RxRing.CompleteKeeps | CM7/core/src/ethernetif.c:1253-1266 | a DMA completion stays between the descriptor to process and the tail and overwrites no pbuf |
| RxRing.CommitKeeps | CM7/core/src/ethernetif.c:1303-1325 | handing a buffer out moves it from the ring to a pbuf, the frame being the oldest not dealt with |
| RxRing.DiscardKeeps | CM7/core/src/ethernetif.c:1244-1249 | so does discarding, to the hand that puts it back |
| RxRing.PublishKeeps | CM7/core/src/ethernetif.c:1353-1356 | a freed buffer, in whatever order, becomes the last of the ring |
| RxRing.WriteAddressKeeps | CM7/core/src/ethernetif.c:886 | giving the descriptor at the tail its buffer touches no armed descriptor |
| RxRing.WriteControlKeeps | CM7/core/src/ethernetif.c:889-890 | nor does preparing its `DESC3`, which ends what it remembers of the last lap |
| RxRing.PeekLengthKeeps | CM7/core/src/ethernetif.c:1258-1259 | the length read is that of the oldest frame not dealt with, 0, or that of the ninth frame before it, as the descriptor is filled, prepared or neither |
| RxRing.StepKeeps | CM7/core/src/ethernetif.c:1252-1356 | an access of DMA, input task or freeing task keeps the invariant if and only if it is not the input task passing the check on `DMACCARDR` with an address that `DESC0` no longer has |
| RxRing.ValidIffCalm | CM7/core/src/ethernetif.c:1252-1356 | the invariant holds all along a run if and only if that never happens in it |
| RxRing.OvertakenIsDry | CM7/core/src/ethernetif.c:1254-1266 | it takes a look at `DESC0` at a time when no descriptor had a buffer for the DMA |
| RxRing.HarmExactly | CM7/core/src/ethernetif.c:1262-1330 | with nothing wrong but possibly the address carried, a step puts a buffer in two places or a pbuf to wrong bytes if and only if it parts with a buffer that is elsewhere too, or hands out one that does not hold the frame |
| RxRing.HarmIsOvertaken | CM7/core/src/ethernetif.c:1262-1330 | and that takes an address that `DESC0` no longer has |
| RxRing.WholeIffHarmless | CM7/core/src/ethernetif.c:1252-1356 | in every run of the initialised ring, overtaken or not, no buffer is ever in two places and no pbuf's bytes change if and only if no step does that |
| RxRing.RunsStayValid | CM7/core/src/ethernetif.c:1252-1356 | the invariant holds wherever an interleaving of single accesses by DMA, input task and frees leads in which the input task is not overtaken |
| RxRing.RingIsSafe | CM7/core/src/ethernetif.c:1252-1356 | eight distinct buffers in eight places, the DMA between to-process and tail, pbufs' bytes untouched, no critical error |
| RxRing.FramesInOrder | CM7/core/src/ethernetif.c:1252-1330 | every completed frame is dealt with once, in DMA order, and kept exactly if it is whole and the length read for it is at most 1536 |
| RxRing.LengthIsRight | CM7/core/src/ethernetif.c:1257-1262 | in every such run the length a frame is taken for is its own if and only if the DMA was done when it was read, or the 0 or old length read instead happens to be the same |
| RxRing.OvertakenSharesABuffer | CM7/core/src/ethernetif.c:1254-1266 | how, overtaken, two pbufs come to share a buffer |
| RxRing.OvertakingHappens | CM7/core/src/ethernetif.c:1254-1266 | a run of the initialised ring that gets there |
| RxRing.StaleLengthHappens | CM7/core/src/ethernetif.c:1257-1259 | a run, not overtaken, in which a frame is handed out with the length of the ninth frame before |
| RxRing.BlankLengthHappens | CM7/core/src/ethernetif.c:1257-1262 | one in which a frame is handed out with length 0 |
| RxRing.Driver.constructor | CM7/core/src/ethernetif.c:855-881 | the initialisation loop |
| RxRing.Driver.PrepareDescriptor | CM7/core/src/ethernetif.c:1333-1356 | prepares the tail descriptor and advances the tail, unless a critical error is met |
| RxRing.Driver.FreePbuf | CM7/core/src/ethernetif.c:1096-1103 | a freed buffer goes back to the ring without error |
| RxRing.Driver.LowLevelInput | CM7/core/src/ethernetif.c:1252-1330 | one undisturbed call: a pbuf with buffer and length of the oldest frame exactly if it can be used and the pool has room, as for every whole frame of up to 1528 bytes, nothing otherwise, and the state that its steps lead to |
| RxRing.InputIsSteps | CM7/core/src/ethernetif.c:1252-1330 | that state is where the single accesses of the call lead |
| RxRing.FreeIsSteps | CM7/core/src/ethernetif.c:1096-1103 | the same for a freed pbuf |
| PrintfText.DigitsDenote | lib/printf/printf.c:559-564 | the digits printed denote the value in their base, modulo what 32 of them can express |
| PrintfText.NoLeadingZero | lib/printf/printf.c:559-564 | and the first of them is not zero |
| PrintfText.PlainIntegerDenotes | lib/printf/printf.c:538-567 | every 64-bit value printed plainly in base 8, 10 or 16 denotes itself |
| PrintfText.IntegerShape | lib/printf/printf.c:472-535 | for all flags, every width and precision: blanks, sign, prefix, zeros and digits in order, as many as the digit buffer has room for |
| PrintfText.PlainIsItself | lib/printf/printf.c:1055-1061 | a format without `%` is printed as it is |
| PrintfText.PercentIsPrinted | lib/printf/printf.c:1329-1332 | `%%` prints a percent sign and takes no argument |
| PrintfText.StoresCount | lib/printf/printf.c:1337-1349 | every `%n` stores how many characters have been printed before it |
| PrintfText.MarkIs | lib/printf/printf.c:497-520 | `#` puts `0x`, `0X`, `0b` or `0` in front, if there is room |
| PrintfText.NullIsPrinted | lib/printf/printf.c:1286-1290 | a missing string is printed as `(null)`, a null pointer as `(nil)` |
| PrintfText.PointerIsHex | lib/printf/printf.c:1318-1327 | any other pointer is printed as `0x` and eight digits |
| PrintfStandard.DigitCharIs | lib/printf/printf.c:560-562 | the digits are 0 to 9 and a to f, or A to F for upper case |
| PrintfStandard.DigitValueIs | lib/printf/printf.c:434-441 | the decimal digits count for what they are |
| PrintfStandard.FlagsAgree | lib/printf/printf.c:1029-1042 | the flags found one by one are those that are somewhere among the flag characters |
| PrintfStandard.SignedMeans | lib/printf/printf.c:1199-1222 | signed arguments are their low bits in two's complement |
| PrintfStandard.DigitLimit | lib/printf/printf.c:482-489 | however many digits a precision asks for, no more than 32 are printed |
| PrintfStandard.NumeralIs | lib/printf/printf.c:559-564 | the digits produced last one first in a limited buffer are, reversed, those of the number, however many zeros come later |
| PrintfStandard.SpecsAgree | lib/printf/printf.c:1066-1157 | the parser reads flags, width, precision and length as the standard does, numbers modulo 2^32, a negative `*` precision as 0, and consumes the same characters and arguments |
| PrintfStandard.PrintsAsAsked | lib/printf/printf.c:472-567 | called with what the standard reads, `print_integer` prints what it asks for, with or without `#`, if and only if sign, prefix and digits fit the digit buffer, or the sign that does not is a blank that padding makes up for |
| PrintfStandard.WithdrawnExactly | lib/printf/printf.c:1088-1097 | precision 0 in place of a negative one gives another text if and only if the value is 0 or the width was to be filled with zeros |
| PrintfStandard.IntegerAsStandard | lib/printf/printf.c:1066-1246 | for the conversions `d`, `i`, `u`, `x`, `X` and `o` of every format and arguments: the text is that of section 7.21.6.1 of ISO/IEC 9899:2011 if and only if width and precision are below 2^32, the digit buffer has room, and a negative precision makes no difference |
| PrintfStandard.StringAsStandard | lib/printf/printf.c:1286-1316 | `%s` prints what that section asks for if and only if the width is below 2^32 and all is printed that the precision allows, or what is missing is blank anyway |
| PrintfStandard.CharAsStandard | lib/printf/printf.c:1266-1284 | `%c` prints the low eight bits of its argument, padded with blanks to the width, if and only if that is below 2^32 |
| PrintfStandard.WithdrawnIsMissed | lib/printf/printf.c:1088-1097 | `%.*d` of -1 and 0 prints nothing, where the standard asks for `0` |
| PrintfText.StoresAsAsked | lib/printf/printf.c:1337-1349 | `%n` stores as many bits as the length modifier asks for if and only if that is not `ll` |
| PrintfText.AtouUndoesPrinting | lib/printf/printf.c:434-441 | `atou_` reads back every unpadded base-10 value below 2^32 |
| Printf.Gadget.PutChar | lib/printf/printf.c:336-354 | counts every character and writes those below the limit |
| Printf.Gadget.AppendTermination | lib/printf/printf.c:357-367 | puts the NUL behind the text, or into the last cell allowed |
| Printf.Gadget.OutRev | lib/printf/printf.c:445-467 | the padded reverse of the digits |
| Printf.Gadget.FillZeros | lib/printf/printf.c:482-489 | zeros up to the wanted length or the end of the digit buffer |
| Printf.Gadget.PutDigits | lib/printf/printf.c:559-564 | the digits of the value, last one first |
| Printf.Gadget.FinishInteger | lib/printf/printf.c:472-535 | zeros, prefix, sign and padding as specified |
| Printf.Gadget.PrintInteger | lib/printf/printf.c:538-567 | an integer conversion |
| Printf.Gadget.PutString | lib/printf/printf.c:1286-1316 | a string cut to the precision and padded to the width |
| Printf.Gadget.PutPrefix | lib/printf/printf.c:497-520 | the base's letter and zero in the room taken back from padding |
| Printf.Gadget.Vsnprintf | lib/printf/printf.c:1048-1363 | for any gadget the text is that of format and arguments, the result is its full length, the sink has its beginning, and `%n` has stored how many characters came before it |
| Printf.Atou | lib/printf/printf.c:434-441 | reads the number at a position, in 32 bits |
| Printf.ParseFlags | lib/printf/printf.c:1029-1042 | reads all flags |
| Printf.PrintToBuffer | lib/printf/printf.c:1374-1378 | section 7.21.6.5 of ISO/IEC 9899:2011: the full length is returned, and the buffer gets exactly the beginning of the text and a NUL within its size |
| Printf.PrintToFunction | lib/printf/printf.c:1385-1389 | the function gets the same text |
| Printf.DiagPush | common/src/diag.cpp:55-70 | the pass that measures and the pass that emits agree |

## Left out

- Bitmap task selection: the generic search is modelled; the port macros of `portmacro.h` are not part of this model.
- `vTaskStepTick` landing exactly on `xNextTaskUnblockTime`, and tickless idle beyond the recomputation of `xNextTaskUnblockTime`.
- `vTaskPrioritySet`: raising the base priority above an inherited one breaks the protocol's invariant.
- Task notifications, stack set-up, run-time statistics, trace hooks, task names, co-routines, queue sets, the queue registry, memory allocation and the MPU wrappers: plumbing or disabled.
- Scheduler overflow counters: `xNumOfOverflows` and `xPendedTicks` are unbounded in the model; the code's 32 bits suffice for 2^64 ticks and for 2^32 ticks of suspension.
- Kernel.Kernel.ResumeAll: the kernel functions are atomic, so interrupts that pend tasks or ticks while the loops of `xTaskResumeAll` run are not modelled; the code keeps them out with a critical section.
- SchedulerRuns.WaitersStayInOrder: excludes changes of a waiting task's priority, whose item the code gives a new value without moving it.
- Kernel.Kernel.CreateTask: the first task of all, with which the lists are initialised, is `SchedulerRuns.Booted`.
- EventGroup.EventGroup.SetBits: the bits returned are read after `xTaskResumeAll`, so another task may have changed them by then; the model returns those of an undisturbed call.
- Lists: the owner pointer of an item, and `listTEST_LIST_INTEGRITY`.
- ListSpec.WalkIsFair: is stated for insertions and advances only; with removals it does not hold, as `ListSpec.ReturningOvertakes` shows.
- SchedulerTurns.TurnPasses: is about the task on which the cursor stands; a running task whose priority has been changed has come last in another list.
- SchedulerRuns.MostUrgentRuns: requests of `xTaskPriorityDisinherit` and of changed priorities are taken as made whenever the running task's priority changes or another one's rises above it.
- MutexProtocol.RunsStayValid: tasks are created at any time, hold at most one mutex and do not block on a kernel object while holding it, whose event item value the code would change in place; recursive mutexes and deletion or suspension of participants are not modelled.
- QueueProtocol.RunsStayValid: overwriting is for queues that carry data (what it does to a semaphore is in `Queue.Queue.Send`); at most 127 interrupt operations per lock window, no reset, deletion or suspension; the order of waiting lists is arbitrary there, so the result does not depend on priorities.
- Queue.Queue.Reset: with several blocked senders it wakes one, as the code does, so it is not a step of the wake-up protocol.
- Mutexes in class `Queue.Queue`: a mutex's holder and its disinheritance are in `MutexProtocol` and `Kernel.Kernel`; the class treats it as a semaphore.
- Timers.NoDrift: the daemon samples the time at least once in 2^32 ticks and leaves neither an expired timer nor a command alone that long; the command queue has room, as the code asserts.
- TimerDaemon.Daemon.SwitchTimerLists: callbacks are recorded, and do not themselves start, stop or change timers before they return.
- `prvProcessTimerOrBlockTask`, pended function calls and timer names.
- MessageProtocol.ReceivedAsSent: messages are not empty, as the code asserts, and no tail has been put back too late, after which the protocol's unbounded positions say nothing about the code's.
- StreamBuffer.StreamBuffer.Send: blocking, notifications and the trigger level are left out, the calls being modelled from the point where they stop waiting; buffers are shorter than 2^31 bytes, so that the index sums do not wrap; what is in memory once an assertion has stopped the firmware is not said.
- `vEventGroupDelete` and the deferred calls from interrupts, which run `SetBits` and `ClearBits` in the timer daemon.
- RxRing.RunsStayValid: the input task is not overtaken as described by `RxRing.Overtaken`; one input task; the DMA takes the buffer address from `DESC0` once, leaves it as it is and stops at the tail; a descriptor the DMA has completed is complete before `DMACCARDR` moves on; cache maintenance is not modelled.
- Transmission, PHY, MAC and DMA registers, link state.
- Printf.Gadget.Vsnprintf: the text that `print_floating_point` makes of its arguments is a parameter, which may be any; arguments that are missing or of the wrong kind, and a format that ends within a conversion, are undefined and have no text; `pos` is not wrapped at 2^32, and the result, which is cast to `int`, is the length only below 2^31.
- PrintfStandard.IntegerAsStandard: `#` with `d`, `i` and `u`, and `0` with `s`, are undefined in the standard; they are read as having no effect. `b`, which is no conversion of the standard's, and `p`, whose text it leaves to the implementation, are not compared with it; `PrintfText.IntegerShape` says what they print.
- PrintfStandard.StringAsStandard: is about strings of less than 2^32 characters; a missing one, of which the code prints `(null)`, is undefined in the standard.
- `lib/backtrace/backtrace.c`, `common/src/systime.cpp`, and all other board code: raw memory, registers, input and output.
