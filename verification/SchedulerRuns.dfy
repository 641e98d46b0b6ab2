/**
 The scheduler as a transition system: every kernel call and every tick interrupt is a step.
 The invariant holds in all runs, and a delay lasts exactly as long as was asked for.
 */
module SchedulerRuns {
  import opened ListSpec
  import opened ItemTable
  import opened Scheduler
  import opened Ticks
  import opened SchedulerOps
  import opened SchedulerTasks
  import opened SchedulerTurns
  import opened Options

  datatype Action =
    | Tick                              // xTaskIncrementTick from the tick interrupt
    | Delay(ticks: nat)                 // prvAddCurrentTaskToDelayedList for vTaskDelay
    | Block(event: nat, ticks: nat)     // vTaskPlaceOnEventList
    | Wake(event: nat)                  // xTaskRemoveFromEventList
    | SuspendAll | ResumeAll            // vTaskSuspendAll, xTaskResumeAll
    | Create(task: Task, priority: nat) // prvAddNewTaskToReadyList
    | Delete(task: Task)                // vTaskDelete
    | Reap                              // a round of prvCheckTasksWaitingTermination
    | Suspend(task: Task)               // vTaskSuspend
    | Resume(task: Task)                // vTaskResume
    | ChangePriority(task: Task, priority: nat, value: nat)  // inherit, disinherit
    | SwitchContext                     // vTaskSwitchContext

  ghost predicate CurrentReady(s: State) {
    s.current in s.stateItems.container && s.stateItems.container[s.current].Ready?
  }

  /** When a step is possible: what the kernel's own assertions and callers guarantee. */
  ghost predicate Enabled(s: State, a: Action)
    requires s.Valid()
  {
    match a
    case Tick => true
    case Delay(d) => CurrentReady(s) && 0 < d < WRAP
    case Block(e, d) => CurrentReady(s) && 0 < d < WRAP && WaitingOn(e) in s.eventItems.lists
    case Wake(e) => WaitingOn(e) in s.eventItems.lists && s.eventItems.Items(WaitingOn(e)) != []
    case SuspendAll => true
    case ResumeAll => s.suspended > 0
    case Create(x, p) => x !in s.stateItems.container && p < MAX_PRIORITIES
    case Delete(x) => x in s.stateItems.container && s.stateItems.container[x] != Termination
    case Reap => s.deletedWaiting > 0 && s.stateItems.container[s.current] != Termination
    case Suspend(x) => x in s.stateItems.container && s.stateItems.container[x] != Termination
    case Resume(x) => x != s.current && IsSuspended(s, x)
    case ChangePriority(x, p, v) => x in s.stateItems.container && p < MAX_PRIORITIES
    case SwitchContext => SomeReady(s)
  }

  predicate IsClockAction(a: Action) {
    a.Tick? || a.Delay? || a.Block? || a.Wake? || a.SuspendAll? || a.ResumeAll?
  }

  ghost predicate ClockStep(s: State, a: Action, t: State)
    requires s.Valid() && Enabled(s, a) && IsClockAction(a)
  {
    match a
    case Tick => t == if s.suspended > 0 then s.(pendedTicks := s.pendedTicks + 1) else Ticked(s)
    case Delay(d) =>
      DelayedTime(s, d);
      t == Delayed(s, d)
    case Block(e, d) => t == BlockedOn(s, e, d)
    case Wake(e) => t == EventWoken(s, e)
    case SuspendAll => t == s.(suspended := s.suspended + 1)
    case ResumeAll =>
      if s.suspended > 1 then t == s.(suspended := s.suspended - 1)
      else exists moved, replayed :: Resumes(s, moved, replayed, t)
  }

  ghost predicate TaskStep(s: State, a: Action, t: State)
    requires s.Valid() && Enabled(s, a) && !IsClockAction(a)
  {
    match a
    case Create(x, p) => t == Created(s, x, p)
    case Delete(x) => t == if x == s.current then DeletedSelf(s) else DeletedOther(s, x)
    case Reap =>
      TerminationHead(s);
      t == Reaped(s, s.stateItems.Items(Termination)[0])
    case Suspend(x) => t == SuspendedTask(s, x)
    case Resume(x) =>
      ReadiedKeeps(s, x, s.tickCount + 1);
      t == Readied(s, x)
    case ChangePriority(x, p, v) => t == Reprioritised(s, x, p, v)
    case SwitchContext => t == if s.suspended > 0 then s.(yieldPending := true) else Selected(s)
  }

  /** Which states a step can lead to. */
  ghost predicate Step(s: State, a: Action, t: State)
    requires s.Valid() && Enabled(s, a)
  {
    if IsClockAction(a) then ClockStep(s, a, t) else TaskStep(s, a, t)
  }

  /** With no item's container naming the pending list, that list is empty. */
  lemma PendingStaysEmpty(e: Table<EventList, Task>, e': Table<EventList, Task>)
    requires e.Valid() && e'.Valid() && PendingReady in e.lists && PendingReady in e'.lists
    requires e.Items(PendingReady) == []
    requires forall x <- e'.container :: e'.container[x] == PendingReady ==>
               x in e.container && e.container[x] == PendingReady
    ensures e'.Items(PendingReady) == []
  {
    EventFacts(e, PendingReady);
    EventFacts(e', PendingReady);
    if |e'.Items(PendingReady)| > 0 {
      EventMember(e', PendingReady);
    }
  }

  lemma EventMember(e: Table<EventList, Task>, k: EventList)
    requires e.Valid() && k in e.lists && |e.Items(k)| > 0
    ensures exists x <- e.container :: e.container[x] == k && x in e.Items(k)
  {
    assert e.Items(k)[0] in e.Items(k);
  }

  /** `x` sleeps until `due`, and waits for the kernel object `e` if there is one. */
  ghost predicate Sleeping(s: State, x: Task, due: nat, e: Option<nat>) {
    && x in s.Deadlines() && s.Deadlines()[x] == due
    && if e.Some? then x in s.eventItems.container && s.eventItems.container[x] == WaitingOn(e.value)
       else x !in s.eventItems.container
  }

  ghost predicate IsReady(s: State, x: Task) {
    && x in s.stateItems.container && x in s.priority && s.stateItems.container[x] == Ready(s.priority[x])
    && x !in s.eventItems.container
  }

  /** The step deletes or suspends `x`, or gives it what it waits for. */
  ghost predicate Disturbs(s: State, a: Action, x: Task) {
    || a == Delete(x) || a == Suspend(x)
    || (a.Wake? && WaitingOn(a.event) in s.eventItems.lists && s.eventItems.Items(WaitingOn(a.event)) != []
        && s.eventItems.Items(WaitingOn(a.event))[0] == x)
  }

  /** Whether a step leaves `x`, asleep until `due`, as it is, or readies it on time. */
  ghost predicate KeptOrDue(s: State, t: State, x: Task, due: nat) {
    if due > t.Now() then
      && x in t.Deadlines() && t.Deadlines()[x] == due && (x in t.eventItems.container <==> x in s.eventItems.container)
      && (x in s.eventItems.container ==> t.eventItems.container[x] == s.eventItems.container[x])
    else IsReady(t, x)
  }

  /** What a step that does not disturb them means for sleeping tasks. */
  ghost predicate SleepersKept(s: State, a: Action, t: State) {
    && s.Now() <= t.Now()
    && (forall x <- s.Deadlines() ::
          !(x in s.eventItems.container && s.eventItems.container[x] == PendingReady) && !Disturbs(s, a, x) ==>
            KeptOrDue(s, t, x, s.Deadlines()[x]))
  }

  ghost predicate NewPendings(s: State, t: State) {
    exists x <- t.eventItems.container ::
      t.eventItems.container[x] == PendingReady
      && !(x in s.eventItems.container && s.eventItems.container[x] == PendingReady)
  }

  lemma StaysValid(s: State, t: State)
    requires s.Valid() && t.Consistent(t.tickCount + 1) && !NewPendings(s, t)
    requires t.suspended == 0 ==> s.suspended == 0 && t.pendedTicks == 0
    ensures t.Valid()
  {
    hide Table.Valid, ReadyOk, EventsOk, DelaysOk;
    if t.suspended == 0 {
      PendingStaysEmpty(s.eventItems, t.eventItems);
    }
  }

  lemma DeadlinesStillAhead(s: State)
    requires s.Valid()
    ensures forall x <- s.Deadlines() :: s.Deadlines()[x] > s.Now()
  {
    hide State.Consistent, DeadlinesOf;
    DeadlinesReached(s);
  }

  lemma TickStep(s: State, t: State)
    requires s.Valid() && ClockStep(s, Tick, t)
    ensures t.Valid() && SleepersKept(s, Tick, t)
  {
    hide State.Consistent, DeadlinesOf, Ticked, CaughtUp, SleepersKept, NewPendings;
    if s.suspended == 0 {
      TickedIsFullScan(s);
      TickedFrame(s);
      TickKeepsSleepers(s, t);
      StaysValid(s, t);
    } else {
      PendedKeeps(s);
      NothingStirs(s);
    }
  }

  lemma TickKeepsSleepers(s: State, t: State)
    requires s.Consistent(s.tickCount + 1) && CaughtUp(s, t, {}, 1)
    ensures SleepersKept(s, Tick, t) && !NewPendings(s, t)
  {
    hide State.Consistent, DeadlinesOf, State.Now;
    TickedPriorities(s);
  }

  lemma NothingStirs(s: State)
    requires s.Valid()
    ensures SleepersKept(s, Tick, s.(pendedTicks := s.pendedTicks + 1))
  {
    hide State.Consistent, DeadlinesOf;
    DeadlinesStillAhead(s);
  }

  lemma TickedPriorities(s: State)
    requires s.Consistent(s.tickCount + 1)
    ensures forall x <- s.Deadlines() :: x in s.priority && x in s.stateItems.container
  {
    hide Table.Valid;
  }

  lemma PendedKeeps(s: State)
    requires s.Consistent(s.tickCount + 1)
    ensures s.(pendedTicks := s.pendedTicks + 1).Consistent(s.tickCount + 1)
  {
  }

  lemma DelayStep(s: State, d: nat, t: State)
    requires s.Valid() && Enabled(s, Delay(d)) && ClockStep(s, Delay(d), t)
    ensures t.Valid() && SleepersKept(s, Delay(d), t)
    ensures Sleeping(t, s.current, s.Now() + d, None)
  {
    hide Table.Valid, DelaysOk, DeadlinesOf, ReadyOk, EventsOk, Delayed;
    DelayedKeeps(s, d);
    DeadlinesStillAhead(s);
    RunningIsFree(s);
    StaysValid(s, t);
  }

  /** The running task is on no event list and has no deadline. */
  lemma RunningIsFree(s: State)
    requires s.Valid() && CurrentReady(s)
    ensures s.current !in s.eventItems.container && s.current !in s.Deadlines()
  {
  }

  lemma BlockStep(s: State, e: nat, d: nat, t: State)
    requires s.Valid() && Enabled(s, Block(e, d)) && ClockStep(s, Block(e, d), t)
    ensures t.Valid() && SleepersKept(s, Block(e, d), t)
  {
    hide Table.Valid, DelaysOk, DeadlinesOf, ReadyOk, EventsOk, BlockedOn;
    BlockedOnKeeps(s, e, d);
    DeadlinesStillAhead(s);
    RunningIsFree(s);
    StaysValid(s, t);
  }

  lemma WakeStep(s: State, e: nat, t: State)
    requires s.Valid() && Enabled(s, Wake(e)) && ClockStep(s, Wake(e), t)
    ensures t.Valid() && SleepersKept(s, Wake(e), t)
  {
    hide State.Consistent, DeadlinesOf, EventWoken, SleepersKept, Moved;
    var x := s.eventItems.Items(WaitingOn(e))[0];
    DeadlinesStillAhead(s);
    if s.suspended == 0 {
      EventWokenNow(s, e);
      MovedOutside(s, t, x);
      WakeKeepsSleepers(s, e, t);
      StaysValid(s, t);
    } else {
      EventWokenLater(s, e);
      WakeLaterKeepsSleepers(s, e, t);
    }
  }

  lemma WakeKeepsSleepers(s: State, e: nat, t: State)
    requires WaitingOn(e) in s.eventItems.lists && s.eventItems.Items(WaitingOn(e)) != []
    requires forall x <- s.Deadlines() :: s.Deadlines()[x] > s.Now()
    requires var x := s.eventItems.Items(WaitingOn(e))[0];
             t.Deadlines() == s.Deadlines() - {x} && t.eventItems.container == s.eventItems.container - {x}
    requires t.Now() == s.Now()
    ensures SleepersKept(s, Wake(e), t) && !NewPendings(s, t)
  {
    hide State.Deadlines, State.Now;
  }

  lemma WakeLaterKeepsSleepers(s: State, e: nat, t: State)
    requires WaitingOn(e) in s.eventItems.lists && s.eventItems.Items(WaitingOn(e)) != []
    requires forall x <- s.Deadlines() :: s.Deadlines()[x] > s.Now()
    requires t == s.(eventItems := t.eventItems, yieldPending := t.yieldPending)
    requires t.eventItems.container == s.eventItems.container[s.eventItems.Items(WaitingOn(e))[0] := PendingReady]
    ensures SleepersKept(s, Wake(e), t)
  {
    hide DeadlinesOf;
  }

  /** Waking a waiter, apart from the recomputed unblock time and the yield flag, only moves it. */
  lemma MovedOutside(s: State, t: State, x: Task)
    requires Moved(s, {x}, t.(nextUnblockTime := s.nextUnblockTime, yieldPending := s.yieldPending))
    ensures t.Deadlines() == s.Deadlines() - {x} && t.Now() == s.Now()
    ensures t.eventItems.container == s.eventItems.container - {x}
    ensures t.suspended == s.suspended && t.pendedTicks == s.pendedTicks
  {
    hide DeadlinesOf;
  }

  lemma ResumeAllStep(s: State, t: State)
    requires s.Valid() && Enabled(s, ResumeAll) && ClockStep(s, ResumeAll, t)
    ensures t.Valid() && SleepersKept(s, ResumeAll, t)
  {
    hide Table.Valid, DelaysOk, DeadlinesOf, ReadyOk, EventsOk, State.TimeOk, State.CountsOk, CaughtUp;
    DeadlinesStillAhead(s);
    SuspendedKeeps(s, s.suspended - 1);
    if s.suspended == 1 {
      var moved, replayed :| Resumes(s, moved, replayed, t);
      ResumingCatchesUp(s, moved, replayed, t);
      CatchUpKeepsSleepers(s, t);
    }
  }

  lemma CatchUpKeepsSleepers(s: State, t: State)
    requires s.Valid()
    requires CaughtUp(s.(suspended := 0, pendedTicks := 0), t, PendingTasks(s), s.pendedTicks)
    ensures SleepersKept(s, ResumeAll, t)
  {
    hide Table.Valid, DelaysOk, DeadlinesOf, EventsOk, State.TimeOk, State.CountsOk;
    PendingAreEvents(s);
    DeadlineTasks(s);
  }

  lemma PendingAreEvents(s: State)
    requires s.Valid()
    ensures forall x <- PendingTasks(s) :: x in s.eventItems.container && s.eventItems.container[x] == PendingReady
  {
  }

  lemma DeadlineTasks(s: State)
    requires s.Valid()
    ensures forall x <- s.Deadlines() :: x in s.stateItems.container && x in s.priority
              && IsDelayed(s.stateItems.container[x])
  {
  }

  /** A clock step keeps the invariant, and wakes sleepers exactly on time. */
  lemma ClockStepKeeps(s: State, a: Action, t: State)
    requires s.Valid() && Enabled(s, a) && IsClockAction(a) && ClockStep(s, a, t)
    ensures t.Valid() && SleepersKept(s, a, t)
  {
    hide State.Valid, Enabled, SleepersKept, ClockStep;
    match a
    case Tick => TickStep(s, t);
    case Delay(d) => DelayStep(s, d, t);
    case Block(e, d) => BlockStep(s, e, d, t);
    case Wake(e) => WakeStep(s, e, t);
    case SuspendAll => SuspendAllStep(s, t);
    case ResumeAll => ResumeAllStep(s, t);
  }

  lemma SuspendAllStep(s: State, t: State)
    requires s.Valid() && ClockStep(s, SuspendAll, t)
    ensures t.Valid() && SleepersKept(s, SuspendAll, t)
  {
    hide Table.Valid, DelaysOk, DeadlinesOf, EventsOk, ReadyOk;
    DeadlinesStillAhead(s);
    SuspendedKeeps(s, s.suspended + 1);
  }

  lemma CreateStep(s: State, x: Task, p: nat, t: State)
    requires s.Valid() && Enabled(s, Create(x, p)) && TaskStep(s, Create(x, p), t)
    ensures t.Valid() && SleepersKept(s, Create(x, p), t)
  {
    hide Table.Valid, DelaysOk, DeadlinesOf, ReadyOk, EventsOk;
    CreatedKeeps(s, x, p, s.tickCount + 1);
    DeadlinesStillAhead(s);
  }

  lemma DeleteStep(s: State, x: Task, t: State)
    requires s.Valid() && Enabled(s, Delete(x)) && TaskStep(s, Delete(x), t)
    ensures t.Valid() && SleepersKept(s, Delete(x), t)
  {
    hide Table.Valid, DelaysOk, DeadlinesOf, ReadyOk, EventsOk, DeletedSelf, DeletedOther;
    DeadlinesStillAhead(s);
    if x == s.current {
      DeletedSelfKeeps(s, s.tickCount + 1);
      DeletedSelfFrame(s);
    } else {
      DeletedOtherKeeps(s, x);
      DeletedOtherFrame(s, x);
    }
    StaysValid(s, t);
  }

  lemma ReapStep(s: State, t: State)
    requires s.Valid() && Enabled(s, Reap) && TaskStep(s, Reap, t)
    ensures t.Valid() && SleepersKept(s, Reap, t)
  {
    hide State.Consistent, Reaped, DeadlinesOf, SleepersKept;
    KernelLists(s);
    TerminationHead(s);
    var x := s.stateItems.Items(Termination)[0];
    ReapedKeeps(s, x);
    ReapedFrame(s, x);
    DeadlinesStillAhead(s);
    ReapKeepsSleepers(s, x, t);
    StaysValid(s, t);
  }

  lemma ReapKeepsSleepers(s: State, x: Task, t: State)
    requires KeptWithout(s, x, t) && t.Now() == s.Now() && x !in s.Deadlines() && x !in s.eventItems.container
    requires forall y <- s.Deadlines() :: s.Deadlines()[y] > s.Now()
    ensures SleepersKept(s, Reap, t) && !NewPendings(s, t)
  {
    hide State.Deadlines, State.Now;
  }

  lemma SuspendStep(s: State, x: Task, t: State)
    requires s.Valid() && Enabled(s, Suspend(x)) && TaskStep(s, Suspend(x), t)
    ensures t.Valid() && SleepersKept(s, Suspend(x), t)
  {
    hide Table.Valid, DelaysOk, DeadlinesOf, ReadyOk, EventsOk, SuspendedTask;
    SuspendedTaskKeeps(s, x);
    SuspendedTaskFrame(s, x);
    DeadlinesStillAhead(s);
    StaysValid(s, t);
  }

  lemma SuspendedTaskFrame(s: State, x: Task)
    requires s.Consistent(s.tickCount + 1) && x in s.stateItems.container
    ensures var t := SuspendedTask(s, x);
            t.Now() == s.Now() && t.tickCount == s.tickCount
            && t.suspended == s.suspended && t.pendedTicks == s.pendedTicks
  {
    hide Table.Valid, DelaysOk, ReadyOk, EventsOk;
    SuspendedBasics(s, x);
  }

  lemma ResumeStep(s: State, x: Task, t: State)
    requires s.Valid() && Enabled(s, Resume(x)) && TaskStep(s, Resume(x), t)
    ensures t.Valid() && SleepersKept(s, Resume(x), t)
  {
    hide Table.Valid, DelaysOk, DeadlinesOf, ReadyOk, EventsOk, Readied;
    ReadiedMoves(s, x, s.tickCount + 1);
    DeadlinesStillAhead(s);
    DeadlineTasks(s);
    StaysValid(s, t);
  }

  lemma ChangePriorityStep(s: State, x: Task, p: nat, v: nat, t: State)
    requires s.Valid() && Enabled(s, ChangePriority(x, p, v)) && TaskStep(s, ChangePriority(x, p, v), t)
    ensures t.Valid() && SleepersKept(s, ChangePriority(x, p, v), t)
  {
    hide Table.Valid, Table.Move, DelaysOk, DeadlinesOf, ReadyOk, EventsOk;
    ReprioritisedKeeps(s, x, p, v, s.tickCount + 1);
    DeadlinesStillAhead(s);
  }

  lemma SwitchStep(s: State, t: State)
    requires s.Valid() && Enabled(s, SwitchContext) && TaskStep(s, SwitchContext, t)
    ensures t.Valid() && SleepersKept(s, SwitchContext, t)
  {
    hide Table.Valid, DelaysOk, DeadlinesOf, EventsOk, State.CountsOk;
    DeadlinesStillAhead(s);
    if s.suspended > 0 {
      YieldKeeps(s, true, s.tickCount + 1);
    } else {
      SelectedIsHighest(s);
      FirstReadyIsHighest(s, s.tickCount + 1);
    }
  }

  /** Every step keeps the invariant, and wakes sleepers exactly on time. */
  lemma StepKeeps(s: State, a: Action, t: State)
    requires s.Valid() && Enabled(s, a) && Step(s, a, t)
    ensures t.Valid() && SleepersKept(s, a, t)
  {
    hide State.Valid, Enabled, SleepersKept, ClockStep, TaskStep;
    if IsClockAction(a) {
      ClockStepKeeps(s, a, t);
    } else {
      match a
      case Create(x, p) => CreateStep(s, x, p, t);
      case Delete(x) => DeleteStep(s, x, t);
      case Reap => ReapStep(s, t);
      case Suspend(x) => SuspendStep(s, x, t);
      case Resume(x) => ResumeStep(s, x, t);
      case ChangePriority(x, p, v) => ChangePriorityStep(s, x, p, v, t);
      case SwitchContext => SwitchStep(s, t);
    }
  }

  // ---------------------------------------------------------------------------------------------
  // Runs

  ghost predicate Run(states: seq<State>, actions: seq<Action>) {
    && |states| == |actions| + 1
    && states[0].Valid()
    && (forall i :: 0 <= i < |actions| ==>
          states[i].Valid() ==> Enabled(states[i], actions[i]) && Step(states[i], actions[i], states[i + 1]))
  }

  /** The kernel with its first task, `prvInitialiseTaskLists` having made the lists. */
  function Booted(lists: map<StateList, Ring<Task>>, events: map<EventList, Ring<Task>>, x: Task, p: nat): State
    requires p < MAX_PRIORITIES
  {
    State(Table(lists[Ready(p) := Ring([x], 0)], map[x := Ready(p)]), Table(events, map[]),
          map[x := 0], map[x := MAX_PRIORITIES - p], map[x := p], map[x := p], map[x := 0],
          x, 0, 0, 0, MAX_DELAY, 0, false, 1, 0, p, false)
  }

  lemma BootedIsValid(lists: map<StateList, Ring<Task>>, events: map<EventList, Ring<Task>>, x: Task, p: nat)
    requires HasStateLists(lists) && PendingReady in events && p < MAX_PRIORITIES
    requires (forall k <- lists :: lists[k] == Ring([], 0)) && forall k <- events :: events[k] == Ring([], 0)
    ensures Booted(lists, events, x, p).Valid()
  {
    var s := Booted(lists, events, x, p);
    assert s.stateItems.container.Keys == {x};
  }

  /** The invariant holds all along every run: the task lists stay a partition of the tasks. */
  lemma {:induction false} RunsStayValid(states: seq<State>, actions: seq<Action>, n: nat)
    requires Run(states, actions) && n < |states|
    ensures states[n].Valid()
  {
    hide State.Valid, Enabled, Step;
    if n > 0 {
      RunsStayValid(states, actions, n - 1);
      StepKeeps(states[n - 1], actions[n - 1], states[n]);
    }
  }

  /** From state `i` on, where it falls asleep until `due`, up to state `j` nothing disturbs `x`. */
  ghost predicate Undisturbed(states: seq<State>, actions: seq<Action>, i: nat, j: nat, x: Task) {
    && i < j < |states| && |states| == |actions| + 1
    && forall k :: i < k < j ==> !Disturbs(states[k], actions[k], x)
  }

  /** A task asleep after step `i` stays so before `due` and is ready in the first state from `due` on. */
  lemma {:induction false} SleepsExactly(
    states: seq<State>, actions: seq<Action>, i: nat, j: nat, x: Task, due: nat, e: Option<nat>)
    requires Run(states, actions) && Undisturbed(states, actions, i, j, x)
    requires Sleeping(states[i + 1], x, due, e) && states[i].Now() == states[i + 1].Now() < due
    ensures states[j].Now() < due ==> Sleeping(states[j], x, due, e)
    ensures states[j - 1].Now() < due <= states[j].Now() ==> IsReady(states[j], x)
    ensures states[j - 1].Now() <= states[j].Now()
    decreases j
  {
    hide State.Valid, Enabled, Step, State.Deadlines, State.Now, Disturbs;
    if j > i + 1 {
      RunsStayValid(states, actions, j - 1);
      StepKeeps(states[j - 1], actions[j - 1], states[j]);
      SleepsExactly(states, actions, i, j - 1, x, due, e);
    }
  }

  /**
   Exact delay.  A task that delays itself by `d` ticks at time T and is neither deleted nor
   suspended is asleep in every later state before T + d, and is ready in the first one from T + d
   on, however often the tick counter wraps and the scheduler is suspended in between.
   */
  lemma ExactDelay(states: seq<State>, actions: seq<Action>, i: nat, j: nat, d: nat)
    requires Run(states, actions) && i < j < |states|
    requires actions[i] == Delay(d)
    requires Undisturbed(states, actions, i, j, states[i].current)
    ensures var x, due := states[i].current, states[i].Now() + d;
            && (states[j].Now() < due ==> Sleeping(states[j], x, due, None))
            && (states[j - 1].Now() < due <= states[j].Now() ==> IsReady(states[j], x))
            && states[j - 1].Now() <= states[j].Now()
  {
    hide State.Valid, Enabled, Step, Undisturbed, Sleeping, IsReady, State.Now;
    RunsStayValid(states, actions, i);
    DelayStarts(states[i], d, states[i + 1]);
    SleepsExactly(states, actions, i, j, states[i].current, states[i].Now() + d, None);
  }

  /**
   Exact timeout.  A task that blocks on a kernel object with a block time of `d` ticks at T, and is not woken,
   deleted or suspended, waits on that object in every later state before T + d; in the first one from T + d on it is
   ready and has left the object's list.
   */
  lemma ExactTimeout(states: seq<State>, actions: seq<Action>, i: nat, j: nat, e: nat, d: nat)
    requires Run(states, actions) && i < j < |states|
    requires actions[i] == Block(e, d) && d != MAX_DELAY
    requires Undisturbed(states, actions, i, j, states[i].current)
    ensures var x, due := states[i].current, states[i].Now() + d;
            && (states[j].Now() < due ==> Sleeping(states[j], x, due, Some(e)))
            && (states[j - 1].Now() < due <= states[j].Now() ==> IsReady(states[j], x))
            && states[j - 1].Now() <= states[j].Now()
  {
    hide State.Valid, Enabled, Step, Undisturbed, Sleeping, IsReady, State.Now;
    RunsStayValid(states, actions, i);
    BlockStarts(states[i], e, d, states[i + 1]);
    SleepsExactly(states, actions, i, j, states[i].current, states[i].Now() + d, Some(e));
  }

  lemma DelayStarts(s: State, d: nat, t: State)
    requires s.Valid() && Enabled(s, Delay(d)) && Step(s, Delay(d), t)
    ensures Sleeping(t, s.current, s.Now() + d, None) && t.Now() == s.Now() && d > 0
  {
    hide Table.Valid, DelaysOk, DeadlinesOf, ReadyOk, EventsOk, Delayed;
    DelayStep(s, d, t);
    DelayedKeeps(s, d);
  }

  lemma BlockStarts(s: State, e: nat, d: nat, t: State)
    requires s.Valid() && Enabled(s, Block(e, d)) && Step(s, Block(e, d), t) && d != MAX_DELAY
    ensures Sleeping(t, s.current, s.Now() + d, Some(e)) && t.Now() == s.Now() && d > 0
  {
    hide Table.Valid, DelaysOk, DeadlinesOf, ReadyOk, EventsOk, BlockedOn;
    BlockedOnKeeps(s, e, d);
  }

  // ---------------------------------------------------------------------------------------------
  // Those who wait for an event stay in order

  ghost predicate Ordered(s: State) {
    InOrder(s.eventItems, s.eventValue)
  }

  /** No event value changes of a task that waits. */
  ghost predicate LeavesWaiters(s: State, a: Action) {
    a.ChangePriority? ==> a.task !in s.eventItems.container
  }

  lemma ClockStepInOrder(s: State, a: Action, t: State)
    requires s.Valid() && Ordered(s) && Enabled(s, a) && IsClockAction(a) && ClockStep(s, a, t)
    ensures Ordered(t)
  {
    hide State.Consistent, InOrder, Ticked, BlockedOn, EventWoken, Resumes, Delayed;
    match a
    case Tick =>
      if s.suspended == 0 {
        TickedInOrder(s);
      }
    case Delay(d) => DelayedKeeps(s, d);
    case Block(e, d) => BlocksInOrder(s, e, d);
    case Wake(e) => WakesMostUrgent(s, e);
    case SuspendAll =>
    case ResumeAll =>
      if s.suspended == 1 {
        var moved, replayed :| Resumes(s, moved, replayed, t);
        ResumesInOrder(s, moved, replayed, t);
      }
  }

  lemma TaskStepInOrder(s: State, a: Action, t: State)
    requires s.Valid() && Ordered(s) && Enabled(s, a) && !IsClockAction(a) && TaskStep(s, a, t) && LeavesWaiters(s, a)
    ensures Ordered(t)
  {
    hide Table.Valid, Table.Append, Table.Move, DelaysOk, ReadyOk, State.CountsOk, InOrder, Relocated, Gone, Selected;
    KernelLists(s);
    match a
    case Create(x, p) => CreatedInOrder(s, x, p);
    case Delete(x) => DeletedInOrder(s, x);
    case Reap =>
      TerminationHead(s);
      GoneInOrder(s, s.stateItems.Items(Termination)[0]);
    case Suspend(x) =>
      SuspendedBasics(s, x);
      RelocatedInOrder(s, x, Suspended);
    case Resume(x) =>
      ReadiedKeeps(s, x, s.tickCount + 1);
      RelocatedInOrder(s, x, Ready(s.priority[x]));
    case ChangePriority(x, p, v) => ValueElsewhere(s.eventItems, s.eventValue, x, v);
    case SwitchContext => SelectedSameEvents(s);
  }

  lemma SelectedSameEvents(s: State)
    requires s.Consistent(s.tickCount + 1) && SomeReady(s)
    ensures Selected(s).eventItems == s.eventItems && Selected(s).eventValue == s.eventValue
    ensures TicksSeen(Selected(s)) == TicksSeen(s)
  {
    hide Table.Valid, DelaysOk, ReadyOk, EventsOk, Advance;
  }

  lemma CreatedInOrder(s: State, x: Task, p: nat)
    requires s.Valid() && Ordered(s) && x !in s.stateItems.container && p < MAX_PRIORITIES
    ensures Ordered(Created(s, x, p))
  {
    hide Table.Valid, Table.Append, DelaysOk, ReadyOk, State.CountsOk, InOrder;
    ValueElsewhere(s.eventItems, s.eventValue, x, MAX_PRIORITIES - p);
  }

  lemma DeletedInOrder(s: State, x: Task)
    requires s.Valid() && Ordered(s) && x in s.stateItems.container && s.stateItems.container[x] != Termination
    ensures Ordered(if x == s.current then DeletedSelf(s) else DeletedOther(s, x))
  {
    hide Table.Valid, Table.Move, DelaysOk, ReadyOk, State.CountsOk, InOrder, Relocated, Gone;
    KernelLists(s);
    if x == s.current {
      RelocatedInOrder(s, x, Termination);
    } else {
      GoneInOrder(s, x);
      GoneTime(s, x, s.tickCount + 1);
      GoneBasics(s, x);
    }
  }

  /**
   In every run that changes no priority of a waiting task, those who wait for an event are in order in every state; so
   that whoever is woken is one whom no other waiter outranks (`SchedulerTurns.WakesMostUrgent`).
   */
  lemma {:induction false} WaitersStayInOrder(states: seq<State>, actions: seq<Action>, n: nat)
    requires Run(states, actions) && n < |states| && Ordered(states[0])
    requires forall i :: 0 <= i < n ==> LeavesWaiters(states[i], actions[i])
    ensures Ordered(states[n])
  {
    hide State.Valid, Enabled, ClockStep, TaskStep, Ordered, LeavesWaiters;
    if n > 0 {
      RunsStayValid(states, actions, n - 1);
      WaitersStayInOrder(states, actions, n - 1);
      if IsClockAction(actions[n - 1]) {
        ClockStepInOrder(states[n - 1], actions[n - 1], states[n]);
      } else {
        TaskStepInOrder(states[n - 1], actions[n - 1], states[n]);
      }
    }
  }

  // ---------------------------------------------------------------------------------------------
  // No tick is lost

  /** The ticks counted so far, and those still pended. */
  function TicksSeen(s: State): nat {
    s.Now() + s.pendedTicks
  }

  /** Every tick interrupt counts once, at once or when the scheduler is resumed, and nothing else does. */
  lemma StepCounts(s: State, a: Action, t: State)
    requires s.Valid() && Enabled(s, a) && Step(s, a, t)
    ensures TicksSeen(t) == TicksSeen(s) + if a.Tick? then 1 else 0
  {
    hide State.Consistent, Ticked, BlockedOn, EventWoken, Delayed, Relocated, Selected, Gone, Created, Reprioritised;
    if IsClockAction(a) {
      ClockStepCounts(s, a, t);
    } else {
      TaskStepCounts(s, a, t);
    }
  }

  lemma ClockStepCounts(s: State, a: Action, t: State)
    requires s.Valid() && Enabled(s, a) && IsClockAction(a) && ClockStep(s, a, t)
    ensures TicksSeen(t) == TicksSeen(s) + if a.Tick? then 1 else 0
  {
    hide State.Consistent, Ticked, BlockedOn, EventWoken, Delayed, Resumes, State.Deadlines, Moved;
    match a
    case Tick =>
      if s.suspended == 0 {
        TickedIsFullScan(s);
        TickedFrame(s);
      }
    case Delay(d) => DelayedKeeps(s, d);
    case Block(e, d) => BlockedOnKeeps(s, e, d);
    case Wake(e) => WokenCounts(s, e);
    case SuspendAll =>
    case ResumeAll =>
      if s.suspended == 1 {
        var moved, replayed :| Resumes(s, moved, replayed, t);
        ResumingCatchesUp(s, moved, replayed, t);
        PendingListKnown(s);
        ResumedFrame(s, t);
      }
  }

  lemma PendingListKnown(s: State)
    requires s.Valid()
    ensures PendingReady in s.eventItems.lists
  {
    hide Table.Valid;
  }

  lemma ResumedFrame(s: State, t: State)
    requires PendingReady in s.eventItems.lists
    requires CaughtUp(s.(suspended := 0, pendedTicks := 0), t, PendingTasks(s), s.pendedTicks)
    ensures t.pendedTicks == 0 && t.Now() == s.Now() + s.pendedTicks
  {
    hide State.Deadlines;
  }

  lemma WokenCounts(s: State, e: nat)
    requires s.Valid() && Enabled(s, Wake(e))
    ensures TicksSeen(EventWoken(s, e)) == TicksSeen(s)
  {
    hide State.Consistent, EventWoken, Moved;
    if s.suspended == 0 {
      EventWokenNow(s, e);
      MovedOutside(s, EventWoken(s, e), s.eventItems.Items(WaitingOn(e))[0]);
    } else {
      EventWokenLater(s, e);
    }
  }

  lemma TaskStepCounts(s: State, a: Action, t: State)
    requires s.Valid() && Enabled(s, a) && !IsClockAction(a) && TaskStep(s, a, t)
    ensures TicksSeen(t) == TicksSeen(s)
  {
    hide Table.Valid, DelaysOk, ReadyOk, EventsOk, State.CountsOk, Selected, Created, Reprioritised, Relocated, Gone;
    KernelLists(s);
    match a
    case Create(x, p) => CreatedTicks(s, x, p);
    case Delete(x) =>
      if x == s.current {
        DeletedSelfFrame(s);
      } else {
        DeletedOtherFrame(s, x);
      }
    case Reap =>
      TerminationHead(s);
      ReapedFrame(s, s.stateItems.Items(Termination)[0]);
    case Suspend(x) => SuspendedTaskFrame(s, x);
    case Resume(x) =>
      ReadiedKeeps(s, x, s.tickCount + 1);
      PriorityKnown(s, x, s.tickCount + 1);
      RelocatedFrame(s, x, Ready(s.priority[x]));
    case ChangePriority(x, p, v) => ReprioritisedTicks(s, x, p, v);
    case SwitchContext => SelectedSameEvents(s);
  }

  lemma CreatedTicks(s: State, x: Task, p: nat)
    requires s.ListsOk() && x !in s.stateItems.container && p < MAX_PRIORITIES
    ensures TicksSeen(Created(s, x, p)) == TicksSeen(s)
  {
    hide Table.Valid, Table.Append;
  }

  lemma ReprioritisedTicks(s: State, x: Task, p: nat, v: nat)
    requires s.ListsOk() && x in s.stateItems.container && p < MAX_PRIORITIES
    ensures TicksSeen(Reprioritised(s, x, p, v)) == TicksSeen(s)
  {
    hide Table.Valid, Table.Move;
  }

  function TickCount(actions: seq<Action>): nat {
    if actions == [] then 0 else TickCount(actions[..|actions| - 1]) + if actions[|actions| - 1].Tick? then 1 else 0
  }

  /** In every run the clock and the pended ticks together have gone on by as many ticks as there were interrupts. */
  lemma {:induction false} NoTickLost(states: seq<State>, actions: seq<Action>, n: nat)
    requires Run(states, actions) && n < |states|
    ensures TicksSeen(states[n]) == TicksSeen(states[0]) + TickCount(actions[..n])
  {
    hide State.Valid, Enabled, Step, TicksSeen;
    if n > 0 {
      RunsStayValid(states, actions, n - 1);
      NoTickLost(states, actions, n - 1);
      StepCounts(states[n - 1], actions[n - 1], states[n]);
      assert actions[..n][..n - 1] == actions[..n - 1] && actions[..n][n - 1] == actions[n - 1];
    }
  }

  // ---------------------------------------------------------------------------------------------
  // The most urgent task runs

  /** The call, or the interrupt, ends with a request for a context switch. */
  ghost predicate Asks(s: State, a: Action)
    requires s.Valid() && Enabled(s, a)
  {
    match a
    case Tick => s.suspended == 0 && AsksForSwitch(s)
    case Create(x, p) => s.current in s.priority && p > s.priority[s.current]
    case Resume(x) => s.current in s.priority && x in s.priority && s.priority[x] >= s.priority[s.current]
    case ChangePriority(x, p, v) => x == s.current || (s.current in s.priority && p > s.priority[s.current])
    case _ => false
  }

  lemma ClockStepSettles(s: State, a: Action, t: State)
    requires s.Valid() && Enabled(s, a) && IsClockAction(a) && ClockStep(s, a, t)
    requires RunningIsReady(s) && Settled(s)
    ensures Settled(t) || Asks(s, a)
  {
    hide State.Consistent, Ticked, BlockedOn, EventWoken, Resumes, Delayed, OutrankedIn, AsksForSwitch;
    match a
    case Tick =>
      if s.suspended == 0 {
        TickSettles(s);
      }
    case Delay(d) =>
      DelayedKeeps(s, d);
      FewerSettle(s, t);
    case Block(e, d) => BlockedSettles(s, e, d);
    case Wake(e) => WokenSettles(s, e);
    case SuspendAll =>
    case ResumeAll =>
      if s.suspended == 1 {
        var moved, replayed :| Resumes(s, moved, replayed, t);
        ResumesSettles(s, moved, replayed, t);
      }
  }

  lemma TickSettles(s: State)
    requires s.Valid() && RunningIsReady(s) && Settled(s)
    ensures Settled(Ticked(s)) || AsksForSwitch(s)
  {
    hide State.Consistent, Ticked, AsksForSwitch, OutrankedIn;
    TickedTasks(s);
    TickedFrame(s);
    if !s.yieldPending {
      TickAsksExactly(s);
      RivalsOutrank(Ticked(s));
    }
  }

  lemma BlockedSettles(s: State, e: nat, d: nat)
    requires s.Valid() && Enabled(s, Block(e, d)) && Settled(s)
    ensures Settled(BlockedOn(s, e, d))
  {
    hide State.Consistent, BlockedOn, Delayed, Parked, OutrankedIn;
    BlockedOnKeeps(s, e, d);
    BlockedTasks(s, e, d);
    FewerSettle(s, BlockedOn(s, e, d));
  }

  lemma BlockedTasks(s: State, e: nat, d: nat)
    requires s.Valid() && Enabled(s, Block(e, d))
    ensures forall y <- BlockedOn(s, e, d).stateItems.container :: BlockedOn(s, e, d).stateItems.container[y].Ready? ==>
              y in s.stateItems.container && s.stateItems.container[y].Ready?
  {
    hide State.Consistent, Delayed, Parked, Table.Insert, Table.Valid;
    if d == MAX_DELAY {
      ParkedKeeps(s);
    } else {
      DelayedKeeps(s, d);
    }
  }

  lemma WokenSettles(s: State, e: nat)
    requires s.Valid() && Enabled(s, Wake(e)) && RunningIsReady(s) && Settled(s)
    ensures Settled(EventWoken(s, e))
  {
    hide State.Consistent, EventWoken, OutrankedIn;
    WokenFrame(s, e);
    if s.suspended > 0 {
      EventWokenLater(s, e);
    } else if !s.yieldPending {
      WakeAsksExactly(s, e);
    }
  }

  lemma TaskStepSettles(s: State, a: Action, t: State)
    requires s.Valid() && Enabled(s, a) && !IsClockAction(a) && TaskStep(s, a, t)
    requires a.SwitchContext? || (RunningIsReady(s) && Settled(s))
    ensures Settled(t) || Asks(s, a)
  {
    hide State.Consistent, Relocated, Gone, Selected, Created, Reprioritised, OutrankedIn, Readied;
    KernelLists(s);
    match a
    case Create(x, p) => CreatedSettles(s, x, p);
    case Delete(x) => DeletedSettles(s, x);
    case Reap => ReapedSettles(s);
    case Suspend(x) => SuspendedSettles(s, x);
    case Resume(x) => ResumedSettles(s, x);
    case ChangePriority(x, p, v) => ReprioritisedSettles(s, x, p, v);
    case SwitchContext =>
      if s.suspended == 0 {
        SelectedSettles(s);
      }
  }

  lemma CreatedSettles(s: State, x: Task, p: nat)
    requires s.Valid() && Enabled(s, Create(x, p)) && Settled(s)
    ensures Settled(Created(s, x, p)) || Asks(s, Create(x, p))
  {
    hide State.Consistent, OutrankedIn, Table.Append;
    if !s.yieldPending {
      CreateAsksExactly(s, x, p);
    }
  }

  lemma DeletedSettles(s: State, x: Task)
    requires s.Valid() && Enabled(s, Delete(x)) && Settled(s)
    ensures Settled(if x == s.current then DeletedSelf(s) else DeletedOther(s, x))
  {
    hide State.Consistent, OutrankedIn, DeletedSelf, DeletedOther;
    KernelLists(s);
    if x == s.current {
      DeletedSelfKeeps(s, s.tickCount + 1);
      DeletedSelfSame(s);
      FewerSettle(s, DeletedSelf(s));
    } else {
      DeletedOtherKeeps(s, x);
      DeletedOtherSame(s, x);
      FewerSettle(s, DeletedOther(s, x));
    }
  }

  lemma DeletedSelfSame(s: State)
    requires s.ListsOk()
    ensures var t := DeletedSelf(s);
            t.priority == s.priority && t.current == s.current && t.yieldPending == s.yieldPending
  {
    hide Table.Valid, Table.Move, Table.Remove;
  }

  lemma DeletedOtherSame(s: State, x: Task)
    requires s.Consistent(s.tickCount + 1) && x in s.stateItems.container && x != s.current
    ensures var t := DeletedOther(s, x);
            t.priority == s.priority && t.current == s.current && t.yieldPending == s.yieldPending
  {
    hide Table.Valid, Table.Move, Table.Remove, DelaysOk, ReadyOk, EventsOk;
    GoneTime(s, x, s.tickCount + 1);
    GoneBasics(s, x);
  }

  lemma ReapedSettles(s: State)
    requires s.Valid() && Enabled(s, Reap) && Settled(s)
    ensures s.stateItems.Items(Termination) != [] && s.stateItems.Items(Termination)[0] in s.stateItems.container
    ensures s.ListsOk() && Settled(Reaped(s, s.stateItems.Items(Termination)[0]))
  {
    hide State.Consistent, OutrankedIn, Reaped;
    KernelLists(s);
    TerminationHead(s);
    ReapedKeeps(s, s.stateItems.Items(Termination)[0]);
    ReapedSame(s, s.stateItems.Items(Termination)[0]);
    FewerSettle(s, Reaped(s, s.stateItems.Items(Termination)[0]));
  }

  lemma ReapedSame(s: State, x: Task)
    requires s.ListsOk() && x in s.stateItems.container
    ensures var t := Reaped(s, x);
            t.priority == s.priority && t.current == s.current && t.yieldPending == s.yieldPending
  {
    hide Table.Valid, Table.Remove;
  }

  lemma SuspendedSettles(s: State, x: Task)
    requires s.Valid() && Enabled(s, Suspend(x)) && Settled(s)
    ensures Settled(SuspendedTask(s, x))
  {
    hide State.Consistent, OutrankedIn, SuspendedTask;
    SuspendedTaskKeeps(s, x);
    SuspendedTaskSame(s, x);
    FewerSettle(s, SuspendedTask(s, x));
  }

  lemma SuspendedTaskSame(s: State, x: Task)
    requires s.Consistent(s.tickCount + 1) && x in s.stateItems.container
    ensures var t := SuspendedTask(s, x);
            t.priority == s.priority && t.current == s.current && t.yieldPending == s.yieldPending
  {
    hide Table.Valid, Table.Move, Table.Remove, DelaysOk, ReadyOk, EventsOk;
    SuspendedBasics(s, x);
  }

  lemma ResumedSettles(s: State, x: Task)
    requires s.Valid() && Enabled(s, Resume(x)) && Settled(s)
    ensures s.ListsOk() && x in s.priority && s.priority[x] < MAX_PRIORITIES
    ensures Settled(Readied(s, x)) || Asks(s, Resume(x))
  {
    hide State.Consistent, OutrankedIn, Readied;
    KernelLists(s);
    CurrentFacts(s, s.tickCount + 1);
    ReadiedKeeps(s, x, s.tickCount + 1);
    ReadiedTasks(s, x);
    ReadiedYield(s, x);
    OneMoreRival(s.stateItems.container, s.priority, s.current, x, s.priority[x]);
    assert s.priority[x := s.priority[x]] == s.priority;
  }

  lemma ReprioritisedSettles(s: State, x: Task, p: nat, v: nat)
    requires s.Valid() && Enabled(s, ChangePriority(x, p, v)) && Settled(s)
    ensures s.ListsOk() && (Settled(Reprioritised(s, x, p, v)) || Asks(s, ChangePriority(x, p, v)))
  {
    hide State.Consistent, Table.Move, Table.Valid;
    KernelLists(s);
    CurrentFacts(s, s.tickCount + 1);
    ReprioritisedLists(s, x, p, v);
  }

  /** The running task can run, and a switch is asked for if it is outranked. */
  ghost predicate RunsRightly(s: State) {
    RunningIsReady(s) && Settled(s)
  }

  /**
   Whenever a step asks for a switch, or the running task is ready no more, the switch is what happens next; and the
   running task blocks only while the scheduler is not suspended, as the kernel asserts.
   */
  ghost predicate Prompt(states: seq<State>, actions: seq<Action>)
    requires |states| == |actions| + 1
  {
    && (forall i :: 0 <= i < |actions| && states[i].Valid() && Enabled(states[i], actions[i]) ==>
          SwitchFollows(states, actions, i))
    && (forall i :: 0 <= i < |actions| && !RunningIsReady(states[i]) ==> states[i].suspended == 0)
  }

  ghost predicate SwitchFollows(states: seq<State>, actions: seq<Action>, i: nat)
    requires |states| == |actions| + 1 && i < |actions| && states[i].Valid() && Enabled(states[i], actions[i])
  {
    Asks(states[i], actions[i]) || !RunningIsReady(states[i + 1]) ==>
      i + 1 < |actions| ==> actions[i + 1].SwitchContext?
  }

  /**
   The scheduler is preemptive: in every run in which requests are followed by the switch, the running task is ready and
   nobody outranks it, unless a yield is pending or the switch is just about to be made.
   */
  lemma {:induction false} MostUrgentRuns(states: seq<State>, actions: seq<Action>, n: nat)
    requires Run(states, actions) && n < |states| && RunsRightly(states[0]) && Prompt(states, actions)
    ensures RunsRightly(states[n]) || (n < |actions| ==> actions[n].SwitchContext?)
  {
    hide State.Valid, Enabled, ClockStep, TaskStep, Asks, Settled, RunningIsReady;
    if n > 0 {
      var s, a, t := states[n - 1], actions[n - 1], states[n];
      MostUrgentRuns(states, actions, n - 1);
      RunsStayValid(states, actions, n - 1);
      assert SwitchFollows(states, actions, n - 1);
      if IsClockAction(a) {
        ClockStepSettles(s, a, t);
      } else {
        TaskStepSettles(s, a, t);
        SwitchedReady(s, a, t);
      }
    }
  }

  lemma SwitchedReady(s: State, a: Action, t: State)
    requires s.Valid() && Enabled(s, a) && !IsClockAction(a) && TaskStep(s, a, t)
    ensures a.SwitchContext? && s.suspended == 0 ==> RunningIsReady(t)
  {
    hide State.Consistent, Relocated, Gone, Selected, Created, Reprioritised, OutrankedIn, Readied;
    if a.SwitchContext? && s.suspended == 0 {
      SelectedSettles(s);
    }
  }

  // ---------------------------------------------------------------------------------------------
  // The partition of the tasks over the lists

  ghost function ReadyBelow(t: Table<StateList, Task>, n: nat): set<Task> {
    set x | x in t.container && t.container[x].Ready? && t.container[x].priority < n
  }

  function ReadyTotal(lists: map<StateList, Ring<Task>>, n: nat): nat
    requires forall p :: 0 <= p < n ==> Ready(p) in lists
  {
    if n == 0 then 0 else ReadyTotal(lists, n - 1) + |lists[Ready(n - 1)].items|
  }

  lemma {:induction false} ReadyCount(t: Table<StateList, Task>, n: nat)
    requires t.Valid() && forall p :: 0 <= p < n ==> Ready(p) in t.lists
    ensures |ReadyBelow(t, n)| == ReadyTotal(t.lists, n)
  {
    hide Table.Valid;
    if n == 0 {
      assert ReadyBelow(t, n) == {};
    } else {
      ReadyCount(t, n - 1);
      MembersCount(t, Ready(n - 1));
      assert ReadyBelow(t, n) == ReadyBelow(t, n - 1) + TasksIn(t, Ready(n - 1));
    }
  }

  /**
   In every valid state each task is in exactly one state list, a ready one in the list of its own
   priority, on at most one event list, and the task counters are the lengths of the lists.
   */
  lemma Partition(s: State)
    requires s.Valid()
    ensures forall x <- s.stateItems.container, k <- s.stateItems.lists ::
              x in s.stateItems.Items(k) <==> k == s.stateItems.container[x]
    ensures forall x <- s.stateItems.container :: x in s.priority &&
              (s.stateItems.container[x].Ready? <==> s.stateItems.container[x] == Ready(s.priority[x]))
    ensures forall k <- s.eventItems.lists, x <- s.eventItems.Items(k) ::
              x in s.eventItems.container && s.eventItems.container[x] == k
    ensures HasStateLists(s.stateItems.lists)
    ensures s.deletedWaiting == |s.stateItems.Items(Termination)|
    ensures s.taskCount == ReadyTotal(s.stateItems.lists, MAX_PRIORITIES)
                           + |s.stateItems.Items(DelayedOne)| + |s.stateItems.Items(DelayedTwo)|
                           + |s.stateItems.Items(Suspended)| + |s.stateItems.Items(Termination)|
  {
    hide DelaysOk;
    Total(s.stateItems, s.priority, s.topReadyPriority);
  }

  lemma Total(t: Table<StateList, Task>, priority: map<Task, nat>, top: nat)
    requires t.Valid() && HasStateLists(t.lists) && ReadyOk(t.container, priority, top)
    ensures |t.container.Keys| == ReadyTotal(t.lists, MAX_PRIORITIES)
              + |t.Items(DelayedOne)| + |t.Items(DelayedTwo)| + |t.Items(Suspended)| + |t.Items(Termination)|
  {
    hide Table.Valid, ReadyTotal, TasksIn, ReadyBelow;
    ReadyCount(t, MAX_PRIORITIES);
    MembersCount(t, DelayedOne);
    MembersCount(t, DelayedTwo);
    MembersCount(t, Suspended);
    MembersCount(t, Termination);
    Covered(t, priority, top);
    var ready, one, two := ReadyBelow(t, MAX_PRIORITIES), TasksIn(t, DelayedOne), TasksIn(t, DelayedTwo);
    var parked, ended := TasksIn(t, Suspended), TasksIn(t, Termination);
    DisjointCount(parked, ended);
    DisjointCount(two, parked + ended);
    DisjointCount(one, two + (parked + ended));
    DisjointCount(ready, one + (two + (parked + ended)));
  }

  lemma Covered(t: Table<StateList, Task>, priority: map<Task, nat>, top: nat)
    requires ReadyOk(t.container, priority, top)
    ensures var ready, one, two := ReadyBelow(t, MAX_PRIORITIES), TasksIn(t, DelayedOne), TasksIn(t, DelayedTwo);
            var parked, ended := TasksIn(t, Suspended), TasksIn(t, Termination);
            && t.container.Keys == ready + (one + (two + (parked + ended)))
            && parked !! ended && two !! parked + ended && one !! two + (parked + ended)
            && ready !! one + (two + (parked + ended))
  {
  }

  lemma DisjointCount(a: set<Task>, b: set<Task>)
    requires a !! b
    ensures |a + b| == |a| + |b|
  {
  }
}
