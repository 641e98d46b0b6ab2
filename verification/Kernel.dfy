/**
 The functions of lib/freertos/tasks.c that update the kernel variables in place.

 The variables are the fields of `s`; every method says what it makes of them in terms of the state
 functions of module Scheduler, whose lemmas then give the kernel's properties.
 */
module Kernel {
  import opened ListSpec
  import opened ItemTable
  import opened Scheduler
  import opened Ticks
  import opened SchedulerOps
  import opened SchedulerTasks
  import opened SchedulerTurns
  import opened Options

  class Kernel {
    var s: State

    /** `prvResetNextTaskUnblockTime` */
    method ResetNextTaskUnblockTime()
      requires HasStateLists(s.stateItems.lists)
      requires forall x <- s.stateItems.Items(s.DelayedList()) :: x in s.itemValue
      modifies this
      ensures s == Rearmed(old(s))
    {
      if s.stateItems.Items(s.DelayedList()) == [] {
        s := s.(nextUnblockTime := MAX_DELAY);
      } else {
        var head := s.stateItems.Items(s.DelayedList())[0];
        assert head in s.stateItems.Items(s.DelayedList());
        s := s.(nextUnblockTime := s.itemValue[head]);
      }
    }

    /** Taking a task off the state and event lists and `prvAddTaskToReadyList`. */
    method MakeReady(x: Task)
      requires s.ListsOk() && x in s.stateItems.container
      requires x in s.priority && s.priority[x] < MAX_PRIORITIES
      modifies this
      ensures s == Readied(old(s), x)
      ensures s == old(s).(stateItems := s.stateItems, eventItems := s.eventItems,
                           topReadyPriority := s.topReadyPriority)
    {
      hide Table.Valid, Table.Move, Table.Remove;
      if x in s.eventItems.container {
        s := s.(eventItems := s.eventItems.Remove(x));
      }
      if s.priority[x] > s.topReadyPriority {
        s := s.(topReadyPriority := s.priority[x]);
      }
      s := s.(stateItems := s.stateItems.Move(Ready(s.priority[x]), x));
    }

    /** `taskSWITCH_DELAYED_LISTS`; the list that is put away is empty, as its assertion demands. */
    method SwitchDelayedLists()
      requires HasStateLists(s.stateItems.lists)
      requires s.stateItems.Items(s.DelayedList()) == []
      requires forall x <- s.stateItems.Items(s.OverflowList()) :: x in s.itemValue
      modifies this
      ensures s == Rearmed(old(s).(swapped := !old(s).swapped, overflows := old(s).overflows + 1))
    {
      s := s.(swapped := !s.swapped);
      s := s.(overflows := s.overflows + 1);
      ResetNextTaskUnblockTime();
    }

    /** The start of `xTaskIncrementTick`: count, and switch the delayed lists at the wrap. */
    method StartTick()
      requires HasStateLists(s.stateItems.lists) && s.tickCount < WRAP
      requires s.tickCount == WRAP - 1 ==> s.stateItems.Items(s.DelayedList()) == []
      requires forall x <- s.stateItems.Items(s.OverflowList()) :: x in s.itemValue
      modifies this
      ensures s == TickStart(old(s))
    {
      s := s.(tickCount := if s.tickCount + 1 == WRAP then 0 else s.tickCount + 1);
      if s.tickCount == 0 {
        SwitchDelayedLists();
      }
    }

    /** The loop of `xTaskIncrementTick`; returns whether a readied task may preempt. */
    method DrainDelayedList() returns (preempt: bool)
      requires s.Consistent(s.tickCount)
      modifies this
      ensures s == Rearmed(Drain(old(s)))
      ensures preempt <==> Preempts(old(s), Passed(old(s)))
    {
      hide Table.Valid, Table.Move, Table.Remove, DelaysOk, EventsOk, State.CountsOk, State.TimeOk;
      hide Readied, Draining, Drain, Passed, Preempts;
      ghost var s0 := s;
      DrainingStarts(s0);
      preempt := false;
      while true
        invariant s.Consistent(s.tickCount) && Draining(s0, s, preempt)
        decreases |s.stateItems.Items(s.DelayedList())|
      {
        if s.stateItems.Items(s.DelayedList()) == [] {
          DrainingStops(s0, s, preempt);
          s := s.(nextUnblockTime := MAX_DELAY);
          break;
        }
        var x := s.stateItems.Items(s.DelayedList())[0];
        assert x == Head(s);
        if s.tickCount < s.itemValue[x] {
          DrainingStops(s0, s, preempt);
          s := s.(nextUnblockTime := s.itemValue[x]);
          break;
        }
        DrainingStep(s0, s, preempt);
        HeadMoves(s);
        ReadiedShrinks(s, x);
        MakeReady(x);
        if s.priority[x] >= s.priority[s.current] {
          preempt := true;
        }
      }
    }

    /** `xTaskIncrementTick` */
    method IncrementTick() returns (switchRequired: bool)
      requires s.Consistent(s.tickCount + 1)
      modifies this
      ensures old(s).suspended > 0 ==>
        s == old(s).(pendedTicks := old(s).pendedTicks + 1) && !switchRequired
      ensures old(s).suspended == 0 ==>
        && s == Ticked(old(s))
        && switchRequired == (Preempts(old(s), Reached(old(s))) || SharesSlice(s) || s.yieldPending)
        && (RunningIsReady(old(s)) && !Outranked(old(s)) ==> switchRequired == (s.yieldPending || HasRival(s)))
    {
      hide State.Consistent, Table.Valid, TickStart, Drain, Passed, DelaysOk, Outranked, HasRival, RunningIsReady;
      switchRequired := false;
      ghost var s0 := s;
      if s.suspended == 0 {
        TickStartKeeps(s);
        TickWraps(s);
        ReachedIsPassed(s);
        TickedIsFullScan(s);
        StartTick();
        if s.tickCount >= s.nextUnblockTime {
          switchRequired := DrainDelayedList();
        } else {
          SkipIsSafe(s);
          NothingPassed(s);
        }
        CurrentFacts(s, s.tickCount + 1);
        if |s.stateItems.Items(Ready(s.priority[s.current]))| > 1 {
          switchRequired := true;
        }
        if s.yieldPending {
          switchRequired := true;
        }
        TickAnswer(s0, switchRequired);
      } else {
        s := s.(pendedTicks := s.pendedTicks + 1);
      }
    }

    /** `prvAddCurrentTaskToDelayedList` */
    method AddCurrentTaskToDelayedList(ticks: nat, canBlockIndefinitely: bool)
      requires s.Consistent(s.tickCount + 1) && s.stateItems.container[s.current].Ready? && 0 < ticks < WRAP
      modifies this
      ensures ticks == MAX_DELAY && canBlockIndefinitely ==> s == Parked(old(s))
      ensures !(ticks == MAX_DELAY && canBlockIndefinitely) ==> s == Delayed(old(s), ticks)
    {
      hide Table.Valid, Table.Move, DelaysOk, ReadyOk, EventsOk, Delayed;
      if ticks == MAX_DELAY && canBlockIndefinitely {
        s := s.(stateItems := s.stateItems.Move(Suspended, s.current));
      } else {
        DelayedTime(s, ticks);
        InsertIntoDelayedList((s.tickCount + ticks) % WRAP, ticks);
      }
    }

    /** The insertion into the delayed list that the wake time belongs to. */
    method InsertIntoDelayedList(wake: nat, ghost ticks: nat)
      requires s.ListsOk() && s.stateItems.container[s.current].Ready?
      requires SortedBy(s.stateItems.Items(DelayedOne), s.itemValue)
      requires SortedBy(s.stateItems.Items(DelayedTwo), s.itemValue)
      requires wake == (s.tickCount + ticks) % WRAP
      modifies this
      ensures s == Delayed(old(s), ticks)
    {
      hide Table.Valid, Table.MoveSorted, InsertSorted, InsertPos, ValuesOf, ListSpec.Remove;
      var x := s.current;
      s := s.(itemValue := s.itemValue[x := wake]);
      if wake < s.tickCount {
        s := s.(stateItems := s.stateItems.MoveSorted(s.OverflowList(), x, wake, s.itemValue));
      } else {
        s := s.(stateItems := s.stateItems.MoveSorted(s.DelayedList(), x, wake, s.itemValue));
        if wake < s.nextUnblockTime {
          s := s.(nextUnblockTime := wake);
        }
      }
    }

    /** `vTaskPlaceOnEventList` */
    method PlaceOnEventList(e: nat, ticks: nat)
      requires s.Consistent(s.tickCount + 1) && s.stateItems.container[s.current].Ready? && 0 < ticks < WRAP
      requires WaitingOn(e) in s.eventItems.lists
      modifies this
      ensures s == BlockedOn(old(s), e, ticks) && s.Consistent(s.tickCount + 1)
    {
      hide Table.Valid, Table.Insert, DelaysOk, ReadyOk, EventsOk, Delayed, Parked;
      ghost var s0 := s;
      BlockedOnKeeps(s, e, ticks);
      QueueFacts(s, e);
      var events := s.eventItems.Insert(WaitingOn(e), s.current, s.eventValue[s.current], s.eventValue);
      AddCurrentTaskToDelayedList(ticks, true);
      s := s.(eventItems := events);
    }

    /** `xTaskRemoveFromEventList`; returns whether the woken task outranks the running one. */
    method RemoveFromEventList(e: nat) returns (higher: bool)
      requires s.Consistent(s.tickCount + 1)
      requires WaitingOn(e) in s.eventItems.lists && s.eventItems.Items(WaitingOn(e)) != []
      modifies this
      ensures s == EventWoken(old(s), e)
      ensures var x := old(s).eventItems.Items(WaitingOn(e))[0];
              x in s.priority && s.current in s.priority && higher == (s.priority[x] > s.priority[s.current])
    {
      hide Table.Valid, Table.Move, DelaysOk, ReadyOk, EventsOk, Relocated;
      WaiterFacts(s, e);
      var x := s.eventItems.Items(WaitingOn(e))[0];
      if s.suspended == 0 {
        ReadiedKeeps(s, x, s.tickCount + 1);
        RearmedAgain(Readied(s, x), s.tickCount + 1);
        MakeReady(x);
        ResetNextTaskUnblockTime();
      } else {
        s := s.(eventItems := s.eventItems.Move(PendingReady, x));
      }
      higher := s.priority[x] > s.priority[s.current];
      if higher {
        s := s.(yieldPending := true);
      }
    }

    /** `vTaskSuspendAll` */
    method SuspendAll()
      requires s.Valid()
      modifies this
      ensures s.Valid() && s == old(s).(suspended := old(s).suspended + 1)
    {
      s := s.(suspended := s.suspended + 1);
    }

    /** `xTaskResumeAll` */
    method ResumeAll() returns (alreadyYielded: bool)
      requires s.Valid() && s.suspended > 0
      modifies this
      ensures s.Valid()
      ensures old(s).suspended > 1 ==> s == old(s).(suspended := old(s).suspended - 1) && !alreadyYielded
      ensures old(s).suspended == 1 ==>
        && (exists moved, replayed :: Resumes(old(s), moved, replayed, s))
        && CaughtUp(old(s).(suspended := 0, pendedTicks := 0), s, PendingTasks(old(s)), old(s).pendedTicks)
        && alreadyYielded == s.yieldPending
        && (old(s).yieldPending || Preempts(old(s), PendingTasks(old(s))) ==> s.yieldPending)
    {
      hide Table.Valid, DelaysOk, ReadyOk, EventsOk, State.CountsOk, CaughtUp, Readied, DeadlinesOf,
           Ticked, Empties, Replays;
      alreadyYielded := false;
      SuspendedKeeps(s, s.suspended - 1);
      s := s.(suspended := s.suspended - 1);
      if s.suspended == 0 {
        ghost var r := s;
        var moved := MovePendingReady();
        ghost var m := s;
        PendingMovedAll(r, m);
        ReplayingFacts(r, m, 0);
        ReplayingFacts(r, Rearmed(m), 0);
        if moved {
          ResetNextTaskUnblockTime();
        }
        ghost var armed := s;
        ReplayPendedTicks();
        ghost var replayed :| Replays(armed, armed.pendedTicks, replayed) && s == replayed.(pendedTicks := 0);
        ResumingCatchesUp(old(s), m, replayed, s);
        alreadyYielded := s.yieldPending;
      }
    }

    /** The first loop of `xTaskResumeAll`; returns whether it moved a task. */
    method MovePendingReady() returns (moved: bool)
      requires s.Consistent(s.tickCount + 1)
      modifies this
      ensures PendingReady in old(s).eventItems.lists
      ensures moved <==> old(s).eventItems.Items(PendingReady) != []
      ensures Empties(old(s), |old(s).eventItems.Items(PendingReady)|, s)
    {
      hide Table.Valid, DelaysOk, ReadyOk, EventsOk, State.CountsOk, Readied, Empties;
      ghost var s0, n := s, 0;
      NoRounds(s);
      moved := false;
      while s.eventItems.Items(PendingReady) != []
        invariant s.Consistent(s.tickCount + 1)
        invariant n + |s.eventItems.Items(PendingReady)| == |s0.eventItems.Items(PendingReady)| && moved == (n > 0)
        invariant Empties(s0, n, s)
        decreases |s.eventItems.Items(PendingReady)|
      {
        PendingRound(s);
        OneRoundMore(s0, n, s);
        var x := s.eventItems.Items(PendingReady)[0];
        var outranked := s.priority[x] >= s.priority[s.current];
        MakeReady(x);
        if outranked {
          s := s.(yieldPending := true);
        }
        moved, n := true, n + 1;
      }
    }

    /** The second loop of `xTaskResumeAll`. */
    method ReplayPendedTicks()
      requires s.Consistent(s.tickCount + 1) && s.suspended == 0
      modifies this
      ensures exists t :: Replays(old(s), old(s).pendedTicks, t) && s == t.(pendedTicks := 0)
    {
      hide State.Consistent, CaughtUp, Ticked, Preempts, Replays;
      var counts := s.pendedTicks;
      ghost var s0, n := s, 0;
      NoTicks(s);
      while counts > 0
        invariant n + counts == s0.pendedTicks && s.suspended == 0
        invariant s.Consistent(s.tickCount + 1) && Replays(s0, n, s)
      {
        ghost var b := s;
        TickRound(s);
        OneTickMore(s0, n, s);
        var switchRequired := IncrementTick();
        if switchRequired {
          s := s.(yieldPending := true);
        }
        counts, n := counts - 1, n + 1;
      }
      s := s.(pendedTicks := 0);
    }

    // -------------------------------------------------------------------------------------------
    // Priorities

    /**
     Giving a task another priority: its event list item gets the value `v`, and the task is moved to
     the matching ready list if it is in one.
     */
    method ChangePriority(x: Task, p: nat, v: nat)
      requires s.ListsOk() && x in s.stateItems.container && p < MAX_PRIORITIES && x in s.priority
      requires s.stateItems.container[x].Ready? ==> s.stateItems.container[x].priority == s.priority[x]
      modifies this
      ensures s == Reprioritised(old(s), x, p, v)
    {
      hide Table.Valid, Table.Move;
      s := s.(eventValue := s.eventValue[x := v]);
      if s.stateItems.container[x] == Ready(s.priority[x]) {
        s := s.(priority := s.priority[x := p]);
        s := s.(stateItems := s.stateItems.Move(Ready(p), x));
        if p > s.topReadyPriority {
          s := s.(topReadyPriority := p);
        }
      } else {
        s := s.(priority := s.priority[x := p]);
      }
    }

    /** `xTaskPriorityInherit` */
    method PriorityInherit(holder: Option<Task>) returns (inherited: bool)
      requires s.Consistent(s.tickCount + 1) && (holder.Some? ==> holder.value in s.stateItems.container)
      modifies this
      ensures s.Consistent(s.tickCount + 1)
      ensures holder.None? ==> s == old(s) && !inherited
      ensures holder.Some? ==> (s, inherited) == Inherit(old(s), holder.value)
    {
      hide Table.Valid, DelaysOk, EventsOk, State.CountsOk, Reprioritised;
      inherited := false;
      if holder.Some? {
        var h, p := holder.value, s.priority[s.current];
        if s.priority[h] < p {
          ReprioritisedKeeps(s, h, p, EventValueFor(s.eventValue[h], p), s.tickCount + 1);
          ReprioritisedFrame(s, h, p, EventValueFor(s.eventValue[h], p));
          ChangePriority(h, p, EventValueFor(s.eventValue[h], p));
          inherited := true;
        } else if s.basePriority[h] < p {
          inherited := true;
        }
      }
    }

    /** `pvTaskIncrementMutexHeldCount`: the new holder is the running task. */
    method IncrementMutexHeldCount() returns (holder: Task)
      requires s.Consistent(s.tickCount + 1)
      modifies this
      ensures s.Consistent(s.tickCount + 1) && holder == old(s).current && holder in old(s).mutexesHeld
      ensures s == old(s).(mutexesHeld := old(s).mutexesHeld[holder := old(s).mutexesHeld[holder] + 1])
    {
      hide State.Consistent;
      CurrentHeld(s);
      HeldKeeps(s, s.current, s.mutexesHeld[s.current] + 1, s.tickCount + 1);
      holder := s.current;
      s := s.(mutexesHeld := s.mutexesHeld[holder := s.mutexesHeld[holder] + 1]);
    }

    /** `xTaskPriorityDisinherit`; the holder is the running task. */
    method PriorityDisinherit(holder: Option<Task>) returns (lowered: bool)
      requires s.Consistent(s.tickCount + 1)
      requires holder.Some? ==>
        holder.value == s.current && s.mutexesHeld[s.current] > 0 && s.stateItems.container[s.current].Ready?
        && s.basePriority[s.current] < MAX_PRIORITIES
      modifies this
      ensures s.Consistent(s.tickCount + 1)
      ensures holder.None? ==> s == old(s) && !lowered
      ensures holder.Some? ==> (s, lowered) == Disinherit(old(s), holder.value)
    {
      hide Table.Valid, DelaysOk, EventsOk, State.CountsOk, Reprioritised;
      lowered := false;
      if holder.Some? {
        var h := holder.value;
        HeldKeeps(s, h, s.mutexesHeld[h] - 1, s.tickCount + 1);
        s := s.(mutexesHeld := s.mutexesHeld[h := s.mutexesHeld[h] - 1]);
        if s.priority[h] != s.basePriority[h] {
          if s.mutexesHeld[h] == 0 {
            var p := s.basePriority[h];
            ReprioritisedKeeps(s, h, p, MAX_PRIORITIES - p, s.tickCount + 1);
            ReprioritisedFrame(s, h, p, MAX_PRIORITIES - p);
            ChangePriority(h, p, MAX_PRIORITIES - p);
            lowered := true;
          }
        }
      }
    }

    /** `vTaskPriorityDisinheritAfterTimeout` */
    method PriorityDisinheritAfterTimeout(holder: Option<Task>, highestWaiting: nat)
      requires s.Consistent(s.tickCount + 1) && highestWaiting < MAX_PRIORITIES
      requires holder.Some? ==>
        holder.value in s.stateItems.container && s.mutexesHeld[holder.value] > 0
        && holder.value != s.current && s.basePriority[holder.value] < MAX_PRIORITIES
      modifies this
      ensures s.Consistent(s.tickCount + 1)
      ensures holder.None? ==> s == old(s)
      ensures holder.Some? ==> s == DisinheritAfterTimeout(old(s), holder.value, highestWaiting)
    {
      hide Table.Valid, DelaysOk, EventsOk, State.CountsOk, Reprioritised;
      if holder.Some? {
        var h := holder.value;
        var p := if s.basePriority[h] < highestWaiting then highestWaiting else s.basePriority[h];
        if s.priority[h] != p {
          if s.mutexesHeld[h] == 1 {
            ReprioritisedKeeps(s, h, p, EventValueFor(s.eventValue[h], p), s.tickCount + 1);
            ReprioritisedFrame(s, h, p, EventValueFor(s.eventValue[h], p));
            ChangePriority(h, p, EventValueFor(s.eventValue[h], p));
          }
        }
      }
    }

    // -------------------------------------------------------------------------------------------
    // Tasks

    /**
     `prvAddNewTaskToReadyList` with the fields the task is initialised with.  The new task becomes the current one if
     there is none, all others being suspended, and before the scheduler is started if none so far is more urgent;
     afterwards it may ask to run at once.
     */
    method CreateTask(x: Task, p: nat, running: bool, nobody: bool) returns (yield_: bool)
      requires s.Consistent(s.tickCount + 1) && x !in s.stateItems.container && p < MAX_PRIORITIES
      modifies this
      ensures s.Consistent(s.tickCount + 1) && old(s).current in old(s).priority
      ensures var first := nobody || (!running && old(s).priority[old(s).current] <= p);
              s == Created(old(s), x, p).(current := if first then x else old(s).current)
      ensures yield_ == (running && !nobody && old(s).priority[old(s).current] < p)
      ensures s.stateItems.container == old(s).stateItems.container[x := Ready(p)] && s.Deadlines() == old(s).Deadlines()
    {
      hide State.Consistent, Table.Valid, Table.Append, DeadlinesOf;
      CreatedKeeps(s, x, p, s.tickCount + 1);
      CurrentFacts(s, s.tickCount + 1);
      KernelLists(s);
      ElectedKeeps(Created(s, x, p), x, s.tickCount + 1);
      yield_ := running && !nobody && s.priority[s.current] < p;
      var first := nobody || (!running && s.priority[s.current] <= p);
      InitialiseNewTask(x, p);
      s := s.(taskCount := s.taskCount + 1);
      if first {
        s := s.(current := x);
      }
      AddToReadyList(x, p);
    }

    /** What `prvInitialiseNewTask` sets of the fields modelled. */
    method InitialiseNewTask(x: Task, p: nat)
      requires p < MAX_PRIORITIES
      modifies this
      ensures s == old(s).(itemValue := old(s).itemValue[x := 0], eventValue := old(s).eventValue[x := MAX_PRIORITIES - p],
                           priority := old(s).priority[x := p], basePriority := old(s).basePriority[x := p],
                           mutexesHeld := old(s).mutexesHeld[x := 0])
    {
      s := s.(itemValue := s.itemValue[x := 0], eventValue := s.eventValue[x := MAX_PRIORITIES - p],
              priority := s.priority[x := p], basePriority := s.basePriority[x := p],
              mutexesHeld := s.mutexesHeld[x := 0]);
    }

    /** `prvAddTaskToReadyList` of a task that is in no list. */
    method AddToReadyList(x: Task, p: nat)
      requires s.stateItems.Valid() && x !in s.stateItems.container && Ready(p) in s.stateItems.lists
      modifies this
      ensures s == old(s).(topReadyPriority := if p > old(s).topReadyPriority then p else old(s).topReadyPriority,
                           stateItems := old(s).stateItems.Append(Ready(p), x))
    {
      hide Table.Valid, Table.Append;
      if p > s.topReadyPriority {
        s := s.(topReadyPriority := p);
      }
      s := s.(stateItems := s.stateItems.Append(Ready(p), x));
    }

    /** `vTaskDelete`; a running task that deletes itself must not have suspended the scheduler. */
    method DeleteTask(x: Task, running: bool) returns (yield_: bool)
      requires s.Consistent(s.tickCount + 1) && x in s.stateItems.container
      requires s.stateItems.container[x] != Termination
      requires running && x == s.current ==> s.suspended == 0
      modifies this
      ensures s.Consistent(s.tickCount + 1)
      ensures s == (if x == old(s).current then DeletedSelf(old(s)) else DeletedOther(old(s), x))
      ensures s.stateItems.container ==
                if x == old(s).current then old(s).stateItems.container[x := Termination]
                else old(s).stateItems.container - {x}
      ensures s.eventItems.container == old(s).eventItems.container - {x}
      ensures s.Deadlines() == old(s).Deadlines() - {x}
      ensures yield_ == (running && x == old(s).current)
    {
      hide Table.Valid, DelaysOk, ReadyOk, EventsOk, DeadlinesOf, DeletedSelf, DeletedOther;
      yield_ := running && x == s.current;
      if x == s.current {
        DeletedSelfKeeps(s, s.tickCount + 1);
        DeletedSelfFrame(s);
        TerminateSelf();
      } else {
        DeletedOtherKeeps(s, x);
        DeletedOtherFrame(s, x);
        ForgetTask(x);
      }
    }

    method TerminateSelf()
      requires s.ListsOk()
      modifies this
      ensures s == DeletedSelf(old(s))
    {
      hide Table.Valid, Table.Move, Table.Remove;
      var x := s.current;
      if x in s.eventItems.container {
        s := s.(eventItems := s.eventItems.Remove(x));
      }
      s := s.(stateItems := s.stateItems.Move(Termination, x));
      s := s.(deletedWaiting := s.deletedWaiting + 1);
    }

    method ForgetTask(x: Task)
      requires s.Consistent(s.tickCount + 1) && x in s.stateItems.container && x != s.current
      modifies this
      ensures s == DeletedOther(old(s), x)
    {
      hide Table.Valid, Table.Move, Table.Remove, State.Consistent;
      GoneBasics(s, x);
      CountPositive(s, x);
      KernelLists(s);
      if x in s.eventItems.container {
        s := s.(eventItems := s.eventItems.Remove(x));
      }
      s := s.(stateItems := s.stateItems.Remove(x));
      s := s.(taskCount := s.taskCount - 1);
      ResetNextTaskUnblockTime();
    }

    /** `prvCheckTasksWaitingTermination`, run by the idle task. */
    method CheckTasksWaitingTermination()
      requires s.Consistent(s.tickCount + 1) && s.stateItems.container[s.current] != Termination
      modifies this
      ensures s.Consistent(s.tickCount + 1)
      ensures s.deletedWaiting == 0
      ensures s.stateItems.container ==
        (map x | x in old(s).stateItems.container && old(s).stateItems.container[x] != Termination ::
           old(s).stateItems.container[x])
      ensures s.Deadlines() == old(s).Deadlines()
    {
      hide Reaping, Reaped, State.Deadlines, State.Consistent, Table.Valid;
      ghost var s0 := s;
      CurrentFacts(s, s.tickCount + 1);
      ReapingStarts(s);
      while s.deletedWaiting > 0
        invariant Reaping(s0, s)
        decreases s.deletedWaiting
      {
        ReapingStep(s0, s);
        ReapOne();
      }
      ReapingEnds(s0, s);
      ReapingFacts(s0, s);
    }

    /** One round of the loop. */
    method ReapOne()
      requires s.ListsOk() && s.stateItems.Items(Termination) != []
      requires s.stateItems.Items(Termination)[0] in s.stateItems.container
      requires s.stateItems.Items(Termination)[0] !in s.eventItems.container
      requires s.taskCount > 0 && s.deletedWaiting > 0
      modifies this
      ensures s == Reaped(old(s), old(s).stateItems.Items(Termination)[0])
      ensures s.current == old(s).current && s.tickCount == old(s).tickCount
      ensures s.deletedWaiting == old(s).deletedWaiting - 1
    {
      hide Table.Valid, Table.Remove;
      var x := s.stateItems.Items(Termination)[0];
      s := s.(stateItems := s.stateItems.Remove(x));
      s := s.(taskCount := s.taskCount - 1);
      s := s.(deletedWaiting := s.deletedWaiting - 1);
    }

    /**
     `vTaskSuspend`.  A task that suspends itself must not have suspended the scheduler; before the scheduler is started
     the current task hands over at once, to `nobody` if all tasks are suspended.
     */
    method SuspendTask(x: Task, running: bool) returns (yield_: bool, nobody: bool)
      requires s.Consistent(s.tickCount + 1) && x in s.stateItems.container
      requires s.stateItems.container[x] != Termination
      requires if running then x == s.current ==> s.suspended == 0 else CanHandOver(s, x)
      modifies this
      ensures s == if running then SuspendedTask(old(s), x) else SuspendedEarly(old(s), x)
      ensures s.Consistent(s.tickCount + 1)
      ensures s.stateItems.container == old(s).stateItems.container[x := Suspended]
      ensures s.eventItems.container == old(s).eventItems.container - {x}
      ensures s.Deadlines() == old(s).Deadlines() - {x}
      ensures yield_ == (running && x == old(s).current)
      ensures nobody == (!running && x == old(s).current && AllSuspended(s))
    {
      hide Table.Valid, State.Consistent, DeadlinesOf, Relocated, Selected;
      KernelLists(s);
      ParkedTaskKeeps(s, x);
      RelocatedFrame(s, x, Suspended);
      yield_, nobody := false, false;
      if running {
        SuspendedTaskKeeps(s, x);
        SuspendedBasics(s, x);
      } else {
        SuspendedEarlyKeeps(s, x);
      }
      var current := s.current;
      Park(x);
      if running {
        ResetNextTaskUnblockTime();
        yield_ := x == current;
      } else if x == current {
        AllSuspendedCounts(s, s.tickCount + 1);
        nobody := |s.stateItems.Items(Suspended)| == s.taskCount;
        if !nobody {
          SwitchContext();
        }
      }
    }

    /** Its first critical section */
    method Park(x: Task)
      requires s.ListsOk() && x in s.stateItems.container && HasStateLists(s.stateItems.lists)
      modifies this
      ensures s == Relocated(old(s), x, Suspended)
    {
      hide Table.Valid, Table.Move, Table.Remove;
      if x in s.eventItems.container {
        s := s.(eventItems := s.eventItems.Remove(x));
      }
      s := s.(stateItems := s.stateItems.Move(Suspended, x));
    }

    /** `vTaskResume`; the result says whether the resumed task is urgent enough to run at once. */
    method ResumeTask(x: Task) returns (yield_: bool)
      requires s.Consistent(s.tickCount + 1)
      modifies this
      ensures s.Consistent(s.tickCount + 1)
      ensures if x != old(s).current && IsSuspended(old(s), x)
              then
                && x in s.priority && s.current in s.priority
                && Moved(old(s), {x}, s) && yield_ == (s.priority[x] >= s.priority[s.current])
                && old(s).ListsOk() && s.priority[x] < MAX_PRIORITIES && s == Readied(old(s), x)
              else s == old(s) && !yield_
    {
      hide Table.Valid, Table.Move, Table.Remove, DelaysOk, ReadyOk, EventsOk, Readied;
      yield_ := false;
      if x != s.current && IsSuspended(s, x) {
        ReadiedMoves(s, x, s.tickCount + 1);
        CurrentFacts(s, s.tickCount + 1);
        MakeReady(x);
        yield_ := s.priority[x] >= s.priority[s.current];
      }
    }

    /** `vTaskSwitchContext` */
    method SwitchContext()
      requires s.Consistent(s.tickCount + 1) && (s.suspended == 0 ==> SomeReady(s))
      modifies this
      ensures old(s).suspended > 0 ==> s == old(s).(yieldPending := true)
      ensures old(s).suspended == 0 ==> s == Selected(old(s))
    {
      if s.suspended > 0 {
        s := s.(yieldPending := true);
      } else {
        SelectHighestPriorityTask();
      }
    }

    /** `taskSELECT_HIGHEST_PRIORITY_TASK` */
    method SelectHighestPriorityTask()
      requires s.Consistent(s.tickCount + 1) && SomeReady(s)
      modifies this
      ensures s == Selected(old(s))
    {
      hide Table.Valid, DelaysOk, EventsOk, ReadyOk, Advance;
      FirstReadyIsHighest(s, s.tickCount + 1);
      var top := TopPriority();
      var ring := Advance(s.stateItems.lists[Ready(top)]);
      s := s.(yieldPending := false);
      s := s.(stateItems := s.stateItems.(lists := s.stateItems.lists[Ready(top) := ring]));
      s := s.(current := ring.items[ring.cursor - 1]);
      s := s.(topReadyPriority := top);
    }

    /** The search loop of the macro; its assertion cannot fail. */
    method TopPriority() returns (top: nat)
      requires s.Consistent(s.tickCount + 1) && SomeReady(s)
      ensures s.topReadyPriority < MAX_PRIORITIES
      ensures top == FirstReady(s.stateItems.lists, s.topReadyPriority)
    {
      hide Table.Valid, DelaysOk, EventsOk, ReadyOk;
      FirstReadyIsHighest(s, s.tickCount + 1);
      ghost var p := FirstReady(s.stateItems.lists, s.topReadyPriority);
      top := s.topReadyPriority;
      while s.stateItems.Items(Ready(top)) == []
        invariant 0 <= top <= s.topReadyPriority && p == FirstReady(s.stateItems.lists, top)
        decreases top
      {
        assert top > 0;
        top := top - 1;
      }
    }
  }
}
