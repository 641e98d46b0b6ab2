/**
 Creating, deleting, suspending and resuming tasks, changing priorities through mutexes, and
 choosing the task to run (lib/freertos/tasks.c), as state functions that keep the invariant.
 */
module SchedulerTasks {
  import opened ListSpec
  import opened ItemTable
  import opened Scheduler

  // ---------------------------------------------------------------------------------------------
  // Priorities

  /**
   Give a task another priority, and move it to the matching ready list if it is ready; `v` is the
   new value of its event list item.
   */
  ghost function Reprioritised(s: State, x: Task, p: nat, v: nat): State
    requires s.ListsOk() && x in s.stateItems.container && p < MAX_PRIORITIES
  {
    s.(stateItems := if s.stateItems.container[x].Ready? then s.stateItems.Move(Ready(p), x) else s.stateItems,
       topReadyPriority := if s.stateItems.container[x].Ready? && p > s.topReadyPriority then p
                           else s.topReadyPriority,
       priority := s.priority[x := p],
       eventValue := s.eventValue[x := v])
  }

  lemma ReprioritisedLists(s: State, x: Task, p: nat, v: nat)
    requires s.ListsOk() && x in s.stateItems.container && p < MAX_PRIORITIES
    ensures var t := Reprioritised(s, x, p, v);
            && t.ListsOk()
            && t.stateItems.container.Keys == s.stateItems.container.Keys
            && (forall y <- s.stateItems.container :: t.stateItems.container[y] ==
                  if y == x && s.stateItems.container[x].Ready? then Ready(p) else s.stateItems.container[y])
            && (forall k <- s.stateItems.lists :: !k.Ready? ==> t.stateItems.lists[k] == s.stateItems.lists[k])
  {
    hide Table.Valid, Table.Move;
  }

  /** Changes among the ready lists matter neither to deadlines nor to event lists. */
  lemma ReadyChangesOnly(c: map<Task, StateList>, c': map<Task, StateList>, events: map<Task, EventList>,
                         value: map<Task, nat>, current: StateList, overflows: nat)
    requires c.Keys == c'.Keys
    requires forall y <- c :: c'[y] == c[y] || (c[y].Ready? && c'[y].Ready?)
    ensures DeadlinesOf(c', value, current, overflows) == DeadlinesOf(c, value, current, overflows)
    ensures EventsOk(c, events) ==> EventsOk(c', events)
  {
  }

  lemma ReadyAfter(c: map<Task, StateList>, c': map<Task, StateList>, priority: map<Task, nat>,
                   top: nat, x: Task, p: nat, top': nat)
    requires ReadyOk(c, priority, top) && x in c && c.Keys == c'.Keys && p < MAX_PRIORITIES
    requires forall y <- c :: c'[y] == if y == x && c[x].Ready? then Ready(p) else c[y]
    requires top' == if c[x].Ready? && p > top then p else top
    ensures ReadyOk(c', priority[x := p], top')
  {
  }

  /** A priority change keeps the invariant: ready tasks stay in the list of their priority. */
  lemma ReprioritisedKeeps(s: State, x: Task, p: nat, v: nat, low: nat)
    requires s.Consistent(low) && x in s.stateItems.container && p < MAX_PRIORITIES
    ensures Reprioritised(s, x, p, v).Consistent(low)
    ensures Reprioritised(s, x, p, v).Deadlines() == s.Deadlines()
  {
    hide Table.Valid, Table.Move, DelaysOk, ReadyOk, EventsOk, DeadlinesOf;
    var t := Reprioritised(s, x, p, v);
    ReprioritisedLists(s, x, p, v);
    ReadyChangesOnly(s.stateItems.container, t.stateItems.container, s.eventItems.container,
                     s.itemValue, s.DelayedList(), s.overflows);
    ReadyAfter(s.stateItems.container, t.stateItems.container, s.priority, s.topReadyPriority, x, p,
               t.topReadyPriority);
  }

  lemma ReprioritisedFrame(s: State, x: Task, p: nat, v: nat)
    requires s.ListsOk() && x in s.stateItems.container && p < MAX_PRIORITIES
    ensures Reprioritised(s, x, p, v).tickCount == s.tickCount
  {
  }

  lemma HeldKeeps(s: State, x: Task, n: nat, low: nat)
    requires s.Consistent(low) && x in s.stateItems.container
    ensures s.(mutexesHeld := s.mutexesHeld[x := n]).Consistent(low)
  {
  }

  lemma CurrentHeld(s: State)
    requires s.Consistent(s.tickCount + 1)
    ensures s.current in s.stateItems.container && s.current in s.mutexesHeld
  {
    hide Table.Valid, DelaysOk, EventsOk, ReadyOk;
  }

  /** The value an event list item has for a priority, unless the item is in other use. */
  function EventValueFor(old_: nat, p: nat): nat
    requires p < MAX_PRIORITIES
  {
    if old_ < EVENT_VALUE_IN_USE then MAX_PRIORITIES - p else old_
  }

  /** `vTaskPriorityDisinheritAfterTimeout`: the priority a holder is left with. */
  function DisinheritTarget(base_: nat, highestWaiting: nat): nat {
    if base_ < highestWaiting then highestWaiting else base_
  }

  /** `xTaskPriorityInherit`: what it makes of the state for the holder `h`, and whether it says that `h` inherited. */
  ghost function Inherit(s: State, h: Task): (r: (State, bool))
    requires s.ListsOk() && h in s.stateItems.container && h in s.priority
    requires s.current in s.priority && s.priority[s.current] < MAX_PRIORITIES
  {
    var p := s.priority[s.current];
    if s.priority[h] < p then (Reprioritised(s, h, p, EventValueFor(s.eventValue[h], p)), true)
    else (s, s.basePriority[h] < p)
  }

  /** `xTaskPriorityDisinherit` of a mutex that `h` holds, and whether it lowers the priority. */
  ghost function Disinherit(s: State, h: Task): (r: (State, bool))
    requires s.ListsOk() && h in s.stateItems.container && h in s.priority
    requires s.mutexesHeld[h] > 0 && s.basePriority[h] < MAX_PRIORITIES
  {
    var t := s.(mutexesHeld := s.mutexesHeld[h := s.mutexesHeld[h] - 1]);
    if s.priority[h] != s.basePriority[h] && s.mutexesHeld[h] == 1
    then (Reprioritised(t, h, s.basePriority[h], MAX_PRIORITIES - s.basePriority[h]), true)
    else (t, false)
  }

  /** `vTaskPriorityDisinheritAfterTimeout` */
  ghost function DisinheritAfterTimeout(s: State, h: Task, highestWaiting: nat): State
    requires s.ListsOk() && h in s.stateItems.container && h in s.priority
    requires s.basePriority[h] < MAX_PRIORITIES && highestWaiting < MAX_PRIORITIES
  {
    var p := DisinheritTarget(s.basePriority[h], highestWaiting);
    if s.priority[h] != p && s.mutexesHeld[h] == 1
    then Reprioritised(s, h, p, EventValueFor(s.eventValue[h], p)) else s
  }

  // ---------------------------------------------------------------------------------------------
  // Creation and deletion

  ghost function Created(s: State, x: Task, p: nat): State
    requires s.ListsOk() && x !in s.stateItems.container && p < MAX_PRIORITIES
  {
    s.(stateItems := s.stateItems.Append(Ready(p), x),
       taskCount := s.taskCount + 1,
       topReadyPriority := if p > s.topReadyPriority then p else s.topReadyPriority,
       itemValue := s.itemValue[x := 0],
       eventValue := s.eventValue[x := MAX_PRIORITIES - p],
       priority := s.priority[x := p], basePriority := s.basePriority[x := p],
       mutexesHeld := s.mutexesHeld[x := 0])
  }

  lemma CreatedLists(s: State, x: Task, p: nat)
    requires s.ListsOk() && x !in s.stateItems.container && p < MAX_PRIORITIES
    ensures var t := Created(s, x, p);
            && t.ListsOk()
            && t.stateItems.container == s.stateItems.container[x := Ready(p)]
            && (forall k <- s.stateItems.lists :: !k.Ready? ==> t.stateItems.lists[k] == s.stateItems.lists[k])
  {
    hide Table.Valid, Table.Append;
  }

  lemma ValueOfOthers(items: seq<Task>, value: map<Task, nat>, x: Task, v: nat)
    requires x !in items && SortedBy(items, value)
    ensures SortedBy(items, value[x := v])
    ensures forall y <- items :: value[x := v][y] == value[y]
  {
  }

  lemma CreatedTime(s: State, x: Task, p: nat, low: nat)
    requires s.ListsOk() && x !in s.stateItems.container && p < MAX_PRIORITIES && s.TimeOk(low)
    ensures HasStateLists(Created(s, x, p).stateItems.lists) && Created(s, x, p).TimeOk(low)
  {
    hide Table.Valid, Table.Append, SortedBy;
    CreatedLists(s, x, p);
    ListFacts(s.stateItems, DelayedOne);
    ListFacts(s.stateItems, DelayedTwo);
    ValueOfOthers(s.stateItems.Items(DelayedOne), s.itemValue, x, 0);
    ValueOfOthers(s.stateItems.Items(DelayedTwo), s.itemValue, x, 0);
  }

  lemma DeadlinesWithReady(c: map<Task, StateList>, value: map<Task, nat>, current: StateList,
                           overflows: nat, x: Task, p: nat)
    requires x !in c
    ensures DeadlinesOf(c[x := Ready(p)], value[x := 0], current, overflows)
            == DeadlinesOf(c, value, current, overflows)
  {
  }

  /** A new task is ready in the list of its priority and is counted. */
  lemma CreatedKeeps(s: State, x: Task, p: nat, low: nat)
    requires s.Consistent(low) && x !in s.stateItems.container && p < MAX_PRIORITIES
    ensures var t := Created(s, x, p);
            t.Consistent(low) && t.Deadlines() == s.Deadlines()
            && t.stateItems.container == s.stateItems.container[x := Ready(p)]
  {
    hide Table.Valid, Table.Append, DelaysOk, DeadlinesOf;
    CreatedLists(s, x, p);
    CreatedTime(s, x, p, low);
    DeadlinesWithReady(s.stateItems.container, s.itemValue, s.DelayedList(), s.overflows, x, p);
    assert s.stateItems.container[x := Ready(p)].Keys == s.stateItems.container.Keys + {x};
  }

  lemma KernelLists(s: State)
    requires s.Consistent(s.tickCount + 1)
    ensures s.ListsOk()
  {
    hide Table.Valid, DelaysOk, ReadyOk, EventsOk;
  }

  /** Any task known to the kernel may be the current one. */
  lemma ElectedKeeps(s: State, x: Task, low: nat)
    requires s.Consistent(low) && x in s.stateItems.container
    ensures s.(current := x).Consistent(low) && s.(current := x).Deadlines() == s.Deadlines()
  {
    hide DeadlinesOf;
  }

  /** `vTaskDelete` of the running task: it waits in the termination list for the idle task. */
  ghost function DeletedSelf(s: State): State
    requires s.ListsOk()
  {
    Relocated(s, s.current, Termination).(deletedWaiting := s.deletedWaiting + 1)
  }

  lemma DeletedSelfKeeps(s: State, low: nat)
    requires s.Consistent(low) && s.stateItems.container[s.current] != Termination
    ensures var t := DeletedSelf(s);
            && t.Consistent(low)
            && t.stateItems.container == s.stateItems.container[s.current := Termination]
            && t.eventItems.container == s.eventItems.container - {s.current}
            && t.Deadlines() == s.Deadlines() - {s.current}
  {
    hide Table.Valid, DelaysOk, DeadlinesOf, Relocated;
    RelocatedLists(s, s.current, Termination);
    RelocatedInto(s, s.current, Termination);
    RelocatedTime(s, s.current, Termination, low);
    RelocatedDeadlines(s, s.current, Termination);
    RelocatedFrame(s, s.current, Termination);
  }

  lemma RelocatedInto(s: State, x: Task, k: StateList)
    requires s.ListsOk() && x in s.stateItems.container && k in s.stateItems.lists
    requires s.stateItems.container[x] != k
    ensures k in Relocated(s, x, k).stateItems.lists
    ensures |Relocated(s, x, k).stateItems.Items(k)| == |s.stateItems.Items(k)| + 1
  {
    hide Table.Valid, Table.Move, Table.Remove;
    RingIsValid(s.stateItems, k);
  }

  /** Take a task off its state list and event list altogether. */
  ghost function Gone(s: State, x: Task): State
    requires s.ListsOk() && x in s.stateItems.container
  {
    s.(stateItems := s.stateItems.Remove(x),
       eventItems := if x in s.eventItems.container then s.eventItems.Remove(x) else s.eventItems,
       taskCount := if s.taskCount > 0 then s.taskCount - 1 else 0)
  }

  lemma GoneLists(s: State, x: Task)
    requires s.ListsOk() && x in s.stateItems.container && x != s.current
    ensures var t := Gone(s, x);
            && t.ListsOk()
            && t.stateItems.container == s.stateItems.container - {x}
            && t.eventItems.container == s.eventItems.container - {x}
            && (forall k <- s.stateItems.lists :: k != s.stateItems.container[x] ==>
                  t.stateItems.lists[k] == s.stateItems.lists[k])
            && |t.stateItems.Items(s.stateItems.container[x])|
               == |s.stateItems.Items(s.stateItems.container[x])| - 1
  {
    hide Table.Remove, Table.Valid;
  }

  lemma GoneTime(s: State, x: Task, low: nat)
    requires s.ListsOk() && x in s.stateItems.container && x != s.current && s.TimeOk(low)
    ensures HasStateLists(Gone(s, x).stateItems.lists) && Gone(s, x).TimeOk(low)
  {
    hide Table.Remove, Table.Valid, SortedBy, ListSpec.Remove;
    GoneLists(s, x);
    var j := s.stateItems.container[x];
    if IsDelayed(j) {
      ListFacts(s.stateItems, j);
      RingIsValid(s.stateItems, j);
      RemovedFromFacts(s.stateItems.lists[j], x, s.itemValue);
    }
  }

  lemma DeadlinesWithout(c: map<Task, StateList>, value: map<Task, nat>, current: StateList,
                         overflows: nat, x: Task)
    ensures DeadlinesOf(c - {x}, value, current, overflows) == DeadlinesOf(c, value, current, overflows) - {x}
  {
  }

  ghost predicate KeptWithout(s: State, x: Task, t: State) {
    && t.stateItems.container == s.stateItems.container - {x}
    && t.eventItems.container == s.eventItems.container - {x}
    && t.Deadlines() == s.Deadlines() - {x}
  }

  /** `vTaskDelete` of another task: it is forgotten at once. */
  ghost function DeletedOther(s: State, x: Task): State
    requires s.Consistent(s.tickCount + 1) && x in s.stateItems.container && x != s.current
  {
    GoneTime(s, x, s.tickCount + 1);
    GoneBasics(s, x);
    Rearmed(Gone(s, x))
  }

  lemma GoneBasics(s: State, x: Task)
    requires s.Consistent(s.tickCount + 1) && x in s.stateItems.container && x != s.current
    ensures HasStateLists(Gone(s, x).stateItems.lists)
    ensures forall y <- Gone(s, x).stateItems.Items(s.DelayedList()) :: y in s.itemValue
  {
    hide Table.Valid, Table.Remove, EventsOk, ReadyOk;
    GoneTime(s, x, s.tickCount + 1);
  }

  lemma DeletedOtherKeeps(s: State, x: Task)
    requires s.Consistent(s.tickCount + 1) && x in s.stateItems.container && x != s.current
    requires s.stateItems.container[x] != Termination
    ensures DeletedOther(s, x).Consistent(s.tickCount + 1) && KeptWithout(s, x, DeletedOther(s, x))
  {
    hide Table.Valid, Table.Remove, DelaysOk, DeadlinesOf;
    GoneKeeps(s, x);
    RearmedKeeps(Gone(s, x), s.tickCount + 1);
  }

  lemma DeletedSelfFrame(s: State)
    requires s.ListsOk()
    ensures var t := DeletedSelf(s);
            t.Now() == s.Now() && t.tickCount == s.tickCount
            && t.suspended == s.suspended && t.pendedTicks == s.pendedTicks
  {
  }

  lemma DeletedOtherFrame(s: State, x: Task)
    requires s.Consistent(s.tickCount + 1) && x in s.stateItems.container && x != s.current
    ensures var t := DeletedOther(s, x);
            t.Now() == s.Now() && t.tickCount == s.tickCount
            && t.suspended == s.suspended && t.pendedTicks == s.pendedTicks
  {
    hide Table.Valid, DelaysOk, ReadyOk, EventsOk;
    GoneBasics(s, x);
  }

  lemma GoneKeeps(s: State, x: Task)
    requires s.Consistent(s.tickCount + 1) && x in s.stateItems.container && x != s.current
    requires s.stateItems.container[x] != Termination
    ensures Gone(s, x).(nextUnblockTime := 0).Consistent(s.tickCount + 1) && KeptWithout(s, x, Gone(s, x))
  {
    hide Table.Valid, Table.Remove, DeadlinesOf, SortedBy;
    GoneLists(s, x);
    GoneTime(s, x, s.tickCount + 1);
    DeadlinesWithout(s.stateItems.container, s.itemValue, s.DelayedList(), s.overflows, x);
    assert (s.stateItems.container - {x}).Keys == s.stateItems.container.Keys - {x};
  }

  lemma CountPositive(s: State, x: Task)
    requires s.Consistent(s.tickCount + 1) && x in s.stateItems.container
    ensures s.taskCount > 0
  {
    hide DelaysOk, EventsOk, ReadyOk;
    assert x in s.stateItems.container.Keys;
  }

  lemma TerminationHead(s: State)
    requires s.Consistent(s.tickCount + 1) && s.deletedWaiting > 0
    ensures s.stateItems.Items(Termination) != [] && s.taskCount > 0
    ensures var x := s.stateItems.Items(Termination)[0];
            x in s.stateItems.container && s.stateItems.container[x] == Termination && x !in s.Deadlines()
            && x !in s.eventItems.container
  {
    hide DelaysOk, ReadyOk, Table.Valid;
    ListFacts(s.stateItems, Termination);
    assert s.stateItems.Items(Termination)[0] in s.stateItems.Items(Termination);
    CountPositive(s, s.stateItems.Items(Termination)[0]);
  }

  /** One round of `prvCheckTasksWaitingTermination`. */
  ghost function Reaped(s: State, x: Task): State
    requires s.ListsOk() && x in s.stateItems.container
  {
    Gone(s, x).(deletedWaiting := if s.deletedWaiting > 0 then s.deletedWaiting - 1 else 0)
  }

  lemma ReapedKeeps(s: State, x: Task)
    requires s.Consistent(s.tickCount + 1) && x in s.stateItems.container && x != s.current
    requires s.stateItems.container[x] == Termination
    ensures Reaped(s, x).Consistent(s.tickCount + 1) && KeptWithout(s, x, Reaped(s, x))
  {
    hide Table.Valid, Table.Remove, DeadlinesOf, DelaysOk;
    GoneLists(s, x);
    GoneTime(s, x, s.tickCount + 1);
    DeadlinesWithout(s.stateItems.container, s.itemValue, s.DelayedList(), s.overflows, x);
    assert (s.stateItems.container - {x}).Keys == s.stateItems.container.Keys - {x};
  }

  lemma ReapedFrame(s: State, x: Task)
    requires s.ListsOk() && x in s.stateItems.container
    ensures var t := Reaped(s, x);
            && t.Now() == s.Now() && t.tickCount == s.tickCount && t.current == s.current
            && t.suspended == s.suspended && t.pendedTicks == s.pendedTicks
  {
    hide Table.Valid, Table.Remove;
  }

  /** Tasks have been reaped from `s0` to `s`. */
  ghost predicate Reaping(s0: State, s: State) {
    && s.Consistent(s.tickCount + 1) && s.current == s0.current
    && (forall y <- s.stateItems.container ::
          y in s0.stateItems.container && s.stateItems.container[y] == s0.stateItems.container[y])
    && (forall y <- s0.stateItems.container ::
          s0.stateItems.container[y] != Termination ==> y in s.stateItems.container)
    && s.Deadlines() == s0.Deadlines()
  }

  lemma ReapingStarts(s: State)
    requires s.Consistent(s.tickCount + 1)
    ensures Reaping(s, s)
  {
    hide State.Consistent, State.Deadlines;
  }

  lemma ReapingStep(s0: State, s: State)
    requires Reaping(s0, s) && s.deletedWaiting > 0
    requires s0.current in s0.stateItems.container && s0.stateItems.container[s0.current] != Termination
    ensures s.ListsOk() && s.taskCount > 0 && s.stateItems.Items(Termination) != []
    ensures var x := s.stateItems.Items(Termination)[0];
            x in s.stateItems.container && x !in s.eventItems.container && Reaping(s0, Reaped(s, x))
  {
    hide Table.Valid, DelaysOk, ReadyOk, EventsOk, DeadlinesOf, Reaped, State.TimeOk;
    TerminationHead(s);
    var x := s.stateItems.Items(Termination)[0];
    ReapedKeeps(s, x);
    ReapedFrame(s, x);
  }

  lemma ReapingFacts(s0: State, s: State)
    requires Reaping(s0, s)
    ensures s.Consistent(s.tickCount + 1) && s.Deadlines() == s0.Deadlines()
  {
    hide State.Consistent, State.Deadlines;
  }

  lemma ReapingEnds(s0: State, s: State)
    requires Reaping(s0, s) && s.deletedWaiting == 0
    ensures s.stateItems.container ==
              (map x | x in s0.stateItems.container && s0.stateItems.container[x] != Termination ::
                 s0.stateItems.container[x])
  {
    hide DelaysOk, ReadyOk, EventsOk, DeadlinesOf, Table.Valid;
    ListFacts(s.stateItems, Termination);
  }

  // ---------------------------------------------------------------------------------------------
  // Suspension and resumption of a task

  ghost function SuspendedTask(s: State, x: Task): State
    requires s.Consistent(s.tickCount + 1) && x in s.stateItems.container
  {
    SuspendedBasics(s, x);
    Rearmed(Relocated(s, x, Suspended))
  }

  lemma SuspendedBasics(s: State, x: Task)
    requires s.Consistent(s.tickCount + 1) && x in s.stateItems.container
    ensures HasStateLists(Relocated(s, x, Suspended).stateItems.lists)
    ensures forall y <- Relocated(s, x, Suspended).stateItems.Items(s.DelayedList()) :: y in s.itemValue
  {
    hide Table.Valid, Table.Move, Table.Remove, EventsOk, ReadyOk;
    RelocatedTime(s, x, Suspended, s.tickCount + 1);
  }

  lemma ParkedTaskKeeps(s: State, x: Task)
    requires s.Consistent(s.tickCount + 1) && x in s.stateItems.container
    requires s.stateItems.container[x] != Termination
    ensures HasStateLists(s.stateItems.lists)
    ensures var t := Relocated(s, x, Suspended);
            && t.Consistent(s.tickCount + 1) && t.tickCount == s.tickCount
            && t.stateItems.container == s.stateItems.container[x := Suspended]
            && t.eventItems.container == s.eventItems.container - {x}
            && t.Deadlines() == s.Deadlines() - {x}
  {
    hide Table.Valid, DelaysOk, DeadlinesOf, Relocated;
    RelocatedLists(s, x, Suspended);
    RelocatedTime(s, x, Suspended, s.tickCount + 1);
    RelocatedDeadlines(s, x, Suspended);
    RelocatedFrame(s, x, Suspended);
  }

  lemma SuspendedTaskKeeps(s: State, x: Task)
    requires s.Consistent(s.tickCount + 1) && x in s.stateItems.container
    requires s.stateItems.container[x] != Termination
    ensures var t := SuspendedTask(s, x);
            && t.Consistent(s.tickCount + 1)
            && t.stateItems.container == s.stateItems.container[x := Suspended]
            && t.eventItems.container == s.eventItems.container - {x}
            && t.Deadlines() == s.Deadlines() - {x}
  {
    hide Table.Valid, DelaysOk, DeadlinesOf, Relocated;
    RelocatedLists(s, x, Suspended);
    RelocatedTime(s, x, Suspended, s.tickCount + 1);
    RelocatedDeadlines(s, x, Suspended);
    RelocatedFrame(s, x, Suspended);
    RearmedKeepsTime(Relocated(s, x, Suspended), s.tickCount + 1);
  }

  lemma RearmedKeepsTime(s: State, low: nat)
    requires HasStateLists(s.stateItems.lists) && s.TimeOk(low)
    ensures forall y <- s.stateItems.Items(s.DelayedList()) :: y in s.itemValue
    ensures Rearmed(s).TimeOk(low)
  {
    NextWakeIsLeast(s.stateItems.Items(s.DelayedList()), s.itemValue);
  }

  /** `prvTaskIsTaskSuspended`: suspended for good, not merely blocked without a timeout. */
  predicate IsSuspended(s: State, x: Task) {
    x in s.stateItems.container && s.stateItems.container[x] == Suspended && x !in s.eventItems.container
  }

  // ---------------------------------------------------------------------------------------------
  // Choosing the task to run

  ghost predicate SomeReady(s: State) {
    exists x <- s.stateItems.container :: s.stateItems.container[x].Ready?
  }

  /** Looking down from `top` for a ready list that is not empty. */
  function FirstReady(lists: map<StateList, Ring<Task>>, top: nat): (p: nat)
    requires forall q :: 0 <= q <= top ==> Ready(q) in lists
    ensures p <= top
    ensures forall q :: p < q <= top ==> lists[Ready(q)].items == []
    ensures lists[Ready(p)].items == [] ==> p == 0
  {
    if top == 0 || lists[Ready(top)].items != [] then top else FirstReady(lists, top - 1)
  }

  lemma FirstReadyIsHighest(s: State, low: nat)
    requires s.Consistent(low) && SomeReady(s)
    ensures s.topReadyPriority < MAX_PRIORITIES
    ensures var p := FirstReady(s.stateItems.lists, s.topReadyPriority);
            && s.stateItems.lists[Ready(p)].Valid() && s.stateItems.Items(Ready(p)) != []
            && (forall x <- s.stateItems.container :: s.stateItems.container[x].Ready? ==> s.priority[x] <= p)
            && (forall x <- s.stateItems.Items(Ready(p)) ::
                  x in s.stateItems.container && s.stateItems.container[x] == Ready(p) && s.priority[x] == p)
  {
    hide DelaysOk;
    var p := FirstReady(s.stateItems.lists, s.topReadyPriority);
    forall x <- s.stateItems.container | s.stateItems.container[x].Ready?
      ensures s.priority[x] <= p && s.stateItems.Items(Ready(p)) != []
    {
      assert x in s.stateItems.lists[Ready(s.priority[x])].items;
    }
  }

  /** `taskSELECT_HIGHEST_PRIORITY_TASK`, the generic form: the next task of the highest ready list. */
  ghost function Selected(s: State): State
    requires s.Consistent(s.tickCount + 1) && SomeReady(s)
  {
    FirstReadyIsHighest(s, s.tickCount + 1);
    var p := FirstReady(s.stateItems.lists, s.topReadyPriority);
    var ring := Advance(s.stateItems.lists[Ready(p)]);
    s.(stateItems := s.stateItems.(lists := s.stateItems.lists[Ready(p) := ring]),
       current := ring.items[ring.cursor - 1],
       topReadyPriority := p,
       yieldPending := false)
  }

  lemma TurnedIsValid(t: Table<StateList, Task>, k: StateList, ring: Ring<Task>)
    requires t.Valid() && k in t.lists && ring.Valid() && ring.items == t.Items(k)
    ensures t.(lists := t.lists[k := ring]).Valid()
  {
  }

  /**
   The selected task is ready and no ready task has a higher priority; it is the next one in turn
   among its equals, and nothing but the walking cursor moves.
   */
  lemma SelectedIsHighest(s: State)
    requires s.Consistent(s.tickCount + 1) && SomeReady(s)
    ensures var t := Selected(s);
            && t.Consistent(s.tickCount + 1)
            && t.stateItems.container == s.stateItems.container && t.Deadlines() == s.Deadlines()
            && t.current in s.stateItems.container && t.current in s.priority
            && s.stateItems.container[t.current] == Ready(s.priority[t.current])
            && Ready(s.priority[t.current]) in s.stateItems.lists
            && (forall x <- s.stateItems.container :: s.stateItems.container[x].Ready? ==>
                  x in s.priority && s.priority[x] <= s.priority[t.current])
            && (var ring := s.stateItems.lists[Ready(s.priority[t.current])];
                ring.Valid() && ring.items != [] && Upcoming(ring)[0] == t.current)
  {
    hide Table.Valid, DelaysOk, EventsOk;
    FirstReadyIsHighest(s, s.tickCount + 1);
    var p := FirstReady(s.stateItems.lists, s.topReadyPriority);
    AdvanceRotates(s.stateItems.lists[Ready(p)]);
    TurnedIsValid(s.stateItems, Ready(p), Advance(s.stateItems.lists[Ready(p)]));
    assert Selected(s).current in s.stateItems.Items(Ready(p));
    SelectedTop(s.stateItems.container, s.priority, s.topReadyPriority, p);
  }

  lemma SelectedTop(c: map<Task, StateList>, priority: map<Task, nat>, top: nat, p: nat)
    requires ReadyOk(c, priority, top) && p < MAX_PRIORITIES
    requires forall x <- c :: c[x].Ready? ==> priority[x] <= p
    ensures ReadyOk(c, priority, p)
  {
  }

  // ---------------------------------------------------------------------------------------------
  // Suspension before the scheduler is started

  ghost function TasksIn(t: Table<StateList, Task>, k: StateList): set<Task> {
    set x | x in t.container && t.container[x] == k
  }

  /** The tasks in one list are as many as the list is long. */
  lemma MembersCount(t: Table<StateList, Task>, k: StateList)
    requires t.Valid() && k in t.lists
    ensures |TasksIn(t, k)| == |t.Items(k)|
  {
    ListFacts(t, k);
    DistinctCount(t.Items(k));
    assert TasksIn(t, k) == Elements(t.Items(k));
  }

  lemma SameSize(a: set<Task>, b: set<Task>)
    requires a <= b && |a| == |b|
    ensures a == b
  {
    if x :| x in b && x !in a {
      CountsUpTo(a, b - {x});
    }
  }

  lemma CountsUpTo(a: set<Task>, b: set<Task>)
    requires a <= b
    ensures |a| <= |b|
  {
    if x :| x in a {
      CountsUpTo(a - {x}, b - {x});
    }
  }

  predicate AllSuspended(s: State) {
    forall y <- s.stateItems.container :: s.stateItems.container[y] == Suspended
  }

  /** The comparison of `uxCurrentNumberOfTasks` with the length of the suspended list. */
  lemma AllSuspendedCounts(s: State, low: nat)
    requires s.Consistent(low)
    ensures Suspended in s.stateItems.lists
    ensures |s.stateItems.Items(Suspended)| == s.taskCount <==> AllSuspended(s)
  {
    hide Table.Valid, DelaysOk, EventsOk, ReadyOk;
    MembersCount(s.stateItems, Suspended);
    var parked, all := TasksIn(s.stateItems, Suspended), s.stateItems.container.Keys;
    if AllSuspended(s) {
      assert parked == all;
    }
    if |parked| == |all| {
      SameSize(parked, all);
      forall y <- s.stateItems.container ensures s.stateItems.container[y] == Suspended {
        assert y in parked;
      }
    }
  }

  /** If the current task is suspended, all are, or there is a ready one to take its place, unless that has to wait. */
  ghost predicate CanHandOver(s: State, x: Task)
    requires s.Consistent(s.tickCount + 1) && x in s.stateItems.container && s.stateItems.container[x] != Termination
  {
    ParkedTaskKeeps(s, x);
    var t := Relocated(s, x, Suspended);
    x == s.current && s.suspended == 0 ==> SomeReady(t) || AllSuspended(t)
  }

  /** `vTaskSwitchContext` */
  ghost function Switched(s: State): State
    requires s.Consistent(s.tickCount + 1) && (s.suspended == 0 ==> SomeReady(s))
  {
    if s.suspended > 0 then s.(yieldPending := true) else Selected(s)
  }

  lemma SwitchedKeeps(s: State)
    requires s.Consistent(s.tickCount + 1) && (s.suspended == 0 ==> SomeReady(s))
    ensures var t := Switched(s);
            && t.Consistent(s.tickCount + 1) && t.tickCount == s.tickCount && t.eventItems == s.eventItems
            && t.stateItems.container == s.stateItems.container && t.Deadlines() == s.Deadlines()
    ensures s.suspended == 0 ==> MostUrgent(s, Switched(s).current)
  {
    hide Table.Valid, DelaysOk, EventsOk, ReadyOk, Advance, FirstReady;
    if s.suspended == 0 {
      SelectedIsHighest(s);
    }
  }

  /** `x` is ready, and no ready task is more urgent. */
  ghost predicate MostUrgent(s: State, x: Task) {
    && x in s.stateItems.container && x in s.priority && s.stateItems.container[x] == Ready(s.priority[x])
    && forall y <- s.stateItems.container :: s.stateItems.container[y].Ready? ==>
         y in s.priority && s.priority[y] <= s.priority[x]
  }

  /** The current task hands over to the next one, and there is none if all are suspended. */
  ghost function SuspendedEarly(s: State, x: Task): State
    requires s.Consistent(s.tickCount + 1) && x in s.stateItems.container && s.stateItems.container[x] != Termination
    requires CanHandOver(s, x)
  {
    ParkedTaskKeeps(s, x);
    SameSuspended(s, x);
    var t := Relocated(s, x, Suspended);
    if x == s.current && !AllSuspended(t) then Switched(t) else t
  }

  lemma SuspendedEarlyKeeps(s: State, x: Task)
    requires s.Consistent(s.tickCount + 1) && x in s.stateItems.container && s.stateItems.container[x] != Termination
    requires CanHandOver(s, x)
    ensures var t := SuspendedEarly(s, x);
            && t.Consistent(s.tickCount + 1) && t.tickCount == s.tickCount
            && t.stateItems.container == s.stateItems.container[x := Suspended]
            && t.eventItems.container == s.eventItems.container - {x}
            && t.Deadlines() == s.Deadlines() - {x}
    ensures x == s.current && s.suspended == 0 && !AllSuspended(Relocated(s, x, Suspended)) ==>
              MostUrgent(Relocated(s, x, Suspended), SuspendedEarly(s, x).current)
  {
    hide Table.Valid, DelaysOk, EventsOk, ReadyOk, Relocated, Switched, State.Consistent, DeadlinesOf, MostUrgent;
    KernelLists(s);
    ParkedTaskKeeps(s, x);
    SameSuspended(s, x);
    var t := Relocated(s, x, Suspended);
    if x == s.current && !AllSuspended(t) {
      SwitchedKeeps(t);
    }
  }

  lemma SameSuspended(s: State, x: Task)
    requires s.Consistent(s.tickCount + 1) && x in s.stateItems.container && s.stateItems.container[x] != Termination
    ensures HasStateLists(s.stateItems.lists) && Relocated(s, x, Suspended).suspended == s.suspended
  {
    hide Table.Valid, Table.Move, Table.Remove, DelaysOk, EventsOk, ReadyOk;
  }
}
