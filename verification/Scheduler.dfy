/**
 The task scheduler of lib/freertos/tasks.c: the state lists, the tick with its two delayed lists,
 scheduler suspension with pended ticks, and the list moves of priority inheritance.

 `State` is the kernel's global variables as one value and carries the invariant; class Kernel
 (Kernel.dfy) holds the same variables and updates them in place.
 */
module Scheduler {
  import opened ListSpec
  import opened ItemTable
  import opened Ticks

  const MAX_PRIORITIES: nat := 7
  const EVENT_VALUE_IN_USE: nat := 0x8000_0000

  type Task = nat

  /** The lists an `xStateListItem` can be in; the two delayed lists by their storage. */
  datatype StateList = Ready(priority: nat) | DelayedOne | DelayedTwo | Suspended | Termination

  /** The lists an `xEventListItem` can be in; kernel objects are numbered. */
  datatype EventList = PendingReady | WaitingOn(object_: nat)

  predicate IsDelayed(k: StateList) { k == DelayedOne || k == DelayedTwo }

  predicate IsBlocked(k: StateList) { IsDelayed(k) || k == Suspended }

  ghost predicate HasStateLists(lists: map<StateList, Ring<Task>>) {
    && (forall p :: 0 <= p < MAX_PRIORITIES ==> Ready(p) in lists)
    && DelayedOne in lists && DelayedTwo in lists && Suspended in lists && Termination in lists
  }

  // ---------------------------------------------------------------------------------------------
  // The invariant, one group of variables at a time

  /** A ready task is in the ready list of its own priority. */
  ghost predicate ReadyOk(container: map<Task, StateList>, priority: map<Task, nat>, top: nat) {
    && top < MAX_PRIORITIES
    && (forall x <- container :: x in priority && priority[x] < MAX_PRIORITIES)
    && (forall x <- container :: container[x].Ready? ==> container[x].priority == priority[x] <= top)
  }

  /** Only blocked tasks are on event lists. */
  ghost predicate EventsOk(container: map<Task, StateList>, events: map<Task, EventList>) {
    forall x <- events :: x in container && IsBlocked(container[x])
  }

  ghost predicate SortedBy(items: seq<Task>, value: map<Task, nat>) {
    && (forall x <- items :: x in value)
    && (forall i, j :: 0 <= i < j < |items| ==> value[items[i]] <= value[items[j]])
  }

  /** Wake times in the current list are at least `low`; those in the other list are a wrap ahead. */
  ghost predicate DelaysOk(current: Ring<Task>, overflow: Ring<Task>, value: map<Task, nat>,
                           tick: nat, next: nat, low: nat) {
    && tick < WRAP && next < WRAP
    && current.cursor == 0 && overflow.cursor == 0
    && SortedBy(current.items, value) && SortedBy(overflow.items, value)
    && (forall x <- current.items :: low <= value[x] < WRAP && next <= value[x])
    && (forall x <- overflow.items :: value[x] < tick)
  }

  datatype State = State(
    stateItems: Table<StateList, Task>,
    eventItems: Table<EventList, Task>,
    itemValue: map<Task, nat>,      // value of xStateListItem: the wake time
    eventValue: map<Task, nat>,     // value of xEventListItem
    priority: map<Task, nat>,
    basePriority: map<Task, nat>,
    mutexesHeld: map<Task, nat>,
    current: Task,                  // pxCurrentTCB
    tickCount: nat,
    pendedTicks: nat,
    overflows: nat,                 // xNumOfOverflows
    nextUnblockTime: nat,
    suspended: nat,                 // uxSchedulerSuspended
    swapped: bool,                  // pxDelayedTaskList points at xDelayedTaskList2
    taskCount: nat,
    deletedWaiting: nat,
    topReadyPriority: nat,
    yieldPending: bool
  ) {
    function DelayedList(): StateList { if swapped then DelayedTwo else DelayedOne }
    function OverflowList(): StateList { if swapped then DelayedOne else DelayedTwo }

    ghost predicate ListsOk() {
      && stateItems.Valid() && eventItems.Valid()
      && HasStateLists(stateItems.lists) && PendingReady in eventItems.lists
      && stateItems.container.Keys <= itemValue.Keys
      && stateItems.container.Keys <= eventValue.Keys
      && stateItems.container.Keys <= basePriority.Keys
      && stateItems.container.Keys <= mutexesHeld.Keys
      && current in stateItems.container
    }

    ghost predicate TimeOk(low: nat)
      requires HasStateLists(stateItems.lists)
    {
      DelaysOk(stateItems.lists[DelayedList()], stateItems.lists[OverflowList()], itemValue,
               tickCount, nextUnblockTime, low)
    }

    ghost predicate CountsOk()
      requires HasStateLists(stateItems.lists)
    {
      && taskCount == |stateItems.container.Keys|
      && deletedWaiting == |stateItems.Items(Termination)|
    }

    ghost predicate Consistent(low: nat) {
      && ListsOk()
      && ReadyOk(stateItems.container, priority, topReadyPriority)
      && EventsOk(stateItems.container, eventItems.container)
      && TimeOk(low)
      && CountsOk()
    }

    /** What holds whenever no kernel call is in progress. */
    ghost predicate Valid() {
      && Consistent(tickCount + 1)
      && (suspended == 0 ==> pendedTicks == 0 && eventItems.Items(PendingReady) == [])
    }

    /** The time in ticks since start-up, on an unbounded clock. */
    function Now(): nat {
      overflows * WRAP + tickCount
    }

    /** When each delayed task is due, on the unbounded clock. */
    ghost function Deadlines(): (m: map<Task, nat>) {
      DeadlinesOf(stateItems.container, itemValue, DelayedList(), overflows)
    }
  }

  ghost function DeadlinesOf(container: map<Task, StateList>, value: map<Task, nat>,
                             current: StateList, overflows: nat): (m: map<Task, nat>) {
    map x | x in container && x in value && IsDelayed(container[x]) ::
      (if container[x] == current then overflows else overflows + 1) * WRAP + value[x]
  }

  /** What a table says about one of its lists. */
  lemma ListFacts(t: Table<StateList, Task>, k: StateList)
    requires t.Valid() && k in t.lists
    ensures NoDup(t.Items(k))
    ensures forall y :: y in t.Items(k) <==> y in t.container && t.container[y] == k
  {
  }

  /** Every deadline is ahead, by less than one wrap of the tick counter. */
  lemma DeadlinesAhead(s: State)
    requires s.Valid()
    ensures forall x <- s.Deadlines() :: s.Now() < s.Deadlines()[x] < s.Now() + WRAP
  {
    hide Table.Valid, ReadyOk, EventsOk, SortedBy;
    ListFacts(s.stateItems, DelayedOne);
    ListFacts(s.stateItems, DelayedTwo);
  }

  // ---------------------------------------------------------------------------------------------
  // Readying a blocked task

  ghost function RemovedFrom<T>(r: Ring<T>, x: T): Ring<T>
    requires r.Valid() && x in r.items
  {
    ListSpec.Remove(r, IndexOf(r.items, x))
  }

  lemma RemovedFromFacts(r: Ring<Task>, x: Task, value: map<Task, nat>)
    requires r.Valid() && NoDup(r.items) && x in r.items
    ensures forall y :: y in RemovedFrom(r, x).items <==> y != x && y in r.items
    ensures r.cursor == 0 ==> RemovedFrom(r, x).cursor == 0
    ensures SortedBy(r.items, value) ==> SortedBy(RemovedFrom(r, x).items, value)
  {
    var k := IndexOf(r.items, x);
    RemoveMembers(r.items, x);
    var q := RemovedFrom(r, x).items;
    assert forall i :: 0 <= i < |q| ==> q[i] == r.items[if i < k then i else i + 1];
  }

  /** Move a task to another state list, which is not a delayed one, and off any event list. */
  ghost function Relocated(s: State, x: Task, k: StateList): State
    requires s.ListsOk() && x in s.stateItems.container && k in s.stateItems.lists
  {
    s.(stateItems := s.stateItems.Move(k, x),
       eventItems := if x in s.eventItems.container then s.eventItems.Remove(x) else s.eventItems)
  }

  lemma RelocatedLists(s: State, x: Task, k: StateList)
    requires s.ListsOk() && x in s.stateItems.container && k in s.stateItems.lists
    ensures var t := Relocated(s, x, k);
            && t.ListsOk()
            && t.stateItems.container == s.stateItems.container[x := k]
            && t.eventItems.container == s.eventItems.container - {x}
            && t.stateItems.container.Keys == s.stateItems.container.Keys
            && (k != Termination && s.stateItems.container[x] != Termination ==>
                  t.stateItems.lists[Termination] == s.stateItems.lists[Termination])
  {
    hide Table.Remove, Table.Move, Table.Valid;
    assert s.stateItems.container[x := k].Keys == s.stateItems.container.Keys;
  }

  lemma RelocatedTime(s: State, x: Task, k: StateList, low: nat)
    requires s.ListsOk() && x in s.stateItems.container && k in s.stateItems.lists
    requires !IsDelayed(k) && s.TimeOk(low)
    ensures HasStateLists(Relocated(s, x, k).stateItems.lists) && Relocated(s, x, k).TimeOk(low)
  {
    hide Table.Remove, Table.Move, Table.Valid, SortedBy, ListSpec.Remove;
    RelocatedLists(s, x, k);
    var j := s.stateItems.container[x];
    if IsDelayed(j) {
      ListFacts(s.stateItems, j);
      RingIsValid(s.stateItems, j);
      RemovedFromFacts(s.stateItems.lists[j], x, s.itemValue);
    }
  }

  lemma DeadlinesDrop(container: map<Task, StateList>, value: map<Task, nat>, current: StateList,
                      overflows: nat, x: Task, k: StateList)
    requires !IsDelayed(k)
    ensures DeadlinesOf(container[x := k], value, current, overflows)
            == DeadlinesOf(container, value, current, overflows) - {x}
  {
  }

  lemma RelocatedDeadlines(s: State, x: Task, k: StateList)
    requires s.ListsOk() && x in s.stateItems.container && k in s.stateItems.lists && !IsDelayed(k)
    ensures Relocated(s, x, k).Deadlines() == s.Deadlines() - {x}
  {
    hide Table.Remove, Table.Move, Table.Valid, DeadlinesOf;
    RelocatedLists(s, x, k);
    DeadlinesDrop(s.stateItems.container, s.itemValue, s.DelayedList(), s.overflows, x, k);
  }

  /** Move a task to the ready list of its priority and off any event list. */
  ghost function Readied(s: State, x: Task): State
    requires s.ListsOk() && x in s.stateItems.container
    requires x in s.priority && s.priority[x] < MAX_PRIORITIES
  {
    Relocated(s, x, Ready(s.priority[x])).(
      topReadyPriority := if s.priority[x] > s.topReadyPriority then s.priority[x] else s.topReadyPriority)
  }

  lemma RingIsValid(t: Table<StateList, Task>, k: StateList)
    requires t.Valid() && k in t.lists
    ensures t.lists[k].Valid()
  {
  }

  /** Readying a blocked task keeps the scheduler consistent and drops exactly its deadline. */
  lemma ReadiedKeeps(s: State, x: Task, low: nat)
    requires s.Consistent(low) && x in s.stateItems.container && IsBlocked(s.stateItems.container[x])
    ensures x in s.priority && s.priority[x] < MAX_PRIORITIES
    ensures Readied(s, x).Consistent(low)
    ensures Readied(s, x).Deadlines() == s.Deadlines() - {x}
  {
    hide Table.Valid, DelaysOk, Relocated, ReadyOk, EventsOk, DeadlinesOf;
    PriorityKnown(s, x, low);
    var k := Ready(s.priority[x]);
    RelocatedLists(s, x, k);
    RelocatedTime(s, x, k, low);
    RelocatedDeadlines(s, x, k);
    RelocatedFrame(s, x, k);
    OneMoreReady(s.stateItems.container, s.eventItems.container, s.priority, s.topReadyPriority, x);
  }

  lemma PriorityKnown(s: State, x: Task, low: nat)
    requires s.Consistent(low) && x in s.stateItems.container
    ensures x in s.priority && s.priority[x] < MAX_PRIORITIES && Ready(s.priority[x]) in s.stateItems.lists
  {
    hide Table.Valid, DelaysOk, EventsOk;
  }

  lemma OneMoreReady(c: map<Task, StateList>, events: map<Task, EventList>, priority: map<Task, nat>, top: nat, x: Task)
    requires ReadyOk(c, priority, top) && EventsOk(c, events) && x in c
    ensures var p := priority[x];
            ReadyOk(c[x := Ready(p)], priority, if p > top then p else top) && EventsOk(c[x := Ready(p)], events - {x})
  {
  }

  lemma RelocatedFrame(s: State, x: Task, k: StateList)
    requires s.ListsOk() && x in s.stateItems.container && k in s.stateItems.lists
    ensures var t := Relocated(s, x, k); t == s.(stateItems := t.stateItems, eventItems := t.eventItems)
  {
  }

  // ---------------------------------------------------------------------------------------------
  // The tick

  /** The tick count moves on; when it wraps to zero the two delayed lists change roles. */
  function Advanced(s: State): State {
    if s.tickCount + 1 < WRAP then s.(tickCount := s.tickCount + 1)
    else s.(tickCount := 0, overflows := s.overflows + 1, swapped := !s.swapped)
  }

  lemma DelaysBound(current: Ring<Task>, overflow: Ring<Task>, value: map<Task, nat>,
                    tick: nat, next: nat, low: nat)
    requires DelaysOk(current, overflow, value, tick, next, low) && current.items != []
    ensures low < WRAP
  {
    assert current.items[0] in current.items;
  }

  /** No task is in the current delayed list when the lists are about to change roles. */
  lemma EmptyAtSwitch(s: State)
    requires s.Consistent(s.tickCount + 1) && s.tickCount == WRAP - 1
    ensures s.stateItems.Items(s.DelayedList()) == []
    ensures forall x <- s.stateItems.container :: s.stateItems.container[x] != s.DelayedList()
  {
    hide Table.Valid, DelaysOk, ReadyOk, EventsOk;
    ListFacts(s.stateItems, s.DelayedList());
    if s.stateItems.Items(s.DelayedList()) != [] {
      DelaysBound(s.stateItems.lists[s.DelayedList()], s.stateItems.lists[s.OverflowList()], s.itemValue,
                  s.tickCount, s.nextUnblockTime, s.tickCount + 1);
    }
  }

  /** Advancing is one tick of the unbounded clock; the deadlines stay, and none is passed over. */
  lemma AdvancedKeeps(s: State)
    requires s.Consistent(s.tickCount + 1)
    ensures var t := Advanced(s);
            && t.Now() == s.Now() + 1
            && t.Deadlines() == s.Deadlines()
            && (t.tickCount != 0 ==> t.Consistent(t.tickCount))
            && t.(nextUnblockTime := 0).Consistent(t.tickCount)
  {
    hide Table.Valid, ReadyOk, EventsOk, DeadlinesOf;
    if s.tickCount == WRAP - 1 {
      EmptyAtSwitch(s);
      RolesSwapped(s.stateItems.container, s.itemValue, s.DelayedList(), s.OverflowList(), s.overflows);
    }
  }

  lemma RolesSwapped(c: map<Task, StateList>, value: map<Task, nat>, current: StateList, overflow: StateList,
                     overflows: nat)
    requires current != overflow && IsDelayed(current) && IsDelayed(overflow) && forall x <- c :: c[x] != current
    ensures DeadlinesOf(c, value, overflow, overflows + 1) == DeadlinesOf(c, value, current, overflows)
  {
  }

  /** The head of the current delayed list has reached its wake time. */
  ghost predicate HeadDue(s: State)
    requires s.Consistent(s.tickCount)
  {
    var items := s.stateItems.Items(s.DelayedList());
    items != [] && s.itemValue[items[0]] <= s.tickCount
  }

  ghost function Head(s: State): (x: Task)
    requires s.Consistent(s.tickCount) && s.stateItems.Items(s.DelayedList()) != []
    ensures x in s.stateItems.container && s.stateItems.container[x] == s.DelayedList()
    ensures x in s.priority && s.priority[x] < MAX_PRIORITIES && x in s.itemValue
  {
    var x := s.stateItems.Items(s.DelayedList())[0];
    assert x in s.stateItems.Items(s.DelayedList());
    x
  }

  /** Ready the head of the current delayed list as long as it is due. */
  ghost function Drain(s: State): (t: State)
    requires s.Consistent(s.tickCount)
    ensures t.Consistent(t.tickCount) && t.tickCount == s.tickCount && !HeadDue(t)
    decreases |s.stateItems.Items(s.DelayedList())|
  {
    if HeadDue(s) then
      ReadiedKeeps(s, Head(s), s.tickCount);
      ReadiedShrinks(s, Head(s));
      Drain(Readied(s, Head(s)))
    else s
  }

  lemma ReadiedShrinks(s: State, x: Task)
    requires s.ListsOk() && x in s.stateItems.container && s.stateItems.container[x] == s.DelayedList()
    requires x in s.priority && s.priority[x] < MAX_PRIORITIES
    ensures HasStateLists(Readied(s, x).stateItems.lists)
    ensures |Readied(s, x).stateItems.Items(s.DelayedList())| == |s.stateItems.Items(s.DelayedList())| - 1
  {
    hide Table.Remove, Table.Move, Table.Valid;
    RelocatedLists(s, x, Ready(s.priority[x]));
  }

  /** The blocked tasks whose deadline has come, whatever list they are in. */
  ghost function Passed(s: State): set<Task> {
    set x | x in s.Deadlines() && s.Deadlines()[x] <= s.Now()
  }

  /** One of the tasks is at least as urgent as the running one. */
  ghost predicate Preempts(s: State, xs: set<Task>) {
    exists x <- xs :: x in s.priority && s.current in s.priority && s.priority[x] >= s.priority[s.current]
  }

  /** Another task of the running task's priority is ready, so the tick ends its time slice. */
  predicate SharesSlice(s: State) {
    && s.current in s.priority && Ready(s.priority[s.current]) in s.stateItems.lists
    && |s.stateItems.Items(Ready(s.priority[s.current]))| > 1
  }

  lemma CurrentFacts(s: State, low: nat)
    requires s.Consistent(low)
    ensures s.current in s.stateItems.container
    ensures s.current in s.priority && s.priority[s.current] < MAX_PRIORITIES
    ensures Ready(s.priority[s.current]) in s.stateItems.lists
  {
  }

  lemma NothingPassed(s: State)
    requires s.Consistent(s.tickCount) && !HeadDue(s)
    ensures Passed(s) == {}
    ensures s.(nextUnblockTime := 0).Consistent(s.tickCount + 1)
  {
    hide Table.Valid, ReadyOk, EventsOk;
    var k := s.DelayedList();
    ListFacts(s.stateItems, k);
    ListFacts(s.stateItems, s.OverflowList());
    forall x <- s.stateItems.Items(k) ensures s.itemValue[x] > s.tickCount {
      var i :| 0 <= i < |s.stateItems.Items(k)| && s.stateItems.Items(k)[i] == x;
      assert s.itemValue[s.stateItems.Items(k)[0]] <= s.itemValue[x];
    }
  }

  /** What changes besides the lists: nothing. */
  ghost predicate SameOutsideLists(s: State, t: State) {
    t == s.(stateItems := t.stateItems, eventItems := t.eventItems, topReadyPriority := t.topReadyPriority)
  }

  /** One task out of the blocked ones into its ready list, as seen through the containers. */
  ghost predicate Moved(s: State, xs: set<Task>, t: State) {
    && xs <= s.stateItems.container.Keys <= s.priority.Keys
    && t.Deadlines() == s.Deadlines() - xs
    && t.stateItems.container ==
         (map x | x in s.stateItems.container ::
            if x in xs then Ready(s.priority[x]) else s.stateItems.container[x])
    && t.eventItems.container == s.eventItems.container - xs
    && SameOutsideLists(s, t)
  }

  lemma MovedNone(s: State)
    requires s.stateItems.container.Keys <= s.priority.Keys
    ensures Moved(s, {}, s)
  {
  }

  /** Readying one blocked task, as seen through containers and deadlines. */
  lemma ReadiedMoves(s: State, x: Task, low: nat)
    requires s.Consistent(low) && x in s.stateItems.container && IsBlocked(s.stateItems.container[x])
    ensures x in s.priority && s.priority[x] < MAX_PRIORITIES
    ensures Readied(s, x).Consistent(low) && Moved(s, {x}, Readied(s, x))
  {
    hide Table.Valid, Table.Move, DelaysOk, EventsOk, DeadlinesOf, Relocated;
    ReadiedKeeps(s, x, low);
    RelocatedLists(s, x, Ready(s.priority[x]));
    RelocatedFrame(s, x, Ready(s.priority[x]));
  }

  lemma HeadIsDue(s: State)
    requires s.Consistent(s.tickCount) && HeadDue(s)
    ensures Head(s) in Passed(s)
  {
    hide Table.Valid, DelaysOk, EventsOk, ReadyOk;
  }

  lemma HeadMoves(s: State)
    requires s.Consistent(s.tickCount) && HeadDue(s)
    ensures Readied(s, Head(s)).Consistent(s.tickCount)
    ensures Moved(s, {Head(s)}, Readied(s, Head(s)))
    ensures Passed(s) == Passed(Readied(s, Head(s))) + {Head(s)}
  {
    hide Table.Valid, DelaysOk, EventsOk, Relocated, DeadlinesOf;
    ReadiedMoves(s, Head(s), s.tickCount);
    HeadIsDue(s);
  }

  lemma MovedTwice(s: State, x: Task, t: State, xs: set<Task>, u: State)
    requires Moved(s, {x}, t) && Moved(t, xs, u)
    ensures Moved(s, xs + {x}, u)
  {
    hide DeadlinesOf;
  }

  /**
   Draining the head of one list readies exactly the tasks that a scan of all delayed tasks on the
   unbounded clock would, and leaves every other task where it is.
   */
  lemma {:induction false} DrainIsFullScan(s: State)
    requires s.Consistent(s.tickCount)
    ensures Moved(s, Passed(s), Drain(s))
    decreases |s.stateItems.Items(s.DelayedList())|
  {
    hide Table.Remove, Table.Move, Table.Valid, DelaysOk, EventsOk, Moved, Passed, ListSpec.Remove;
    if HeadDue(s) {
      var x := Head(s);
      HeadMoves(s);
      ReadiedShrinks(s, x);
      DrainIsFullScan(Readied(s, x));
      MovedTwice(s, x, Readied(s, x), Passed(Readied(s, x)), Drain(s));
    } else {
      NothingPassed(s);
      MovedNone(s);
    }
  }

  /** `prvResetNextTaskUnblockTime`: the wake time at the head of the current delayed list. */
  function NextWake(items: seq<Task>, value: map<Task, nat>): (t: nat)
    requires items != [] ==> items[0] in value
  {
    if items == [] then MAX_DELAY else value[items[0]]
  }

  ghost function Rearmed(s: State): State
    requires HasStateLists(s.stateItems.lists)
    requires forall x <- s.stateItems.Items(s.DelayedList()) :: x in s.itemValue
  {
    s.(nextUnblockTime := NextWake(s.stateItems.Items(s.DelayedList()), s.itemValue))
  }

  lemma NextWakeIsLeast(items: seq<Task>, value: map<Task, nat>)
    requires SortedBy(items, value)
    ensures forall x <- items :: NextWake(items, value) <= value[x]
    ensures items != [] ==> items[0] in items
  {
    forall x <- items ensures NextWake(items, value) <= value[x] {
      var i :| 0 <= i < |items| && items[i] == x;
    }
  }

  /** Whatever the stored unblock time was, recomputing it restores the invariant. */
  lemma RearmedKeeps(s: State, low: nat)
    requires s.(nextUnblockTime := 0).Consistent(low)
    ensures forall x <- s.stateItems.Items(s.DelayedList()) :: x in s.itemValue
    ensures Rearmed(s).Consistent(low) && Rearmed(s).Deadlines() == s.Deadlines()
  {
    hide Table.Valid, ReadyOk, EventsOk;
    NextWakeIsLeast(s.stateItems.Items(s.DelayedList()), s.itemValue);
  }

  /** Below `xNextTaskUnblockTime` there is nothing to do: skipping the list is safe. */
  lemma SkipIsSafe(s: State)
    requires s.Consistent(s.tickCount) && s.tickCount < s.nextUnblockTime
    ensures !HeadDue(s) && s.Consistent(s.tickCount + 1)
  {
    hide Table.Remove, Table.Move, Table.Valid, EventsOk, ReadyOk;
    assert !HeadDue(s) by { DelaysHead(s); }
    NothingPassed(s);
  }

  lemma DelaysHead(s: State)
    requires s.Consistent(s.tickCount)
    ensures HeadDue(s) ==> s.nextUnblockTime <= s.tickCount
  {
    var items := s.stateItems.Items(s.DelayedList());
    if items != [] {
      assert items[0] in items;
    }
  }

  /** How far the drain loop has got: from `s0` to `s`, with a preempting task met or not. */
  ghost predicate Draining(s0: State, s: State, preempt: bool) {
    && s0.Consistent(s0.tickCount) && s.Consistent(s.tickCount) && SameOutsideLists(s0, s)
    && Drain(s) == Drain(s0)
    && Passed(s) <= Passed(s0)
    && (preempt <==> Preempts(s0, Passed(s0) - Passed(s)))
  }

  lemma DrainingStarts(s: State)
    requires s.Consistent(s.tickCount)
    ensures Draining(s, s, false)
  {
    hide State.Consistent, Passed, Drain;
    assert Passed(s) - Passed(s) == {};
  }

  lemma DrainingStep(s0: State, s: State, preempt: bool)
    requires s.Consistent(s.tickCount)
    requires Draining(s0, s, preempt) && HeadDue(s)
    ensures s.current in s.priority
    ensures var x := Head(s);
            Draining(s0, Readied(s, x), preempt || s.priority[x] >= s.priority[s.current])
  {
    hide Table.Valid, DelaysOk, EventsOk, State.CountsOk, State.TimeOk, Readied, Passed, Preempts;
    HeadMoves(s);
    HeadWasBlocked(s);
    CurrentFacts(s, s.tickCount);
    PreemptsWith(s0, Passed(s0) - Passed(s), Head(s));
    assert Drain(s) == Drain(Readied(s, Head(s)));
    assert Passed(s0) - Passed(Readied(s, Head(s))) == (Passed(s0) - Passed(s)) + {Head(s)};
  }

  lemma PreemptsWith(s: State, xs: set<Task>, x: Task)
    requires x in s.priority && s.current in s.priority
    ensures Preempts(s, xs + {x}) <==> Preempts(s, xs) || s.priority[x] >= s.priority[s.current]
  {
  }

  lemma HeadWasBlocked(s: State)
    requires s.Consistent(s.tickCount) && HeadDue(s)
    ensures Readied(s, Head(s)).ListsOk() && Head(s) !in Passed(Readied(s, Head(s)))
  {
    hide DelaysOk, EventsOk, Table.Valid;
    RelocatedLists(s, Head(s), Ready(s.priority[Head(s)]));
  }

  lemma DrainingStops(s0: State, s: State, preempt: bool)
    requires s.Consistent(s.tickCount)
    requires Draining(s0, s, preempt) && !HeadDue(s)
    ensures s0.Consistent(s0.tickCount) && Drain(s0) == s
    ensures preempt <==> Preempts(s0, Passed(s0))
  {
    hide State.Consistent, Passed, HeadDue;
    NothingPassed(s);
    assert Passed(s0) - Passed(s) == Passed(s0);
  }

  /** `xTaskIncrementTick` up to the point where the delayed list is looked at. */
  ghost function TickStart(s: State): State
    requires HasStateLists(s.stateItems.lists)
    requires forall x <- s.stateItems.Items(s.OverflowList()) :: x in s.itemValue
  {
    if s.tickCount + 1 < WRAP then Advanced(s) else Rearmed(Advanced(s))
  }

  lemma TickStartKeeps(s: State)
    requires s.Consistent(s.tickCount + 1)
    ensures forall x <- s.stateItems.Items(s.OverflowList()) :: x in s.itemValue
    ensures var t := TickStart(s);
            && t.Consistent(t.tickCount) && t.Now() == s.Now() + 1 && t.Deadlines() == s.Deadlines()
            && t == s.(tickCount := t.tickCount, overflows := t.overflows, swapped := t.swapped,
                       nextUnblockTime := t.nextUnblockTime)
  {
    hide Table.Valid, ReadyOk, EventsOk;
    AdvancedKeeps(s);
    if s.tickCount + 1 == WRAP {
      RearmedKeeps(Advanced(s), 0);
    }
  }

  /** The tasks whose deadline is the coming tick. */
  ghost function Reached(s: State): set<Task> {
    set x | x in s.Deadlines() && s.Deadlines()[x] <= s.Now() + 1
  }

  lemma ReachedIsPassed(s: State)
    requires s.Consistent(s.tickCount + 1)
    ensures HasStateLists(s.stateItems.lists)
    ensures forall x <- s.stateItems.Items(s.OverflowList()) :: x in s.itemValue
    ensures Passed(TickStart(s)) == Reached(s)
  {
    hide Table.Valid, ReadyOk, EventsOk, DeadlinesOf, TickStart;
    TickStartKeeps(s);
  }

  lemma TickWraps(s: State)
    requires s.Consistent(s.tickCount + 1)
    ensures HasStateLists(s.stateItems.lists) && s.tickCount < WRAP
    ensures s.tickCount == WRAP - 1 ==> s.stateItems.Items(s.DelayedList()) == []
  {
    hide Table.Valid, EventsOk, ReadyOk;
    if s.tickCount == WRAP - 1 {
      EmptyAtSwitch(s);
    }
  }

  /** The state one tick later, by the fast path: skip, or drain from the head and rearm. */
  ghost function Ticked(s: State): State
    requires s.Consistent(s.tickCount + 1)
  {
    TickStartKeeps(s);
    var t := TickStart(s);
    if t.tickCount >= t.nextUnblockTime then
      Rearmed(Drain(t))
    else t
  }

  /**
   From `s` to `t`, `n` ticks have passed on the unbounded clock: the tasks in `early` and exactly
   those whose deadline has come are ready and off their event lists, every other task is where it
   was, and nothing else has changed.
   */
  ghost predicate CaughtUp(s: State, t: State, early: set<Task>, n: nat) {
    && s.stateItems.container.Keys <= s.priority.Keys
    && t.Now() == s.Now() + n
    && t.Deadlines() == (map x | x in s.Deadlines() && !Wakes(s, t, early, x) :: s.Deadlines()[x])
    && t.stateItems.container ==
         (map x | x in s.stateItems.container ::
            if Wakes(s, t, early, x) then Ready(s.priority[x]) else s.stateItems.container[x])
    && t.eventItems.container ==
         (map x | x in s.eventItems.container && !Wakes(s, t, early, x) :: s.eventItems.container[x])
    && SameTasks(s, t)
  }

  /** Nothing has changed but lists, time and the wish to yield. */
  ghost predicate SameTasks(s: State, t: State) {
    t == s.(stateItems := t.stateItems, eventItems := t.eventItems, topReadyPriority := t.topReadyPriority,
            tickCount := t.tickCount, overflows := t.overflows, swapped := t.swapped,
            nextUnblockTime := t.nextUnblockTime, yieldPending := t.yieldPending)
  }

  lemma SameTasksTwice(s: State, t: State, u: State)
    requires SameTasks(s, t) && SameTasks(t, u)
    ensures SameTasks(s, u) && t.priority == s.priority
  {
  }

  ghost predicate Wakes(s: State, t: State, early: set<Task>, x: Task) {
    x in early || (x in s.Deadlines() && s.Deadlines()[x] <= t.Now())
  }

  /**
   The tick: the fast path that looks only at the head of one list, and only from
   `xNextTaskUnblockTime` on, does what a full scan of all tasks on the unbounded clock would.
   */
  lemma TickedIsFullScan(s: State)
    requires s.Consistent(s.tickCount + 1)
    ensures Ticked(s).Consistent(Ticked(s).tickCount + 1)
    ensures CaughtUp(s, Ticked(s), {}, 1)
    ensures forall x <- s.Deadlines() :: s.Deadlines()[x] >= s.Now() + 1
  {
    hide Table.Valid, EventsOk, ReadyOk, DelaysOk, DeadlinesOf, Drain, HeadDue, Moved, CaughtUp, Passed, TickStart;
    TickStartKeeps(s);
    var t := TickStart(s);
    if t.tickCount >= t.nextUnblockTime {
      DrainIsFullScan(t);
      NothingPassed(Drain(t));
      RearmedKeeps(Drain(t), t.tickCount + 1);
      ScanIsCatchUp(s, t, Drain(t), Ticked(s));
    } else {
      SkipIsSafe(t);
      NothingPassed(t);
      PrioritiesKnown(t, t.tickCount);
      MovedNone(t);
      ScanIsCatchUp(s, t, t, t);
    }
    DeadlinesReached(s);
  }

  lemma PrioritiesKnown(s: State, low: nat)
    requires s.Consistent(low)
    ensures s.stateItems.container.Keys <= s.priority.Keys
  {
  }

  lemma ScanIsCatchUp(s: State, t: State, d: State, u: State)
    requires t.Now() == s.Now() + 1 && t.Deadlines() == s.Deadlines()
    requires t == s.(tickCount := t.tickCount, overflows := t.overflows, swapped := t.swapped,
                     nextUnblockTime := t.nextUnblockTime)
    requires Moved(t, Passed(t), d)
    requires u == d.(nextUnblockTime := u.nextUnblockTime) && u.Deadlines() == d.Deadlines()
    ensures CaughtUp(s, u, {}, 1)
  {
    hide DeadlinesOf;
    MinusPassed(t);
  }

  lemma WakesTwice(s: State, t: State, u: State, early: set<Task>, later: set<Task>, n: nat, m: nat, x: Task)
    requires CaughtUp(s, t, early, n) && CaughtUp(t, u, later, m)
    ensures Wakes(s, u, early + later, x) <==> Wakes(s, t, early, x) || Wakes(t, u, later, x)
  {
    hide State.Deadlines, State.Now, SameTasks;
  }

  lemma ListsTwice(s: State, t: State, u: State, early: set<Task>, later: set<Task>, n: nat, m: nat)
    requires CaughtUp(s, t, early, n) && CaughtUp(t, u, later, m)
    requires later <= s.stateItems.container.Keys
    ensures u.stateItems.container ==
              (map x | x in s.stateItems.container ::
                 if Wakes(s, u, early + later, x) then Ready(s.priority[x]) else s.stateItems.container[x])
    ensures u.eventItems.container ==
              (map x | x in s.eventItems.container && !Wakes(s, u, early + later, x) :: s.eventItems.container[x])
  {
    hide State.Deadlines, State.Now, SameTasks, Wakes;
    SameTasksTwice(s, t, u);
    forall x ensures Wakes(s, u, early + later, x) <==> Wakes(s, t, early, x) || Wakes(t, u, later, x) {
      WakesTwice(s, t, u, early, later, n, m, x);
    }
  }

  /** Catching up composes: what is woken early in the second stretch counts as early overall. */
  lemma CaughtUpTwice(s: State, t: State, u: State, early: set<Task>, later: set<Task>, n: nat, m: nat)
    requires CaughtUp(s, t, early, n) && CaughtUp(t, u, later, m)
    requires later <= s.stateItems.container.Keys
    ensures CaughtUp(s, u, early + later, n + m)
  {
    hide State.Deadlines, State.Now, SameTasks, Wakes;
    SameTasksTwice(s, t, u);
    ListsTwice(s, t, u, early, later, n, m);
    forall x ensures Wakes(s, u, early + later, x) <==> Wakes(s, t, early, x) || Wakes(t, u, later, x) {
      WakesTwice(s, t, u, early, later, n, m, x);
    }
  }

  /** Moving tasks to their ready lists is catching up by no time at all. */
  lemma MovedIsCaughtUp(s: State, t: State, early: set<Task>)
    requires Moved(s, early, t)
    requires forall x <- s.Deadlines() :: s.Deadlines()[x] > s.Now()
    ensures CaughtUp(s, t, early, 0)
  {
    hide DeadlinesOf;
  }

  lemma MinusPassed(s: State)
    ensures s.Deadlines() - Passed(s)
            == (map x | x in s.Deadlines() && s.Deadlines()[x] > s.Now() :: s.Deadlines()[x])
  {
    hide DeadlinesOf;
  }

  lemma DeadlinesReached(s: State)
    requires s.Consistent(s.tickCount + 1)
    ensures forall x <- s.Deadlines() :: s.Deadlines()[x] >= s.Now() + 1
  {
    hide Table.Valid, ReadyOk, EventsOk;
    ListFacts(s.stateItems, DelayedOne);
    ListFacts(s.stateItems, DelayedTwo);
  }
}
