/**
 What the scheduler functions of lib/freertos/tasks.c other than the tick do to the kernel state,
 and that each keeps the scheduler consistent.
 */
module SchedulerOps {
  import opened ListSpec
  import opened ItemTable
  import opened Scheduler
  import opened Ticks

  // ---------------------------------------------------------------------------------------------
  // Blocking the running task

  /** The delayed list for a wake time `d` ticks ahead. */
  function ListFor(s: State, d: nat): (k: StateList)
    ensures IsDelayed(k)
  {
    if (s.tickCount + d) % WRAP < s.tickCount then s.OverflowList() else s.DelayedList()
  }

  /** The running task leaves its ready list and sleeps for `d` ticks. */
  ghost function Delayed(s: State, d: nat): State
    requires s.ListsOk() && s.stateItems.container[s.current].Ready?
    requires SortedBy(s.stateItems.Items(DelayedOne), s.itemValue)
    requires SortedBy(s.stateItems.Items(DelayedTwo), s.itemValue)
  {
    var wake := (s.tickCount + d) % WRAP;
    var k := ListFor(s, d);
    s.(stateItems := s.stateItems.MoveSorted(k, s.current, wake, s.itemValue[s.current := wake]),
       itemValue := s.itemValue[s.current := wake],
       nextUnblockTime := if wake < s.tickCount || s.nextUnblockTime <= wake then s.nextUnblockTime else wake)
  }

  /** `portMAX_DELAY` with permission to block indefinitely: no wake time at all. */
  ghost function Parked(s: State): State
    requires s.ListsOk() && s.stateItems.container[s.current].Ready?
  {
    s.(stateItems := s.stateItems.Move(Suspended, s.current))
  }

  lemma InsertSortedFacts(r: Ring<Task>, x: Task, v: nat, value: map<Task, nat>)
    requires r.Valid() && NoDup(r.items) && x !in r.items && SortedBy(r.items, value)
    ensures forall y <- r.items :: y in value[x := v]
    ensures var q := InsertSorted(r, InsertPos(ValuesOf(r.items, value[x := v]), v), x);
            && (forall y :: y in q.items <==> y == x || y in r.items)
            && (r.cursor == 0 ==> q.cursor == 0)
            && SortedBy(q.items, value[x := v])
  {
    var p := InsertPos(ValuesOf(r.items, value[x := v]), v);
    InsertMembers(r.items, p, x);
    InsertStaysSorted(r.items, x, v, value);
  }

  lemma InsertStaysSorted(items: seq<Task>, x: Task, v: nat, value: map<Task, nat>)
    requires x !in items && SortedBy(items, value)
    ensures forall y <- items :: y in value[x := v]
    ensures SortedBy(InsertAt(items, InsertPos(ValuesOf(items, value[x := v]), v), x), value[x := v])
  {
    hide InsertPos, InsertAt;
    var value' := value[x := v];
    var values := ValuesOf(items, value');
    InsertMembers(items, InsertPos(values, v), x);
    InsertKeepsSorted(values, v);
    ValuesInserted(items, InsertPos(values, v), x, value');
    var q := InsertAt(items, InsertPos(values, v), x);
    assert forall i :: 0 <= i < |q| ==> value'[q[i]] == ValuesOf(q, value')[i];
  }

  lemma UpdateElsewhere(items: seq<Task>, value: map<Task, nat>, x: Task, v: nat)
    requires x !in items && SortedBy(items, value)
    ensures SortedBy(items, value[x := v])
  {
  }

  ghost function Inserted(r: Ring<Task>, x: Task, v: nat, value: map<Task, nat>): Ring<Task>
    requires r.Valid() && forall y <- r.items :: y in value
  {
    InsertSorted(r, InsertPos(ValuesOf(r.items, value), v), x)
  }

  lemma DelaysInsert(current: Ring<Task>, overflow: Ring<Task>, value: map<Task, nat>,
                     tick: nat, next: nat, x: Task, v: nat)
    requires DelaysOk(current, overflow, value, tick, next, tick + 1)
    requires current.Valid() && overflow.Valid() && NoDup(current.items) && NoDup(overflow.items)
    requires x !in current.items && x !in overflow.items
    requires v != tick && v < WRAP
    ensures forall y <- current.items + overflow.items :: y in value[x := v]
    ensures if v < tick
            then DelaysOk(current, Inserted(overflow, x, v, value[x := v]), value[x := v], tick, next, tick + 1)
            else DelaysOk(Inserted(current, x, v, value[x := v]), overflow, value[x := v], tick,
                          if v < next then v else next, tick + 1)
  {
    hide SortedBy, ValuesOf, InsertSorted;
    InsertSortedFacts(current, x, v, value);
    InsertSortedFacts(overflow, x, v, value);
    UpdateElsewhere(current.items, value, x, v);
    UpdateElsewhere(overflow.items, value, x, v);
  }

  lemma WakeTime(tick: nat, d: nat)
    requires tick < WRAP && 0 < d < WRAP
    ensures (tick + d) % WRAP == if tick + d < WRAP then tick + d else tick + d - WRAP
    ensures (tick + d) % WRAP < tick <==> tick + d >= WRAP
    ensures (tick + d) % WRAP != tick
  {
  }

  lemma DelayBasics(s: State, low: nat)
    requires HasStateLists(s.stateItems.lists) && s.TimeOk(low)
    ensures s.tickCount < WRAP
    ensures SortedBy(s.stateItems.Items(DelayedOne), s.itemValue)
    ensures SortedBy(s.stateItems.Items(DelayedTwo), s.itemValue)
  {
  }

  lemma DelayedTime(s: State, d: nat)
    requires s.Consistent(s.tickCount + 1) && s.stateItems.container[s.current].Ready? && 0 < d < WRAP
    ensures SortedBy(s.stateItems.Items(DelayedOne), s.itemValue)
    ensures SortedBy(s.stateItems.Items(DelayedTwo), s.itemValue)
    ensures var t := Delayed(s, d); HasStateLists(t.stateItems.lists) && t.TimeOk(t.tickCount + 1)
  {
    hide Table.Remove, Table.MoveSorted, Table.Valid, SortedBy, ReadyOk, EventsOk, InsertSorted, ValuesOf, DelaysOk;
    DelayBasics(s, s.tickCount + 1);
    WakeTime(s.tickCount, d);
    ListFacts(s.stateItems, DelayedOne);
    ListFacts(s.stateItems, DelayedTwo);
    RingIsValid(s.stateItems, DelayedOne);
    RingIsValid(s.stateItems, DelayedTwo);
    DelaysInsert(s.stateItems.lists[s.DelayedList()], s.stateItems.lists[s.OverflowList()], s.itemValue,
                 s.tickCount, s.nextUnblockTime, s.current, (s.tickCount + d) % WRAP);
  }

  lemma DeadlinesSet(container: map<Task, StateList>, value: map<Task, nat>, swapped: bool,
                     overflows: nat, tick: nat, x: Task, d: nat)
    requires x in container && container[x].Ready? && tick < WRAP && 0 < d < WRAP
    ensures var wake := (tick + d) % WRAP;
            var (cur, over) := if swapped then (DelayedTwo, DelayedOne) else (DelayedOne, DelayedTwo);
            var k := if wake < tick then over else cur;
            DeadlinesOf(container[x := k], value[x := wake], cur, overflows)
            == DeadlinesOf(container, value, cur, overflows)[x := overflows * WRAP + tick + d]
  {
    WakeTime(tick, d);
    var (cur, over) := if swapped then (DelayedTwo, DelayedOne) else (DelayedOne, DelayedTwo);
    OneDeadline(container, value, cur, overflows, x, if tick + d >= WRAP then over else cur, (tick + d) % WRAP);
  }

  lemma OneDeadline(container: map<Task, StateList>, value: map<Task, nat>, cur: StateList, overflows: nat, x: Task,
                    k: StateList, wake: nat)
    requires x in container && IsDelayed(k)
    ensures DeadlinesOf(container[x := k], value[x := wake], cur, overflows)
            == DeadlinesOf(container, value, cur, overflows)[
                 x := (if k == cur then overflows else overflows + 1) * WRAP + wake]
  {
    var due := (if k == cur then overflows else overflows + 1) * WRAP + wake;
    var b := DeadlinesOf(container, value, cur, overflows);
    var a := DeadlinesOf(container[x := k], value[x := wake], cur, overflows);
    assert a.Keys == b.Keys + {x};
    assert forall y <- b :: y != x ==> a[y] == b[y];
    assert a[x] == due;
  }

  /** A blocked task matters neither to the ready lists nor, having been ready, to the event lists. */
  lemma OneBlocked(c: map<Task, StateList>, events: map<Task, EventList>, priority: map<Task, nat>, top: nat, x: Task,
                   k: StateList)
    requires ReadyOk(c, priority, top) && EventsOk(c, events) && x in c && IsBlocked(k)
    ensures ReadyOk(c[x := k], priority, top) && EventsOk(c[x := k], events) && c[x := k].Keys == c.Keys
  {
  }

  /** Blocking for `d` ticks sets the deadline `d` ticks ahead and touches no other task. */
  lemma DelayedKeeps(s: State, d: nat)
    requires s.Consistent(s.tickCount + 1) && s.stateItems.container[s.current].Ready? && 0 < d < WRAP
    ensures s.ListsOk()
    ensures SortedBy(s.stateItems.Items(DelayedOne), s.itemValue)
    ensures SortedBy(s.stateItems.Items(DelayedTwo), s.itemValue)
    ensures var t := Delayed(s, d);
            && t.Consistent(t.tickCount + 1)
            && t.Deadlines() == s.Deadlines()[s.current := s.Now() + d]
            && t.stateItems.container == s.stateItems.container[s.current := ListFor(s, d)]
            && t == s.(stateItems := t.stateItems, itemValue := t.itemValue, nextUnblockTime := t.nextUnblockTime)
  {
    hide Table.Remove, Table.MoveSorted, Table.Valid, SortedBy, InsertSorted, ValuesOf, DelaysOk, DeadlinesOf,
         ReadyOk, EventsOk;
    DelayBasics(s, s.tickCount + 1);
    DelayedTime(s, d);
    DeadlinesSet(s.stateItems.container, s.itemValue, s.swapped, s.overflows, s.tickCount, s.current, d);
    OneBlocked(s.stateItems.container, s.eventItems.container, s.priority, s.topReadyPriority, s.current, ListFor(s, d));
  }

  lemma NotDelayed(c: map<Task, StateList>, value: map<Task, nat>, current: StateList, overflows: nat, x: Task)
    requires x in c && !IsDelayed(c[x])
    ensures DeadlinesOf(c, value, current, overflows) - {x} == DeadlinesOf(c, value, current, overflows)
  {
  }

  lemma ParkedKeeps(s: State)
    requires s.Consistent(s.tickCount + 1) && s.stateItems.container[s.current].Ready?
    ensures s.ListsOk()
    ensures var t := Parked(s);
            && t.Consistent(t.tickCount + 1)
            && t.Deadlines() == s.Deadlines()
            && t.stateItems.container == s.stateItems.container[s.current := Suspended]
            && t == s.(stateItems := t.stateItems)
  {
    hide Table.Remove, Table.Move, Table.Valid, DelaysOk, ReadyOk, EventsOk, DeadlinesOf;
    OneBlocked(s.stateItems.container, s.eventItems.container, s.priority, s.topReadyPriority, s.current, Suspended);
    DeadlinesDrop(s.stateItems.container, s.itemValue, s.DelayedList(), s.overflows, s.current, Suspended);
    NotDelayed(s.stateItems.container, s.itemValue, s.DelayedList(), s.overflows, s.current);
  }

  /** `vTaskPlaceOnEventList`: queue up on a kernel object by urgency, then sleep or park. */
  ghost function BlockedOn(s: State, e: nat, d: nat): State
    requires s.Consistent(s.tickCount + 1) && s.stateItems.container[s.current].Ready? && 0 < d < WRAP
    requires WaitingOn(e) in s.eventItems.lists
  {
    DelayedTime(s, d);
    QueueFacts(s, e);
    var t := if d == MAX_DELAY then Parked(s) else Delayed(s, d);
    t.(eventItems := s.eventItems.Insert(WaitingOn(e), s.current, s.eventValue[s.current], s.eventValue))
  }

  lemma QueueFacts(s: State, e: nat)
    requires s.Consistent(s.tickCount + 1) && s.stateItems.container[s.current].Ready?
    requires WaitingOn(e) in s.eventItems.lists
    ensures s.eventItems.Valid() && s.current !in s.eventItems.container && s.current in s.eventValue
    ensures forall y <- s.eventItems.Items(WaitingOn(e)) :: y in s.eventValue
  {
  }

  lemma QueuedKeeps(s: State, e: nat, t: State)
    requires s.Consistent(s.tickCount + 1) && s.stateItems.container[s.current].Ready?
    requires WaitingOn(e) in s.eventItems.lists
    requires t.Consistent(t.tickCount + 1) && t.eventItems == s.eventItems
    requires s.current in t.stateItems.container && IsBlocked(t.stateItems.container[s.current])
    ensures s.eventItems.Valid() && s.current !in s.eventItems.container && s.current in s.eventValue
    ensures forall y <- s.eventItems.Items(WaitingOn(e)) :: y in s.eventValue
    ensures var q := s.eventItems.Insert(WaitingOn(e), s.current, s.eventValue[s.current], s.eventValue);
            t.(eventItems := q).Consistent(t.tickCount + 1)
  {
    hide Table.Valid, Table.Insert, DelaysOk;
    QueueFacts(s, e);
  }

  lemma BlockedOnKeeps(s: State, e: nat, d: nat)
    requires s.Consistent(s.tickCount + 1) && s.stateItems.container[s.current].Ready? && 0 < d < WRAP
    requires WaitingOn(e) in s.eventItems.lists
    ensures var t := BlockedOn(s, e, d);
            && t.Consistent(t.tickCount + 1)
            && t.Deadlines() == (if d == MAX_DELAY then s.Deadlines() else s.Deadlines()[s.current := s.Now() + d])
            && t.eventItems.container == s.eventItems.container[s.current := WaitingOn(e)]
            && t == s.(stateItems := t.stateItems, eventItems := t.eventItems, itemValue := t.itemValue,
                       nextUnblockTime := t.nextUnblockTime)
  {
    hide Table.Valid, Table.Insert, State.Consistent, Delayed, Parked, DeadlinesOf, ListFor;
    QueueFacts(s, e);
    if d == MAX_DELAY {
      ParkedKeeps(s);
      QueuedKeeps(s, e, Parked(s));
    } else {
      DelayedKeeps(s, d);
      QueuedKeeps(s, e, Delayed(s, d));
    }
  }

  // ---------------------------------------------------------------------------------------------
  // Waking on an event

  /** `xTaskRemoveFromEventList`: the head waiter becomes ready, or pending while suspended. */
  ghost function EventWoken(s: State, e: nat): State
    requires s.Consistent(s.tickCount + 1)
    requires WaitingOn(e) in s.eventItems.lists && s.eventItems.Items(WaitingOn(e)) != []
  {
    var x := s.eventItems.Items(WaitingOn(e))[0];
    WaiterFacts(s, e);
    var t := if s.suspended == 0 then
               ReadiedKeeps(s, x, s.tickCount + 1);
               Rearmed(Readied(s, x))
             else s.(eventItems := s.eventItems.Move(PendingReady, x));
    if s.priority[x] > s.priority[s.current] then t.(yieldPending := true) else t
  }

  lemma WaiterFacts(s: State, e: nat)
    requires s.Consistent(s.tickCount + 1)
    requires WaitingOn(e) in s.eventItems.lists && s.eventItems.Items(WaitingOn(e)) != []
    ensures var x := s.eventItems.Items(WaitingOn(e))[0];
            && x in s.eventItems.container && x in s.stateItems.container
            && IsBlocked(s.stateItems.container[x]) && x in s.priority && s.current in s.priority
            && s.priority[x] < MAX_PRIORITIES
  {
    var x := s.eventItems.Items(WaitingOn(e))[0];
    assert x in s.eventItems.Items(WaitingOn(e));
  }

  /** A woken waiter is ready at once when the scheduler runs... */
  lemma EventWokenNow(s: State, e: nat)
    requires s.Consistent(s.tickCount + 1) && s.suspended == 0
    requires WaitingOn(e) in s.eventItems.lists && s.eventItems.Items(WaitingOn(e)) != []
    ensures var x := s.eventItems.Items(WaitingOn(e))[0]; var t := EventWoken(s, e);
            && t.Consistent(t.tickCount + 1)
            && x in s.priority && x in s.stateItems.container
            && Moved(s, {x}, t.(nextUnblockTime := s.nextUnblockTime, yieldPending := s.yieldPending))
  {
    hide Table.Valid, DelaysOk, DeadlinesOf, Relocated, EventsOk, ReadyOk;
    var x := s.eventItems.Items(WaitingOn(e))[0];
    WaiterFacts(s, e);
    ReadiedMoves(s, x, s.tickCount + 1);
    RearmedAgain(Readied(s, x), s.tickCount + 1);
  }

  /** ... and otherwise waits in the pending list, in its state list and with its timeout armed. */
  lemma EventWokenLater(s: State, e: nat)
    requires s.Consistent(s.tickCount + 1) && s.suspended > 0
    requires WaitingOn(e) in s.eventItems.lists && s.eventItems.Items(WaitingOn(e)) != []
    ensures var x := s.eventItems.Items(WaitingOn(e))[0]; var t := EventWoken(s, e);
            && t.Consistent(t.tickCount + 1)
            && t == s.(eventItems := t.eventItems, yieldPending := t.yieldPending)
            && t.eventItems.container == s.eventItems.container[x := PendingReady]
  {
    hide Table.Valid, Table.Move, DelaysOk, DeadlinesOf;
    WaiterFacts(s, e);
  }

  lemma RearmedAgain(s: State, low: nat)
    requires s.Consistent(low)
    ensures forall x <- s.stateItems.Items(s.DelayedList()) :: x in s.itemValue
    ensures Rearmed(s).Consistent(low) && Rearmed(s).Deadlines() == s.Deadlines()
  {
    hide Table.Valid, ReadyOk, EventsOk;
    RearmedKeeps(s, low);
  }

  // ---------------------------------------------------------------------------------------------
  // Resuming the scheduler

  ghost function PendingTasks(s: State): set<Task>
    requires PendingReady in s.eventItems.lists
  {
    set x | x in s.eventItems.Items(PendingReady)
  }

  /** The head of the pending list is blocked, and readying it shortens the list. */
  lemma PendingHead(s: State)
    requires s.Consistent(s.tickCount + 1) && s.eventItems.Items(PendingReady) != []
    ensures var x := s.eventItems.Items(PendingReady)[0];
            && x in s.stateItems.container && IsBlocked(s.stateItems.container[x])
            && x in s.priority && s.priority[x] < MAX_PRIORITIES && s.current in s.priority
            && Readied(s, x).Consistent(s.tickCount + 1) && Moved(s, {x}, Readied(s, x))
            && Readied(s, x).eventItems.Items(PendingReady) == s.eventItems.Items(PendingReady)[1..]
            && PendingTasks(s) == PendingTasks(Readied(s, x)) + {x}
            && x !in PendingTasks(Readied(s, x))
            && Readied(s, x).tickCount == s.tickCount
            && (forall y <- s.Deadlines() :: s.Deadlines()[y] > s.Now())
  {
    hide Table.Valid, Table.Remove, Table.Move, DelaysOk, ReadyOk, DeadlinesOf;
    var items := s.eventItems.Items(PendingReady);
    var x := items[0];
    PendingMember(s, x);
    ReadiedMoves(s, x, s.tickCount + 1);
    DeadlinesReached(s);
    assert IndexOf(items, x) == 0 && RemoveAt(items, 0) == items[1..];
    assert forall y :: y in items <==> y == items[0] || y in items[1..];
  }

  lemma PendingMember(s: State, x: Task)
    requires s.Consistent(s.tickCount + 1) && x in s.eventItems.Items(PendingReady)
    ensures x in s.eventItems.container && s.eventItems.container[x] == PendingReady
    ensures x in s.stateItems.container && IsBlocked(s.stateItems.container[x])
    ensures x in s.priority && s.priority[x] < MAX_PRIORITIES && s.current in s.priority
    ensures NoDup(s.eventItems.Items(PendingReady))
  {
  }

  lemma CaughtUpFrame(s: State, t: State, early: set<Task>, n: nat)
    requires CaughtUp(s, t, early, n)
    ensures t.priority == s.priority && t.current == s.current && t.suspended == s.suspended
    ensures t.pendedTicks == s.pendedTicks
  {
    hide DeadlinesOf;
  }

  /** Emptying the pending list, so far. */
  ghost predicate Emptying(s0: State, s: State) {
    && s.Consistent(s.tickCount + 1)
    && PendingReady in s0.eventItems.lists
    && PendingTasks(s0) <= s0.stateItems.container.Keys
    && PendingTasks(s) <= PendingTasks(s0)
    && CaughtUp(s0, s, PendingTasks(s0) - PendingTasks(s), 0)
    && (s.yieldPending <==> s0.yieldPending || Preempts(s0, PendingTasks(s0) - PendingTasks(s)))
  }

  lemma EmptyingStarts(s: State)
    requires s.Consistent(s.tickCount + 1)
    ensures Emptying(s, s)
  {
    hide Table.Valid, DeadlinesOf, DelaysOk;
    DeadlinesReached(s);
    forall x <- PendingTasks(s) ensures x in s.stateItems.container {
      PendingMember(s, x);
    }
    assert PendingTasks(s) - PendingTasks(s) == {};
    PrioritiesKnown(s, s.tickCount + 1);
    MovedNone(s);
    MovedIsCaughtUp(s, s, {});
  }

  lemma EmptyingFacts(s0: State, s: State)
    requires Emptying(s0, s)
    ensures s.Consistent(s.tickCount + 1) && PendingReady in s.eventItems.lists
    ensures s.suspended == s0.suspended && s.pendedTicks == s0.pendedTicks
  {
    hide Table.Valid, DelaysOk, DeadlinesOf;
  }

  lemma EmptyingStep(s0: State, s: State)
    requires Emptying(s0, s) && s.eventItems.Items(PendingReady) != []
    ensures var x := s.eventItems.Items(PendingReady)[0];
            && x in s.stateItems.container && s.ListsOk()
            && x in s.priority && s.priority[x] < MAX_PRIORITIES && s.current in s.priority
            && |Readied(s, x).eventItems.Items(PendingReady)| < |s.eventItems.Items(PendingReady)|
            && (var y := s.yieldPending || s.priority[x] >= s.priority[s.current];
                Emptying(s0, Readied(s, x).(yieldPending := y)))
  {
    hide Table.Valid, DeadlinesOf, DelaysOk, Relocated, CaughtUp, Preempts, ReadyOk, EventsOk, State.CountsOk, Moved;
    var x := s.eventItems.Items(PendingReady)[0];
    PendingHead(s);
    var t := Readied(s, x);
    var y := s.yieldPending || s.priority[x] >= s.priority[s.current];
    MovedIsCaughtUp(s, t, {x});
    CaughtUpFrame(s0, s, PendingTasks(s0) - PendingTasks(s), 0);
    CaughtUpTwice(s0, s, t, PendingTasks(s0) - PendingTasks(s), {x}, 0, 0);
    PreemptsWith(s0, PendingTasks(s0) - PendingTasks(s), x);
    YieldKeeps(t, y, s.tickCount + 1);
    YieldFlag(s0, t, PendingTasks(s0) - PendingTasks(s) + {x}, 0, y);
    assert PendingTasks(s0) - PendingTasks(t) == PendingTasks(s0) - PendingTasks(s) + {x};
  }

  lemma YieldKeeps(s: State, y: bool, low: nat)
    requires s.Consistent(low)
    ensures s.(yieldPending := y).Consistent(low)
  {
  }

  lemma YieldFlag(s: State, t: State, early: set<Task>, n: nat, y: bool)
    requires CaughtUp(s, t, early, n)
    ensures CaughtUp(s, t.(yieldPending := y), early, n)
  {
    hide DeadlinesOf;
  }

  /** A round of the first loop of `xTaskResumeAll` finds a task at the head of the pending list, */
  ghost predicate SomePending(s: State) {
    && s.ListsOk() && s.eventItems.Items(PendingReady) != [] && s.current in s.priority
    && var x := s.eventItems.Items(PendingReady)[0];
    x in s.stateItems.container && x in s.priority && s.priority[x] < MAX_PRIORITIES
  }

  /** and makes it ready. */
  ghost function PendingMoved(s: State): State
    requires SomePending(s)
  {
    var x := s.eventItems.Items(PendingReady)[0];
    Readied(s, x).(yieldPending := s.yieldPending || s.priority[x] >= s.priority[s.current])
  }

  /** `n` rounds lead from `s` to `t`. */
  ghost predicate Empties(s: State, n: nat, t: State)
    decreases n
  {
    if n == 0 then t == s else SomePending(s) && Empties(PendingMoved(s), n - 1, t)
  }

  lemma NoRounds(s: State)
    ensures Empties(s, 0, s)
  {
  }

  lemma {:induction false} OneRoundMore(s0: State, n: nat, s: State)
    requires Empties(s0, n, s) && SomePending(s)
    ensures Empties(s0, n + 1, PendingMoved(s))
    decreases n
  {
    hide SomePending, PendingMoved;
    if n == 0 {
      NoRounds(PendingMoved(s));
    } else {
      OneRoundMore(PendingMoved(s0), n - 1, s);
    }
  }

  lemma PendingRound(s: State)
    requires s.Consistent(s.tickCount + 1) && s.eventItems.Items(PendingReady) != []
    ensures SomePending(s)
    ensures var t := PendingMoved(s);
            && t.Consistent(t.tickCount + 1) && PendingReady in t.eventItems.lists
            && |t.eventItems.Items(PendingReady)| == |s.eventItems.Items(PendingReady)| - 1
  {
    hide Table.Valid, DelaysOk, ReadyOk, EventsOk, Moved, Readied;
    PendingHead(s);
    var x := s.eventItems.Items(PendingReady)[0];
    YieldKeeps(Readied(s, x), s.yieldPending || s.priority[x] >= s.priority[s.current], s.tickCount + 1);
  }

  lemma {:induction false} EmptiesKeeps(s0: State, s: State, n: nat, t: State)
    requires Emptying(s0, s) && Empties(s, n, t)
    ensures Emptying(s0, t)
    decreases n
  {
    hide Emptying, Readied, Table.Valid;
    if n > 0 {
      EmptyingStep(s0, s);
      EmptiesKeeps(s0, PendingMoved(s), n - 1, t);
    }
  }

  /** Replaying pended ticks, so far. */
  ghost predicate Replaying(s0: State, s: State, n: nat) {
    && s.Consistent(s.tickCount + 1) && s0.Consistent(s0.tickCount + 1)
    && PendingReady in s0.eventItems.lists
    && CaughtUp(s0, s, PendingTasks(s0), n)
    && PendingTasks(s0) <= s0.stateItems.container.Keys
    && (s0.yieldPending || Preempts(s0, PendingTasks(s0)) ==> s.yieldPending)
  }

  lemma ReplayingStarts(s0: State, s: State)
    requires s0.Consistent(s0.tickCount + 1)
    requires Emptying(s0, s) && s.eventItems.Items(PendingReady) == []
    ensures Replaying(s0, s, 0)
    ensures forall x <- s.stateItems.Items(s.DelayedList()) :: x in s.itemValue
    ensures Replaying(s0, Rearmed(s), 0)
  {
    hide State.Consistent, DeadlinesOf, Preempts, CaughtUp;
    RearmedAgain(s, s.tickCount + 1);
    EmptyingLists(s0, s);
    EmptyingFacts(s0, s);
    assert PendingTasks(s0) - PendingTasks(s) == PendingTasks(s0);
    RearmedCaughtUp(s0, s, PendingTasks(s0), 0);
  }

  lemma RearmedCaughtUp(s0: State, s: State, early: set<Task>, n: nat)
    requires CaughtUp(s0, s, early, n) && HasStateLists(s.stateItems.lists)
    requires forall x <- s.stateItems.Items(s.DelayedList()) :: x in s.itemValue
    ensures CaughtUp(s0, Rearmed(s), early, n)
    ensures Rearmed(s).yieldPending == s.yieldPending && Rearmed(s).tickCount == s.tickCount
  {
    hide DeadlinesOf;
  }

  lemma TickedFrame(s: State)
    requires s.Consistent(s.tickCount + 1)
    ensures Ticked(s).yieldPending == s.yieldPending
    ensures Ticked(s).suspended == s.suspended && Ticked(s).pendedTicks == s.pendedTicks
  {
    hide Table.Valid, DelaysOk, DeadlinesOf, EventsOk, ReadyOk, TickStart, Drain;
    TickStartKeeps(s);
    DrainIsFullScan(TickStart(s));
  }

  lemma ReplayingStep(s0: State, s: State, n: nat, switchRequired: bool)
    requires Replaying(s0, s, n)
    requires s.Consistent(s.tickCount + 1)
    ensures Replaying(s0, Ticked(s).(yieldPending := s.yieldPending || switchRequired), n + 1)
  {
    hide State.Consistent, DeadlinesOf, CaughtUp, Preempts, Ticked;
    TickedIsFullScan(s);
    var t := Ticked(s);
    CaughtUpTwice(s0, s, t, PendingTasks(s0), {}, n, 1);
    assert PendingTasks(s0) + {} == PendingTasks(s0);
    YieldKeeps(t, s.yieldPending || switchRequired, t.tickCount + 1);
    YieldFlag(s0, t, PendingTasks(s0), n + 1, s.yieldPending || switchRequired);
  }

  /** Whether a tick asks for a context switch. */
  ghost predicate AsksForSwitch(s: State)
    requires s.Consistent(s.tickCount + 1)
  {
    Preempts(s, Reached(s)) || SharesSlice(Ticked(s)) || s.yieldPending
  }

  /** A round of the second loop: a pended tick, and a note of the switch it asks for. */
  ghost function TickReplayed(s: State): State
    requires s.Consistent(s.tickCount + 1)
  {
    Ticked(s).(yieldPending := s.yieldPending || AsksForSwitch(s))
  }

  /** `n` rounds lead from `s` to `t`. */
  ghost predicate Replays(s: State, n: nat, t: State)
    decreases n
  {
    if n == 0 then t == s else s.Consistent(s.tickCount + 1) && Replays(TickReplayed(s), n - 1, t)
  }

  lemma NoTicks(s: State)
    ensures Replays(s, 0, s)
  {
  }

  lemma {:induction false} OneTickMore(s0: State, n: nat, s: State)
    requires Replays(s0, n, s) && s.Consistent(s.tickCount + 1)
    ensures Replays(s0, n + 1, TickReplayed(s))
    decreases n
  {
    hide State.Consistent, TickReplayed;
    if n == 0 {
      NoTicks(TickReplayed(s));
    } else {
      OneTickMore(TickReplayed(s0), n - 1, s);
    }
  }

  lemma TickRound(s: State)
    requires s.Consistent(s.tickCount + 1)
    ensures var t := TickReplayed(s);
            t.Consistent(t.tickCount + 1) && t.suspended == s.suspended && t.pendedTicks == s.pendedTicks
    ensures Ticked(s).yieldPending == s.yieldPending
  {
    hide State.Consistent, CaughtUp, Ticked, AsksForSwitch;
    TickedIsFullScan(s);
    TickedFrame(s);
    YieldKeeps(Ticked(s), s.yieldPending || AsksForSwitch(s), Ticked(s).tickCount + 1);
  }

  lemma {:induction false} ReplaysKeeps(s0: State, s: State, k: nat, n: nat, t: State)
    requires Replaying(s0, s, k) && Replays(s, n, t)
    ensures Replaying(s0, t, k + n)
    decreases n
  {
    hide State.Consistent, Replaying, Ticked, AsksForSwitch;
    if n > 0 {
      ReplayingStep(s0, s, k, AsksForSwitch(s));
      ReplaysKeeps(s0, TickReplayed(s), k + 1, n - 1, t);
    }
  }

  lemma TicksCleared(s: State, t: State, early: set<Task>, n: nat)
    requires CaughtUp(s, t, early, n)
    ensures CaughtUp(s.(pendedTicks := 0), t.(pendedTicks := 0), early, n)
  {
    hide State.Deadlines, State.Now, SameTasks;
    PendedApart(s);
    PendedApart(t);
    assert SameTasks(s.(pendedTicks := 0), t.(pendedTicks := 0)) by { SameTasksCleared(s, t); }
  }

  lemma PendedApart(s: State)
    ensures s.(pendedTicks := 0).Deadlines() == s.Deadlines() && s.(pendedTicks := 0).Now() == s.Now()
  {
    hide DeadlinesOf;
  }

  lemma SameTasksCleared(s: State, t: State)
    requires SameTasks(s, t)
    ensures SameTasks(s.(pendedTicks := 0), t.(pendedTicks := 0))
  {
  }

  lemma StillPending(s0: State, s: State, early: set<Task>, n: nat, x: Task)
    requires CaughtUp(s0, s, early, n) && s.eventItems.Valid() && s0.eventItems.Valid()
    requires PendingReady in s.eventItems.lists && x in s.eventItems.Items(PendingReady)
    requires PendingReady in s0.eventItems.lists
    ensures x !in early && x in PendingTasks(s0)
  {
    hide DeadlinesOf;
    EventFacts(s.eventItems, PendingReady);
    EventFacts(s0.eventItems, PendingReady);
    assert x in s.eventItems.container;
  }

  lemma EventFacts(t: Table<EventList, Task>, k: EventList)
    requires t.Valid() && k in t.lists
    ensures forall y :: y in t.Items(k) <==> y in t.container && t.container[y] == k
  {
  }

  /** When all is replayed nothing is pending any more. */
  lemma ReplayingStops(s0: State, s: State, n: nat)
    requires Replaying(s0, s, n)
    ensures s.(pendedTicks := 0).Consistent(s.tickCount + 1)
    ensures s.eventItems.Items(PendingReady) == []
    ensures CaughtUp(s0.(pendedTicks := 0), s.(pendedTicks := 0), PendingTasks(s0), n)
  {
    hide DeadlinesOf, Table.Valid, DelaysOk, ReadyOk, EventsOk, Preempts, CaughtUp;
    TicksCleared(s0, s, PendingTasks(s0), n);
    var items := s.eventItems.Items(PendingReady);
    if |items| > 0 && items[0] in items {
      StillPending(s0, s, PendingTasks(s0), n, items[0]);
    }
  }

  lemma ReplayingFacts(s0: State, s: State, n: nat)
    requires Replaying(s0, s, n)
    ensures s.Consistent(s.tickCount + 1) && s.suspended == s0.suspended && s.pendedTicks == s0.pendedTicks
  {
    hide State.Consistent, State.Deadlines;
  }

  lemma ReplayedYields(s0: State, s: State, n: nat)
    requires Replaying(s0, s, n)
    ensures PendingReady in s0.eventItems.lists
    ensures s0.yieldPending || Preempts(s0, PendingTasks(s0)) ==> s.yieldPending
  {
  }

  lemma SuspendedKeeps(s: State, n: nat)
    requires s.Consistent(s.tickCount + 1)
    ensures s.(suspended := n).Consistent(s.tickCount + 1)
  {
  }

  /** `xTaskResumeAll` once nobody else has the scheduler suspended: the pending tasks, then the pended ticks. */
  ghost predicate Resumes(s: State, moved: State, replayed: State, t: State) {
    && PendingReady in s.eventItems.lists
    && Empties(s.(suspended := 0), |s.eventItems.Items(PendingReady)|, moved)
    && moved.Consistent(moved.tickCount + 1)
    && Replays(if s.eventItems.Items(PendingReady) == [] then moved else Rearmed(moved), s.pendedTicks, replayed)
    && t == replayed.(pendedTicks := 0)
  }

  /**
   Resuming readies the pending tasks and catches up with all the ticks that were pended; no wish to yield is
   forgotten.
   */
  lemma ResumingCatchesUp(s: State, moved: State, replayed: State, t: State)
    requires s.Consistent(s.tickCount + 1) && s.suspended == 1 && Resumes(s, moved, replayed, t)
    ensures t.Valid()
    ensures CaughtUp(s.(suspended := 0, pendedTicks := 0), t, PendingTasks(s), s.pendedTicks)
    ensures s.yieldPending || Preempts(s, PendingTasks(s)) ==> t.yieldPending
  {
    hide State.Consistent, Replaying, CaughtUp, Preempts, Empties, Replays, Rearmed;
    var r := s.(suspended := 0);
    SuspendedKeeps(s, 0);
    PendingMovedAll(r, moved);
    ReplaysKeeps(r, if s.eventItems.Items(PendingReady) == [] then moved else Rearmed(moved), 0, s.pendedTicks, replayed);
    ReplayingStops(r, replayed, s.pendedTicks);
    ReplayedYields(r, replayed, s.pendedTicks);
    SameYield(s, 0);
  }

  lemma PendingMovedAll(r: State, moved: State)
    requires r.Consistent(r.tickCount + 1) && PendingReady in r.eventItems.lists
    requires Empties(r, |r.eventItems.Items(PendingReady)|, moved)
    ensures HasStateLists(moved.stateItems.lists)
    ensures forall x <- moved.stateItems.Items(moved.DelayedList()) :: x in moved.itemValue
    ensures Replaying(r, moved, 0) && Replaying(r, Rearmed(moved), 0)
  {
    hide State.Consistent, Emptying, Replaying, Empties, Rearmed;
    EmptyingStarts(r);
    EmptiesKeeps(r, r, |r.eventItems.Items(PendingReady)|, moved);
    EmptyInTheEnd(r, |r.eventItems.Items(PendingReady)|, moved);
    ReplayingStarts(r, moved);
    EmptyingLists(r, moved);
  }

  lemma EmptyingLists(s0: State, s: State)
    requires Emptying(s0, s)
    ensures HasStateLists(s.stateItems.lists)
  {
    hide Table.Valid, DelaysOk, ReadyOk, EventsOk, CaughtUp;
  }

  /** Each round takes one task off the list. */
  lemma {:induction false} EmptyInTheEnd(s: State, n: nat, t: State)
    requires s.Consistent(s.tickCount + 1) && PendingReady in s.eventItems.lists
    requires n == |s.eventItems.Items(PendingReady)| && Empties(s, n, t)
    ensures PendingReady in t.eventItems.lists && t.eventItems.Items(PendingReady) == []
    decreases n
  {
    hide State.Consistent, PendingMoved;
    if n > 0 {
      PendingRound(s);
      EmptyInTheEnd(PendingMoved(s), n - 1, t);
    } else {
    }
  }

  lemma SameYield(s: State, n: nat)
    requires PendingReady in s.eventItems.lists
    ensures Preempts(s.(suspended := n), PendingTasks(s.(suspended := n))) == Preempts(s, PendingTasks(s))
  {
  }
}
