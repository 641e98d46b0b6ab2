/**
 Who runs next: the order of the ready tasks, the order of those who wait for an event, and when a switch is due
 (lib/freertos/tasks.c).
 */
module SchedulerTurns {
  import opened ListSpec
  import opened ItemTable
  import opened Scheduler
  import opened SchedulerOps
  import opened SchedulerTasks
  import opened Ticks

  // ---------------------------------------------------------------------------------------------
  // Turns among the tasks of one priority

  /** The cursor of its ready list stands on the running task, where choosing it has left it. */
  ghost predicate OnTurn(s: State) {
    && s.stateItems.Valid() && s.current in s.stateItems.container && s.current in s.priority
    && s.stateItems.container[s.current] == Ready(s.priority[s.current])
    && Ready(s.priority[s.current]) in s.stateItems.lists
    && var ring := s.stateItems.lists[Ready(s.priority[s.current])];
       ring.Valid() && ring.cursor > 0 && ring.items[ring.cursor - 1] == s.current
  }

  /** The other ready tasks of its priority, the next one in turn first. */
  ghost function Others(s: State): seq<Task>
    requires OnTurn(s)
  {
    var u := Upcoming(s.stateItems.lists[Ready(s.priority[s.current])]);
    u[..|u| - 1]
  }

  lemma SelectedIsOnTurn(s: State)
    requires s.Consistent(s.tickCount + 1) && SomeReady(s)
    ensures OnTurn(Selected(s))
  {
    hide DelaysOk, EventsOk, Table.Valid;
    SelectedIsHighest(s);
    FirstReadyIsHighest(s, s.tickCount + 1);
    SelectedLists(s);
  }

  lemma SelectedLists(s: State)
    requires s.Consistent(s.tickCount + 1) && SomeReady(s)
    ensures Selected(s).ListsOk() && Selected(s).priority == s.priority
  {
    hide DelaysOk, EventsOk, Table.Valid, Advance;
    SelectedIsHighest(s);
  }

  /** Off its list, the running task leaves the turns of the others as they were. */
  lemma LeavesTurns(s: State, ring: Ring<Task>)
    requires OnTurn(s) && s.current in s.stateItems.Items(Ready(s.priority[s.current]))
    requires ring == RemovedFrom(s.stateItems.lists[Ready(s.priority[s.current])], s.current)
    ensures Upcoming(ring) == Others(s)
  {
    hide Upcoming, ListSpec.Remove;
    var r := s.stateItems.lists[Ready(s.priority[s.current])];
    CursorIndex(r, s.current);
    LeavingKeepsTurns(r);
  }

  lemma CursorIndex(r: Ring<Task>, x: Task)
    requires r.Valid() && NoDup(r.items) && r.cursor > 0 && r.items[r.cursor - 1] == x
    ensures x in r.items && IndexOf(r.items, x) == r.cursor - 1
  {
  }

  /** In `t` the running task of `s` is ready no more; nothing has changed about any other ready task. */
  ghost predicate HasLeft(s: State, t: State)
    requires OnTurn(s)
  {
    var k := Ready(s.priority[s.current]);
    && t.Consistent(t.tickCount + 1) && t.priority == s.priority && k in t.stateItems.lists
    && t.stateItems.container.Keys == s.stateItems.container.Keys
    && (forall y <- s.stateItems.container :: t.stateItems.container[y].Ready? <==>
          y != s.current && s.stateItems.container[y].Ready?)
    && (forall y <- t.stateItems.container :: t.stateItems.container[y].Ready? ==>
          t.stateItems.container[y] == s.stateItems.container[y])
    && t.stateItems.lists[k].Valid() && Upcoming(t.stateItems.lists[k]) == Others(s)
  }

  /** `x` is the next one to run. */
  ghost predicate IsNext(s: State, x: Task) {
    s.Consistent(s.tickCount + 1) && SomeReady(s) && Selected(s).current == x
  }

  /** The task that has had its turn blocks, and the next one in turn gets the processor. */
  lemma TurnPasses(s: State, t: State)
    requires OnTurn(s) && MostUrgent(s, s.current) && HasLeft(s, t) && Others(s) != []
    ensures IsNext(t, Others(s)[0])
  {
    hide DelaysOk, EventsOk, Table.Valid, State.CountsOk, Selected, OnTurn, Others;
    var p := s.priority[s.current];
    var y := Others(s)[0];
    UpcomingIsItems(t.stateItems.lists[Ready(p)]);
    MemberIsReady(t, Ready(p), y);
    SelectedIsHighest(t);
  }

  lemma UpcomingIsItems<T>(r: Ring<T>)
    requires r.Valid()
    ensures forall y :: y in Upcoming(r) <==> y in r.items
  {
    assert r.items == r.items[..r.cursor] + r.items[r.cursor..];
  }

  lemma MemberIsReady(s: State, k: StateList, y: Task)
    requires s.ListsOk() && k in s.stateItems.lists && y in s.stateItems.Items(k)
    ensures y in s.stateItems.container && s.stateItems.container[y] == k
  {
  }

  /** Whether it sleeps, */
  lemma DelayedLeaves(s: State, d: nat)
    requires s.Consistent(s.tickCount + 1) && OnTurn(s) && 0 < d < WRAP
    ensures SortedBy(s.stateItems.Items(DelayedOne), s.itemValue)
    ensures SortedBy(s.stateItems.Items(DelayedTwo), s.itemValue)
    ensures HasLeft(s, Delayed(s, d))
  {
    hide DelaysOk, EventsOk, ReadyOk, Table.Valid, State.CountsOk, Upcoming, ListSpec.Remove, InsertSorted, InsertPos;
    DelayedKeeps(s, d);
    ReadyItem(s);
    var t := Delayed(s, d);
    LeavesTurns(s, t.stateItems.lists[Ready(s.priority[s.current])]);
  }

  lemma ReadyItem(s: State)
    requires s.Consistent(s.tickCount + 1) && OnTurn(s)
    ensures s.current in s.stateItems.Items(Ready(s.priority[s.current])) && s.priority[s.current] < MAX_PRIORITIES
  {
  }

  /** waits for an event, */
  lemma BlockedOnLeaves(s: State, e: nat, d: nat)
    requires s.Consistent(s.tickCount + 1) && OnTurn(s) && 0 < d < WRAP && WaitingOn(e) in s.eventItems.lists
    ensures HasLeft(s, BlockedOn(s, e, d))
  {
    hide DelaysOk, EventsOk, ReadyOk, Table.Valid, State.CountsOk, Upcoming, Delayed, Parked, OnTurn, Others;
    OnTurnIsReady(s);
    BlockedOnKeeps(s, e, d);
    if d == MAX_DELAY {
      ParkedLeaves(s);
    } else {
      DelayedLeaves(s, d);
    }
  }

  lemma OnTurnIsReady(s: State)
    requires OnTurn(s)
    ensures s.current in s.stateItems.container && s.stateItems.container[s.current].Ready?
  {
  }

  lemma ParkedLeaves(s: State)
    requires s.Consistent(s.tickCount + 1) && OnTurn(s)
    ensures HasLeft(s, Parked(s))
  {
    hide DelaysOk, EventsOk, ReadyOk, Table.Valid, State.CountsOk, Upcoming, ListSpec.Remove, ListSpec.InsertEnd;
    ParkedKeeps(s);
    ReadyItem(s);
    LeavesTurns(s, Parked(s).stateItems.lists[Ready(s.priority[s.current])]);
  }

  lemma RelocatedLeaves(s: State, k: StateList)
    requires s.ListsOk() && OnTurn(s) && k in s.stateItems.lists && !k.Ready?
    ensures s.current in s.stateItems.Items(Ready(s.priority[s.current]))
    ensures var j := Ready(s.priority[s.current]); var t := Relocated(s, s.current, k);
            && j in t.stateItems.lists && t.stateItems.lists[j] == RemovedFrom(s.stateItems.lists[j], s.current)
  {
    hide Table.Valid, Upcoming, ListSpec.Remove, ListSpec.InsertEnd;
  }

  /** is suspended, */
  lemma SuspendedLeaves(s: State)
    requires s.Consistent(s.tickCount + 1) && OnTurn(s)
    ensures HasLeft(s, SuspendedTask(s, s.current))
  {
    hide DelaysOk, EventsOk, ReadyOk, Table.Valid, State.CountsOk, Upcoming, Relocated, ListSpec.Remove;
    SuspendedTaskKeeps(s, s.current);
    SuspendedBasics(s, s.current);
    RelocatedLeaves(s, Suspended);
    RelocatedFrame(s, s.current, Suspended);
    LeavesTurns(s, SuspendedTask(s, s.current).stateItems.lists[Ready(s.priority[s.current])]);
  }

  /** or is deleted. */
  lemma DeletedSelfLeaves(s: State)
    requires s.Consistent(s.tickCount + 1) && OnTurn(s)
    ensures HasLeft(s, DeletedSelf(s))
  {
    hide DelaysOk, EventsOk, ReadyOk, Table.Valid, State.CountsOk, Upcoming, Relocated, ListSpec.Remove;
    DeletedSelfKeeps(s, s.tickCount + 1);
    RelocatedLeaves(s, Termination);
    RelocatedFrame(s, s.current, Termination);
    LeavesTurns(s, DeletedSelf(s).stateItems.lists[Ready(s.priority[s.current])]);
  }

  /** A task that is readied comes last in turn, but for the one under the cursor. */
  lemma ReadiedIsLast(s: State, x: Task)
    requires s.ListsOk() && x in s.stateItems.container && x in s.priority && s.priority[x] < MAX_PRIORITIES
    requires s.stateItems.container[x] != Ready(s.priority[x])
    ensures var k := Ready(s.priority[x]); var r, r' := s.stateItems.lists[k], Readied(s, x).stateItems.lists[k];
            && r.Valid() && r'.Valid()
            && var u := Upcoming(r);
               Upcoming(r') == if r.cursor == 0 then u + [x] else u[..|u| - 1] + [x] + u[|u| - 1..]
  {
    hide Table.Valid, Upcoming, ListSpec.InsertEnd, ListSpec.Remove;
    RingIsValid(s.stateItems, Ready(s.priority[x]));
    InsertEndIsLast(s.stateItems.lists[Ready(s.priority[x])], x);
  }

  lemma CreatedIsLast(s: State, x: Task, p: nat)
    requires s.ListsOk() && x !in s.stateItems.container && p < MAX_PRIORITIES
    ensures var k := Ready(p); var r, r' := s.stateItems.lists[k], Created(s, x, p).stateItems.lists[k];
            && r.Valid() && r'.Valid()
            && var u := Upcoming(r);
               Upcoming(r') == if r.cursor == 0 then u + [x] else u[..|u| - 1] + [x] + u[|u| - 1..]
  {
    hide Table.Valid, Upcoming, ListSpec.InsertEnd;
    RingIsValid(s.stateItems, Ready(p));
    InsertEndIsLast(s.stateItems.lists[Ready(p)], x);
  }

  lemma ReprioritisedIsLast(s: State, x: Task, p: nat, v: nat)
    requires s.ListsOk() && x in s.stateItems.container && p < MAX_PRIORITIES
    requires s.stateItems.container[x].Ready? && s.stateItems.container[x] != Ready(p)
    ensures var k := Ready(p); var r, r' := s.stateItems.lists[k], Reprioritised(s, x, p, v).stateItems.lists[k];
            && r.Valid() && r'.Valid()
            && var u := Upcoming(r);
               Upcoming(r') == if r.cursor == 0 then u + [x] else u[..|u| - 1] + [x] + u[|u| - 1..]
  {
    hide Table.Valid, Upcoming, ListSpec.InsertEnd, ListSpec.Remove;
    RingIsValid(s.stateItems, Ready(p));
    InsertEndIsLast(s.stateItems.lists[Ready(p)], x);
  }

  // ---------------------------------------------------------------------------------------------
  // Turns among those who wait for an event

  /** `x` has joined the others in front of the first one with a greater value, and behind all with the same value. */
  ghost predicate Joins(before: seq<Task>, x: Task, value: map<Task, nat>, after: seq<Task>, p: nat)
    requires x in value && forall y <- before :: y in value
  {
    && p <= |before| && after == before[..p] + [x] + before[p..]
    && (forall y <- before[..p] :: value[y] <= value[x]) && (forall y <- before[p..] :: value[y] > value[x])
  }

  /** Most urgent first; a task's value is `configMAX_PRIORITIES` less its priority. */
  ghost predicate InOrder(events: Table<EventList, Task>, value: map<Task, nat>) {
    && events.Valid()
    && forall k <- events.lists :: k.WaitingOn? ==> SortedBy(events.Items(k), value)
  }

  lemma InsertedInOrder(items: seq<Task>, x: Task, value: map<Task, nat>)
    requires x in value && x !in items && SortedBy(items, value)
    ensures var p := InsertPos(ValuesOf(items, value), value[x]); var after := InsertAt(items, p, x);
            Joins(items, x, value, after, p) && SortedBy(after, value)
  {
    var values := ValuesOf(items, value);
    var p := InsertPos(values, value[x]);
    var after := InsertAt(items, p, x);
    assert forall i, j :: 0 <= i < j < |values| ==> values[i] <= values[j];
    InsertKeepsSorted(values, value[x]);
    ValuesInserted(items, p, x, value);
    var sorted := InsertAt(values, p, value[x]);
    assert forall i :: 0 <= i < |after| ==> sorted[i] == value[after[i]];
    forall y <- items[..p] ensures value[y] <= value[x] {
      var i :| 0 <= i < p && items[i] == y;
      assert values[i] <= value[x];
    }
    forall y <- items[p..] ensures value[y] > value[x] {
      var i :| p <= i < |items| && items[i] == y;
      assert values[i] > value[x];
    }
  }

  lemma InsertKeepsOrder(events: Table<EventList, Task>, k: EventList, x: Task, value: map<Task, nat>)
    requires InOrder(events, value) && k in events.lists && k.WaitingOn? && x !in events.container && x in value
    ensures forall y <- events.Items(k) :: y in value
    ensures var after := events.Insert(k, x, value[x], value);
            && InOrder(after, value)
            && (exists p :: Joins(events.Items(k), x, value, after.Items(k), p))
            && (forall j <- events.lists :: j != k ==> after.lists[j] == events.lists[j])
  {
    hide Table.Valid, Joins, InsertPos, InsertAt;
    NotWaiting(events, k, x);
    InsertedInOrder(events.Items(k), x, value);
  }

  lemma RemoveKeepsOrder(events: Table<EventList, Task>, x: Task, value: map<Task, nat>)
    requires InOrder(events, value) && x in events.container
    ensures InOrder(events.Remove(x), value)
  {
    hide Table.Valid, ListSpec.Remove, SortedBy;
    var k := events.container[x];
    EventRing(events, x);
    if k.WaitingOn? {
      RemovedFromFacts(events.lists[k], x, value);
    }
  }

  lemma EventRing(events: Table<EventList, Task>, x: Task)
    requires events.Valid() && x in events.container
    ensures var k := events.container[x];
            k in events.lists && events.lists[k].Valid() && NoDup(events.Items(k)) && x in events.Items(k)
  {
  }

  lemma MoveKeepsOrder(events: Table<EventList, Task>, x: Task, value: map<Task, nat>)
    requires InOrder(events, value) && x in events.container && PendingReady in events.lists
    requires events.container[x].WaitingOn?
    ensures InOrder(events.Move(PendingReady, x), value)
  {
    hide Table.Valid, ListSpec.Remove, SortedBy;
    var k := events.container[x];
    EventRing(events, x);
    RemovedFromFacts(events.lists[k], x, value);
  }

  /** Who blocks joins the waiters at the place of its urgency, and no other waiter moves. */
  lemma BlocksInOrder(s: State, e: nat, d: nat)
    requires s.Consistent(s.tickCount + 1) && s.stateItems.container[s.current].Ready? && 0 < d < WRAP
    requires WaitingOn(e) in s.eventItems.lists && InOrder(s.eventItems, s.eventValue)
    ensures var k := WaitingOn(e); var t := BlockedOn(s, e, d); var before := s.eventItems.Items(k);
            && InOrder(t.eventItems, t.eventValue)
            && s.current in s.eventValue && (forall y <- before :: y in s.eventValue)
            && t.eventItems.lists.Keys == s.eventItems.lists.Keys
            && (exists p :: Joins(before, s.current, s.eventValue, t.eventItems.Items(k), p))
            && (forall j <- s.eventItems.lists :: j != k ==> t.eventItems.lists[j] == s.eventItems.lists[j])
  {
    hide Table.Valid, Table.Insert, DelaysOk, ReadyOk, EventsOk, State.CountsOk, Delayed, Parked, Joins, SortedBy;
    QueueFacts(s, e);
    BlockedOnKeeps(s, e, d);
    InsertKeepsOrder(s.eventItems, WaitingOn(e), s.current, s.eventValue);
  }

  lemma NotWaiting(t: Table<EventList, Task>, k: EventList, x: Task)
    requires t.Valid() && k in t.lists && x !in t.container
    ensures x !in t.Items(k)
  {
  }

  /** `x` has left the front of the list; nobody who waited there is more urgent. */
  ghost predicate MostUrgentLeft(before: seq<Task>, x: Task, value: map<Task, nat>, after: seq<Task>)
    requires forall y <- before :: y in value
  {
    before == [x] + after && forall y <- before :: value[x] <= value[y]
  }

  lemma HeadIsMostUrgent(events: Table<EventList, Task>, k: EventList, value: map<Task, nat>)
    requires InOrder(events, value) && k in events.lists && k.WaitingOn? && events.Items(k) != []
    ensures forall y <- events.Items(k) :: y in value
    ensures var x := events.Items(k)[0];
            && x in events.container && events.container[x] == k
            && MostUrgentLeft(events.Items(k), x, value, events.Remove(x).Items(k))
            && (PendingReady in events.lists ==>
                  MostUrgentLeft(events.Items(k), x, value, events.Move(PendingReady, x).Items(k)))
  {
    var items := events.Items(k);
    var x := items[0];
    assert x in items;
    assert IndexOf(items, x) == 0;
    FirstRemoved(items);
    forall y <- items ensures value[x] <= value[y] {
      var i :| 0 <= i < |items| && items[i] == y;
    }
  }

  lemma FirstRemoved<T>(items: seq<T>)
    requires items != []
    ensures items == [items[0]] + RemoveAt(items, 0)
  {
  }

  /**
   Waking takes a waiter off the list whom no other waiter outranks and none of the same value has waited in front of,
   and keeps the order of the others.  It is ready at once, or pending while the scheduler is suspended.
   */
  lemma WakesMostUrgent(s: State, e: nat)
    requires s.Consistent(s.tickCount + 1) && InOrder(s.eventItems, s.eventValue)
    requires WaitingOn(e) in s.eventItems.lists && s.eventItems.Items(WaitingOn(e)) != []
    ensures var k := WaitingOn(e); var t := EventWoken(s, e); var before := s.eventItems.Items(k);
            && InOrder(t.eventItems, t.eventValue) && t.eventItems.lists.Keys == s.eventItems.lists.Keys
            && (forall y <- before :: y in s.eventValue)
            && exists x :: MostUrgentLeft(before, x, s.eventValue, t.eventItems.Items(k)) && Woken(s, x, t)
  {
    hide Table.Valid, Table.Move, Table.Remove, DelaysOk, ReadyOk, EventsOk, State.CountsOk, SortedBy, MostUrgentLeft;
    var k := WaitingOn(e);
    var x := s.eventItems.Items(k)[0];
    WaiterFacts(s, e);
    HeadIsMostUrgent(s.eventItems, k, s.eventValue);
    if s.suspended == 0 {
      RemoveKeepsOrder(s.eventItems, x, s.eventValue);
      WokenNow(s, e);
    } else {
      MoveKeepsOrder(s.eventItems, x, s.eventValue);
      EventWokenLater(s, e);
    }
  }

  /** `x` is ready, or pending while the scheduler is suspended. */
  ghost predicate Woken(s: State, x: Task, t: State) {
    && x in s.priority
    && if s.suspended == 0
       then x in t.stateItems.container && t.stateItems.container[x] == Ready(s.priority[x]) && x !in t.eventItems.container
       else x in t.eventItems.container && t.eventItems.container[x] == PendingReady
  }

  lemma WokenNow(s: State, e: nat)
    requires s.Consistent(s.tickCount + 1) && s.suspended == 0
    requires WaitingOn(e) in s.eventItems.lists && s.eventItems.Items(WaitingOn(e)) != []
    ensures var x := s.eventItems.Items(WaitingOn(e))[0]; var t := EventWoken(s, e);
            && x in s.eventItems.container && s.eventItems.Valid() && Woken(s, x, t)
            && t.eventItems == s.eventItems.Remove(x) && t.eventValue == s.eventValue
  {
    hide Table.Valid, Table.Move, Table.Remove, DelaysOk, ReadyOk, EventsOk, State.CountsOk;
    WaiterFacts(s, e);
    EventWokenNow(s, e);
  }

  // That order is kept

  lemma SameOrder(s: State, t: State)
    requires InOrder(s.eventItems, s.eventValue) && t.eventItems == s.eventItems && t.eventValue == s.eventValue
    ensures InOrder(t.eventItems, t.eventValue)
  {
  }

  lemma RelocatedInOrder(s: State, x: Task, k: StateList)
    requires s.ListsOk() && x in s.stateItems.container && k in s.stateItems.lists && InOrder(s.eventItems, s.eventValue)
    ensures InOrder(Relocated(s, x, k).eventItems, s.eventValue) && Relocated(s, x, k).eventValue == s.eventValue
  {
    hide Table.Valid, Table.Move, Table.Remove, SortedBy;
    if x in s.eventItems.container {
      RemoveKeepsOrder(s.eventItems, x, s.eventValue);
    }
  }

  lemma GoneInOrder(s: State, x: Task)
    requires s.ListsOk() && x in s.stateItems.container && InOrder(s.eventItems, s.eventValue)
    ensures InOrder(Gone(s, x).eventItems, s.eventValue) && Gone(s, x).eventValue == s.eventValue
  {
    hide Table.Valid, Table.Move, Table.Remove, SortedBy;
    if x in s.eventItems.container {
      RemoveKeepsOrder(s.eventItems, x, s.eventValue);
    }
  }

  /** A new value for a task that is on no event list */
  lemma ValueElsewhere(events: Table<EventList, Task>, value: map<Task, nat>, x: Task, v: nat)
    requires InOrder(events, value) && x !in events.container
    ensures InOrder(events, value[x := v])
  {
    hide Table.Valid, SortedBy;
    forall k <- events.lists | k.WaitingOn? ensures SortedBy(events.Items(k), value[x := v]) {
      NotWaiting(events, k, x);
      UpdateElsewhere(events.Items(k), value, x, v);
    }
  }

  lemma {:induction false} DrainInOrder(s: State)
    requires s.Consistent(s.tickCount) && InOrder(s.eventItems, s.eventValue)
    ensures InOrder(Drain(s).eventItems, Drain(s).eventValue)
    decreases |s.stateItems.Items(s.DelayedList())|
  {
    hide Table.Valid, Table.Move, Table.Remove, InOrder, Relocated, DelaysOk, EventsOk, State.CountsOk;
    if HeadDue(s) {
      var x := Head(s);
      RelocatedInOrder(s, x, Ready(s.priority[x]));
      ReadiedKeeps(s, x, s.tickCount);
      ReadiedShrinks(s, x);
      RelocatedFrame(s, x, Ready(s.priority[x]));
      DrainInOrder(Readied(s, x));
    }
  }

  lemma TickedInOrder(s: State)
    requires s.Consistent(s.tickCount + 1) && InOrder(s.eventItems, s.eventValue)
    ensures InOrder(Ticked(s).eventItems, Ticked(s).eventValue)
  {
    hide Table.Valid, InOrder, DelaysOk, EventsOk, ReadyOk, State.CountsOk, Drain, TickStart;
    TickStartKeeps(s);
    SameOrder(s, TickStart(s));
    DrainInOrder(TickStart(s));
  }

  lemma {:induction false} EmptiesInOrder(s: State, n: nat, t: State)
    requires Empties(s, n, t) && InOrder(s.eventItems, s.eventValue)
    ensures InOrder(t.eventItems, t.eventValue)
    decreases n
  {
    hide InOrder, Relocated, State.ListsOk;
    if n > 0 {
      PendingLists(s);
      var x := s.eventItems.Items(PendingReady)[0];
      RelocatedInOrder(s, x, Ready(s.priority[x]));
      RelocatedFrame(s, x, Ready(s.priority[x]));
      EmptiesInOrder(PendingMoved(s), n - 1, t);
    }
  }

  lemma PendingLists(s: State)
    requires SomePending(s)
    ensures PendingReady in s.eventItems.lists
    ensures var x := s.eventItems.Items(PendingReady)[0]; Ready(s.priority[x]) in s.stateItems.lists
  {
    hide Table.Valid;
  }

  lemma {:induction false} ReplaysInOrder(s: State, n: nat, t: State)
    requires Replays(s, n, t) && InOrder(s.eventItems, s.eventValue)
    ensures InOrder(t.eventItems, t.eventValue)
    decreases n
  {
    hide InOrder, Ticked, State.Consistent, Preempts;
    if n > 0 {
      TickedInOrder(s);
      ReplaysInOrder(TickReplayed(s), n - 1, t);
    }
  }

  lemma ResumesInOrder(s: State, moved: State, replayed: State, t: State)
    requires Resumes(s, moved, replayed, t) && InOrder(s.eventItems, s.eventValue)
    requires s.Consistent(s.tickCount + 1) && s.suspended == 1
    ensures InOrder(t.eventItems, t.eventValue)
  {
    hide InOrder, Empties, Replays, State.Consistent;
    EmptiesInOrder(s.(suspended := 0), |s.eventItems.Items(PendingReady)|, moved);
    SuspendedKeeps(s, 0);
    PendingMovedAll(s.(suspended := 0), moved);
    ReplaysInOrder(if s.eventItems.Items(PendingReady) == [] then moved else Rearmed(moved), s.pendedTicks, replayed);
  }

  // ---------------------------------------------------------------------------------------------
  // When a switch is due

  /** Another ready task is at least as urgent as the running one. */
  ghost predicate HasRival(s: State) {
    RivalIn(s.stateItems.container, s.priority, s.current)
  }

  ghost predicate RivalIn(container: map<Task, StateList>, priority: map<Task, nat>, current: Task) {
    current in priority && exists y <- container ::
      y != current && container[y].Ready? && y in priority && priority[y] >= priority[current]
  }

  /** One is more urgent. */
  ghost predicate Outranked(s: State) {
    OutrankedIn(s.stateItems.container, s.priority, s.current)
  }

  ghost predicate OutrankedIn(container: map<Task, StateList>, priority: map<Task, nat>, current: Task) {
    current in priority && exists y <- container ::
      container[y].Ready? && y in priority && priority[y] > priority[current]
  }

  /** One ready task more */
  lemma OneMoreRival(container: map<Task, StateList>, priority: map<Task, nat>, current: Task, x: Task, p: nat)
    requires x != current && current in priority && !(x in container && container[x].Ready?)
    ensures var c, q := container[x := Ready(p)], priority[x := p];
            && (OutrankedIn(c, q, current) <==> OutrankedIn(container, priority, current) || p > priority[current])
            && (RivalIn(c, q, current) <==> RivalIn(container, priority, current) || p >= priority[current])
  {
    var c, q := container[x := Ready(p)], priority[x := p];
    assert x in c && c[x] == Ready(p) && q[x] == p;
    forall y | y in container && container[y].Ready? ensures y in c && c[y] == container[y] && y != x {
    }
  }

  ghost predicate RunningIsReady(s: State) {
    s.current in s.stateItems.container && s.stateItems.container[s.current].Ready?
  }

  /** The time slice is shared exactly if another task is ready in the list of the running task's priority. */
  lemma SharesSliceExactly(s: State, low: nat)
    requires s.Consistent(low) && RunningIsReady(s)
    ensures s.current in s.priority
    ensures SharesSlice(s) <==>
              exists y <- s.stateItems.container ::
                y != s.current && s.stateItems.container[y] == Ready(s.priority[s.current])
  {
    hide Table.Valid, DelaysOk, EventsOk;
    CurrentFacts(s, low);
    var k := Ready(s.priority[s.current]);
    ListFacts(s.stateItems, k);
    if SharesSlice(s) {
      var y := OtherMember(s.stateItems.Items(k), s.current);
      assert y in s.stateItems.Items(k);
    } else {
      OneMember(s.stateItems.Items(k), s.current);
    }
  }

  lemma OtherMember(items: seq<Task>, x: Task) returns (y: Task)
    requires NoDup(items) && |items| > 1
    ensures y in items && y != x
  {
    y := if items[0] == x then items[1] else items[0];
  }

  lemma OneMember(items: seq<Task>, x: Task)
    requires |items| <= 1 && x in items
    ensures forall y <- items :: y == x
  {
  }

  /** What the tick does to one task, and what it leaves alone. */
  lemma TickedTasks(s: State)
    requires s.Consistent(s.tickCount + 1)
    ensures var t := Ticked(s);
            && t.Consistent(t.tickCount + 1)
            && t.stateItems.container.Keys == s.stateItems.container.Keys <= s.priority.Keys
            && t.priority == s.priority && t.current == s.current
            && Reached(s) <= s.stateItems.container.Keys
            && forall x <- s.stateItems.container ::
                 t.stateItems.container[x] == if x in Reached(s) then Ready(s.priority[x]) else s.stateItems.container[x]
  {
    hide State.Consistent, Ticked, DeadlinesOf;
    TickedIsFullScan(s);
    DeadlinesKnown(s);
  }

  lemma DeadlinesKnown(s: State)
    ensures s.Deadlines().Keys <= s.stateItems.container.Keys
    ensures forall x <- s.Deadlines() :: IsDelayed(s.stateItems.container[x])
  {
  }

  /**
   With nobody more urgent than the running task before, the tick asks for a switch exactly if one is pending or there is
   another ready task, as urgent or more urgent, afterwards.
   */
  lemma TickAsksExactly(s: State)
    requires s.Consistent(s.tickCount + 1) && RunningIsReady(s) && !Outranked(s)
    ensures AsksForSwitch(s) <==> s.yieldPending || HasRival(Ticked(s))
  {
    hide State.Consistent, Ticked, State.Deadlines, SharesSlice;
    var t := Ticked(s);
    TickedTasks(s);
    DeadlinesKnown(s);
    SharesSliceExactly(t, t.tickCount + 1);
    ReadyPriorities(s, s.tickCount + 1);
    ReadyPriorities(t, t.tickCount + 1);
    if Preempts(s, Reached(s)) {
      var x :| x in Reached(s) && x in s.priority && s.priority[x] >= s.priority[s.current];
      assert x in t.stateItems.container;
    }
    if HasRival(t) && !Preempts(s, Reached(s)) {
      var y :| y in t.stateItems.container && y != t.current && t.stateItems.container[y].Ready?
        && y in t.priority && t.priority[y] >= t.priority[t.current];
      assert y !in Reached(s);
    }
  }

  lemma TickAnswer(s: State, switchRequired: bool)
    requires s.Consistent(s.tickCount + 1)
    requires switchRequired == (Preempts(s, Reached(s)) || SharesSlice(Ticked(s)) || Ticked(s).yieldPending)
    ensures RunningIsReady(s) && !Outranked(s) ==> switchRequired == (Ticked(s).yieldPending || HasRival(Ticked(s)))
  {
    hide State.Consistent, Ticked, Preempts, SharesSlice, Outranked, HasRival, RunningIsReady;
    if RunningIsReady(s) && !Outranked(s) {
      TickAsksExactly(s);
      TickedFrame(s);
    }
  }

  lemma ReadyPriorities(s: State, low: nat)
    requires s.Consistent(low)
    ensures s.current in s.priority && s.stateItems.container.Keys <= s.priority.Keys
    ensures forall x <- s.stateItems.container :: s.stateItems.container[x].Ready? ==>
              s.stateItems.container[x] == Ready(s.priority[x])
  {
  }

  /** Waking a task asks for a switch exactly if one was asked for before or the running task is outranked now. */
  lemma WakeAsksExactly(s: State, e: nat)
    requires s.Consistent(s.tickCount + 1) && RunningIsReady(s) && !Outranked(s) && s.suspended == 0
    requires WaitingOn(e) in s.eventItems.lists && s.eventItems.Items(WaitingOn(e)) != []
    ensures EventWoken(s, e).yieldPending <==> s.yieldPending || Outranked(EventWoken(s, e))
  {
    hide State.Consistent, Relocated, OutrankedIn, Moved, Table.Valid;
    var x := s.eventItems.Items(WaitingOn(e))[0];
    WaiterFacts(s, e);
    EventWokenNow(s, e);
    WokenReady(s, x, EventWoken(s, e));
    WokenFrame(s, e);
    OneMoreRival(s.stateItems.container, s.priority, s.current, x, s.priority[x]);
    assert s.priority[x := s.priority[x]] == s.priority;
  }

  lemma WokenReady(s: State, x: Task, t: State)
    requires Moved(s, {x}, t.(nextUnblockTime := s.nextUnblockTime, yieldPending := s.yieldPending))
    requires x in s.stateItems.container && x in s.priority
    ensures t.stateItems.container == s.stateItems.container[x := Ready(s.priority[x])]
    ensures t.priority == s.priority && t.current == s.current
  {
    hide State.Deadlines;
  }

  lemma WokenFrame(s: State, e: nat)
    requires s.Consistent(s.tickCount + 1)
    requires WaitingOn(e) in s.eventItems.lists && s.eventItems.Items(WaitingOn(e)) != []
    ensures var x := s.eventItems.Items(WaitingOn(e))[0];
            && x in s.priority && s.current in s.priority
            && (EventWoken(s, e).yieldPending <==> s.yieldPending || s.priority[x] > s.priority[s.current])
  {
    hide State.Consistent, Relocated, Table.Valid, Table.Move;
    KernelLists(s);
    WaiterFacts(s, e);
    if s.suspended == 0 {
      ReadiedKeeps(s, s.eventItems.Items(WaitingOn(e))[0], s.tickCount + 1);
      ReadiedYield(s, s.eventItems.Items(WaitingOn(e))[0]);
    }
  }

  lemma ReadiedYield(s: State, x: Task)
    requires s.ListsOk() && x in s.stateItems.container && x in s.priority && s.priority[x] < MAX_PRIORITIES
    ensures Readied(s, x).yieldPending == s.yieldPending
  {
    hide Table.Valid, Table.Move, Table.Remove;
  }

  /** While the scheduler is suspended, it does so if the task that has become pending is more urgent. */
  lemma WakeLaterAsksExactly(s: State, e: nat)
    requires s.Consistent(s.tickCount + 1) && s.suspended > 0
    requires WaitingOn(e) in s.eventItems.lists && s.eventItems.Items(WaitingOn(e)) != []
    ensures var t := EventWoken(s, e);
            && t.current == s.current && s.current in s.priority && t.priority == s.priority
            && (t.yieldPending <==>
                  s.yieldPending || exists x :: NewlyPending(s, x, t) && s.priority[x] > s.priority[s.current])
  {
    hide State.Consistent, EventWoken, Table.Valid;
    EventWokenLater(s, e);
    WokenFrame(s, e);
    WaiterFacts(s, e);
    WaiterList(s, e);
    assert NewlyPending(s, s.eventItems.Items(WaitingOn(e))[0], EventWoken(s, e));
  }

  lemma WaiterList(s: State, e: nat)
    requires s.Consistent(s.tickCount + 1)
    requires WaitingOn(e) in s.eventItems.lists && s.eventItems.Items(WaitingOn(e)) != []
    ensures var x := s.eventItems.Items(WaitingOn(e))[0];
            x in s.eventItems.container && s.eventItems.container[x] == WaitingOn(e)
  {
    hide DelaysOk, ReadyOk, EventsOk;
    assert s.eventItems.Items(WaitingOn(e))[0] in s.eventItems.Items(WaitingOn(e));
  }

  ghost predicate NewlyPending(s: State, x: Task, t: State) {
    && x in s.priority && x in t.eventItems.container && t.eventItems.container[x] == PendingReady
    && x in s.eventItems.container && s.eventItems.container[x] != PendingReady
  }

  /** Creating a task does, */
  lemma CreateAsksExactly(s: State, x: Task, p: nat)
    requires s.Consistent(s.tickCount + 1) && !Outranked(s) && x !in s.stateItems.container && p < MAX_PRIORITIES
    ensures s.current in s.priority && s.ListsOk()
    ensures s.priority[s.current] < p <==> Outranked(Created(s, x, p))
  {
    hide DelaysOk, EventsOk, ReadyOk, OutrankedIn, Table.Valid, Table.Append;
    CurrentFacts(s, s.tickCount + 1);
    OneMoreRival(s.stateItems.container, s.priority, s.current, x, p);
    CreatedTasks(s, x, p);
  }

  lemma CreatedTasks(s: State, x: Task, p: nat)
    requires s.ListsOk() && x !in s.stateItems.container && p < MAX_PRIORITIES
    ensures var t := Created(s, x, p);
            && t.stateItems.container == s.stateItems.container[x := Ready(p)] && t.priority == s.priority[x := p]
            && t.current == s.current
  {
    hide Table.Valid;
  }

  /** and resuming one, if the other is as urgent and no other was. */
  lemma ResumeAsksExactly(s: State, x: Task)
    requires s.Consistent(s.tickCount + 1) && !HasRival(s) && IsSuspended(s, x) && x != s.current
    ensures s.current in s.priority && x in s.priority && s.ListsOk() && s.priority[x] < MAX_PRIORITIES
    ensures s.priority[x] >= s.priority[s.current] <==> HasRival(Readied(s, x))
  {
    hide State.Consistent, RivalIn, Table.Valid, Relocated, Moved;
    KernelLists(s);
    CurrentFacts(s, s.tickCount + 1);
    ReadiedMoves(s, x, s.tickCount + 1);
    ReadiedTasks(s, x);
    OneMoreRival(s.stateItems.container, s.priority, s.current, x, s.priority[x]);
    assert s.priority[x := s.priority[x]] == s.priority;
  }

  lemma ReadiedTasks(s: State, x: Task)
    requires s.ListsOk() && x in s.stateItems.container && x in s.priority && s.priority[x] < MAX_PRIORITIES
    ensures var t := Readied(s, x);
            && t.stateItems.container == s.stateItems.container[x := Ready(s.priority[x])] && t.priority == s.priority
            && t.current == s.current
  {
    hide Table.Valid, Table.Move, Table.Remove;
    RelocatedLists(s, x, Ready(s.priority[x]));
  }

  /** A switch is asked for, or nobody is more urgent than the running task. */
  ghost predicate Settled(s: State) {
    s.yieldPending || !Outranked(s)
  }

  lemma PendingMovedSettles(s: State)
    requires s.Consistent(s.tickCount + 1) && s.eventItems.Items(PendingReady) != [] && RunningIsReady(s) && Settled(s)
    ensures SomePending(s) && Settled(PendingMoved(s)) && RunningIsReady(PendingMoved(s))
  {
    hide State.Consistent, OutrankedIn, Table.Valid, Relocated, Readied;
    PendingRound(s);
    KernelLists(s);
    PendingHead(s);
    var x := s.eventItems.Items(PendingReady)[0];
    ReadiedTasks(s, x);
    ReadiedYield(s, x);
    OneMoreRival(s.stateItems.container, s.priority, s.current, x, s.priority[x]);
    assert s.priority[x := s.priority[x]] == s.priority;
  }

  lemma {:induction false} EmptiesSettles(s: State, n: nat, t: State)
    requires s.Consistent(s.tickCount + 1) && PendingReady in s.eventItems.lists
    requires n == |s.eventItems.Items(PendingReady)| && Empties(s, n, t) && RunningIsReady(s) && Settled(s)
    ensures Settled(t) && RunningIsReady(t)
    decreases n
  {
    hide State.Consistent, Settled, RunningIsReady, SomePending, PendingMoved;
    if n > 0 {
      PendingMovedSettles(s);
      PendingRound(s);
      EmptiesSettles(PendingMoved(s), n - 1, t);
    }
  }

  lemma TickReplayedSettles(s: State)
    requires s.Consistent(s.tickCount + 1) && RunningIsReady(s) && Settled(s)
    ensures Settled(TickReplayed(s)) && RunningIsReady(TickReplayed(s))
  {
    hide State.Consistent, Ticked, AsksForSwitch, OutrankedIn, State.Deadlines;
    TickedTasks(s);
    DeadlinesKnown(s);
    if !s.yieldPending {
      TickAsksExactly(s);
      RivalsOutrank(Ticked(s));
    }
  }

  lemma RivalsOutrank(s: State)
    ensures Outranked(s) ==> HasRival(s)
  {
  }

  lemma {:induction false} ReplaysSettles(s: State, n: nat, t: State)
    requires Replays(s, n, t) && RunningIsReady(s) && Settled(s)
    ensures Settled(t) && RunningIsReady(t)
    decreases n
  {
    hide State.Consistent, Settled, RunningIsReady, TickReplayed;
    if n > 0 {
      TickReplayedSettles(s);
      ReplaysSettles(TickReplayed(s), n - 1, t);
    }
  }

  /** Resuming the scheduler: whoever becomes ready and outranks the running task leaves a switch asked for. */
  lemma ResumesSettles(s: State, moved: State, replayed: State, t: State)
    requires s.Consistent(s.tickCount + 1) && s.suspended == 1 && Resumes(s, moved, replayed, t)
    requires RunningIsReady(s) && Settled(s)
    ensures Settled(t) && RunningIsReady(t)
  {
    hide State.Consistent, Empties, Replays, OutrankedIn;
    SuspendedKeeps(s, 0);
    EmptiesSettles(s.(suspended := 0), |s.eventItems.Items(PendingReady)|, moved);
    PendingMovedAll(s.(suspended := 0), moved);
    ReplaysSettles(if s.eventItems.Items(PendingReady) == [] then moved else Rearmed(moved), s.pendedTicks, replayed);
  }

  /** Nobody outranks the task that is chosen. */
  lemma SelectedSettles(s: State)
    requires s.Consistent(s.tickCount + 1) && SomeReady(s)
    ensures Settled(Selected(s)) && RunningIsReady(Selected(s)) && OnTurn(Selected(s))
  {
    hide State.Consistent, Selected, OnTurn;
    SelectedIsHighest(s);
    SelectedIsOnTurn(s);
    SelectedLists(s);
  }

  /** Fewer ready tasks outrank nobody more. */
  lemma FewerSettle(s: State, t: State)
    requires Settled(s) && t.priority == s.priority && t.current == s.current && t.yieldPending == s.yieldPending
    requires forall y <- t.stateItems.container :: t.stateItems.container[y].Ready? ==>
               y in s.stateItems.container && s.stateItems.container[y].Ready?
    ensures Settled(t)
  {
  }

  // ---------------------------------------------------------------------------------------------
  // Those who have become pending get their turns in that order

  /** One after the other at the end */
  function JoinAll(r: Ring<Task>, xs: seq<Task>): (r': Ring<Task>)
    requires r.Valid()
    ensures r'.Valid()
    decreases |xs|
  {
    if xs == [] then r else JoinAll(ListSpec.InsertEnd(r, xs[0]), xs[1..])
  }

  function OfPriority(xs: seq<Task>, priority: map<Task, nat>, p: nat): seq<Task>
    decreases |xs|
  {
    if xs == [] then []
    else (if xs[0] in priority && priority[xs[0]] == p then [xs[0]] else []) + OfPriority(xs[1..], priority, p)
  }

  lemma JoinFirst(r: Ring<Task>, xs: seq<Task>, priority: map<Task, nat>, p: nat)
    requires r.Valid() && xs != [] && xs[0] in priority
    ensures JoinAll(r, OfPriority(xs, priority, p))
            == JoinAll(if priority[xs[0]] == p then ListSpec.InsertEnd(r, xs[0]) else r, OfPriority(xs[1..], priority, p))
  {
    hide ListSpec.InsertEnd;
    var rest := OfPriority(xs[1..], priority, p);
    assert OfPriority(xs, priority, p) == if priority[xs[0]] == p then [xs[0]] + rest else rest;
    assert ([xs[0]] + rest)[1..] == rest;
  }

  lemma JoinNone(r: Ring<Task>, xs: seq<Task>, priority: map<Task, nat>, p: nat)
    requires r.Valid() && xs == []
    ensures JoinAll(r, OfPriority(xs, priority, p)) == r
  {
  }

  lemma ReadiedRings(s: State, x: Task, p: nat)
    requires s.ListsOk() && x in s.stateItems.container && !s.stateItems.container[x].Ready?
    requires x in s.priority && s.priority[x] < MAX_PRIORITIES && p < MAX_PRIORITIES
    ensures var k := Ready(p); var r := s.stateItems.lists[k]; var t := Readied(s, x);
            && r.Valid() && k in t.stateItems.lists && t.priority == s.priority
            && t.stateItems.lists[k] == if s.priority[x] == p then ListSpec.InsertEnd(r, x) else r
  {
    hide Table.Valid, Table.Remove, ListSpec.InsertEnd, ListSpec.Remove;
    RingIsValid(s.stateItems, Ready(p));
  }

  /** After the pending tasks have been moved, those of one priority stand in its ready list in the order they had. */
  lemma {:induction false} PendingKeepTurns(s: State, n: nat, t: State, p: nat)
    requires s.Consistent(s.tickCount + 1) && PendingReady in s.eventItems.lists && p < MAX_PRIORITIES
    requires n == |s.eventItems.Items(PendingReady)| && Empties(s, n, t)
    ensures Ready(p) in s.stateItems.lists && Ready(p) in t.stateItems.lists && s.stateItems.lists[Ready(p)].Valid()
    ensures t.stateItems.lists[Ready(p)]
            == JoinAll(s.stateItems.lists[Ready(p)], OfPriority(s.eventItems.Items(PendingReady), s.priority, p))
    decreases n
  {
    hide State.Consistent, PendingMoved, SomePending, ListSpec.InsertEnd, JoinAll, OfPriority;
    ReadyRing(s, p);
    if n > 0 {
      PendingMovedAsks(s);
      PendingMovedRings(s, p);
      PendingKeepTurns(PendingMoved(s), n - 1, t, p);
      JoinFirst(s.stateItems.lists[Ready(p)], s.eventItems.Items(PendingReady), s.priority, p);
    } else {
      JoinNone(s.stateItems.lists[Ready(p)], s.eventItems.Items(PendingReady), s.priority, p);
    }
  }

  lemma ReadyRing(s: State, p: nat)
    requires s.Consistent(s.tickCount + 1) && p < MAX_PRIORITIES
    ensures Ready(p) in s.stateItems.lists && s.stateItems.lists[Ready(p)].Valid()
  {
    hide DelaysOk, EventsOk, ReadyOk, State.CountsOk;
  }

  lemma PendingMovedRings(s: State, p: nat)
    requires s.Consistent(s.tickCount + 1) && s.eventItems.Items(PendingReady) != [] && p < MAX_PRIORITIES
    ensures SomePending(s)
    ensures var x, k := s.eventItems.Items(PendingReady)[0], Ready(p); var t := PendingMoved(s);
            && k in s.stateItems.lists && s.stateItems.lists[k].Valid() && k in t.stateItems.lists
            && t.stateItems.lists[k]
               == if s.priority[x] == p then ListSpec.InsertEnd(s.stateItems.lists[k], x) else s.stateItems.lists[k]
  {
    hide State.Consistent, Readied, Moved, ListSpec.InsertEnd;
    PendingHead(s);
    PendingRound(s);
    KernelLists(s);
    ReadiedRings(s, s.eventItems.Items(PendingReady)[0], p);
  }

  /**
   Moving the pending tasks asks for a switch exactly if one was asked for, or one of them is as
   urgent as the running task.
   */
  lemma {:induction false} PendingAskExactly(s: State, n: nat, t: State)
    requires s.Consistent(s.tickCount + 1) && PendingReady in s.eventItems.lists
    requires n == |s.eventItems.Items(PendingReady)| && Empties(s, n, t)
    ensures s.current in s.priority
    ensures t.yieldPending <==> s.yieldPending || SomeAsUrgent(s.eventItems.Items(PendingReady), s.priority, s.current)
    decreases n
  {
    hide State.Consistent, PendingMoved, SomePending, SomeAsUrgent;
    CurrentFacts(s, s.tickCount + 1);
    OneOrMore(s.eventItems.Items(PendingReady), s.priority, s.current);
    if n > 0 {
      PendingMovedAsks(s);
      PendingAskExactly(PendingMoved(s), n - 1, t);
    }
  }

  lemma PendingMovedAsks(s: State)
    requires s.Consistent(s.tickCount + 1) && s.eventItems.Items(PendingReady) != []
    ensures SomePending(s)
    ensures var t, x := PendingMoved(s), s.eventItems.Items(PendingReady)[0];
            && t.Consistent(t.tickCount + 1) && PendingReady in t.eventItems.lists
            && t.eventItems.Items(PendingReady) == s.eventItems.Items(PendingReady)[1..]
            && t.priority == s.priority && t.current == s.current && x in s.priority && s.current in s.priority
            && (t.yieldPending <==> s.yieldPending || s.priority[x] >= s.priority[s.current])
  {
    hide State.Consistent, Readied, Moved;
    PendingHead(s);
    PendingRound(s);
    KernelLists(s);
    ReadiedTasks(s, s.eventItems.Items(PendingReady)[0]);
  }

  ghost predicate SomeAsUrgent(xs: seq<Task>, priority: map<Task, nat>, current: Task)
    requires current in priority
  {
    exists x <- xs :: x in priority && priority[x] >= priority[current]
  }

  lemma OneOrMore(xs: seq<Task>, priority: map<Task, nat>, current: Task)
    requires current in priority
    ensures if xs == [] then !SomeAsUrgent(xs, priority, current)
            else SomeAsUrgent(xs, priority, current) <==>
                   (xs[0] in priority && priority[xs[0]] >= priority[current]) || SomeAsUrgent(xs[1..], priority, current)
  {
    if xs != [] {
      assert xs == [xs[0]] + xs[1..];
    }
  }

  // ---------------------------------------------------------------------------------------------
  // The next time to look at the delayed list

  /** `xNextTaskUnblockTime` is the earliest wake time of the current delayed list, or the maximum if it is empty. */
  ghost predicate Armed(s: State)
    requires HasStateLists(s.stateItems.lists)
  {
    Earliest(s.stateItems.Items(s.DelayedList()), s.itemValue, s.nextUnblockTime)
  }

  ghost predicate Earliest(items: seq<Task>, value: map<Task, nat>, next: nat) {
    && (forall x <- items :: x in value && next <= value[x])
    && (if items == [] then next == MAX_DELAY else exists x <- items :: value[x] == next)
  }

  lemma EarliestWith(items: seq<Task>, after: seq<Task>, value: map<Task, nat>, next: nat, x: Task, wake: nat)
    requires Earliest(items, value, next) && x !in items && wake <= MAX_DELAY
    requires forall y :: y in after <==> y == x || y in items
    ensures Earliest(after, value[x := wake], if next <= wake then next else wake)
  {
    assert x in after;
    if items != [] {
      var y :| y in items && value[y] == next;
      assert y in after;
    }
  }

  lemma EarliestWithout(items: seq<Task>, value: map<Task, nat>, next: nat, x: Task, wake: nat)
    requires Earliest(items, value, next) && x !in items
    ensures Earliest(items, value[x := wake], next)
  {
    if items != [] {
      var y :| y in items && value[y] == next;
    }
  }

  lemma RearmedIsArmed(s: State, low: nat)
    requires HasStateLists(s.stateItems.lists) && s.(nextUnblockTime := 0).TimeOk(low)
    ensures forall x <- s.stateItems.Items(s.DelayedList()) :: x in s.itemValue
    ensures Armed(Rearmed(s))
  {
    var items := s.stateItems.Items(s.DelayedList());
    NextWakeIsLeast(items, s.itemValue);
    assert items != [] ==> items[0] in items;
  }

  lemma UnarmedTime(s: State, low: nat)
    requires HasStateLists(s.stateItems.lists) && s.TimeOk(low)
    ensures s.(nextUnblockTime := 0).TimeOk(low)
  {
  }

  /** A delay keeps it so, */
  lemma DelayedIsArmed(s: State, d: nat)
    requires s.Consistent(s.tickCount + 1) && RunningIsReady(s) && 0 < d < WRAP && Armed(s)
    ensures SortedBy(s.stateItems.Items(DelayedOne), s.itemValue)
    ensures SortedBy(s.stateItems.Items(DelayedTwo), s.itemValue)
    ensures HasStateLists(Delayed(s, d).stateItems.lists) && Armed(Delayed(s, d))
  {
    hide Table.Valid, DelaysOk, ReadyOk, EventsOk, State.CountsOk, InsertPos, InsertSorted, ListSpec.Remove, SortedBy,
         Earliest, Table.MoveSorted;
    DelayedTime(s, d);
    DelayBasics(s, s.tickCount + 1);
    WakeTime(s.tickCount, d);
    var wake, x := (s.tickCount + d) % WRAP, s.current;
    var k := s.DelayedList();
    NotDelayedItem(s, k);
    EarliestWithout(s.stateItems.Items(k), s.itemValue, s.nextUnblockTime, x, wake);
    if ListFor(s, d) == k {
      SortedMembers(s.stateItems.lists[k], InsertPos(ValuesOf(s.stateItems.Items(k), s.itemValue[x := wake]), wake), x);
      EarliestWith(s.stateItems.Items(k), Delayed(s, d).stateItems.Items(k), s.itemValue, s.nextUnblockTime, x, wake);
    }
  }

  lemma NotDelayedItem(s: State, k: StateList)
    requires s.ListsOk() && RunningIsReady(s) && k in s.stateItems.lists && IsDelayed(k)
    ensures s.current !in s.stateItems.Items(k) && s.stateItems.lists[k].Valid()
  {
  }

  lemma SortedMembers(r: Ring<Task>, p: nat, x: Task)
    requires r.Valid() && p <= |r.items|
    ensures forall y :: y in InsertSorted(r, p, x).items <==> y == x || y in r.items
  {
    InsertMembers(r.items, p, x);
  }

  /** and so does the tick. */
  lemma TickedIsArmed(s: State)
    requires s.Consistent(s.tickCount + 1) && Armed(s)
    ensures HasStateLists(Ticked(s).stateItems.lists) && Armed(Ticked(s))
  {
    hide Table.Valid, DelaysOk, ReadyOk, EventsOk, State.CountsOk, Drain, NextWake;
    TickStartKeeps(s);
    var t := TickStart(s);
    if s.tickCount + 1 == WRAP {
      AdvancedKeeps(s);
      RearmedIsArmed(Advanced(s), Advanced(s).tickCount);
    }
    if t.tickCount >= t.nextUnblockTime {
      DrainIsFullScan(t);
      UnarmedTime(Drain(t), Drain(t).tickCount);
      RearmedIsArmed(Drain(t), Drain(t).tickCount);
    }
  }

  // ---------------------------------------------------------------------------------------------
  // Suspension and waiting without a timeout

  /** Both put a task into the suspended list, and only a suspended one counts as such and can be resumed. */
  lemma SuspensionIsTold(s: State, x: Task, e: nat)
    requires s.Consistent(s.tickCount + 1) && x in s.stateItems.container && s.stateItems.container[x] != Termination
    requires RunningIsReady(s) && WaitingOn(e) in s.eventItems.lists
    ensures IsSuspended(SuspendedTask(s, x), x)
    ensures var t := BlockedOn(s, e, MAX_DELAY);
            && s.current in t.stateItems.container && t.stateItems.container[s.current] == Suspended
            && !IsSuspended(t, s.current)
  {
    hide State.Consistent, SuspendedTask, Delayed, Table.Valid, Table.Insert, Parked;
    SuspendedTaskKeeps(s, x);
    BlockedOnKeeps(s, e, MAX_DELAY);
    ParkedKeeps(s);
  }
}
