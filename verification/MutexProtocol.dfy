/**
 Priority inheritance as a protocol: tasks take, wait for, time out on and give back mutexes
 (lib/freertos/queue.c, xQueueSemaphoreTake and prvCopyDataToQueue), with the priority changes of
 lib/freertos/tasks.c that class Kernel carries out.

 Every step is what happens while one task keeps the scheduler to itself; ticks may take a waiter off
 the waiting list at any time.  Tasks hold at most one mutex, and do not wait on an object with it.
 */
module MutexProtocol {
  import opened Options
  import opened ListSpec
  import opened ItemTable
  import opened Scheduler
  import opened SchedulerTasks
  import SchedulerRuns
  import SchedulerTurns

  type Mutex = nat

  datatype Status =
    | Running                                // runs, or could
    | Asleep                                 // delayed, on no object
    | Waiting(mutex: Mutex, inherited: bool) // in xTasksWaitingToReceive
    | Retrying(mutex: Mutex, inherited: bool, expired: bool) // off the list, back in the loop of xQueueSemaphoreTake
    | Leaving(mutex: Mutex)                  // has found the mutex still taken, is about to disinherit

  ghost function HeldBy(holder: map<Mutex, Option<Task>>, t: Task): set<Mutex> {
    set m | m in holder && holder[m] == Some(t)
  }

  datatype Protocol = Protocol(
    status: map<Task, Status>,
    priority: map<Task, nat>,
    basePriority: map<Task, nat>,
    mutexesHeld: map<Task, nat>,
    eventValue: map<Task, nat>,
    holder: map<Mutex, Option<Task>>,
    waiters: map<Mutex, seq<Task>>
  ) {
    ghost predicate Known() {
      && priority.Keys == basePriority.Keys == mutexesHeld.Keys == eventValue.Keys == status.Keys
      && holder.Keys == waiters.Keys
      && (forall t <- status :: priority[t] < MAX_PRIORITIES && basePriority[t] < MAX_PRIORITIES)
      && (forall t <- status :: eventValue[t] == MAX_PRIORITIES - priority[t])
      && (forall m <- holder :: holder[m].Some? ==> holder[m].value in status)
    }

    predicate Runnable(t: Task) {
      t in status && !status[t].Asleep? && !status[t].Waiting?
    }

    /** The scheduler runs a ready task that no other ready task outranks. */
    ghost predicate Runs(r: Task)
      requires Known()
    {
      Runnable(r) && forall t <- status :: Runnable(t) ==> priority[t] <= priority[r]
    }

    ghost function MutexesOf(t: Task): set<Mutex> {
      HeldBy(holder, t)
    }

    /** `uxMutexesHeld` counts the mutexes that name the task, and is at most one. */
    ghost predicate CountsOk()
      requires Known()
    {
      && (forall t <- status :: mutexesHeld[t] == |MutexesOf(t)| <= 1)
      && (forall t <- status :: status[t].Waiting? || status[t].Retrying? || status[t].Leaving? ==>
            mutexesHeld[t] == 0)
    }

    /** Nobody runs below its base priority, and only a holder runs above it. */
    ghost predicate BasesOk()
      requires Known()
    {
      forall t <- status :: basePriority[t] <= priority[t] && (mutexesHeld[t] == 0 ==> priority[t] == basePriority[t])
    }

    /** `x` is somewhere in the taking of `m`. */
    ghost predicate Concerns(x: Task, m: Mutex) {
      x in status && match status[x]
                     case Waiting(n, _) => n == m
                     case Retrying(n, _, _) => n == m
                     case Leaving(n) => n == m
                     case _ => false
    }

    /** The waiting list of a mutex holds its waiters, most urgent first. */
    ghost predicate WaitersAt(m: Mutex)
      requires Known() && m in waiters
    {
      && NoDup(waiters[m])
      && (forall w :: w in waiters[m] <==> w in status && status[w].Waiting? && status[w].mutex == m)
      && (forall i, j :: 0 <= i < j < |waiters[m]| ==> priority[waiters[m][i]] >= priority[waiters[m][j]])
    }

    /** The holder is at least as urgent as every waiter, if need be by inheritance. */
    ghost predicate InheritedAt(m: Mutex)
      requires Known() && m in waiters && WaitersAt(m)
    {
      holder[m].Some? ==> forall w <- waiters[m] ::
        && priority[w] <= priority[holder[m].value]
        && (!status[w].inherited ==> priority[w] <= basePriority[holder[m].value])
    }

    /** `x` still accounts for a priority that the holder of `m` has inherited. */
    ghost predicate Supports(x: Task, m: Mutex) {
      Concerns(x, m) && (status[x].Retrying? ==> status[x].inherited)
    }

    /** The holder runs above its base priority only on account of someone. */
    ghost predicate SupportedAt(m: Mutex)
      requires Known() && m in waiters
    {
      holder[m].Some? && priority[holder[m].value] != basePriority[holder[m].value] ==>
        exists x <- status :: Supports(x, m) && priority[x] >= priority[holder[m].value]
    }

    ghost predicate RetriesFor(x: Task, m: Mutex) {
      Concerns(x, m) && status[x].Retrying?
    }

    /** While the mutex is free but waited for, someone as urgent as all waiters is about to try. */
    ghost predicate HandoverAt(m: Mutex)
      requires Known() && m in waiters && WaitersAt(m)
    {
      holder[m].None? && waiters[m] != [] ==>
        exists x <- status :: RetriesFor(x, m) && priority[x] >= priority[waiters[m][0]]
    }

    ghost predicate MutexOk(m: Mutex)
      requires Known() && m in waiters
    {
      WaitersAt(m) && InheritedAt(m) && SupportedAt(m) && HandoverAt(m)
    }

    ghost predicate Valid() {
      && Known() && CountsOk() && BasesOk()
      && (forall w <- status :: status[w].Waiting? ==> status[w].mutex in waiters)
      && (forall m <- waiters :: MutexOk(m))
    }
  }

  // ---------------------------------------------------------------------------------------------
  // The steps

  /** May try for `m`: is not in the middle of trying for another, and holds nothing. */
  predicate MayTry(s: Protocol, r: Task, m: Mutex) {
    && r in s.status && r in s.mutexesHeld && s.mutexesHeld[r] == 0
    && (s.status[r] == Running || (s.status[r].Retrying? && s.status[r].mutex == m))
  }

  /** The first critical section of xQueueSemaphoreTake with the mutex free. */
  ghost predicate Take(s: Protocol, r: Task, m: Mutex, t: Protocol)
    requires s.Known()
  {
    && s.Runs(r) && MayTry(s, r, m) && m in s.holder && s.holder[m].None?
    && t == s.(holder := s.holder[m := Some(r)],
               mutexesHeld := s.mutexesHeld[r := s.mutexesHeld[r] + 1],
               status := s.status[r := Running])
  }

  /** The block time has run out. */
  predicate Expired(s: Protocol, r: Task) {
    r in s.status && s.status[r].Retrying? && s.status[r].expired
  }

  /** The mutex is taken: lend the holder the waiter's priority and queue up. */
  ghost predicate Block(s: Protocol, r: Task, m: Mutex, t: Protocol)
    requires s.Known()
  {
    && s.Runs(r) && MayTry(s, r, m) && !Expired(s, r) && m in s.holder && s.holder[m].Some?
    && (forall w <- s.waiters[m] :: w in s.eventValue)
    && var h := s.holder[m].value;
       var raised := s.priority[h] < s.priority[r];
       t == s.(priority := if raised then s.priority[h := s.priority[r]] else s.priority,
               eventValue := if raised then s.eventValue[h := MAX_PRIORITIES - s.priority[r]] else s.eventValue,
               waiters := s.waiters[m := InsertAt(s.waiters[m],
                            InsertPos(ValuesOf(s.waiters[m], s.eventValue), s.eventValue[r]), r)],
               status := s.status[r := Waiting(m, raised || s.basePriority[h] < s.priority[r])])
  }

  /** Giving the mutex back: disinherit, free it, and wake the most urgent waiter. */
  ghost predicate Give(s: Protocol, r: Task, m: Mutex, t: Protocol)
    requires s.Known()
  {
    && s.Runs(r) && s.status[r] == Running && m in s.holder && s.holder[m] == Some(r) && s.mutexesHeld[r] > 0
    && var lowered := s.priority[r] != s.basePriority[r] && s.mutexesHeld[r] == 1;
       var u := s.(mutexesHeld := s.mutexesHeld[r := s.mutexesHeld[r] - 1],
                   priority := if lowered then s.priority[r := s.basePriority[r]] else s.priority,
                   eventValue := if lowered then s.eventValue[r := MAX_PRIORITIES - s.basePriority[r]]
                                 else s.eventValue,
                   holder := s.holder[m := None]);
       t == if s.waiters[m] == [] then u else Unqueued(u, m, s.waiters[m][0])
  }

  /** A waiter leaves the waiting list, woken or timed out, and will look at the mutex again. */
  ghost function Unqueued(s: Protocol, m: Mutex, w: Task): Protocol {
    s.(waiters := if m in s.waiters && w in s.waiters[m]
                  then s.waiters[m := RemoveAt(s.waiters[m], IndexOf(s.waiters[m], w))] else s.waiters,
       status := if w in s.status && s.status[w].Waiting?
                 then s.status[w := Retrying(m, s.status[w].inherited, false)] else s.status)
  }

  /** The tick takes a waiter off the list. */
  ghost predicate TimeOut(s: Protocol, w: Task, t: Protocol) {
    w in s.status && s.status[w].Waiting? && t == Unqueued(s, s.status[w].mutex, w)
  }

  /** After the timeout the mutex is found still taken: give up. */
  ghost predicate GiveUp(s: Protocol, r: Task, t: Protocol)
    requires s.Known()
  {
    && s.Runs(r) && s.status[r].Retrying? && !Expired(s, r)
    && s.status[r].mutex in s.holder && s.holder[s.status[r].mutex].Some?
    && t == s.(status := s.status[r := if s.status[r].inherited then Leaving(s.status[r].mutex) else Running])
  }

  /** After the timeout it is found free: try once more. */
  ghost predicate GoRound(s: Protocol, r: Task, t: Protocol)
    requires s.Known()
  {
    && s.Runs(r) && s.status[r].Retrying? && !Expired(s, r)
    && s.status[r].mutex in s.holder && s.holder[s.status[r].mutex].None?
    && t == s.(status := s.status[r := s.status[r].(expired := true)])
  }

  /** Somebody else has taken it before that: return without. */
  ghost predicate Fail(s: Protocol, r: Task, t: Protocol)
    requires s.Known()
  {
    && s.Runs(r) && Expired(s, r) && !s.status[r].inherited
    && s.status[r].mutex in s.holder && s.holder[s.status[r].mutex].Some?
    && t == s.(status := s.status[r := Running])
  }

  /** The same if priority has been inherited: `configASSERT( xInheritanceOccurred == pdFALSE )` stops the firmware. */
  ghost predicate Stops(s: Protocol, r: Task)
    requires s.Known()
  {
    && s.Runs(r) && Expired(s, r) && s.status[r].inherited
    && s.status[r].mutex in s.holder && s.holder[s.status[r].mutex].Some?
  }

  /** `prvGetDisinheritPriorityAfterTimeout` */
  function HighestWaiting(s: Protocol, m: Mutex): nat
    requires m in s.waiters && forall w <- s.waiters[m] :: w in s.eventValue && s.eventValue[w] <= MAX_PRIORITIES
  {
    if s.waiters[m] == [] then 0
    else
      assert s.waiters[m][0] in s.waiters[m];
      MAX_PRIORITIES - s.eventValue[s.waiters[m][0]]
  }

  /** The holder falls back to what its base priority and the remaining waiters demand. */
  ghost predicate Leave(s: Protocol, r: Task, t: Protocol)
    requires s.Known()
  {
    && s.Runs(r) && s.status[r].Leaving? && s.status[r].mutex in s.holder
    && var m := s.status[r].mutex;
    && (forall w <- s.waiters[m] :: w in s.status)
    && var u := s.(status := s.status[r := Running]);
       t == match s.holder[m]
            case None => u
            case Some(h) =>
              var p := DisinheritTarget(s.basePriority[h], HighestWaiting(s, m));
              if s.priority[h] != p && s.mutexesHeld[h] == 1
              then u.(priority := s.priority[h := p], eventValue := s.eventValue[h := MAX_PRIORITIES - p])
              else u
  }

  /** A delay, which a task may also spend with a mutex in hand. */
  ghost predicate Sleep(s: Protocol, r: Task, t: Protocol)
    requires s.Known()
  {
    s.Runs(r) && s.status[r] == Running && t == s.(status := s.status[r := Asleep])
  }

  ghost predicate WakeUp(s: Protocol, w: Task, t: Protocol) {
    w in s.status && s.status[w] == Asleep && t == s.(status := s.status[w := Running])
  }

  /** A new task, which has taken no mutex so far. */
  ghost predicate Join(s: Protocol, x: Task, p: nat, t: Protocol) {
    && x !in s.status && p < MAX_PRIORITIES
    && t == s.(status := s.status[x := Running], priority := s.priority[x := p], basePriority := s.basePriority[x := p],
               mutexesHeld := s.mutexesHeld[x := 0], eventValue := s.eventValue[x := MAX_PRIORITIES - p])
  }

  // ---------------------------------------------------------------------------------------------
  // The invariant is kept

  lemma OneMutex(s: Protocol, t: Task, m: Mutex, n: Mutex)
    requires s.Known() && s.CountsOk() && t in s.status
    requires m in s.MutexesOf(t) && n in s.MutexesOf(t)
    ensures m == n
  {
    SubsetCount({m, n}, s.MutexesOf(t));
  }

  lemma SubsetCount(a: set<Mutex>, b: set<Mutex>)
    requires a <= b
    ensures |a| <= |b|
  {
    if a != {} {
      var x :| x in a;
      SubsetCount(a - {x}, b - {x});
    }
  }

  /** Nothing that matters to mutex `n` differs between `s` and `t`. */
  ghost predicate SameAt(s: Protocol, t: Protocol, n: Mutex)
    requires s.Known() && t.Known() && n in s.waiters
  {
    && s.status.Keys <= t.status.Keys
    && n in t.waiters && t.waiters[n] == s.waiters[n] && t.holder[n] == s.holder[n]
    && (s.holder[n].Some? ==>
          && t.priority[s.holder[n].value] == s.priority[s.holder[n].value]
          && t.basePriority[s.holder[n].value] == s.basePriority[s.holder[n].value])
    && (forall x <- s.status :: s.Concerns(x, n) ==>
          t.status[x] == s.status[x] && t.priority[x] == s.priority[x])
    && (forall x <- t.status :: t.Concerns(x, n) ==> s.Concerns(x, n))
  }

  lemma SameAtKeeps(s: Protocol, t: Protocol, n: Mutex)
    requires s.Known() && t.Known() && n in s.waiters && s.MutexOk(n) && SameAt(s, t, n)
    ensures t.MutexOk(n)
  {
    hide NoDup, SameAt, Protocol.WaitersAt, Protocol.InheritedAt, Protocol.SupportedAt, Protocol.HandoverAt;
    SameWaiters(s, t, n);
    SameInherited(s, t, n);
    SameSupported(s, t, n);
    SameHandover(s, t, n);
  }

  lemma SameInherited(s: Protocol, t: Protocol, n: Mutex)
    requires s.Known() && t.Known() && n in s.waiters && s.WaitersAt(n) && SameAt(s, t, n) && s.InheritedAt(n)
    requires t.WaitersAt(n)
    ensures t.InheritedAt(n)
  {
    hide NoDup, Protocol.WaitersAt;
    SameWaiters(s, t, n);
  }

  lemma SameSupported(s: Protocol, t: Protocol, n: Mutex)
    requires s.Known() && t.Known() && n in s.waiters && SameAt(s, t, n) && s.SupportedAt(n)
    ensures t.SupportedAt(n)
  {
    if s.holder[n].Some? && s.priority[s.holder[n].value] != s.basePriority[s.holder[n].value] {
      var x :| x in s.status && s.Supports(x, n) && s.priority[x] >= s.priority[s.holder[n].value];
      assert t.Supports(x, n);
    }
  }

  lemma SameHandover(s: Protocol, t: Protocol, n: Mutex)
    requires s.Known() && t.Known() && n in s.waiters && s.WaitersAt(n) && SameAt(s, t, n) && s.HandoverAt(n)
    requires t.WaitersAt(n)
    ensures t.HandoverAt(n)
  {
    hide NoDup, Protocol.WaitersAt;
    SameWaiters(s, t, n);
    if s.holder[n].None? && s.waiters[n] != [] {
      assert s.waiters[n][0] in s.waiters[n];
      var x :| x in s.status && s.RetriesFor(x, n) && s.priority[x] >= s.priority[s.waiters[n][0]];
      assert t.RetriesFor(x, n);
    }
  }

  lemma SameWaiters(s: Protocol, t: Protocol, n: Mutex)
    requires s.Known() && t.Known() && n in s.waiters && s.WaitersAt(n) && SameAt(s, t, n)
    ensures t.WaitersAt(n)
    ensures forall w <- s.waiters[n] :: w in s.status && s.status[w] == t.status[w] && s.priority[w] == t.priority[w]
  {
    forall w <- s.waiters[n] ensures s.Concerns(w, n) {
    }
  }

  /** A step that touches one mutex only has to be looked at there. */
  lemma OneMutexChanged(s: Protocol, t: Protocol, m: Mutex)
    requires s.Valid() && t.Known() && t.CountsOk() && t.BasesOk()
    requires t.waiters.Keys == s.waiters.Keys && m in s.waiters
    requires forall w <- t.status :: t.status[w].Waiting? ==> t.status[w].mutex in t.waiters
    requires forall n <- s.waiters :: n != m ==> SameAt(s, t, n)
    requires t.MutexOk(m)
    ensures t.Valid()
  {
    hide SameAt, Protocol.MutexOk, Protocol.CountsOk, Protocol.BasesOk;
    forall n <- t.waiters ensures t.MutexOk(n) {
      if n != m {
        SameAtKeeps(s, t, n);
      }
    }
  }

  lemma TakeCounts(s: Protocol, r: Task, m: Mutex, t: Protocol)
    requires s.Valid() && Take(s, r, m, t)
    ensures t.Known() && t.CountsOk() && t.BasesOk()
  {
    hide Protocol.MutexOk, Protocol.CountsOk, Protocol.BasesOk, Protocol.Runs, Protocol.Runnable;
    TakeKnown(s, r, m, t);
    HeldByTaker(s, r, m, t);
    BasesFrame(s, t, r);
  }

  lemma TakeKnown(s: Protocol, r: Task, m: Mutex, t: Protocol)
    requires s.Known() && Take(s, r, m, t)
    ensures t.Known()
  {
    hide Protocol.Runs, Protocol.Runnable;
  }

  lemma HeldByTaker(s: Protocol, r: Task, m: Mutex, t: Protocol)
    requires s.Known() && t.Known() && s.CountsOk() && Take(s, r, m, t)
    ensures t.CountsOk()
  {
    hide HeldBy, Protocol.Runs, Protocol.Runnable;
    forall x <- t.status ensures t.mutexesHeld[x] == |t.MutexesOf(x)| <= 1 {
      HeldAfter(s.holder, m, r, x);
      NoneHeld(s, r);
      assert t.mutexesHeld[x] == if x == r then 1 else s.mutexesHeld[x];
    }
  }

  lemma HeldAfter(holder: map<Mutex, Option<Task>>, m: Mutex, r: Task, x: Task)
    requires m in holder && holder[m].None?
    ensures HeldBy(holder[m := Some(r)], x) == HeldBy(holder, x) + if x == r then {m} else {}
  {
  }

  /** Only `r` may hold more, and only when it stands at its base priority or counts a mutex. */
  lemma BasesFrame(s: Protocol, t: Protocol, r: Task)
    requires s.Known() && t.Known() && s.BasesOk() && s.status.Keys == t.status.Keys
    requires s.basePriority == t.basePriority && s.priority == t.priority
    requires forall x <- s.status :: x != r ==> s.mutexesHeld[x] == t.mutexesHeld[x]
    requires r in t.status ==> t.mutexesHeld[r] > 0 || t.mutexesHeld[r] == s.mutexesHeld[r]
    ensures t.BasesOk()
  {
  }

  lemma NoneHeld(s: Protocol, r: Task)
    requires s.Known() && s.CountsOk() && r in s.status && s.mutexesHeld[r] == 0
    ensures s.MutexesOf(r) == {}
  {
    hide HeldBy;
    assert |s.MutexesOf(r)| == 0;
  }

  lemma TakeKeeps(s: Protocol, r: Task, m: Mutex, t: Protocol)
    requires s.Valid() && Take(s, r, m, t)
    ensures t.Valid()
  {
    hide Protocol.MutexOk, Protocol.CountsOk, Protocol.BasesOk, SameAt;
    TakeCounts(s, r, m, t);
    TakeAt(s, r, m, t);
    forall n <- s.waiters | n != m ensures SameAt(s, t, n) {
      TakeElsewhere(s, r, m, t, n);
    }
    OneMutexChanged(s, t, m);
  }

  lemma TakeElsewhere(s: Protocol, r: Task, m: Mutex, t: Protocol, n: Mutex)
    requires s.Known() && t.Known() && Take(s, r, m, t) && n in s.waiters && n != m
    ensures SameAt(s, t, n)
  {
  }

  /** Whoever takes a free mutex is at least as urgent as all who wait for it. */
  lemma TakeAt(s: Protocol, r: Task, m: Mutex, t: Protocol)
    requires s.Valid() && t.Known() && Take(s, r, m, t)
    ensures t.MutexOk(m)
  {
    hide NoDup, Protocol.WaitersAt, Protocol.InheritedAt, Protocol.SupportedAt, Protocol.HandoverAt, Protocol.CountsOk;
    assert s.MutexOk(m);
    TakerOutranks(s, r, m);
    TakeWaiters(s, r, m, t);
    TakeRest(s, r, m, t);
  }

  lemma TakeWaiters(s: Protocol, r: Task, m: Mutex, t: Protocol)
    requires s.Known() && t.Known() && Take(s, r, m, t) && s.WaitersAt(m)
    ensures t.WaitersAt(m)
  {
    hide Protocol.Runs, Protocol.Runnable, Protocol.WaitersAt;
    forall w <- s.waiters[m] ensures w in s.status && t.priority[w] == s.priority[w] {
      QueuedIsWaiting(s, m, w);
    }
    WaitersFrame(s, t, m);
  }

  lemma TakeRest(s: Protocol, r: Task, m: Mutex, t: Protocol)
    requires s.Known() && t.Known() && Take(s, r, m, t) && s.BasesOk() && t.WaitersAt(m)
    requires forall w <- s.waiters[m] :: w in s.status && s.priority[w] <= s.priority[r]
    ensures t.InheritedAt(m) && t.SupportedAt(m) && t.HandoverAt(m)
  {
    hide NoDup, Protocol.Runs, Protocol.Runnable;
  }

  lemma TakerOutranks(s: Protocol, r: Task, m: Mutex)
    requires s.Known() && s.Runs(r) && m in s.holder && s.holder[m].None? && s.WaitersAt(m) && s.HandoverAt(m)
    ensures forall w <- s.waiters[m] :: w in s.status && s.priority[w] <= s.priority[r]
  {
    if s.waiters[m] != [] {
      var x :| x in s.status && s.RetriesFor(x, m) && s.priority[x] >= s.priority[s.waiters[m][0]];
      assert s.Runnable(x);
      HeadIsTop(s, m);
    }
  }

  lemma HeadIsTop(s: Protocol, m: Mutex)
    requires s.Known() && m in s.waiters && s.WaitersAt(m) && s.waiters[m] != []
    ensures forall w <- s.waiters[m] :: w in s.status && s.priority[w] <= s.priority[s.waiters[m][0]]
  {
    forall w <- s.waiters[m] ensures w in s.status && s.priority[w] <= s.priority[s.waiters[m][0]] {
      var i :| 0 <= i < |s.waiters[m]| && s.waiters[m][i] == w;
    }
  }

  // Blocking

  /** The holder of a mutex counts it, so it is nowhere in the taking of any. */
  lemma HolderConcernsNone(s: Protocol, m: Mutex)
    requires s.Known() && s.CountsOk() && m in s.holder && s.holder[m].Some?
    ensures var h := s.holder[m].value; h in s.status && s.mutexesHeld[h] == 1 && forall n :: !s.Concerns(h, n)
  {
    var h := s.holder[m].value;
    assert m in s.MutexesOf(h);
  }

  /** Only one mutex names a given task. */
  lemma HoldsNoOther(s: Protocol, m: Mutex, n: Mutex)
    requires s.Known() && s.CountsOk() && m in s.holder && n in s.holder && m != n
    requires s.holder[m].Some? && s.holder[n].Some?
    ensures s.holder[m].value != s.holder[n].value
  {
    var h := s.holder[m].value;
    if s.holder[n].value == h {
      OneMutex(s, h, m, n);
    }
  }

  lemma BlockKnown(s: Protocol, r: Task, m: Mutex, t: Protocol)
    requires s.Known() && Block(s, r, m, t)
    ensures t.Known()
  {
    hide Protocol.Runs, InsertAt, InsertPos, ValuesOf;
    RunnerKnown(s, r);
  }

  /** What blocking changes, seen from the holder. */
  lemma BlockShape(s: Protocol, r: Task, m: Mutex, t: Protocol)
    requires s.Known() && s.CountsOk() && t.Known() && Block(s, r, m, t)
    ensures m in s.waiters && m in t.waiters && s.holder[m].Some?
    ensures t.holder == s.holder && t.basePriority == s.basePriority
    ensures var h := s.holder[m].value;
            && h in s.status && r in s.status && h != r
            && t.status == s.status[r := Waiting(m, s.priority[h] < s.priority[r] || s.basePriority[h] < s.priority[r])]
            && t.mutexesHeld == s.mutexesHeld && s.mutexesHeld[r] == 0 && !s.status[r].Waiting?
            && t.priority == s.priority[h := if s.priority[h] < s.priority[r] then s.priority[r] else s.priority[h]]
    ensures forall w :: w in t.waiters[m] ==> w in s.waiters[m] || w == r
    ensures forall n <- s.waiters :: n != m ==> n in t.waiters && t.waiters[n] == s.waiters[n]
  {
    hide Protocol.CountsOk, NoDup, Protocol.Runs, Protocol.Runnable, ValuesOf, InsertPos;
    HolderConcernsNone(s, m);
  }

  lemma BlockQueue(s: Protocol, r: Task, m: Mutex, t: Protocol)
    requires s.Known() && Block(s, r, m, t)
    ensures m in s.waiters && m in t.waiters && r in s.eventValue && forall w <- s.waiters[m] :: w in s.eventValue
    ensures t.waiters[m] == InsertAt(s.waiters[m], InsertPos(ValuesOf(s.waiters[m], s.eventValue), s.eventValue[r]), r)
  {
    hide Protocol.Runs, InsertAt, InsertPos, ValuesOf;
    RunnerKnown(s, r);
  }

  lemma BlockCounts(s: Protocol, r: Task, m: Mutex, t: Protocol)
    requires s.Known() && s.CountsOk() && s.BasesOk() && Block(s, r, m, t)
    ensures t.Known() && t.CountsOk() && t.BasesOk()
  {
    hide HeldBy, Protocol.CountsOk, Protocol.BasesOk, Block;
    BlockKnown(s, r, m, t);
    BlockShape(s, r, m, t);
    HolderConcernsNone(s, m);
    SameCounts(s, t, r);
    HolderBase(s, s.holder[m].value);
    RaisedBases(s, t, s.holder[m].value);
  }

  lemma HolderBase(s: Protocol, h: Task)
    requires s.Known() && s.BasesOk() && h in s.status
    ensures s.basePriority[h] <= s.priority[h]
  {
  }

  /** No mutex changes hands, and who has come to wait holds none. */
  lemma SameCounts(s: Protocol, t: Protocol, r: Task)
    requires s.Known() && t.Known() && s.CountsOk() && s.holder == t.holder && s.mutexesHeld == t.mutexesHeld
    requires forall x <- t.status :: x in s.status
               && (t.status[x] == s.status[x] || s.mutexesHeld[x] == 0 || t.status[x].Running? || t.status[x].Asleep?)
    ensures t.CountsOk()
  {
    hide HeldBy;
  }

  /** A holder may run at any priority above its base. */
  lemma RaisedBases(s: Protocol, t: Protocol, h: Task)
    requires s.Known() && t.Known() && s.BasesOk() && s.status.Keys == t.status.Keys
    requires s.basePriority == t.basePriority && s.mutexesHeld == t.mutexesHeld
    requires forall x <- s.status :: x != h ==> s.priority[x] == t.priority[x]
    requires h in s.status && t.mutexesHeld[h] > 0 && t.basePriority[h] <= t.priority[h]
    ensures t.BasesOk()
  {
  }

  /** `r` goes behind the waiters at least as urgent and in front of the others. */
  lemma BlockWaiters(s: Protocol, r: Task, m: Mutex, t: Protocol)
    requires s.Known() && s.CountsOk() && t.Known() && Block(s, r, m, t) && s.WaitersAt(m)
    ensures t.WaitersAt(m)
  {
    hide Protocol.CountsOk, NoDup, Sorted, InsertAt, InsertPos, ValuesOf, Block;
    BlockShape(s, r, m, t);
    BlockQueue(s, r, m, t);
    HolderConcernsNone(s, m);
    assert forall w <- s.waiters[m] :: s.Concerns(w, m);
    UrgentIsSorted(s, m);
    QueuedIn(s.waiters[m], s.eventValue, r);
    SortedIsUrgent(s, t, m);
  }

  lemma QueuedIn(q: seq<Task>, values: map<Task, nat>, r: Task)
    requires NoDup(q) && r !in q && r in values && forall w <- q :: w in values
    requires Sorted(ValuesOf(q, values))
    ensures var q' := InsertAt(q, InsertPos(ValuesOf(q, values), values[r]), r);
            && NoDup(q') && (forall w :: w in q' <==> w in q || w == r)
            && Sorted(ValuesOf(q', values))
  {
    var v := ValuesOf(q, values);
    InsertKeepsSorted(v, values[r]);
    var p := InsertPos(v, values[r]);
    InsertMembers(q, p, r);
    ValuesInserted(q, p, r, values);
  }

  lemma UrgentIsSorted(s: Protocol, m: Mutex)
    requires s.Known() && m in s.waiters && s.WaitersAt(m)
    ensures forall w <- s.waiters[m] :: w in s.eventValue
    ensures Sorted(ValuesOf(s.waiters[m], s.eventValue))
  {
    hide NoDup;
    forall w <- s.waiters[m] ensures w in s.eventValue && s.eventValue[w] == MAX_PRIORITIES - s.priority[w] {
    }
  }

  lemma SortedIsUrgent(s: Protocol, t: Protocol, m: Mutex)
    requires s.Known() && t.Known() && m in t.waiters && s.status.Keys == t.status.Keys
    requires forall w <- t.waiters[m] :: w in s.status && t.priority[w] == s.priority[w]
    requires Sorted(ValuesOf(t.waiters[m], s.eventValue))
    ensures forall i, j :: 0 <= i < j < |t.waiters[m]| ==>
              t.waiters[m][i] in t.priority && t.waiters[m][j] in t.priority &&
              t.priority[t.waiters[m][i]] >= t.priority[t.waiters[m][j]]
  {
    var q, v := t.waiters[m], ValuesOf(t.waiters[m], s.eventValue);
    forall i, j | 0 <= i < j < |q|
      ensures q[i] in t.priority && q[j] in t.priority && t.priority[q[i]] >= t.priority[q[j]]
    {
      assert q[i] in q && q[j] in q;
      assert v[i] <= v[j];
    }
  }

  lemma BlockAt(s: Protocol, r: Task, m: Mutex, t: Protocol)
    requires s.Known() && s.CountsOk() && t.Known() && Block(s, r, m, t) && s.MutexOk(m)
    ensures t.MutexOk(m)
  {
    hide Protocol.CountsOk, NoDup;
    HolderConcernsNone(s, m);
    BlockWaiters(s, r, m, t);
    BlockInherited(s, r, m, t);
    BlockSupported(s, r, m, t);
  }

  lemma BlockElsewhere(s: Protocol, r: Task, m: Mutex, t: Protocol, n: Mutex)
    requires s.Known() && s.CountsOk() && t.Known() && Block(s, r, m, t) && n in s.waiters && n != m
    ensures SameAt(s, t, n)
  {
    hide Protocol.CountsOk, Block, SameAt;
    BlockShape(s, r, m, t);
    BlockerIsFree(s, r, m, t, n);
    HolderConcernsNone(s, m);
    if s.holder[n].Some? {
      HoldsNoOther(s, m, n);
    }
    OthersUntouched(s, t, n, r, s.holder[m].value);
  }

  /** Who is about to wait for one mutex has nothing to do with another. */
  lemma BlockerIsFree(s: Protocol, r: Task, m: Mutex, t: Protocol, n: Mutex)
    requires s.Known() && Block(s, r, m, t) && n != m
    ensures !s.Concerns(r, n)
  {
    hide Protocol.Runs, Protocol.Runnable, InsertAt, InsertPos, ValuesOf;
  }

  lemma BlockInherited(s: Protocol, r: Task, m: Mutex, t: Protocol)
    requires s.Known() && s.CountsOk() && t.Known() && Block(s, r, m, t) && s.WaitersAt(m) && s.InheritedAt(m)
    requires t.WaitersAt(m)
    ensures t.InheritedAt(m)
  {
    hide Protocol.CountsOk, Protocol.WaitersAt, Block;
    BlockShape(s, r, m, t);
    HolderConcernsNone(s, m);
    forall w <- t.waiters[m]
      ensures w in t.status && t.status[w].Waiting? && t.priority[w] <= t.priority[t.holder[m].value]
      ensures !t.status[w].inherited ==> t.priority[w] <= t.basePriority[t.holder[m].value]
    {
      if w != r {
        QueuedIsWaiting(s, m, w);
        assert s.Concerns(w, m);
      }
    }
  }

  lemma BlockSupported(s: Protocol, r: Task, m: Mutex, t: Protocol)
    requires s.Known() && s.CountsOk() && t.Known() && Block(s, r, m, t) && s.SupportedAt(m)
    ensures t.SupportedAt(m)
  {
    hide Protocol.CountsOk, NoDup;
    HolderConcernsNone(s, m);
    var h := s.holder[m].value;
    if s.priority[h] < s.priority[r] {
      assert t.Supports(r, m);
    } else if s.priority[h] != s.basePriority[h] {
      var x :| x in s.status && s.Supports(x, m) && s.priority[x] >= s.priority[h];
      assert t.Supports(x, m);
    }
  }

  lemma BlockKeeps(s: Protocol, r: Task, m: Mutex, t: Protocol)
    requires s.Valid() && Block(s, r, m, t)
    ensures t.Valid()
  {
    hide Protocol.MutexOk, Protocol.CountsOk, Protocol.BasesOk, SameAt;
    BlockCounts(s, r, m, t);
    BlockAt(s, r, m, t);
    forall n <- s.waiters | n != m ensures SameAt(s, t, n) {
      BlockElsewhere(s, r, m, t, n);
    }
    OneMutexChanged(s, t, m);
  }

  // ---------------------------------------------------------------------------------------------
  // Leaving the waiting list

  lemma UnqueuedShape(s: Protocol, m: Mutex, w: Task)
    requires s.Known() && m in s.waiters && s.WaitersAt(m) && w in s.waiters[m]
    ensures var t := Unqueued(s, m, w); var k := IndexOf(s.waiters[m], w);
            && t.Known() && w in s.status && s.status[w].Waiting? && s.status[w].mutex == m
            && t == s.(waiters := s.waiters[m := RemoveAt(s.waiters[m], k)],
                       status := s.status[w := Retrying(m, s.status[w].inherited, false)])
            && forall x <- s.waiters[m] :: x in s.status
  {
    hide NoDup;
  }

  lemma Removed(q: seq<Task>, w: Task)
    requires NoDup(q) && w in q
    ensures var k, q' := IndexOf(q, w), RemoveAt(q, IndexOf(q, w));
            && NoDup(q') && (forall x :: x in q' <==> x in q && x != w) && |q'| == |q| - 1
            && forall i :: 0 <= i < |q'| ==> q'[i] == q[if i < k then i else i + 1]
  {
    RemoveMembers(q, w);
  }

  lemma UnqueuedWaiters(s: Protocol, m: Mutex, w: Task)
    requires s.Known() && m in s.waiters && s.WaitersAt(m) && w in s.waiters[m]
    ensures var t := Unqueued(s, m, w);
            && t.Known() && t.WaitersAt(m)
            && forall x :: x in t.waiters[m] <==> x in s.waiters[m] && x != w
  {
    hide NoDup, Unqueued, RemoveAt;
    UnqueuedShape(s, m, w);
    Removed(s.waiters[m], w);
    var q, q' := s.waiters[m], Unqueued(s, m, w).waiters[m];
    forall i, j | 0 <= i < j < |q'| ensures s.priority[q'[i]] >= s.priority[q'[j]] {
      var k := IndexOf(q, w);
      assert q'[i] == q[if i < k then i else i + 1] && q'[j] == q[if j < k then j else j + 1];
    }
  }

  lemma UnqueuedElsewhere(s: Protocol, m: Mutex, w: Task, n: Mutex)
    requires s.Known() && m in s.waiters && s.WaitersAt(m) && w in s.waiters[m] && n in s.waiters && n != m
    ensures Unqueued(s, m, w).Known() && SameAt(s, Unqueued(s, m, w), n)
  {
    hide NoDup, Unqueued, RemoveAt, Protocol.WaitersAt;
    UnqueuedShape(s, m, w);
  }

  lemma UnqueuedCounts(s: Protocol, m: Mutex, w: Task)
    requires s.Known() && s.CountsOk() && s.BasesOk() && m in s.waiters && s.WaitersAt(m) && w in s.waiters[m]
    ensures var t := Unqueued(s, m, w); t.Known() && t.CountsOk() && t.BasesOk()
  {
    hide NoDup, Unqueued, RemoveAt, Protocol.WaitersAt, HeldBy;
    UnqueuedShape(s, m, w);
    var t := Unqueued(s, m, w);
    SameCounts(s, t, w);
  }

  lemma UnqueuedInherited(s: Protocol, m: Mutex, w: Task)
    requires s.Known() && m in s.waiters && s.WaitersAt(m) && s.InheritedAt(m) && w in s.waiters[m]
    ensures var t := Unqueued(s, m, w); t.Known() && t.WaitersAt(m) && t.InheritedAt(m)
  {
    hide NoDup, Unqueued, RemoveAt;
    UnqueuedWaiters(s, m, w);
    UnqueuedShape(s, m, w);
  }

  /** A waiter that raised nobody cannot have been what holds the holder's priority up. */
  lemma UnqueuedSupported(s: Protocol, m: Mutex, w: Task)
    requires s.Known() && m in s.waiters && s.WaitersAt(m) && w in s.waiters[m]
    requires s.InheritedAt(m) && s.SupportedAt(m)
    requires s.holder[m].Some? ==> s.basePriority[s.holder[m].value] <= s.priority[s.holder[m].value]
    ensures var t := Unqueued(s, m, w); t.Known() && t.SupportedAt(m)
  {
    hide NoDup, Unqueued, RemoveAt, Protocol.WaitersAt;
    UnqueuedShape(s, m, w);
    var t := Unqueued(s, m, w);
    if s.holder[m].Some? && s.priority[s.holder[m].value] != s.basePriority[s.holder[m].value] {
      var x :| x in s.status && s.Supports(x, m) && s.priority[x] >= s.priority[s.holder[m].value];
      assert t.Supports(x, m);
    }
  }

  lemma TimeOutHandover(s: Protocol, m: Mutex, w: Task)
    requires s.Known() && m in s.waiters && s.WaitersAt(m) && s.HandoverAt(m) && w in s.waiters[m]
    ensures var t := Unqueued(s, m, w); t.Known() && t.WaitersAt(m) && t.HandoverAt(m)
  {
    hide NoDup, Unqueued, RemoveAt, Protocol.WaitersAt;
    UnqueuedWaiters(s, m, w);
    UnqueuedShape(s, m, w);
    var t := Unqueued(s, m, w);
    if t.holder[m].None? && t.waiters[m] != [] {
      HeadIsTop(s, m);
      assert t.waiters[m][0] in t.waiters[m];
      assert s.waiters[m] != [];
      var x :| x in s.status && s.RetriesFor(x, m) && s.priority[x] >= s.priority[s.waiters[m][0]];
      assert t.RetriesFor(x, m);
    }
  }

  lemma TimeOutKeeps(s: Protocol, w: Task, t: Protocol)
    requires s.Valid() && TimeOut(s, w, t)
    ensures t.Valid()
  {
    hide NoDup, Protocol.WaitersAt, Protocol.InheritedAt, Protocol.SupportedAt, Protocol.HandoverAt,
         Protocol.CountsOk, Protocol.BasesOk, SameAt, Unqueued;
    var m := s.status[w].mutex;
    WaiterIsQueued(s, w, m);
    UnqueuedCounts(s, m, w);
    UnqueuedInherited(s, m, w);
    if s.holder[m].Some? {
      HolderBase(s, s.holder[m].value);
    }
    UnqueuedSupported(s, m, w);
    TimeOutHandover(s, m, w);
    UnqueuedShape(s, m, w);
    forall n <- s.waiters | n != m ensures SameAt(s, t, n) {
      UnqueuedElsewhere(s, m, w, n);
    }
    OneMutexChanged(s, t, m);
  }

  lemma WaiterIsQueued(s: Protocol, w: Task, m: Mutex)
    requires s.Known() && m in s.waiters && s.WaitersAt(m)
    requires w in s.status && s.status[w].Waiting? && s.status[w].mutex == m
    ensures w in s.waiters[m]
  {
  }

  // ---------------------------------------------------------------------------------------------
  // Giving back

  /** The mutex is free again, nobody is woken yet. */
  ghost function Freed(s: Protocol, r: Task, m: Mutex): Protocol
    requires s.Known() && r in s.status && s.mutexesHeld[r] > 0 && m in s.holder
  {
    var lowered := s.priority[r] != s.basePriority[r] && s.mutexesHeld[r] == 1;
    s.(mutexesHeld := s.mutexesHeld[r := s.mutexesHeld[r] - 1],
       priority := if lowered then s.priority[r := s.basePriority[r]] else s.priority,
       eventValue := if lowered then s.eventValue[r := MAX_PRIORITIES - s.basePriority[r]] else s.eventValue,
       holder := s.holder[m := None])
  }

  lemma FreedHolds(holder: map<Mutex, Option<Task>>, m: Mutex, x: Task)
    requires m in holder
    ensures HeldBy(holder[m := None], x) == HeldBy(holder, x) - {m}
  {
  }

  lemma FreedCounts(s: Protocol, r: Task, m: Mutex)
    requires s.Known() && s.CountsOk() && m in s.holder && s.holder[m] == Some(r)
    ensures r in s.status && s.mutexesHeld[r] == 1 && Freed(s, r, m).Known() && Freed(s, r, m).CountsOk()
  {
    hide HeldBy, Freed, Protocol.Known;
    FreedKnown(s, r, m);
    var t := Freed(s, r, m);
    forall x <- t.status ensures t.mutexesHeld[x] == |t.MutexesOf(x)| <= 1 {
      FreedHolds(s.holder, m, x);
      FreedOther(s, r, m, x);
    }
  }

  lemma FreedKnown(s: Protocol, r: Task, m: Mutex)
    requires s.Known() && s.CountsOk() && m in s.holder && s.holder[m] == Some(r)
    ensures r in s.status && s.mutexesHeld[r] == 1
    ensures var t := Freed(s, r, m);
            && t.Known() && t.status == s.status && t.holder == s.holder[m := None] && t.status.Keys == t.mutexesHeld.Keys
            && s.status.Keys == s.mutexesHeld.Keys && t.mutexesHeld == s.mutexesHeld[r := 0]
            && t.waiters == s.waiters && t.basePriority == s.basePriority
            && t.priority == s.priority[r := s.basePriority[r]]
  {
    hide HeldBy, Protocol.CountsOk, Freed;
    HolderConcernsNone(s, m);
    FreedFields(s, r, m);
  }

  lemma FreedFields(s: Protocol, r: Task, m: Mutex)
    requires s.Known() && r in s.status && s.mutexesHeld[r] == 1 && m in s.holder
    ensures Freed(s, r, m)
            == s.(holder := s.holder[m := None], mutexesHeld := s.mutexesHeld[r := 0],
                  priority := s.priority[r := s.basePriority[r]],
                  eventValue := s.eventValue[r := MAX_PRIORITIES - s.basePriority[r]])
  {
  }

  lemma FreedOther(s: Protocol, r: Task, m: Mutex, x: Task)
    requires s.Known() && s.CountsOk() && m in s.holder && s.holder[m] == Some(r) && x in s.status
    ensures s.MutexesOf(x) - {m} == if x == r then {} else s.MutexesOf(x)
  {
    if x == r {
      assert m in s.MutexesOf(r);
      forall n <- s.MutexesOf(r) ensures n == m {
        OneMutex(s, r, m, n);
      }
    }
  }

  lemma FreedBases(s: Protocol, r: Task, m: Mutex)
    requires s.Known() && s.CountsOk() && s.BasesOk() && m in s.holder && s.holder[m] == Some(r)
    ensures r in s.status && s.mutexesHeld[r] == 1 && Freed(s, r, m).Known() && Freed(s, r, m).BasesOk()
  {
    hide HeldBy, Protocol.CountsOk, Freed;
    FreedKnown(s, r, m);
  }

  lemma FreedElsewhere(s: Protocol, r: Task, m: Mutex, n: Mutex)
    requires s.Known() && s.CountsOk() && m in s.holder && s.holder[m] == Some(r) && n in s.waiters && n != m
    ensures r in s.status && s.mutexesHeld[r] > 0 && Freed(s, r, m).Known() && SameAt(s, Freed(s, r, m), n)
  {
    hide HeldBy, Freed, Protocol.CountsOk, Protocol.MutexesOf;
    FreedKnown(s, r, m);
    HolderConcernsNone(s, m);
    if s.holder[n].Some? {
      HoldsNoOther(s, m, n);
    }
  }

  lemma FreedWaiters(s: Protocol, r: Task, m: Mutex)
    requires s.Known() && s.CountsOk() && m in s.holder && s.holder[m] == Some(r) && s.WaitersAt(m)
    ensures r in s.status && s.mutexesHeld[r] > 0 && Freed(s, r, m).Known() && Freed(s, r, m).WaitersAt(m)
    ensures forall w <- s.waiters[m] :: w in s.status && Freed(s, r, m).priority[w] == s.priority[w]
  {
    hide HeldBy, Protocol.WaitersAt, Protocol.CountsOk, Protocol.MutexesOf, Freed;
    FreedKnown(s, r, m);
    HolderConcernsNone(s, m);
    forall w <- s.waiters[m] ensures w in s.status && w != r {
      QueuedIsWaiting(s, m, w);
      assert s.Concerns(w, m);
    }
    WaitersFrame(s, Freed(s, r, m), m);
  }

  /** The woken waiter is the most urgent of those that waited. */
  lemma WokenIsTop(u: Protocol, m: Mutex)
    requires u.Known() && m in u.waiters && u.WaitersAt(m) && u.waiters[m] != []
    ensures var w := u.waiters[m][0]; var t := Unqueued(u, m, w);
            t.Known() && t.WaitersAt(m) && t.HandoverAt(m)
  {
    hide NoDup, Unqueued, RemoveAt, Protocol.WaitersAt;
    var w := u.waiters[m][0];
    assert w in u.waiters[m];
    UnqueuedWaiters(u, m, w);
    UnqueuedShape(u, m, w);
    var t := Unqueued(u, m, w);
    assert t.RetriesFor(w, m);
    HeadIsTop(u, m);
    if t.waiters[m] != [] {
      assert t.waiters[m][0] in t.waiters[m];
    }
  }

  lemma GiveShape(s: Protocol, r: Task, m: Mutex, t: Protocol)
    requires s.Known() && s.CountsOk() && Give(s, r, m, t)
    ensures r in s.status && s.mutexesHeld[r] > 0 && m in s.waiters
    ensures var u := Freed(s, r, m);
            u.waiters == s.waiters && u.holder[m].None? &&
            t == if s.waiters[m] == [] then u else Unqueued(u, m, s.waiters[m][0])
  {
    hide HeldBy, Unqueued, Protocol.CountsOk;
  }

  lemma GiveAt(s: Protocol, r: Task, m: Mutex, t: Protocol)
    requires s.Known() && s.CountsOk() && Give(s, r, m, t) && s.WaitersAt(m)
    ensures t.Known() && t.MutexOk(m)
  {
    hide HeldBy, NoDup, Unqueued, Freed, Protocol.CountsOk, Protocol.WaitersAt, Protocol.Runs, Protocol.Runnable;
    FreedWaiters(s, r, m);
    GiveShape(s, r, m, t);
    var u := Freed(s, r, m);
    if u.waiters[m] != [] {
      WokenIsTop(u, m);
      assert u.waiters[m][0] in u.waiters[m];
      UnqueuedShape(u, m, u.waiters[m][0]);
    }
  }

  lemma GiveElsewhere(s: Protocol, r: Task, m: Mutex, t: Protocol, n: Mutex)
    requires s.Known() && s.CountsOk() && Give(s, r, m, t) && s.WaitersAt(m) && n in s.waiters && n != m
    ensures t.Known() && SameAt(s, t, n)
  {
    hide HeldBy, NoDup, Unqueued, Freed, SameAt, Protocol.CountsOk, Protocol.WaitersAt, Protocol.Runs, Protocol.Runnable;
    FreedWaiters(s, r, m);
    GiveShape(s, r, m, t);
    FreedElsewhere(s, r, m, n);
    var u := Freed(s, r, m);
    if u.waiters[m] != [] {
      assert u.waiters[m][0] in u.waiters[m];
      UnqueuedElsewhere(u, m, u.waiters[m][0], n);
      SameTwice(s, u, t, n);
    }
  }

  lemma SameTwice(s: Protocol, u: Protocol, t: Protocol, n: Mutex)
    requires s.Known() && u.Known() && t.Known() && n in s.waiters && SameAt(s, u, n) && SameAt(u, t, n)
    ensures SameAt(s, t, n)
  {
  }

  lemma GiveCounts(s: Protocol, r: Task, m: Mutex, t: Protocol)
    requires s.Known() && s.CountsOk() && s.BasesOk() && Give(s, r, m, t) && s.WaitersAt(m)
    ensures t.Known() && t.CountsOk() && t.BasesOk()
    ensures t.waiters.Keys == s.waiters.Keys
    ensures forall w <- t.status :: t.status[w].Waiting? ==> w in s.status && t.status[w] == s.status[w]
  {
    hide HeldBy, NoDup, Unqueued, Protocol.CountsOk, Protocol.BasesOk, Protocol.WaitersAt, Protocol.Runs,
         Protocol.Runnable;
    FreedWaiters(s, r, m);
    GiveShape(s, r, m, t);
    FreedCounts(s, r, m);
    FreedBases(s, r, m);
    var u := Freed(s, r, m);
    if u.waiters[m] != [] {
      assert u.waiters[m][0] in u.waiters[m];
      UnqueuedCounts(u, m, u.waiters[m][0]);
      UnqueuedShape(u, m, u.waiters[m][0]);
    }
  }

  lemma GiveKeeps(s: Protocol, r: Task, m: Mutex, t: Protocol)
    requires s.Valid() && Give(s, r, m, t)
    ensures t.Valid()
  {
    hide Protocol.WaitersAt, Protocol.InheritedAt, Protocol.SupportedAt, Protocol.HandoverAt,
         Protocol.CountsOk, Protocol.BasesOk, SameAt, Unqueued;
    assert s.MutexOk(m);
    GiveCounts(s, r, m, t);
    GiveAt(s, r, m, t);
    forall n <- s.waiters | n != m ensures SameAt(s, t, n) {
      GiveElsewhere(s, r, m, t, n);
    }
    OneMutexChanged(s, t, m);
  }

  // ---------------------------------------------------------------------------------------------
  // Giving up

  lemma GiveUpElsewhere(s: Protocol, r: Task, t: Protocol, n: Mutex)
    requires s.Known() && t.Known() && GiveUp(s, r, t) && n in s.waiters && n != s.status[r].mutex
    ensures SameAt(s, t, n)
  {
    hide GiveUp;
    GiveUpShape(s, r, t);
  }

  lemma GiveUpShape(s: Protocol, r: Task, t: Protocol)
    requires s.Known() && GiveUp(s, r, t)
    ensures r in s.status && s.status[r].Retrying? && s.status[r].mutex in s.holder
    ensures var m := s.status[r].mutex;
            && s.holder[m].Some? && m in s.waiters
            && t == s.(status := s.status[r := if s.status[r].inherited then Leaving(m) else Running])
    ensures t.Known()
  {
    hide Protocol.Runs;
    RunnerKnown(s, r);
  }

  lemma RunnerKnown(s: Protocol, r: Task)
    requires s.Known() && s.Runs(r)
    ensures r in s.status
  {
  }

  lemma GiveUpAt(s: Protocol, r: Task, t: Protocol)
    requires s.Known() && t.Known() && GiveUp(s, r, t) && s.MutexOk(s.status[r].mutex)
    ensures t.MutexOk(s.status[r].mutex)
  {
    hide NoDup, Protocol.InheritedAt, Protocol.SupportedAt, Protocol.WaitersAt, GiveUp;
    GiveUpShape(s, r, t);
    GiveUpWaiters(s, r, t);
    GiveUpSupported(s, r, t);
  }

  lemma GiveUpWaiters(s: Protocol, r: Task, t: Protocol)
    requires s.Known() && t.Known() && GiveUp(s, r, t)
    requires s.WaitersAt(s.status[r].mutex) && s.InheritedAt(s.status[r].mutex)
    ensures t.WaitersAt(s.status[r].mutex) && t.InheritedAt(s.status[r].mutex)
  {
    hide NoDup, GiveUp, Protocol.WaitersAt;
    GiveUpShape(s, r, t);
    var m := s.status[r].mutex;
    forall w <- s.waiters[m] ensures w in s.status && w != r && t.priority[w] == s.priority[w] {
      QueuedIsWaiting(s, m, w);
    }
    WaitersFrame(s, t, m);
  }

  lemma GiveUpSupported(s: Protocol, r: Task, t: Protocol)
    requires s.Known() && t.Known() && GiveUp(s, r, t) && s.SupportedAt(s.status[r].mutex)
    ensures t.SupportedAt(s.status[r].mutex)
  {
    hide GiveUp;
    GiveUpShape(s, r, t);
    var m := s.status[r].mutex;
    var h := s.holder[m].value;
    if s.priority[h] != s.basePriority[h] {
      var x :| x in s.status && s.Supports(x, m) && s.priority[x] >= s.priority[h];
      assert t.Supports(x, m);
    }
  }

  lemma GiveUpKeeps(s: Protocol, r: Task, t: Protocol)
    requires s.Valid() && GiveUp(s, r, t)
    ensures t.Valid()
  {
    hide Protocol.MutexOk, Protocol.CountsOk, Protocol.BasesOk, SameAt, GiveUp;
    GiveUpShape(s, r, t);
    var m := s.status[r].mutex;
    TriersHoldNone(s, r);
    SameCounts(s, t, r);
    BasesFrame(s, t, r);
    GiveUpAt(s, r, t);
    forall n <- s.waiters | n != m ensures SameAt(s, t, n) {
      GiveUpElsewhere(s, r, t, n);
    }
    OneMutexChanged(s, t, m);
  }

  lemma TriersHoldNone(s: Protocol, r: Task)
    requires s.Known() && s.CountsOk() && r in s.status && (s.status[r].Retrying? || s.status[r].Leaving?)
    ensures s.mutexesHeld[r] == 0
  {
  }

  // ---------------------------------------------------------------------------------------------
  // Disinheriting after a timeout

  /** The priority the remaining waiters ask for is that of the first one. */
  lemma HighestIsHead(s: Protocol, m: Mutex)
    requires s.Known() && m in s.waiters && s.WaitersAt(m)
    ensures forall w <- s.waiters[m] :: w in s.eventValue && s.eventValue[w] <= MAX_PRIORITIES
    ensures forall w <- s.waiters[m] :: s.priority[w] <= HighestWaiting(s, m)
    ensures HighestWaiting(s, m) == if s.waiters[m] == [] then 0 else s.priority[s.waiters[m][0]]
    ensures HighestWaiting(s, m) < MAX_PRIORITIES
  {
    hide NoDup;
    forall w <- s.waiters[m] ensures w in s.status {
    }
    if s.waiters[m] != [] {
      HeadIsTop(s, m);
      assert s.waiters[m][0] in s.waiters[m];
    }
  }

  lemma LeaveKnown(s: Protocol, r: Task, t: Protocol)
    requires s.Known() && Leave(s, r, t) && HighestWaiting(s, s.status[r].mutex) < MAX_PRIORITIES
    ensures t.Known()
  {
    hide Protocol.Runs, HighestWaiting;
    RunnerKnown(s, r);
  }

  /** What the step does to the holder, in one line. */
  lemma LeaveShape(s: Protocol, r: Task, m: Mutex, t: Protocol)
    requires s.Known() && s.CountsOk() && Leave(s, r, t) && m == s.status[r].mutex && s.WaitersAt(m)
    ensures r in s.status && s.status[r].Leaving? && m in s.holder && s.mutexesHeld[r] == 0
    ensures s.holder[m].None? ==> t == s.(status := s.status[r := Running])
    ensures s.holder[m].Some? ==>
              var h := s.holder[m].value;
              var p := DisinheritTarget(s.basePriority[h], HighestWaiting(s, m));
              && h != r && s.mutexesHeld[h] == 1 && p < MAX_PRIORITIES
              && t.status == s.status[r := Running] && t.waiters == s.waiters && t.holder == s.holder
              && t.basePriority == s.basePriority && t.mutexesHeld == s.mutexesHeld
              && t.priority == s.priority[h := p]
    ensures t.Known()
  {
    hide NoDup, HeldBy, Protocol.WaitersAt, HighestWaiting, Protocol.MutexesOf, Protocol.CountsOk, Protocol.Runs;
    RunnerKnown(s, r);
    TriersHoldNone(s, r);
    HighestIsHead(s, m);
    LeaveKnown(s, r, t);
    if s.holder[m].Some? {
      HolderConcernsNone(s, m);
    }
  }

  lemma LeaveElsewhere(s: Protocol, r: Task, m: Mutex, t: Protocol, n: Mutex)
    requires s.Known() && s.CountsOk() && Leave(s, r, t) && m == s.status[r].mutex && s.WaitersAt(m)
    requires n in s.waiters && n != m
    ensures t.Known() && SameAt(s, t, n)
  {
    hide NoDup, HeldBy, Protocol.WaitersAt, HighestWaiting, Protocol.CountsOk, Leave, SameAt;
    LeaveShape(s, r, m, t);
    if s.holder[m].Some? {
      HolderConcernsNone(s, m);
      if s.holder[n].Some? {
        HoldsNoOther(s, m, n);
      }
      OthersUntouched(s, t, n, r, s.holder[m].value);
    } else {
      OthersUntouched(s, t, n, r, r);
    }
  }

  /** Only the status of `r` and the priority of `h` differ, and neither has to do with mutex `n`. */
  lemma OthersUntouched(s: Protocol, t: Protocol, n: Mutex, r: Task, h: Task)
    requires s.Known() && t.Known() && n in s.waiters && r in s.status && h in s.status
    requires n in t.waiters && t.waiters[n] == s.waiters[n]
    requires t.holder == s.holder && t.basePriority == s.basePriority
    requires t.status == s.status[r := t.status[r]] && t.priority == s.priority[h := t.priority[h]]
    requires !s.Concerns(r, n) && !t.Concerns(r, n)
    requires t.priority[h] == s.priority[h] || (!s.Concerns(h, n) && s.holder[n] != Some(h))
    ensures SameAt(s, t, n)
  {
  }

  lemma LeaveCounts(s: Protocol, r: Task, m: Mutex, t: Protocol)
    requires s.Known() && s.CountsOk() && s.BasesOk() && Leave(s, r, t) && m == s.status[r].mutex && s.WaitersAt(m)
    ensures t.Known() && t.CountsOk() && t.BasesOk()
  {
    hide NoDup, HeldBy, Protocol.WaitersAt, HighestWaiting, Protocol.CountsOk, Protocol.BasesOk, Leave;
    LeaveShape(s, r, m, t);
    SameCounts(s, t, r);
    if s.holder[m].Some? {
      RaisedBases(s, t, s.holder[m].value);
    } else {
      BasesFrame(s, t, r);
    }
  }

  lemma LeaveWaiters(s: Protocol, r: Task, m: Mutex, t: Protocol)
    requires s.Known() && s.CountsOk() && Leave(s, r, t) && m == s.status[r].mutex && s.WaitersAt(m)
    ensures t.Known() && t.WaitersAt(m)
    ensures forall w <- s.waiters[m] :: w in s.status && t.priority[w] == s.priority[w] && t.status[w] == s.status[w]
  {
    hide NoDup, HeldBy, HighestWaiting, Protocol.CountsOk, Leave;
    LeaveShape(s, r, m, t);
    if s.holder[m].Some? {
      HolderConcernsNone(s, m);
    }
    assert forall w <- s.waiters[m] :: s.Concerns(w, m);
    WaitersFrame(s, t, m);
  }

  lemma WaitersFrame(s: Protocol, t: Protocol, m: Mutex)
    requires s.Known() && t.Known() && m in s.waiters && s.WaitersAt(m)
    requires t.waiters == s.waiters && t.status.Keys == s.status.Keys
    requires forall x <- s.status :: s.status[x].Waiting? || t.status[x].Waiting? ==> t.status[x] == s.status[x]
    requires forall w <- s.waiters[m] :: w in s.status && t.priority[w] == s.priority[w]
    ensures t.WaitersAt(m)
  {
    hide NoDup;
    var q := s.waiters[m];
    forall i, j | 0 <= i < j < |q| ensures t.priority[q[i]] >= t.priority[q[j]] {
      assert q[i] in q && q[j] in q;
    }
    forall w ensures w in q <==> w in t.status && t.status[w].Waiting? && t.status[w].mutex == m {
    }
  }

  lemma LeaveAt(s: Protocol, r: Task, m: Mutex, t: Protocol)
    requires s.Known() && s.CountsOk() && Leave(s, r, t) && m == s.status[r].mutex && s.MutexOk(m)
    ensures t.Known() && t.MutexOk(m)
  {
    hide NoDup, HeldBy, HighestWaiting, Protocol.CountsOk, Leave, Protocol.WaitersAt, Protocol.SupportedAt,
         Protocol.HandoverAt;
    LeaveShape(s, r, m, t);
    LeaveWaiters(s, r, m, t);
    HighestIsHead(s, m);
    LeaveSupported(s, r, m, t);
    LeaveHandover(s, r, m, t);
  }

  lemma LeaveSupported(s: Protocol, r: Task, m: Mutex, t: Protocol)
    requires s.Known() && s.CountsOk() && Leave(s, r, t) && m == s.status[r].mutex && s.WaitersAt(m)
    ensures t.Known() && t.SupportedAt(m)
  {
    hide NoDup, HeldBy, HighestWaiting, Protocol.CountsOk, Leave, Protocol.WaitersAt;
    LeaveShape(s, r, m, t);
    LeaveWaiters(s, r, m, t);
    HighestIsHead(s, m);
    if s.waiters[m] != [] {
      var w := s.waiters[m][0];
      assert w in s.waiters[m];
      QueuedIsWaiting(s, m, w);
      assert t.Supports(w, m);
    }
  }

  lemma LeaveHandover(s: Protocol, r: Task, m: Mutex, t: Protocol)
    requires s.Known() && s.CountsOk() && Leave(s, r, t) && m == s.status[r].mutex && s.WaitersAt(m) && s.HandoverAt(m)
    ensures t.Known() && t.WaitersAt(m) && t.HandoverAt(m)
  {
    hide NoDup, HeldBy, HighestWaiting, Protocol.CountsOk, Leave, Protocol.WaitersAt;
    LeaveShape(s, r, m, t);
    LeaveWaiters(s, r, m, t);
    if s.waiters[m] != [] && s.holder[m].None? {
      var w := s.waiters[m][0];
      assert w in s.waiters[m];
      QueuedIsWaiting(s, m, w);
      var x :| x in s.status && s.RetriesFor(x, m) && s.priority[x] >= s.priority[w];
      assert t.RetriesFor(x, m);
    }
  }

  lemma QueuedIsWaiting(s: Protocol, m: Mutex, w: Task)
    requires s.Known() && m in s.waiters && s.WaitersAt(m) && w in s.waiters[m]
    ensures w in s.status && s.status[w].Waiting? && s.status[w].mutex == m
  {
  }

  lemma LeaveKeeps(s: Protocol, r: Task, t: Protocol)
    requires s.Valid() && Leave(s, r, t)
    ensures t.Valid()
  {
    hide Protocol.WaitersAt, Protocol.InheritedAt, Protocol.SupportedAt, Protocol.HandoverAt,
         Protocol.CountsOk, Protocol.BasesOk, SameAt, HighestWaiting;
    var m := s.status[r].mutex;
    assert s.MutexOk(m);
    LeaveShape(s, r, m, t);
    LeaveCounts(s, r, m, t);
    LeaveAt(s, r, m, t);
    forall n <- s.waiters | n != m ensures SameAt(s, t, n) {
      LeaveElsewhere(s, r, m, t, n);
    }
    OneMutexChanged(s, t, m);
  }

  // ---------------------------------------------------------------------------------------------
  // Steps that no mutex notices

  lemma NapKeeps(s: Protocol, r: Task, t: Protocol)
    requires s.Valid() && (Sleep(s, r, t) || WakeUp(s, r, t))
    ensures t.Valid()
  {
    hide Protocol.MutexOk, Protocol.CountsOk, Protocol.BasesOk, SameAt, Sleep, WakeUp;
    NapCounts(s, r, t);
    NapShape(s, r, t);
    BasesFrame(s, t, r);
    forall n <- t.waiters ensures t.MutexOk(n) {
      NapElsewhere(s, r, t, n);
      SameAtKeeps(s, t, n);
    }
  }

  lemma NapShape(s: Protocol, r: Task, t: Protocol)
    requires s.Known() && (Sleep(s, r, t) || WakeUp(s, r, t))
    ensures t == s.(status := t.status) && t.status.Keys == s.status.Keys
    ensures forall w <- t.status :: t.status[w].Waiting? ==> s.status[w] == t.status[w]
  {
    hide Protocol.Known;
    if Sleep(s, r, t) {
      RunnerKnown(s, r);
    }
  }

  lemma NapCounts(s: Protocol, r: Task, t: Protocol)
    requires s.Known() && s.CountsOk() && (Sleep(s, r, t) || WakeUp(s, r, t))
    ensures t.Known() && t.CountsOk()
  {
    hide HeldBy, Protocol.Runs, Protocol.CountsOk;
    if Sleep(s, r, t) {
      RunnerKnown(s, r);
    }
    SameCounts(s, t, r);
  }

  lemma NapElsewhere(s: Protocol, r: Task, t: Protocol, n: Mutex)
    requires s.Known() && t.Known() && (Sleep(s, r, t) || WakeUp(s, r, t)) && n in s.waiters
    ensures SameAt(s, t, n)
  {
  }

  // ---------------------------------------------------------------------------------------------
  // Going round once more

  lemma AgainShape(s: Protocol, r: Task, t: Protocol)
    requires s.Known() && (GoRound(s, r, t) || Fail(s, r, t))
    ensures t.Known() && r in s.status && s.status[r].Retrying?
    ensures t == s.(status := s.status[r := t.status[r]])
    ensures t.status[r] == Running || t.status[r] == s.status[r].(expired := true)
    ensures t.status[r] == Running ==>
              s.status[r].mutex in s.holder && s.holder[s.status[r].mutex].Some? && !s.status[r].inherited
  {
    hide Protocol.Runs;
    RunnerKnown(s, r);
  }

  lemma AgainAt(s: Protocol, r: Task, t: Protocol, n: Mutex)
    requires s.Known() && t.Known() && (GoRound(s, r, t) || Fail(s, r, t)) && n in s.waiters && s.MutexOk(n)
    ensures t.MutexOk(n)
  {
    hide NoDup, GoRound, Fail, Protocol.WaitersAt;
    AgainShape(s, r, t);
    forall w <- s.waiters[n] ensures w in s.status && w != r && t.priority[w] == s.priority[w] {
      QueuedIsWaiting(s, n, w);
    }
    WaitersFrame(s, t, n);
    AgainSupported(s, r, t, n);
    AgainHandover(s, r, t, n);
  }

  lemma AgainSupported(s: Protocol, r: Task, t: Protocol, n: Mutex)
    requires s.Known() && t.Known() && (GoRound(s, r, t) || Fail(s, r, t)) && n in s.waiters && s.SupportedAt(n)
    ensures t.SupportedAt(n)
  {
    hide GoRound, Fail;
    AgainShape(s, r, t);
    if s.holder[n].Some? && s.priority[s.holder[n].value] != s.basePriority[s.holder[n].value] {
      var x :| x in s.status && s.Supports(x, n) && s.priority[x] >= s.priority[s.holder[n].value];
      assert t.Supports(x, n);
    }
  }

  lemma AgainHandover(s: Protocol, r: Task, t: Protocol, n: Mutex)
    requires s.Known() && t.Known() && (GoRound(s, r, t) || Fail(s, r, t)) && n in s.waiters
    requires s.WaitersAt(n) && t.WaitersAt(n) && s.HandoverAt(n)
    ensures t.HandoverAt(n)
  {
    hide GoRound, Fail, Protocol.WaitersAt;
    AgainShape(s, r, t);
    if s.holder[n].None? && s.waiters[n] != [] {
      assert s.waiters[n][0] in s.waiters[n];
      QueuedIsWaiting(s, n, s.waiters[n][0]);
      var x :| x in s.status && s.RetriesFor(x, n) && s.priority[x] >= s.priority[s.waiters[n][0]];
      assert t.RetriesFor(x, n);
    }
  }

  lemma AgainKeeps(s: Protocol, r: Task, t: Protocol)
    requires s.Valid() && (GoRound(s, r, t) || Fail(s, r, t))
    ensures t.Valid()
  {
    hide Protocol.MutexOk, Protocol.CountsOk, Protocol.BasesOk, GoRound, Fail;
    AgainShape(s, r, t);
    TriersHoldNone(s, r);
    SameCounts(s, t, r);
    BasesFrame(s, t, r);
    forall n <- t.waiters ensures t.MutexOk(n) {
      AgainAt(s, r, t, n);
    }
  }

  // ---------------------------------------------------------------------------------------------
  // A new task

  lemma JoinKnown(s: Protocol, x: Task, p: nat, t: Protocol)
    requires s.Known() && Join(s, x, p, t)
    ensures t.Known()
  {
  }

  lemma JoinBases(s: Protocol, x: Task, p: nat, t: Protocol)
    requires s.Known() && t.Known() && s.BasesOk() && Join(s, x, p, t)
    ensures t.BasesOk()
  {
  }

  lemma JoinCounts(s: Protocol, x: Task, p: nat, t: Protocol)
    requires s.Known() && s.CountsOk() && t.Known() && Join(s, x, p, t)
    ensures t.CountsOk()
  {
    hide HeldBy;
    NotHolder(s, x);
    forall y <- t.status ensures t.mutexesHeld[y] == |t.MutexesOf(y)| <= 1 {
    }
  }

  lemma NotHolder(s: Protocol, x: Task)
    requires s.Known() && x !in s.status
    ensures s.MutexesOf(x) == {} && forall m <- s.holder :: s.holder[m] != Some(x)
  {
  }

  lemma JoinElsewhere(s: Protocol, x: Task, p: nat, t: Protocol, n: Mutex)
    requires s.Known() && t.Known() && Join(s, x, p, t) && n in s.waiters
    ensures SameAt(s, t, n)
  {
    hide HeldBy;
    NotHolder(s, x);
  }

  lemma JoinKeeps(s: Protocol, x: Task, p: nat, t: Protocol)
    requires s.Valid() && Join(s, x, p, t)
    ensures t.Valid()
  {
    hide Protocol.MutexOk, Protocol.CountsOk, Protocol.BasesOk, SameAt;
    JoinKnown(s, x, p, t);
    JoinBases(s, x, p, t);
    JoinCounts(s, x, p, t);
    forall n <- t.waiters ensures t.MutexOk(n) {
      JoinElsewhere(s, x, p, t, n);
      SameAtKeeps(s, t, n);
    }
  }

  // ---------------------------------------------------------------------------------------------
  // Whole runs

  ghost predicate Step(s: Protocol, t: Protocol)
    requires s.Known()
  {
    || (exists r, m :: Take(s, r, m, t) || Block(s, r, m, t) || Give(s, r, m, t))
    || (exists r :: TimeOut(s, r, t) || GiveUp(s, r, t) || GoRound(s, r, t) || Fail(s, r, t) || Leave(s, r, t))
    || (exists r :: Sleep(s, r, t) || WakeUp(s, r, t))
    || (exists x, p :: Join(s, x, p, t))
  }

  /** Every mutex free, every task at its own priority and busy with none of them. */
  ghost predicate Initial(s: Protocol) {
    && s.Known()
    && (forall x <- s.status :: (s.status[x].Running? || s.status[x].Asleep?) && s.mutexesHeld[x] == 0
                                && s.priority[x] == s.basePriority[x])
    && (forall m <- s.holder :: s.holder[m].None? && s.waiters[m] == [])
  }

  lemma InitialIsValid(s: Protocol)
    requires Initial(s)
    ensures s.Valid()
  {
    forall x <- s.status ensures s.MutexesOf(x) == {} {
    }
  }

  lemma StepKeeps(s: Protocol, t: Protocol)
    requires s.Valid() && Step(s, t)
    ensures t.Valid()
  {
    hide Protocol.CountsOk, Protocol.BasesOk, Protocol.MutexOk, Take, Block, Give, TimeOut, GiveUp, GoRound, Fail, Leave,
         Sleep, WakeUp, Join;
    if r, m :| Take(s, r, m, t) {
      TakeKeeps(s, r, m, t);
    } else if r, m :| Block(s, r, m, t) {
      BlockKeeps(s, r, m, t);
    } else if r, m :| Give(s, r, m, t) {
      GiveKeeps(s, r, m, t);
    } else if r :| TimeOut(s, r, t) {
      TimeOutKeeps(s, r, t);
    } else if r :| GiveUp(s, r, t) {
      GiveUpKeeps(s, r, t);
    } else if r :| GoRound(s, r, t) || Fail(s, r, t) {
      AgainKeeps(s, r, t);
    } else if r :| Leave(s, r, t) {
      LeaveKeeps(s, r, t);
    } else if r :| Sleep(s, r, t) || WakeUp(s, r, t) {
      NapKeeps(s, r, t);
    } else {
      var x, p :| Join(s, x, p, t);
      JoinKeeps(s, x, p, t);
    }
  }

  /** Consecutive states of a run are one step apart. */
  ghost predicate StepAt(run: seq<Protocol>, i: nat)
    requires i + 1 < |run|
  {
    run[i].Known() && Step(run[i], run[i + 1])
  }

  ghost predicate Run(run: seq<Protocol>) {
    run != [] && Initial(run[0]) && forall i: nat :: i + 1 < |run| ==> StepAt(run, i)
  }

  /** The invariant holds in every state of every run. */
  lemma {:induction false} RunsStayValid(run: seq<Protocol>, k: nat)
    requires Run(run) && k < |run|
    ensures run[k].Valid()
  {
    hide Protocol.Valid, Step, Initial;
    if k == 0 {
      InitialIsValid(run[0]);
    } else {
      RunsStayValid(run, k - 1);
      assert StepAt(run, k - 1);
      StepKeeps(run[k - 1], run[k]);
    }
  }

  // ---------------------------------------------------------------------------------------------
  // What the invariant is for

  /**
   At any point of any run: a holder is at least as urgent as its own base priority and as every task that
   waits for it, what it counts is what names it, and without a mutex it has nobody's priority but its own.
   */
  lemma HoldersOutrankWaiters(run: seq<Protocol>, k: nat)
    requires Run(run) && k < |run|
    ensures var s := run[k];
            && s.Valid()
            && (forall t <- s.status ::
                  && s.basePriority[t] <= s.priority[t] && s.mutexesHeld[t] == |s.MutexesOf(t)|
                  && (s.mutexesHeld[t] == 0 ==> s.priority[t] == s.basePriority[t]))
            && (forall m <- s.holder :: s.holder[m].Some? ==>
                  forall w <- s.waiters[m] :: w in s.status && s.priority[w] <= s.priority[s.holder[m].value])
  {
    RunsStayValid(run, k);
    assert run[k].Valid();
  }

  /**
   No unbounded inversion: while a task waits, either its mutex's holder is off the ready lists of its own accord,
   or only tasks at least as urgent as the waiter run.
   */
  lemma NoInversion(s: Protocol, m: Mutex, w: Task, r: Task)
    requires s.Valid() && m in s.waiters && w in s.waiters[m] && s.Runs(r)
    requires s.holder[m].Some? ==> s.Runnable(s.holder[m].value)
    ensures w in s.status && s.priority[w] <= s.priority[r]
  {
    assert s.MutexOk(m);
    if s.holder[m].None? {
      TakerOutranks(s, r, m);
    }
  }

  /** A timed-out waiter leaves the holder exactly the larger of its base and the most urgent waiter left. */
  lemma LeaveIsExact(s: Protocol, r: Task, t: Protocol)
    requires s.Valid() && Leave(s, r, t) && s.holder[s.status[r].mutex].Some?
    ensures var m := s.status[r].mutex;
            t.Known() && m in t.waiters && t.holder[m] == s.holder[m] && ExactAt(t, m, s.holder[m].value)
  {
    hide Protocol.WaitersAt, Protocol.InheritedAt, Protocol.SupportedAt, Protocol.HandoverAt,
         Protocol.CountsOk, Protocol.BasesOk, HighestWaiting;
    var m := s.status[r].mutex;
    LeaveKnows(s, r, t, m);
    LeaveShape(s, r, m, t);
    LeaveWaiters(s, r, m, t);
    HighestIsHead(s, m);
    if s.waiters[m] != [] {
      assert s.waiters[m][0] in s.waiters[m];
    }
  }

  lemma LeaveKnows(s: Protocol, r: Task, t: Protocol, m: Mutex)
    requires s.Valid() && Leave(s, r, t) && m == s.status[r].mutex
    ensures m in s.waiters && s.MutexOk(m)
  {
  }

  /** `h` has the largest of its base priority and those of all who wait for `m`. */
  ghost predicate ExactAt(s: Protocol, m: Mutex, h: Task)
    requires s.Known() && m in s.waiters && h in s.status
  {
    && s.basePriority[h] <= s.priority[h]
    && (forall w <- s.waiters[m] :: w in s.status && s.priority[w] <= s.priority[h])
    && (s.priority[h] == s.basePriority[h] || exists w <- s.waiters[m] :: w in s.status && s.priority[w] == s.priority[h])
  }

  /** Once nobody is on the way out of waiting, every holder's priority is exact. */
  lemma SettledIsExact(s: Protocol, m: Mutex)
    requires s.Valid() && m in s.holder && s.holder[m].Some?
    requires forall x <- s.status :: s.Concerns(x, m) ==> s.status[x].Waiting?
    ensures ExactAt(s, m, s.holder[m].value)
  {
    assert s.MutexOk(m);
    var h := s.holder[m].value;
    if s.priority[h] != s.basePriority[h] {
      var x :| x in s.status && s.Supports(x, m) && s.priority[x] >= s.priority[h];
      WaiterIsQueued(s, x, m);
    }
  }

  // ---------------------------------------------------------------------------------------------
  // Turns among the waiters

  /** Who waits joins behind all who are as urgent, and nobody else moves. */
  lemma BlockJoins(s: Protocol, r: Task, m: Mutex, t: Protocol)
    requires s.Valid() && Block(s, r, m, t)
    ensures m in s.waiters && m in t.waiters && r in s.eventValue && forall w <- s.waiters[m] :: w in s.eventValue
    ensures exists p :: SchedulerTurns.Joins(s.waiters[m], r, s.eventValue, t.waiters[m], p)
    ensures forall n <- s.waiters :: n != m ==> n in t.waiters && t.waiters[n] == s.waiters[n]
  {
    hide SchedulerTurns.Joins, InsertAt, InsertPos, Protocol.CountsOk, Protocol.BasesOk, Protocol.InheritedAt,
         Protocol.SupportedAt, Protocol.HandoverAt;
    assert s.MutexOk(m);
    WaitersByValue(s, r, m);
    SchedulerTurns.InsertedInOrder(s.waiters[m], r, s.eventValue);
  }

  lemma WaitersByValue(s: Protocol, r: Task, m: Mutex)
    requires s.Known() && m in s.waiters && s.WaitersAt(m) && r in s.status && !s.status[r].Waiting?
    ensures r in s.eventValue && r !in s.waiters[m] && SortedBy(s.waiters[m], s.eventValue)
  {
    forall w <- s.waiters[m] ensures w in s.eventValue && s.eventValue[w] == MAX_PRIORITIES - s.priority[w] {
      QueuedIsWaiting(s, m, w);
    }
    var q := s.waiters[m];
    forall i, j | 0 <= i < j < |q| ensures s.eventValue[q[i]] <= s.eventValue[q[j]] {
      assert q[i] in q && q[j] in q;
    }
  }

  /** Giving back takes the first waiter off the list, to look at the mutex again. */
  lemma GiveWakesFirst(s: Protocol, r: Task, m: Mutex, t: Protocol)
    requires s.Valid() && Give(s, r, m, t) && s.waiters[m] != []
    ensures exists w :: s.waiters[m] == [w] + t.waiters[m] && w in t.status && t.status[w].Retrying?
                        && t.status[w].mutex == m
  {
    hide Protocol.CountsOk, Protocol.BasesOk, Protocol.InheritedAt, Protocol.SupportedAt, Protocol.HandoverAt, IndexOf;
    assert s.MutexOk(m);
    var q := s.waiters[m];
    var w := q[0];
    assert w in q;
    HeadIndex(q);
    QueuedIsWaiting(s, m, w);
    assert q == [w] + RemoveAt(q, 0);
    assert t.waiters[m] == RemoveAt(q, 0);
    assert t.status[w] == Retrying(m, s.status[w].inherited, false);
  }

  lemma HeadIndex(q: seq<Task>)
    requires q != []
    ensures q[0] in q && IndexOf(q, q[0]) == 0
  {
  }

  // ---------------------------------------------------------------------------------------------
  // Retries whose time is up

  /**
   Who tries once more after its time is up takes the mutex if it is free, returns without it if it is taken, and runs
   into the assertion if it is taken and priority was inherited on its account; and that is all it can do.
   */
  lemma WhatRetriesMeet(s: Protocol, r: Task, m: Mutex)
    requires s.Known() && s.CountsOk() && s.Runs(r) && Expired(s, r) && s.status[r].mutex == m && m in s.holder
    ensures (exists t :: Take(s, r, m, t)) <==> s.holder[m].None?
    ensures (exists t :: Fail(s, r, t)) <==> s.holder[m].Some? && !s.status[r].inherited
    ensures Stops(s, r) <==> s.holder[m].Some? && s.status[r].inherited
    ensures forall n, t :: !Block(s, r, n, t) && !Give(s, r, n, t) && (Take(s, r, n, t) ==> n == m)
    ensures forall t :: !GiveUp(s, r, t) && !GoRound(s, r, t) && !Leave(s, r, t) && !Sleep(s, r, t)
  {
    hide Protocol.Runs, HeldBy;
    if s.holder[m].None? {
      var t := s.(holder := s.holder[m := Some(r)],
                  mutexesHeld := s.mutexesHeld[r := s.mutexesHeld[r] + 1],
                  status := s.status[r := Running]);
      assert Take(s, r, m, t);
    } else if !s.status[r].inherited {
      assert Fail(s, r, s.(status := s.status[r := Running]));
    }
  }

  /** In a run, `h` takes `m` at `i`, after `r` has gone round at `j` because its time was up. */
  ghost predicate Overtook(run: seq<Protocol>, j: nat, i: nat, r: Task, h: Task, m: Mutex)
    requires j < i < |run| - 1
  {
    && run[j].Known() && GoRound(run[j], r, run[j + 1]) && run[j].status[r].mutex == m
    && run[i].Known() && Take(run[i], h, m, run[i + 1])
    && h != r && r in run[i].priority && h in run[i].priority && run[i].priority[r] <= run[i].priority[h]
  }

  lemma ExpiredBefore(s: Protocol, t: Protocol, x: Task)
    requires s.Known() && Step(s, t) && Expired(t, x)
    ensures x in s.status && s.status[x].Retrying?
    ensures if s.status[x].expired then t.status[x] == s.status[x]
            else GoRound(s, x, t) && t.status[x] == s.status[x].(expired := true)
  {
    hide Protocol.Known, Take, Block, Give, TimeOut, GiveUp, GoRound, Fail, Leave, Sleep, WakeUp, Join;
    if r, m :| Take(s, r, m, t) || Block(s, r, m, t) || Give(s, r, m, t) {
      ExpiredMutex(s, r, m, t, x);
    } else if r :| GoRound(s, r, t) {
      ExpiredRound(s, r, t, x);
    } else if r :| TimeOut(s, r, t) || GiveUp(s, r, t) || Fail(s, r, t) || Leave(s, r, t) {
      ExpiredOther(s, r, t, x);
    } else if r :| Sleep(s, r, t) || WakeUp(s, r, t) {
      ExpiredNap(s, r, t, x);
    } else {
      var y, p :| Join(s, y, p, t);
      ExpiredJoin(s, y, p, t, x);
    }
  }

  lemma ExpiredMutex(s: Protocol, r: Task, m: Mutex, t: Protocol, x: Task)
    requires s.Known() && (Take(s, r, m, t) || Block(s, r, m, t) || Give(s, r, m, t)) && Expired(t, x)
    ensures Expired(s, x) && t.status[x] == s.status[x]
  {
    hide Protocol.Runs, Protocol.Known, Unqueued;
    if Take(s, r, m, t) {
    } else if Block(s, r, m, t) {
    } else {
      GiveStatus(s, r, m, t, x);
    }
  }

  lemma GiveStatus(s: Protocol, r: Task, m: Mutex, t: Protocol, x: Task)
    requires s.Known() && Give(s, r, m, t) && Expired(t, x)
    ensures Expired(s, x) && t.status[x] == s.status[x]
  {
    hide Protocol.Runs, Protocol.Known;
  }

  lemma ExpiredRound(s: Protocol, r: Task, t: Protocol, x: Task)
    requires s.Known() && GoRound(s, r, t) && Expired(t, x)
    ensures x in s.status && s.status[x].Retrying?
    ensures if x == r then !s.status[x].expired && t.status[x] == s.status[x].(expired := true)
            else t.status[x] == s.status[x]
  {
    hide Protocol.Runs, Protocol.Known;
    RunnerKnown(s, r);
  }

  lemma ExpiredOther(s: Protocol, r: Task, t: Protocol, x: Task)
    requires s.Known() && (TimeOut(s, r, t) || GiveUp(s, r, t) || Fail(s, r, t) || Leave(s, r, t)) && Expired(t, x)
    ensures Expired(s, x) && t.status[x] == s.status[x]
  {
    hide Protocol.Runs, Protocol.Known, HighestWaiting, RemoveAt, IndexOf;
  }

  lemma ExpiredJoin(s: Protocol, y: Task, p: nat, t: Protocol, x: Task)
    requires s.Known() && Join(s, y, p, t) && Expired(t, x)
    ensures Expired(s, x) && t.status[x] == s.status[x]
  {
    hide Protocol.Known;
  }

  lemma ExpiredNap(s: Protocol, r: Task, t: Protocol, x: Task)
    requires s.Known() && (Sleep(s, r, t) || WakeUp(s, r, t)) && Expired(t, x)
    ensures Expired(s, x) && t.status[x] == s.status[x]
  {
    hide Protocol.Runs, Protocol.Known;
  }

  /** Only a step of taking makes somebody the holder, and no step changes a base priority. */
  lemma HolderBefore(s: Protocol, t: Protocol, m: Mutex, h: Task)
    requires s.Known() && Step(s, t) && m in t.holder && t.holder[m] == Some(h)
    ensures (m in s.holder && s.holder[m] == Some(h)) || Take(s, h, m, t)
  {
    hide Protocol.Known, Take, Block, Give, TimeOut, GiveUp, GoRound, Fail, Leave, Sleep, WakeUp, Join;
    if r, n :| Take(s, r, n, t) || Block(s, r, n, t) || Give(s, r, n, t) {
      HolderMutex(s, r, n, t, m, h);
    } else if r :| TimeOut(s, r, t) || GiveUp(s, r, t) || GoRound(s, r, t) || Fail(s, r, t) || Leave(s, r, t) {
      HolderOther(s, r, t);
    } else if r :| Sleep(s, r, t) || WakeUp(s, r, t) {
      HolderNap(s, r, t);
    } else {
      var x, p :| Join(s, x, p, t);
      HolderJoin(s, x, p, t);
    }
  }

  lemma HolderMutex(s: Protocol, r: Task, n: Mutex, t: Protocol, m: Mutex, h: Task)
    requires s.Known() && (Take(s, r, n, t) || Block(s, r, n, t) || Give(s, r, n, t))
    requires m in t.holder && t.holder[m] == Some(h)
    ensures (m in s.holder && s.holder[m] == Some(h)) || Take(s, h, m, t)
  {
    hide Protocol.Runs, Protocol.Known, InsertAt, InsertPos, RemoveAt, IndexOf;
  }

  lemma HolderOther(s: Protocol, r: Task, t: Protocol)
    requires s.Known() && (TimeOut(s, r, t) || GiveUp(s, r, t) || GoRound(s, r, t) || Fail(s, r, t) || Leave(s, r, t))
    ensures t.holder == s.holder
  {
    hide Protocol.Runs, Protocol.Known, HighestWaiting, RemoveAt, IndexOf;
  }

  lemma HolderJoin(s: Protocol, x: Task, p: nat, t: Protocol)
    requires Join(s, x, p, t)
    ensures t.holder == s.holder
  {
  }

  lemma HolderNap(s: Protocol, r: Task, t: Protocol)
    requires s.Known() && (Sleep(s, r, t) || WakeUp(s, r, t))
    ensures t.holder == s.holder
  {
    hide Protocol.Runs, Protocol.Known;
  }

  /** Whoever takes a mutex that `r` is trying for is at least as urgent as `r`. */
  lemma TakerOutranksRetrier(s: Protocol, r: Task, h: Task, m: Mutex, t: Protocol)
    requires s.Known() && Take(s, h, m, t) && Expired(s, r)
    ensures r in s.priority && h in s.priority && s.priority[r] <= s.priority[h]
    ensures m == s.status[r].mutex ==> !Expired(t, h)
  {
    hide HeldBy;
    assert s.Runnable(r);
  }

  ghost predicate WentRound(run: seq<Protocol>, j: nat, r: Task, m: Mutex)
    requires j + 1 < |run|
  {
    run[j].Known() && GoRound(run[j], r, run[j + 1]) && run[j].status[r].mutex == m
  }

  /** Whose time is up has gone round before, and the mutex was free then. */
  lemma {:induction false} HasGoneRound(run: seq<Protocol>, k: nat, r: Task) returns (j: nat)
    requires Run(run) && k < |run| && Expired(run[k], r)
    ensures j < k && WentRound(run, j, r, run[k].status[r].mutex)
    ensures run[j + 1].status[r] == run[k].status[r]
    ensures forall i :: j < i <= k ==> Expired(run[i], r) && run[i].status[r] == run[k].status[r]
  {
    hide Step, Protocol.Known, GoRound, Initial;
    if k == 0 {
      NoneExpired(run[0], r);
    } else {
      assert StepAt(run, k - 1);
      ExpiredBefore(run[k - 1], run[k], r);
      if run[k - 1].status[r].expired {
        j := HasGoneRound(run, k - 1, r);
      } else {
        j := k - 1;
      }
    }
  }

  lemma NoneExpired(s: Protocol, r: Task)
    requires Initial(s)
    ensures !Expired(s, r)
  {
  }

  /** A mutex that was free at `j` and is held at `k` has been taken in between. */
  lemma {:induction false} TakenBetween(run: seq<Protocol>, j: nat, k: nat, m: Mutex, h: Task) returns (i: nat)
    requires Run(run) && j <= k < |run|
    requires m in run[j].holder && run[j].holder[m].None? && m in run[k].holder && run[k].holder[m] == Some(h)
    ensures j <= i < k && run[i].Known() && Take(run[i], h, m, run[i + 1])
    decreases k - j
  {
    hide Step, Protocol.Known, Take, Initial;
    assert StepAt(run, k - 1);
    HolderBefore(run[k - 1], run[k], m, h);
    if Take(run[k - 1], h, m, run[k]) {
      i := k - 1;
    } else {
      i := TakenBetween(run, j, k - 1, m, h);
    }
  }

  lemma BaseStays(s: Protocol, t: Protocol)
    requires s.Known() && Step(s, t)
    ensures forall x <- s.basePriority :: x in t.basePriority && t.basePriority[x] == s.basePriority[x]
  {
    hide Protocol.Known, Take, Block, Give, TimeOut, GiveUp, GoRound, Fail, Leave, Sleep, WakeUp, Join;
    if r, m :| Take(s, r, m, t) || Block(s, r, m, t) || Give(s, r, m, t) {
      BaseMutex(s, r, m, t);
    } else if r :| TimeOut(s, r, t) || GiveUp(s, r, t) || GoRound(s, r, t) || Fail(s, r, t) || Leave(s, r, t) {
      BaseOther(s, r, t);
    } else if r :| Sleep(s, r, t) || WakeUp(s, r, t) {
      BaseNap(s, r, t);
    } else {
      var x, p :| Join(s, x, p, t);
      BaseJoin(s, x, p, t);
    }
  }

  lemma BaseMutex(s: Protocol, r: Task, m: Mutex, t: Protocol)
    requires s.Known() && (Take(s, r, m, t) || Block(s, r, m, t) || Give(s, r, m, t))
    ensures t.basePriority == s.basePriority
  {
    hide Protocol.Runs, Protocol.Known, InsertAt, InsertPos, RemoveAt, IndexOf;
  }

  lemma BaseOther(s: Protocol, r: Task, t: Protocol)
    requires s.Known() && (TimeOut(s, r, t) || GiveUp(s, r, t) || GoRound(s, r, t) || Fail(s, r, t) || Leave(s, r, t))
    ensures t.basePriority == s.basePriority
  {
    hide Protocol.Runs, Protocol.Known, HighestWaiting, RemoveAt, IndexOf;
  }

  lemma BaseJoin(s: Protocol, x: Task, p: nat, t: Protocol)
    requires s.Known() && Join(s, x, p, t)
    ensures forall y <- s.basePriority :: y in t.basePriority && t.basePriority[y] == s.basePriority[y]
  {
  }

  lemma BaseNap(s: Protocol, r: Task, t: Protocol)
    requires s.Known() && (Sleep(s, r, t) || WakeUp(s, r, t))
    ensures t.basePriority == s.basePriority
  {
    hide Protocol.Runs, Protocol.Known;
  }

  lemma {:induction false} BasesStay(run: seq<Protocol>, i: nat, k: nat)
    requires Run(run) && i <= k < |run|
    ensures forall x <- run[i].basePriority :: x in run[k].basePriority
                                             && run[k].basePriority[x] == run[i].basePriority[x]
    decreases k - i
  {
    hide Step, Protocol.Known, Initial;
    if i < k {
      assert StepAt(run, k - 1);
      BaseStays(run[k - 1], run[k]);
      BasesStay(run, i, k - 1);
    }
  }

  /**
   In every run: the assertion is only met by a task that somebody else, at least as urgent, overtook after it had gone
   round with the mutex free, and who now has the mutex and is off the ready lists, or is just as urgent.
   */
  lemma AssertionTakesARival(run: seq<Protocol>, k: nat, r: Task) returns (j: nat, i: nat, h: Task)
    requires Run(run) && k < |run| && run[k].Known() && Stops(run[k], r)
    ensures j < i < k && Overtook(run, j, i, r, h, run[k].status[r].mutex)
    ensures run[k].holder[run[k].status[r].mutex] == Some(h)
    ensures h in run[k].priority && r in run[k].priority && run[k].basePriority[r] <= run[k].basePriority[h]
    ensures run[k].Runnable(h) ==> run[k].priority[h] == run[k].priority[r]
  {
    hide Step, Initial, Take, GoRound, Protocol.Valid;
    var m := run[k].status[r].mutex;
    h := run[k].holder[m].value;
    j := HasGoneRound(run, k, r);
    RoundFinds(run[j], r, run[j + 1], m);
    i := TakenBetween(run, j + 1, k, m, h);
    TakerOutranksRetrier(run[i], r, h, m, run[i + 1]);
    BasesStay(run, i, k);
    RunsStayValid(run, i);
    RunsStayValid(run, k);
    RivalsBases(run[i], r, h, m, run[i + 1]);
    RivalRuns(run[k], r, h);
  }

  lemma RoundFinds(s: Protocol, r: Task, t: Protocol, m: Mutex)
    requires s.Known() && GoRound(s, r, t) && s.status[r].mutex == m
    ensures m in t.holder && t.holder[m].None?
  {
  }

  lemma RivalsBases(s: Protocol, r: Task, h: Task, m: Mutex, t: Protocol)
    requires s.Valid() && Take(s, h, m, t) && Expired(s, r)
    ensures r in s.basePriority && h in s.basePriority && s.basePriority[r] <= s.basePriority[h]
  {
    TakerOutranksRetrier(s, r, h, m, t);
  }

  lemma RivalRuns(s: Protocol, r: Task, h: Task)
    requires s.Valid() && Stops(s, r) && s.holder[s.status[r].mutex] == Some(h) && s.basePriority[r] <= s.basePriority[h]
    ensures h in s.status && r in s.status && (s.Runnable(h) ==> s.priority[h] == s.priority[r])
  {
    hide Protocol.MutexOk, HeldBy;
    RunnerKnown(s, r);
    assert s.mutexesHeld[r] == 0 && s.priority[r] == s.basePriority[r];
  }

  // ---------------------------------------------------------------------------------------------
  // A run that meets the assertion

  /** Tasks 1, 2 and 3 with the priorities 1, 2 and 3, of which the first may have inherited, and one mutex */
  ghost function Scene(first: Status, second: Status, third: Status, priority: nat, holder: Option<Task>,
                       waiters: seq<Task>): Protocol
    requires priority <= MAX_PRIORITIES
  {
    Protocol(map[1 := first, 2 := second, 3 := third],
             map[1 := priority, 2 := 2, 3 := 3],
             map[1 := 1, 2 := 2, 3 := 3],
             map[1 := if holder == Some(1) then 1 else 0, 2 := 0, 3 := if holder == Some(3) then 1 else 0],
             map[1 := MAX_PRIORITIES - priority, 2 := MAX_PRIORITIES - 2, 3 := MAX_PRIORITIES - 3],
             map[0 := holder],
             map[0 := waiters])
  }

  /**
   Task 2 lends task 1 its priority and times out; task 1 gives the mutex back; task 2 goes round; task 3 takes the mutex
   and sleeps with it.
   */
  ghost function RivalRun(): (run: seq<Protocol>)
    ensures |run| == 10
  {
    var none: Option<Task> := None;
    [Scene(Running, Asleep, Asleep, 1, none, []),
     Scene(Running, Asleep, Asleep, 1, Some(1), []),
     Scene(Running, Running, Asleep, 1, Some(1), []),
     Scene(Running, Waiting(0, true), Asleep, 2, Some(1), [2]),
     Scene(Running, Retrying(0, true, false), Asleep, 2, Some(1), []),
     Scene(Running, Retrying(0, true, false), Asleep, 1, none, []),
     Scene(Running, Retrying(0, true, true), Asleep, 1, none, []),
     Scene(Running, Retrying(0, true, true), Running, 1, none, []),
     Scene(Running, Retrying(0, true, true), Running, 1, Some(3), []),
     Scene(Running, Retrying(0, true, true), Asleep, 1, Some(3), [])]
  }

  lemma AssertionIsMet()
    ensures Run(RivalRun()) && RivalRun()[9].Known() && Stops(RivalRun()[9], 2)
  {
    hide Step, Initial, Protocol.Known, Scene, Stops;
    var run := RivalRun();
    SceneStarts(run[0]);
    SceneTaken(run[0], run[1]);
    assert StepAt(run, 0);
    SceneWokenSecond(run[1], run[2]);
    assert StepAt(run, 1);
    SceneBlocked(run[2], run[3]);
    assert StepAt(run, 2);
    SceneTimedOut(run[3], run[4]);
    assert StepAt(run, 3);
    SceneGiven(run[4], run[5]);
    assert StepAt(run, 4);
    SceneRound(run[5], run[6]);
    assert StepAt(run, 5);
    SceneWokenThird(run[6], run[7]);
    assert StepAt(run, 6);
    SceneOvertaken(run[7], run[8]);
    assert StepAt(run, 7);
    SceneSlept(run[8], run[9]);
    assert StepAt(run, 8);
    SceneStops(run[9]);
  }

  lemma SceneIsKnown(first: Status, second: Status, third: Status, p: nat, holder: Option<Task>, waiters: seq<Task>)
    requires p < MAX_PRIORITIES && (holder.Some? ==> 1 <= holder.value <= 3)
    ensures Scene(first, second, third, p, holder, waiters).Known()
  {
    var s := Scene(first, second, third, p, holder, waiters);
    SceneKeys(first, second, third, p, holder, waiters);
    forall t <- s.status ensures s.priority[t] < MAX_PRIORITIES && s.basePriority[t] < MAX_PRIORITIES
                                 && s.eventValue[t] == MAX_PRIORITIES - s.priority[t] {
    }
  }

  lemma SceneKeys(first: Status, second: Status, third: Status, p: nat, holder: Option<Task>, waiters: seq<Task>)
    requires p < MAX_PRIORITIES
    ensures var s := Scene(first, second, third, p, holder, waiters);
            && s.status.Keys == {1, 2, 3} == s.priority.Keys == s.basePriority.Keys == s.mutexesHeld.Keys
            && s.eventValue.Keys == {1, 2, 3} && s.holder.Keys == s.waiters.Keys == {0}
  {
  }

  lemma SceneRuns(first: Status, second: Status, third: Status, p: nat, holder: Option<Task>, waiters: seq<Task>, r: Task)
    requires p < MAX_PRIORITIES && (holder.Some? ==> 1 <= holder.value <= 3) && 1 <= r <= 3
    requires var s := Scene(first, second, third, p, holder, waiters);
             && s.Runnable(r) && (s.Runnable(1) ==> p <= s.priority[r]) && (s.Runnable(2) ==> 2 <= s.priority[r])
             && (s.Runnable(3) ==> 3 <= s.priority[r])
    ensures var s := Scene(first, second, third, p, holder, waiters); s.Known() && s.Runs(r)
  {
    hide Protocol.Known, Protocol.Runnable;
    SceneIsKnown(first, second, third, p, holder, waiters);
  }

  lemma OneQueued(values: map<Task, nat>, t: Task)
    requires t in values
    ensures InsertAt([], InsertPos(ValuesOf([], values), values[t]), t) == [t]
  {
  }

  lemma OneRemoved(t: Task)
    ensures IndexOf([t], t) == 0 && RemoveAt([t], 0) == []
  {
  }

  lemma SceneStarts(s: Protocol)
    requires s == Scene(Running, Asleep, Asleep, 1, None, [])
    ensures Initial(s)
  {
    hide Protocol.Known;
    SceneIsKnown(Running, Asleep, Asleep, 1, None, []);
    assert s.status.Keys == {1, 2, 3};
  }

  lemma SceneTaken(s: Protocol, t: Protocol)
    requires s == Scene(Running, Asleep, Asleep, 1, None, []) && t == Scene(Running, Asleep, Asleep, 1, Some(1), [])
    ensures s.Known() && Step(s, t)
  {
    hide Protocol.Known, Protocol.Runs, Block, Give, TimeOut, GiveUp, GoRound, Fail, Leave, Sleep, WakeUp;
    SceneRuns(Running, Asleep, Asleep, 1, None, [], 1);
    assert Take(s, 1, 0, t);
  }

  lemma SceneWokenSecond(s: Protocol, t: Protocol)
    requires s == Scene(Running, Asleep, Asleep, 1, Some(1), []) && t == Scene(Running, Running, Asleep, 1, Some(1), [])
    ensures s.Known() && Step(s, t)
  {
    hide Protocol.Known, Protocol.Runs, Take, Block, Give, TimeOut, GiveUp, GoRound, Fail, Leave, Sleep;
    SceneIsKnown(Running, Asleep, Asleep, 1, Some(1), []);
    assert WakeUp(s, 2, t);
  }

  /** What a scene becomes when its second task joins or leaves the waiters, with the priority it lends to the first. */
  lemma SecondMoves(before: Status, after: Status, p: nat, q: nat, queued: seq<Task>, left: seq<Task>)
    requires p < MAX_PRIORITIES && q < MAX_PRIORITIES
    ensures var s := Scene(Running, before, Asleep, p, Some(1), queued);
            && s.(status := s.status[2 := after], waiters := s.waiters[0 := left],
                  priority := s.priority[1 := q], eventValue := s.eventValue[1 := MAX_PRIORITIES - q])
               == Scene(Running, after, Asleep, q, Some(1), left)
  {
    SecondOfThree(Running, before, Asleep, after);
    FirstOfThree(p, 2, 3, q);
    FirstOfThree(MAX_PRIORITIES - p, MAX_PRIORITIES - 2, MAX_PRIORITIES - 3, MAX_PRIORITIES - q);
    OnlyOne(queued, left);
  }

  lemma SecondOfThree<T>(a: T, b: T, c: T, x: T)
    ensures map[1 := a, 2 := b, 3 := c][2 := x] == map[1 := a, 2 := x, 3 := c]
  {
  }

  lemma FirstOfThree<T>(a: T, b: T, c: T, x: T)
    ensures map[1 := a, 2 := b, 3 := c][1 := x] == map[1 := x, 2 := b, 3 := c]
  {
  }

  lemma OnlyOne<T>(a: T, x: T)
    ensures map[0 := a][0 := x] == map[0 := x]
  {
  }

  /** The entries of a scene with the mutex in the hands of the first task */
  lemma SecondFacts(second: Status, p: nat, waiters: seq<Task>)
    requires p < MAX_PRIORITIES
    ensures var s := Scene(Running, second, Asleep, p, Some(1), waiters);
            && s.Known() && 1 in s.priority && s.priority[1] == p && 2 in s.priority && s.priority[2] == 2
            && 1 in s.basePriority && s.basePriority[1] == 1 && 2 in s.mutexesHeld && s.mutexesHeld[2] == 0
            && 1 in s.eventValue && s.eventValue[1] == MAX_PRIORITIES - p
            && 2 in s.eventValue && s.eventValue[2] == MAX_PRIORITIES - 2
            && 2 in s.status && s.status[2] == second
            && 0 in s.holder && s.holder[0] == Some(1) && 0 in s.waiters && s.waiters[0] == waiters
            && s.priority[1 := p] == s.priority && s.eventValue[1 := MAX_PRIORITIES - p] == s.eventValue
  {
    hide Protocol.Known;
    SceneIsKnown(Running, second, Asleep, p, Some(1), waiters);
    var s := Scene(Running, second, Asleep, p, Some(1), waiters);
    assert s.priority[1 := p] == s.priority && s.eventValue[1 := MAX_PRIORITIES - p] == s.eventValue;
  }

  lemma SceneBlocked(s: Protocol, t: Protocol)
    requires s == Scene(Running, Running, Asleep, 1, Some(1), [])
    requires t == Scene(Running, Waiting(0, true), Asleep, 2, Some(1), [2])
    ensures s.Known() && Step(s, t)
  {
    hide Scene, Protocol.Known, Protocol.Runs, Take, Give, TimeOut, GiveUp, GoRound, Fail, Leave, Sleep, WakeUp, InsertAt,
         InsertPos, ValuesOf;
    SecondFacts(Running, 1, []);
    SecondRuns(s);
    OneQueued(s.eventValue, 2);
    SecondMoves(Running, Waiting(0, true), 1, 2, [], [2]);
    assert Block(s, 2, 0, t);
  }

  lemma SecondRuns(s: Protocol)
    requires s == Scene(Running, Running, Asleep, 1, Some(1), [])
    ensures s.Known() && s.Runs(2)
  {
    hide Protocol.Known, Protocol.Runs;
    SceneRuns(Running, Running, Asleep, 1, Some(1), [], 2);
  }

  lemma SceneTimedOut(s: Protocol, t: Protocol)
    requires s == Scene(Running, Waiting(0, true), Asleep, 2, Some(1), [2])
    requires t == Scene(Running, Retrying(0, true, false), Asleep, 2, Some(1), [])
    ensures s.Known() && Step(s, t)
  {
    hide Scene, Protocol.Known, Protocol.Runs, Take, Block, Give, GiveUp, GoRound, Fail, Leave, Sleep, WakeUp, RemoveAt,
         IndexOf;
    SecondFacts(Waiting(0, true), 2, [2]);
    OneRemoved(2);
    SecondMoves(Waiting(0, true), Retrying(0, true, false), 2, 2, [2], []);
    assert TimeOut(s, 2, t);
  }

  lemma SceneGiven(s: Protocol, t: Protocol)
    requires s == Scene(Running, Retrying(0, true, false), Asleep, 2, Some(1), [])
    requires t == Scene(Running, Retrying(0, true, false), Asleep, 1, None, [])
    ensures s.Known() && Step(s, t)
  {
    hide Protocol.Known, Protocol.Runs, Take, Block, TimeOut, GiveUp, GoRound, Fail, Leave, Sleep, WakeUp;
    SceneRuns(Running, Retrying(0, true, false), Asleep, 2, Some(1), [], 1);
    assert Give(s, 1, 0, t);
  }

  lemma SceneRound(s: Protocol, t: Protocol)
    requires s == Scene(Running, Retrying(0, true, false), Asleep, 1, None, [])
    requires t == Scene(Running, Retrying(0, true, true), Asleep, 1, None, [])
    ensures s.Known() && Step(s, t)
  {
    hide Protocol.Known, Protocol.Runs, Take, Block, Give, TimeOut, GiveUp, Fail, Leave, Sleep, WakeUp;
    SceneRuns(Running, Retrying(0, true, false), Asleep, 1, None, [], 2);
    assert GoRound(s, 2, t);
  }

  lemma SceneWokenThird(s: Protocol, t: Protocol)
    requires s == Scene(Running, Retrying(0, true, true), Asleep, 1, None, [])
    requires t == Scene(Running, Retrying(0, true, true), Running, 1, None, [])
    ensures s.Known() && Step(s, t)
  {
    hide Protocol.Known, Protocol.Runs, Take, Block, Give, TimeOut, GiveUp, GoRound, Fail, Leave, Sleep;
    SceneIsKnown(Running, Retrying(0, true, true), Asleep, 1, None, []);
    assert WakeUp(s, 3, t);
  }

  lemma SceneOvertaken(s: Protocol, t: Protocol)
    requires s == Scene(Running, Retrying(0, true, true), Running, 1, None, [])
    requires t == Scene(Running, Retrying(0, true, true), Running, 1, Some(3), [])
    ensures s.Known() && Step(s, t)
  {
    hide Protocol.Known, Protocol.Runs, Block, Give, TimeOut, GiveUp, GoRound, Fail, Leave, Sleep, WakeUp;
    SceneRuns(Running, Retrying(0, true, true), Running, 1, None, [], 3);
    assert Take(s, 3, 0, t);
  }

  lemma SceneSlept(s: Protocol, t: Protocol)
    requires s == Scene(Running, Retrying(0, true, true), Running, 1, Some(3), [])
    requires t == Scene(Running, Retrying(0, true, true), Asleep, 1, Some(3), [])
    ensures s.Known() && Step(s, t)
  {
    hide Protocol.Known, Protocol.Runs, Take, Block, Give, TimeOut, GiveUp, GoRound, Fail, Leave, WakeUp;
    SceneRuns(Running, Retrying(0, true, true), Running, 1, Some(3), [], 3);
    assert Sleep(s, 3, t);
  }

  lemma SceneStops(s: Protocol)
    requires s == Scene(Running, Retrying(0, true, true), Asleep, 1, Some(3), [])
    ensures s.Known() && Stops(s, 2)
  {
    hide Protocol.Known, Protocol.Runs;
    SceneRuns(Running, Retrying(0, true, true), Asleep, 1, Some(3), [], 2);
  }

  // ---------------------------------------------------------------------------------------------
  // The kernel's functions do what the steps say

  /** The kernel's tables of priorities are those of the protocol. */
  ghost predicate Shows(k: State, s: Protocol) {
    && k.priority == s.priority && k.basePriority == s.basePriority
    && k.mutexesHeld == s.mutexesHeld && k.eventValue == s.eventValue
  }

  /** A new task: what `prvInitialiseNewTask` sets */
  lemma JoinIsKernel(k: State, s: Protocol, x: Task, p: nat, t: Protocol)
    requires s.Valid() && Join(s, x, p, t) && Shows(k, s)
    requires k.ListsOk() && x !in k.stateItems.container
    ensures t.Valid() && Shows(Created(k, x, p), t)
  {
    hide Table.Valid, Table.Append, Protocol.Valid;
    JoinKeeps(s, x, p, t);
  }

  /** The first task joins a protocol without tasks. */
  lemma BootedIsKernel(lists: map<StateList, Ring<Task>>, events: map<EventList, Ring<Task>>, s: Protocol, x: Task, p: nat,
                       t: Protocol)
    requires Initial(s) && s.status == map[] && Join(s, x, p, t)
    ensures t.Valid() && Shows(SchedulerRuns.Booted(lists, events, x, p), t)
  {
    hide Protocol.Valid, Protocol.MutexOk, Protocol.CountsOk, Protocol.BasesOk;
    InitialIsValid(s);
    JoinKeeps(s, x, p, t);
    assert s.priority == map[] && s.basePriority == map[] && s.mutexesHeld == map[] && s.eventValue == map[];
  }

  /** Taking: `pvTaskIncrementMutexHeldCount` */
  lemma TakeIsKernel(k: State, s: Protocol, r: Task, m: Mutex, t: Protocol)
    requires s.Known() && Take(s, r, m, t) && Shows(k, s)
    ensures r in k.mutexesHeld && Shows(k.(mutexesHeld := k.mutexesHeld[r := k.mutexesHeld[r] + 1]), t)
  {
  }

  /** Waiting: `xTaskPriorityInherit`, with the result that `xQueueSemaphoreTake` keeps in `xInheritanceOccurred`. */
  lemma BlockIsKernel(k: State, s: Protocol, r: Task, m: Mutex, t: Protocol)
    requires s.Known() && Block(s, r, m, t) && Shows(k, s)
    requires k.ListsOk() && k.current == r && s.holder[m].value in k.stateItems.container
    ensures var (k', inherited) := Inherit(k, s.holder[m].value);
            Shows(k', t) && t.status[r] == Waiting(m, inherited)
  {
    hide Table.Valid, Table.Move, InsertAt, InsertPos;
  }

  /** Giving back: `xTaskPriorityDisinherit` */
  lemma GiveIsKernel(k: State, s: Protocol, r: Task, m: Mutex, t: Protocol)
    requires s.Known() && Give(s, r, m, t) && Shows(k, s)
    requires k.ListsOk() && r in k.stateItems.container
    ensures Shows(Disinherit(k, r).0, t)
    ensures r in s.priority && r in t.priority
    ensures s.BasesOk() ==> (Disinherit(k, r).1 <==> t.priority[r] < s.priority[r])
  {
    hide Unqueued, Protocol.Runs, Disinherit;
    RunnerKnown(s, r);
    GiveTables(s, r, m, t);
    DisinheritTables(k, r);
  }

  lemma DisinheritTables(k: State, h: Task)
    requires k.ListsOk() && h in k.stateItems.container && h in k.priority
    requires k.mutexesHeld[h] > 0 && k.basePriority[h] < MAX_PRIORITIES
    ensures Disinherit(k, h).1 == (k.priority[h] != k.basePriority[h] && k.mutexesHeld[h] == 1)
    ensures var t, lowered := Disinherit(k, h).0, k.priority[h] != k.basePriority[h] && k.mutexesHeld[h] == 1;
            && t.basePriority == k.basePriority && t.mutexesHeld == k.mutexesHeld[h := k.mutexesHeld[h] - 1]
            && t.priority == (if lowered then k.priority[h := k.basePriority[h]] else k.priority)
            && t.eventValue == if lowered then k.eventValue[h := MAX_PRIORITIES - k.basePriority[h]] else k.eventValue
  {
    hide Table.Valid, Table.Move;
  }

  lemma GiveTables(s: Protocol, r: Task, m: Mutex, t: Protocol)
    requires s.Known() && Give(s, r, m, t)
    ensures r in s.priority && r in s.basePriority && r in s.mutexesHeld && s.mutexesHeld[r] > 0
    ensures s.basePriority[r] < MAX_PRIORITIES
    ensures var lowered := s.priority[r] != s.basePriority[r] && s.mutexesHeld[r] == 1;
            && t.basePriority == s.basePriority && t.mutexesHeld == s.mutexesHeld[r := s.mutexesHeld[r] - 1]
            && t.priority == (if lowered then s.priority[r := s.basePriority[r]] else s.priority)
            && t.eventValue == if lowered then s.eventValue[r := MAX_PRIORITIES - s.basePriority[r]] else s.eventValue
  {
    hide Protocol.Runs, Unqueued;
    RunnerKnown(s, r);
    var lowered := s.priority[r] != s.basePriority[r] && s.mutexesHeld[r] == 1;
    var u := s.(mutexesHeld := s.mutexesHeld[r := s.mutexesHeld[r] - 1],
                priority := if lowered then s.priority[r := s.basePriority[r]] else s.priority,
                eventValue := if lowered then s.eventValue[r := MAX_PRIORITIES - s.basePriority[r]]
                              else s.eventValue,
                holder := s.holder[m := None]);
    if s.waiters[m] != [] {
      UnqueuedTables(u, m, s.waiters[m][0]);
    }
  }

  lemma UnqueuedTables(s: Protocol, m: Mutex, w: Task)
    ensures var t := Unqueued(s, m, w);
            && t.priority == s.priority && t.basePriority == s.basePriority
            && t.mutexesHeld == s.mutexesHeld && t.eventValue == s.eventValue
  {
  }

  /** Giving up: `prvGetDisinheritPriorityAfterTimeout` and `vTaskPriorityDisinheritAfterTimeout` */
  lemma LeaveIsKernel(k: State, s: Protocol, r: Task, t: Protocol)
    requires s.Known() && Leave(s, r, t) && Shows(k, s)
    requires k.ListsOk() && s.holder[s.status[r].mutex].Some?
    requires s.holder[s.status[r].mutex].value in k.stateItems.container
    ensures var m := s.status[r].mutex;
            && HighestWaiting(s, m) < MAX_PRIORITIES
            && Shows(DisinheritAfterTimeout(k, s.holder[m].value, HighestWaiting(s, m)), t)
  {
    hide Table.Valid, Table.Move;
  }
}
