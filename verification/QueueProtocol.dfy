/**
 The concurrent side of lib/freertos/queue.c: tasks that look at a queue and block on it, interrupts that post to
 it and take from it meanwhile, and the two lock counts that keep interrupts away from the waiting lists.

 One step is one critical section.  Sending and receiving mirror each other: a sender supplies messages to the
 receivers, a receiver supplies free slots to the senders.
 */
module QueueProtocol {
  import opened ListSpec
  import opened Numbers

  type Task = nat

  const UNLOCKED := -1
  const MAX_LOCK := 127

  /** `( int8_t ) ( lock + 1 )` */
  function Bumped(lock: int): (r: int) {
    if lock == MAX_LOCK then -128 else lock + 1
  }

  /** It is the sum modulo 2^8, between -2^7 and 2^7. */
  lemma BumpedMeans(lock: int)
    requires -128 <= lock <= 127
    ensures -128 <= Bumped(lock) <= 127 && (Bumped(lock) == lock + 1 || Bumped(lock) == lock + 1 - 256)
  {
  }

  /** How many waiting tasks `prvUnlockQueue` takes off a list. */
  function WakeCount(lock: int, waiting: nat): (n: nat)
    ensures n <= waiting
  {
    if lock <= 0 then 0 else if lock < waiting then lock else waiting
  }

  // ---------------------------------------------------------------------------------------------
  // One direction of a queue

  /**
   The tasks that wait for what this direction supplies, those an event has woken and that have not tried again
   yet, and the lock count.
   */
  datatype Half = Half(waiting: seq<Task>, woken: set<Task>, lock: int) {
    ghost predicate Well() {
      NoDup(waiting) && (forall t <- waiting :: t !in woken) && UNLOCKED <= lock <= MAX_LOCK
    }

    /** Wake-ups already on their way: tasks woken, and posts recorded while locked. */
    function Promised(): (n: nat) {
      |woken| + if lock > 0 then lock else 0
    }

    /** Nobody is left waiting for something that no wake-up has been promised for. */
    predicate Covers(supply: int) {
      waiting != [] ==> supply <= Promised()
    }

    /** `xTaskRemoveFromEventList` if the list is not empty. */
    function Wake(): Half {
      if waiting == [] then this else this.(waiting := waiting[1..], woken := woken + {waiting[0]})
    }

    /** What an interrupt does after it has supplied one unit. */
    function Supplied(): Half {
      if lock == UNLOCKED then Wake() else this.(lock := Bumped(lock))
    }

    /** A woken task has had its try. */
    function Tried(t: Task): Half {
      this.(woken := woken - {t})
    }

    function Enqueued(t: Task, p: nat): Half
      requires p <= |waiting|
    {
      this.(waiting := InsertAt(waiting, p, t))
    }

    /** A block time runs out. */
    function Expired(k: nat): Half
      requires k < |waiting|
    {
      this.(waiting := RemoveAt(waiting, k))
    }

    /** `prvLockQueue` */
    function Locked(): Half {
      if lock == UNLOCKED then this.(lock := 0) else this
    }

    /** Half of `prvUnlockQueue` */
    function Unlocked(): Half {
      var n := WakeCount(lock, |waiting|);
      Half(waiting[n..], woken + Elements(waiting[..n]), UNLOCKED)
    }
  }

  /** Exactly the task at the front of the list is woken. */
  lemma WakesFirst(h: Half)
    requires h.Well() && h.waiting != []
    ensures exists w :: h.waiting == [w] + h.Wake().waiting && w !in h.woken && h.Wake().woken == h.woken + {w}
  {
    var w := h.waiting[0];
    assert w in h.waiting;
    assert h.waiting == [w] + h.waiting[1..];
  }

  lemma WakeKeeps(h: Half, supply: int)
    requires h.Well() && h.Covers(supply)
    ensures h.Wake().Well() && h.Wake().Covers(supply + 1)
  {
    if h.waiting != [] {
      assert h.waiting[0] in h.waiting;
    }
  }

  lemma SuppliedKeeps(h: Half, supply: int)
    requires h.Well() && h.Covers(supply) && h.lock < MAX_LOCK
    ensures h.Supplied().Well() && h.Supplied().Covers(supply + 1)
  {
    if h.lock == UNLOCKED {
      WakeKeeps(h, supply);
    }
  }

  /** A woken task that has had its try must have used up one unit, or found none. */
  lemma TriedKeeps(h: Half, supply: int, left: int, t: Task)
    requires h.Well() && h.Covers(supply) && left <= supply
    requires t in h.woken ==> left == 0 || left < supply
    ensures h.Tried(t).Well() && h.Tried(t).Covers(left)
  {
    if t !in h.woken {
      assert h.Tried(t) == h;
    }
  }

  lemma EnqueuedKeeps(h: Half, supply: int, t: Task, p: nat)
    requires h.Well() && supply <= h.Promised() && t !in h.waiting && t !in h.woken && p <= |h.waiting|
    ensures h.Enqueued(t, p).Well() && h.Enqueued(t, p).Covers(supply)
  {
  }

  lemma ExpiredKeeps(h: Half, supply: int, k: nat)
    requires h.Well() && h.Covers(supply) && k < |h.waiting|
    ensures h.Expired(k).Well() && h.Expired(k).Covers(supply)
  {
  }

  /** Unlocking turns every recorded post into a wake-up, as far as there is anyone to wake. */
  lemma UnlockedWakes(h: Half)
    requires h.Well()
    ensures var n := WakeCount(h.lock, |h.waiting|);
            && h.waiting == h.waiting[..n] + h.Unlocked().waiting
            && |h.Unlocked().woken| == |h.woken| + n
            && (forall t <- h.waiting[..n] :: t in h.Unlocked().woken)
  {
    var n := WakeCount(h.lock, |h.waiting|);
    var out := h.waiting[..n];
    DistinctCount(out);
    assert forall t <- out :: t in h.waiting;
    assert h.woken !! Elements(out);
  }

  lemma UnlockedKeeps(h: Half, supply: int)
    requires h.Well() && h.Covers(supply)
    ensures h.Unlocked().Well() && h.Unlocked().Covers(supply)
  {
    UnlockedWakes(h);
    var n := WakeCount(h.lock, |h.waiting|);
    forall t <- h.waiting[n..] ensures t !in h.Unlocked().woken {
      var i :| n <= i < |h.waiting| && h.waiting[i] == t;
      assert h.waiting[i] in h.waiting;
      assert t !in h.waiting[..n];
    }
  }

  // ---------------------------------------------------------------------------------------------
  // The queue

  datatype Side = Receiving | Sending

  /** How far the one task that holds the queue locked has come. */
  datatype Stage =
    | Idle
    | Looking(side: Side, owner: Task)  // locked, is about to look at the queue again
    | Placing(side: Side, owner: Task)  // has found it empty (full) and will go on the waiting list
    | Unlocking                         // is about to look at cTxLock
    | UnlockingRx                       // is about to look at cRxLock

  datatype Channel = Channel(capacity: nat, messages: nat, receivers: Half, senders: Half, stage: Stage) {
    function Of(side: Side): Half {
      if side == Receiving then receivers else senders
    }

    /** Messages for the receivers, free slots for the senders. */
    function Supply(side: Side): int {
      if side == Receiving then messages else capacity - messages
    }

    predicate Waits(t: Task) {
      t in receivers.waiting || t in senders.waiting
    }

    predicate Woken(t: Task) {
      t in receivers.woken || t in senders.woken
    }

    ghost predicate LocksOk() {
      match stage
      case Idle => receivers.lock == UNLOCKED && senders.lock == UNLOCKED
      case UnlockingRx => receivers.lock == UNLOCKED && senders.lock >= 0
      case _ => receivers.lock >= 0 && senders.lock >= 0
    }

    ghost predicate StageOk() {
      match stage
      case Looking(_, t) => !Waits(t) && !Woken(t)
      case Placing(side, t) => !Waits(t) && !Woken(t) && Supply(side) <= Of(side).Promised()
      case _ => true
    }

    ghost predicate Valid() {
      && messages <= capacity
      && receivers.Well() && senders.Well() && LocksOk() && StageOk()
      && receivers.Covers(Supply(Receiving)) && senders.Covers(Supply(Sending))
    }
  }

  datatype Action =
    | Send(t: Task, overwrite: bool)       // first critical section of xQueueGenericSend
    | Receive(t: Task)                     // of xQueueReceive and xQueueSemaphoreTake
    | Peek(t: Task)                        // of xQueuePeek
    | Lock(t: Task, side: Side)            // vTaskSuspendAll, prvLockQueue
    | Look(timedOut: bool)                 // xTaskCheckForTimeOut, prvIsQueueEmpty, prvIsQueueFull
    | Place(p: nat)                        // vTaskPlaceOnEventList
    | UnlockTx                             // the two halves of prvUnlockQueue
    | UnlockRx
    | SendFromISR(overwrite: bool)         // and xQueueGiveFromISR
    | ReceiveFromISR
    | Expire(side: Side, k: nat)           // the tick ends a wait

  /** A send puts one message more into the queue, unless it overwrites one. */
  function Sent(c: Channel): nat {
    if c.messages < c.capacity then c.messages + 1 else c.messages
  }

  /**
   Tasks run only while no task has the scheduler suspended.  A woken task goes on with the call it was blocked
   in; overwriting never blocks, and is for queues of length one that carry data (see `Queue.Send` for semaphores).
   */
  predicate Enabled(c: Channel, a: Action) {
    match a
    case Send(t, overwrite) =>
      c.stage == Idle && !c.Waits(t) && t !in c.receivers.woken && (overwrite ==> t !in c.senders.woken && c.capacity == 1)
    case Receive(t) => c.stage == Idle && !c.Waits(t) && t !in c.senders.woken
    case Peek(t) => c.stage == Idle && !c.Waits(t) && t !in c.senders.woken
    case Lock(t, _) => c.stage == Idle && !c.Waits(t) && !c.Woken(t)
    case Look(_) => c.stage.Looking?
    case Place(p) => c.stage.Placing? && p <= |c.Of(c.stage.side).waiting|
    case UnlockTx => c.stage == Unlocking
    case UnlockRx => c.stage == UnlockingRx
    case SendFromISR(overwrite) => (overwrite ==> c.capacity == 1) && c.receivers.lock < MAX_LOCK
    case ReceiveFromISR => c.senders.lock < MAX_LOCK
    case Expire(side, k) => k < |c.Of(side).waiting|
  }

  function Apply(c: Channel, a: Action): Channel
    requires Enabled(c, a)
  {
    match a
    case Send(t, overwrite) =>
      if c.messages < c.capacity || overwrite
      then c.(messages := Sent(c), receivers := c.receivers.Wake(), senders := c.senders.Tried(t))
      else c.(senders := c.senders.Tried(t))
    case Receive(t) =>
      if c.messages > 0
      then c.(messages := c.messages - 1, receivers := c.receivers.Tried(t), senders := c.senders.Wake())
      else c.(receivers := c.receivers.Tried(t))
    case Peek(t) =>
      if c.messages > 0
      then c.(receivers := c.receivers.Tried(t).Wake())
      else c.(receivers := c.receivers.Tried(t))
    case Lock(t, side) =>
      c.(receivers := c.receivers.Locked(), senders := c.senders.Locked(), stage := Looking(side, t))
    case Look(timedOut) =>
      c.(stage := if !timedOut && c.Supply(c.stage.side) == 0 then Placing(c.stage.side, c.stage.owner) else Unlocking)
    case Place(p) =>
      if c.stage.side == Receiving
      then c.(receivers := c.receivers.Enqueued(c.stage.owner, p), stage := Unlocking)
      else c.(senders := c.senders.Enqueued(c.stage.owner, p), stage := Unlocking)
    case UnlockTx => c.(receivers := c.receivers.Unlocked(), stage := UnlockingRx)
    case UnlockRx => c.(senders := c.senders.Unlocked(), stage := Idle)
    case SendFromISR(overwrite) =>
      if c.messages < c.capacity || overwrite
      then c.(messages := Sent(c), receivers := c.receivers.Supplied())
      else c
    case ReceiveFromISR =>
      if c.messages > 0
      then c.(messages := c.messages - 1, senders := c.senders.Supplied())
      else c
    case Expire(side, k) =>
      if side == Receiving then c.(receivers := c.receivers.Expired(k)) else c.(senders := c.senders.Expired(k))
  }

  lemma Mono(h: Half, supply: int, less: int)
    requires h.Covers(supply) && less <= supply
    ensures h.Covers(less)
  {
  }

  lemma SendKeeps(c: Channel, t: Task, overwrite: bool)
    requires c.Valid() && Enabled(c, Send(t, overwrite))
    ensures Apply(c, Send(t, overwrite)).Valid()
  {
    hide Half.Well, Half.Covers, Half.Wake, Half.Tried, Half.Promised;
    var c' := Apply(c, Send(t, overwrite));
    SameLocks(c.receivers, t);
    SameLocks(c.senders, t);
    TriedKeeps(c.senders, c.Supply(Sending), c'.Supply(Sending), t);
    if c.messages < c.capacity || overwrite {
      WakeKeeps(c.receivers, c.messages);
      Mono(c'.receivers, c.messages + 1, c'.messages);
    }
  }

  lemma SameLocks(h: Half, t: Task)
    ensures h.Wake().lock == h.Tried(t).lock == h.lock
  {
  }

  lemma ReceiveKeeps(c: Channel, t: Task)
    requires c.Valid() && Enabled(c, Receive(t))
    ensures Apply(c, Receive(t)).Valid()
  {
    hide Half.Well, Half.Covers, Half.Wake, Half.Tried, Half.Promised;
    var c' := Apply(c, Receive(t));
    SameLocks(c.receivers, t);
    SameLocks(c.senders, t);
    TriedKeeps(c.receivers, c.messages, c'.messages, t);
    if c.messages > 0 {
      WakeKeeps(c.senders, c.Supply(Sending));
    }
  }

  /** A peeking task uses nothing up, so it passes its wake-up on. */
  lemma PeekKeeps(c: Channel, t: Task)
    requires c.Valid() && Enabled(c, Peek(t))
    ensures Apply(c, Peek(t)).Valid()
  {
    if c.messages == 0 {
      TriedKeeps(c.receivers, 0, 0, t);
    } else {
      var tried := c.receivers.Tried(t);
      if tried.waiting != [] {
        assert tried.waiting[0] in tried.waiting;
        assert |tried.Wake().woken| == |tried.woken| + 1;
        assert |tried.woken| + 1 >= |c.receivers.woken|;
      }
      assert Apply(c, Peek(t)).receivers == tried.Wake();
    }
  }

  lemma WindowKeeps(c: Channel, a: Action)
    requires c.Valid() && Enabled(c, a) && (a.Lock? || a.Look?)
    ensures Apply(c, a).Valid()
  {
  }

  lemma PlaceKeeps(c: Channel, p: nat)
    requires c.Valid() && Enabled(c, Place(p))
    ensures Apply(c, Place(p)).Valid()
  {
    hide Half.Well, Half.Covers, Half.Promised, InsertAt;
    EnqueuedKeeps(c.Of(c.stage.side), c.Supply(c.stage.side), c.stage.owner, p);
  }

  lemma UnlockKeeps(c: Channel, a: Action)
    requires c.Valid() && Enabled(c, a) && (a.UnlockTx? || a.UnlockRx?)
    ensures Apply(c, a).Valid()
  {
    hide Half.Well, Half.Covers, Half.Promised;
    if a.UnlockTx? {
      UnlockedKeeps(c.receivers, c.messages);
    } else {
      UnlockedKeeps(c.senders, c.Supply(Sending));
    }
  }

  lemma SuppliedStays(h: Half, supply: int, t: Task)
    requires h.Well() && h.lock < MAX_LOCK
    ensures UNLOCKED <= h.Supplied().lock && (h.Supplied().lock == UNLOCKED <==> h.lock == UNLOCKED)
    ensures t in h.Supplied().waiting || t in h.Supplied().woken ==> t in h.waiting || t in h.woken
    ensures h.lock >= 0 && supply <= h.Promised() ==> supply + 1 <= h.Supplied().Promised()
    ensures h.Supplied().lock <= MAX_LOCK
  {
  }

  lemma SendFromISRKeeps(c: Channel, overwrite: bool)
    requires c.Valid() && Enabled(c, SendFromISR(overwrite))
    ensures Apply(c, SendFromISR(overwrite)).Valid()
  {
    hide Half.Well, Half.Covers, Half.Promised, Half.Supplied;
    var c' := Apply(c, SendFromISR(overwrite));
    if c.messages < c.capacity || overwrite {
      SuppliedKeeps(c.receivers, c.messages);
      Mono(c'.receivers, c.messages + 1, c'.messages);
      Mono(c.senders, c.Supply(Sending), c'.Supply(Sending));
      SuppliedStays(c.receivers, c.messages, if c.stage.Looking? || c.stage.Placing? then c.stage.owner else 0);
    }
  }

  lemma ReceiveFromISRKeeps(c: Channel)
    requires c.Valid() && Enabled(c, ReceiveFromISR)
    ensures Apply(c, ReceiveFromISR).Valid()
  {
    hide Half.Well, Half.Covers, Half.Promised, Half.Supplied;
    var c' := Apply(c, ReceiveFromISR);
    if c.messages > 0 {
      SuppliedKeeps(c.senders, c.Supply(Sending));
      Mono(c.receivers, c.messages, c'.messages);
      SuppliedStays(c.senders, c.Supply(Sending), if c.stage.Looking? || c.stage.Placing? then c.stage.owner else 0);
    }
  }

  lemma ExpireKeeps(c: Channel, side: Side, k: nat)
    requires c.Valid() && Enabled(c, Expire(side, k))
    ensures Apply(c, Expire(side, k)).Valid()
  {
    ExpiredKeeps(c.Of(side), c.Supply(side), k);
    assert forall t <- RemoveAt(c.Of(side).waiting, k) :: t in c.Of(side).waiting;
  }

  /** Every step of a task, an interrupt or the tick keeps the invariant. */
  lemma StepKeeps(c: Channel, a: Action)
    requires c.Valid() && Enabled(c, a)
    ensures Apply(c, a).Valid()
  {
    hide Half.Well, Half.Covers, Half.Promised, Apply, Channel.LocksOk, Channel.StageOk;
    match a
    case Send(t, overwrite) => SendKeeps(c, t, overwrite);
    case Receive(t) => ReceiveKeeps(c, t);
    case Peek(t) => PeekKeeps(c, t);
    case Lock(_, _) => WindowKeeps(c, a);
    case Look(_) => WindowKeeps(c, a);
    case Place(p) => PlaceKeeps(c, p);
    case UnlockTx => UnlockKeeps(c, a);
    case UnlockRx => UnlockKeeps(c, a);
    case SendFromISR(overwrite) => SendFromISRKeeps(c, overwrite);
    case ReceiveFromISR => ReceiveFromISRKeeps(c);
    case Expire(side, k) => ExpireKeeps(c, side, k);
  }

  // ---------------------------------------------------------------------------------------------
  // Whole runs

  function Created(capacity: nat): Channel {
    Channel(capacity, 0, Half([], {}, UNLOCKED), Half([], {}, UNLOCKED), Idle)
  }

  /** `actions` can happen one after the other from `c` on, and end in `d`. */
  ghost predicate Leads(c: Channel, actions: seq<Action>, d: Channel)
    decreases |actions|
  {
    if actions == [] then d == c
    else Enabled(c, actions[0]) && Leads(Apply(c, actions[0]), actions[1..], d)
  }

  lemma {:induction false} LeadsValid(c: Channel, actions: seq<Action>, d: Channel)
    requires c.Valid() && Leads(c, actions, d)
    ensures d.Valid()
    decreases |actions|
  {
    hide Channel.Valid, Apply, Enabled;
    if actions != [] {
      StepKeeps(c, actions[0]);
      LeadsValid(Apply(c, actions[0]), actions[1..], d);
    }
  }

  /** The invariant holds wherever a run of a new queue leads. */
  lemma RunsStayValid(capacity: nat, actions: seq<Action>, c: Channel)
    requires Leads(Created(capacity), actions, c)
    ensures c.Valid()
  {
    hide Leads;
    LeadsValid(Created(capacity), actions, c);
  }

  /**
   No lost wake-up: wherever a run leads, as long as a task waits to receive, every message in the queue is
   matched by a receiver that has been woken and has yet to try, or by a post recorded in `cTxLock`; and as long
   as a task waits to send, every free slot is matched in the same way.
   */
  lemma NoLostWakeUp(capacity: nat, actions: seq<Action>, c: Channel)
    requires Leads(Created(capacity), actions, c)
    ensures c.messages <= c.capacity
    ensures c.receivers.waiting != [] ==> c.messages <= |c.receivers.woken| + Max(c.receivers.lock, 0)
    ensures c.senders.waiting != [] ==> c.capacity - c.messages <= |c.senders.woken| + Max(c.senders.lock, 0)
  {
    hide Leads;
    RunsStayValid(capacity, actions, c);
  }

  /** When all who were woken have tried and the queue is not locked, only an empty (full) queue has waiters. */
  lemma QuietQueue(capacity: nat, actions: seq<Action>, c: Channel)
    requires Leads(Created(capacity), actions, c) && c.stage == Idle
    ensures c.receivers.woken == {} && c.receivers.waiting != [] ==> c.messages == 0
    ensures c.senders.woken == {} && c.senders.waiting != [] ==> c.messages == c.capacity
  {
    hide Leads;
    RunsStayValid(capacity, actions, c);
  }

  // ---------------------------------------------------------------------------------------------
  // What the room in the lock counts is for

  /**
   With somebody waiting, an interrupt's post on a locked queue is accounted for exactly if the count has room or the
   tasks already woken are enough: at 127 the conversion to `int8_t` makes the count negative, and all posts recorded
   are forgotten, at once and after unlocking.
   */
  lemma SuppliedExactly(h: Half, supply: int)
    requires h.Well() && h.lock >= 0 && h.waiting != [] && h.Covers(supply)
    ensures h.Supplied().Covers(supply + 1) <==> h.lock < MAX_LOCK || supply < |h.woken|
    ensures h.Supplied().Unlocked().Covers(supply + 1) <==> h.lock < MAX_LOCK || supply < |h.woken|
  {
    hide Half.Well, Half.Unlocked;
    CountFits(h);
    if h.lock < MAX_LOCK {
      RoomCovers(h, supply);
    } else {
      Forgotten(h.Supplied());
    }
  }

  lemma CountFits(h: Half)
    requires h.Well()
    ensures h.lock <= MAX_LOCK
  {
  }

  lemma RoomCovers(h: Half, supply: int)
    requires h.Well() && h.Covers(supply) && h.lock < MAX_LOCK
    ensures h.Supplied().Covers(supply + 1) && h.Supplied().Unlocked().Covers(supply + 1)
  {
    hide Half.Well, Half.Covers, Half.Supplied, Half.Unlocked;
    SuppliedKeeps(h, supply);
    UnlockedKeeps(h.Supplied(), supply + 1);
  }

  /** With a negative count nobody is woken. */
  lemma Forgotten(h: Half)
    requires h.lock <= 0
    ensures h.Unlocked() == h.(lock := UNLOCKED)
  {
    assert h.waiting[..0] == [] && h.waiting[0..] == h.waiting;
    assert Elements<Task>([]) == {};
  }

  /** For `cTxLock` and messages, and for `cRxLock` and free slots, in every state of a run. */
  lemma LockCountMustNotWrap(c: Channel)
    requires c.Valid()
    ensures c.receivers.lock >= 0 && c.messages < c.capacity && c.receivers.waiting != [] ==>
              var posted := c.receivers.Supplied();
              && (posted.Covers(c.messages + 1) <==> c.receivers.lock < MAX_LOCK || c.messages < |c.receivers.woken|)
              && (posted.Unlocked().Covers(c.messages + 1) <==> posted.Covers(c.messages + 1))
    ensures c.senders.lock >= 0 && c.messages > 0 && c.senders.waiting != [] ==>
              var posted, free := c.senders.Supplied(), c.capacity - c.messages;
              && (posted.Covers(free + 1) <==> c.senders.lock < MAX_LOCK || free < |c.senders.woken|)
              && (posted.Unlocked().Covers(free + 1) <==> posted.Covers(free + 1))
  {
    hide Half.Well, Half.Covers, Half.Supplied, Half.Unlocked, Channel.LocksOk, Channel.StageOk;
    if c.receivers.lock >= 0 && c.receivers.waiting != [] {
      SuppliedExactly(c.receivers, c.messages);
    }
    if c.senders.lock >= 0 && c.senders.waiting != [] {
      SuppliedExactly(c.senders, c.capacity - c.messages);
    }
  }

  lemma {:induction false} LeadsOn(c: Channel, a: seq<Action>, d: Channel, b: Action)
    requires Leads(c, a, d) && Enabled(d, b)
    ensures Leads(c, a + [b], Apply(d, b))
    decreases |a|
  {
    hide Apply, Enabled;
    if a == [] {
      assert a + [b] == [b];
      assert Leads(Apply(d, b), [], Apply(d, b));
    } else {
      LeadsOn(Apply(c, a[0]), a[1..], d, b);
      assert (a + [b])[1..] == a[1..] + [b];
    }
  }

  const LONG := MAX_LOCK + 1

  /** One task has come to wait, another is looking at the queue, and `n` posts have come in since it locked it. */
  function Crowded(n: nat): Channel {
    Channel(LONG, n, Half([1], {}, n), Half([], {}, 0), Looking(Sending, 2))
  }

  function CrowdedActions(n: nat): seq<Action> {
    [Receive(1), Lock(1, Receiving), Look(false), Place(0), UnlockTx, UnlockRx, Lock(2, Sending)]
    + seq(n, _ => SendFromISR(false))
  }

  lemma {:induction false} CrowdedLeads(n: nat)
    requires n <= MAX_LOCK
    ensures Leads(Created(LONG), CrowdedActions(n), Crowded(n))
  {
    hide Leads;
    if n == 0 {
      WaitingLeads();
      assert CrowdedActions(0)
          == [Receive(1), Lock(1, Receiving), Look(false), Place(0), UnlockTx, UnlockRx, Lock(2, Sending)];
    } else {
      CrowdedLeads(n - 1);
      LeadsOn(Created(LONG), CrowdedActions(n - 1), Crowded(n - 1), SendFromISR(false));
      assert CrowdedActions(n) == CrowdedActions(n - 1) + [SendFromISR(false)];
    }
  }

  lemma WaitingLeads()
    ensures Leads(Created(LONG),
                  [Receive(1), Lock(1, Receiving), Look(false), Place(0), UnlockTx, UnlockRx, Lock(2, Sending)], Crowded(0))
  {
    hide Leads;
    var c := Created(LONG);
    var c1 := Apply(c, Receive(1));
    var c2 := Apply(c1, Lock(1, Receiving));
    var c3 := Apply(c2, Look(false));
    var c4 := Apply(c3, Place(0));
    var c5 := Apply(c4, UnlockTx);
    var c6 := Apply(c5, UnlockRx);
    NoSteps(c);
    LeadsOn(c, [], c, Receive(1));
    LeadsOn(c, [] + [Receive(1)], c1, Lock(1, Receiving));
    LeadsOn(c, [] + [Receive(1)] + [Lock(1, Receiving)], c2, Look(false));
    LeadsOn(c, [] + [Receive(1)] + [Lock(1, Receiving)] + [Look(false)], c3, Place(0));
    LeadsOn(c, [] + [Receive(1)] + [Lock(1, Receiving)] + [Look(false)] + [Place(0)], c4, UnlockTx);
    LeadsOn(c, [] + [Receive(1)] + [Lock(1, Receiving)] + [Look(false)] + [Place(0)] + [UnlockTx], c5, UnlockRx);
    LeadsOn(c, [] + [Receive(1)] + [Lock(1, Receiving)] + [Look(false)] + [Place(0)] + [UnlockTx] + [UnlockRx], c6,
            Lock(2, Sending));
    assert Apply(c6, Lock(2, Sending)) == Crowded(0);
    assert [] + [Receive(1)] + [Lock(1, Receiving)] + [Look(false)] + [Place(0)] + [UnlockTx] + [UnlockRx]
           + [Lock(2, Sending)]
        == [Receive(1), Lock(1, Receiving), Look(false), Place(0), UnlockTx, UnlockRx, Lock(2, Sending)];
  }

  lemma NoSteps(c: Channel)
    ensures Leads(c, [], c)
  {
  }

  /** A run that gets there: with a receiver waiting and 127 posts recorded, the next one loses them all. */
  lemma LockCountCanWrap()
    ensures exists actions, c :: Leads(Created(LONG), actions, c)
              && c.receivers.lock == MAX_LOCK && c.receivers.waiting == [1] && c.messages == MAX_LOCK
              && !c.receivers.Supplied().Unlocked().Covers(c.messages + 1)
  {
    hide Leads;
    CrowdedLeads(MAX_LOCK);
    RunsStayValid(LONG, CrowdedActions(MAX_LOCK), Crowded(MAX_LOCK));
    SuppliedExactly(Crowded(MAX_LOCK).receivers, MAX_LOCK);
  }
}
