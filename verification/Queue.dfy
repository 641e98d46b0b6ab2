/**
 The data side of lib/freertos/queue.c: the ring buffer of fixed-size items behind a queue, and the critical
 sections that move items and wake tasks.
 */
module Queue {
  import opened ListSpec
  import opened Numbers
  import opened Options
  import opened QueueProtocol

  datatype Position = ToBack | ToFront | Overwrite

  /** The ring buffer: cells, the next cell to write, the last cell read and the number of items. */
  datatype CellRing<Item> = CellRing(cells: seq<Item>, writeTo: nat, readFrom: nat, count: nat) {
    function First(): nat {
      Wrapped(readFrom + 1, |cells|)
    }

    ghost predicate Valid() {
      && 0 < |cells| && count <= |cells| && readFrom < |cells|
      && writeTo == Wrapped(First() + count, |cells|)
    }

    function Contents(): (s: seq<Item>)
      requires Valid()
      ensures |s| == count && forall i :: 0 <= i < count ==> s[i] == At(i)
    {
      seq(count, i requires 0 <= i < count => At(i))
    }

    function At(i: nat): Item
      requires Valid() && i < |cells|
    {
      cells[Wrapped(First() + i, |cells|)]
    }

    /** `prvCopyDataToQueue` at the back */
    function Back(x: Item): CellRing<Item>
      requires writeTo < |cells|
    {
      CellRing(cells[writeTo := x], Wrapped(writeTo + 1, |cells|), readFrom, count + 1)
    }

    /** at the front, and over the only item of a queue of length one */
    function Front(x: Item, overwrite: bool): CellRing<Item>
      requires readFrom < |cells|
    {
      CellRing(cells[readFrom := x], writeTo, if readFrom == 0 then |cells| - 1 else readFrom - 1,
               if overwrite && count > 0 then count else count + 1)
    }

    /** `prvCopyDataFromQueue`, and one item less */
    function Taken(): CellRing<Item>
      requires count > 0
    {
      this.(readFrom := First(), count := count - 1)
    }
  }

  /** One cell further at the back. */
  lemma PushBack<Item>(r: CellRing<Item>, x: Item)
    requires r.Valid() && r.count < |r.cells|
    ensures r.Back(x).Valid() && r.Back(x).Contents() == r.Contents() + [x]
  {
    var t := r.Back(x);
    assert forall i :: 0 <= i < r.count ==> t.At(i) == r.At(i);
    assert t.At(r.count) == x;
  }

  /** One cell in front of the first, which on a ring of one cell is the first. */
  lemma PushFront<Item>(r: CellRing<Item>, x: Item, overwrite: bool)
    requires r.Valid() && if overwrite then |r.cells| == 1 else r.count < |r.cells|
    ensures r.Front(x, overwrite).Valid()
    ensures r.Front(x, overwrite).Contents() == if overwrite then [x] else [x] + r.Contents()
  {
    var t := r.Front(x, overwrite);
    assert t.At(0) == x;
    forall i | 1 <= i < t.count ensures t.At(i) == r.At(i - 1) {
      assert Wrapped(t.First() + i, |t.cells|) == Wrapped(r.First() + (i - 1), |r.cells|);
    }
  }

  lemma Pop<Item>(r: CellRing<Item>)
    requires r.Valid() && r.count > 0
    ensures r.Taken().Valid() && [r.cells[r.First()]] + r.Taken().Contents() == r.Contents()
  {
    var t := r.Taken();
    assert r.At(0) == r.cells[t.readFrom];
    forall i | 0 <= i < t.count ensures t.At(i) == r.At(i + 1) {
      assert Wrapped(t.First() + i, |t.cells|) == Wrapped(r.First() + (i + 1), |r.cells|);
    }
  }

  /** Whoever has waited at the front of the list is woken; the others stay as they were. */
  predicate FirstWoken(before: seq<Task>, woken: Option<Task>, after: seq<Task>) {
    before == (if woken.Some? then [woken.value] else []) + after && (woken.None? ==> before == [])
  }

  /** ... unless the list is not to be touched. */
  predicate FirstWokenUnless(untouched: bool, before: seq<Task>, woken: Option<Task>, after: seq<Task>) {
    if untouched then woken.None? && after == before else FirstWoken(before, woken, after)
  }

  class Queue<Item> {
    const length: nat           // uxLength
    const carriesData: bool     // uxItemSize is not 0; otherwise the queue is a semaphore
    const storage: array<Item>  // one cell an item, from pcHead to pcTail
    var writeTo: nat            // pcWriteTo, the next cell to write
    var readFrom: nat           // pcReadFrom, the last cell read
    var messagesWaiting: nat
    var waitingToReceive: seq<Task>
    var waitingToSend: seq<Task>
    var txLock: int             // cTxLock, posts made while locked
    var rxLock: int             // cRxLock

    /** The counts are within their bounds. */
    ghost predicate Valid()
      reads this, storage
    {
      && Sound() && messagesWaiting <= length
      && UNLOCKED <= txLock <= MAX_LOCK && UNLOCKED <= rxLock <= MAX_LOCK
    }

    /** The lists name no task twice, and the ring has its items, if any. */
    ghost predicate Sound()
      reads this, storage
    {
      && 0 < length && NoDup(waitingToReceive) && NoDup(waitingToSend)
      && (carriesData ==> storage.Length == length && View().Valid())
    }

    ghost function View(): CellRing<Item>
      reads this, storage
    {
      CellRing(storage[..], writeTo, readFrom, messagesWaiting)
    }

    /** The receiving direction as module QueueProtocol sees it, with these tasks woken. */
    ghost function Receivers(woken: set<Task>): Half
      reads this
    {
      Half(waitingToReceive, woken, txLock)
    }

    ghost function Senders(woken: set<Task>): Half
      reads this
    {
      Half(waitingToSend, woken, rxLock)
    }

    /** The items in the queue, the next one to be received first. */
    ghost function Contents(): (s: seq<Item>)
      requires Sound() && carriesData
      reads this, storage
      ensures |s| == messagesWaiting
    {
      View().Contents()
    }

    constructor (length: nat, carriesData: bool, filler: Item)
      requires length > 0
      ensures Valid() && fresh(storage) && this.length == length && this.carriesData == carriesData
      ensures messagesWaiting == 0 && Receivers({}) == Senders({}) == Half([], {}, UNLOCKED)
    {
      this.length := length;
      this.carriesData := carriesData;
      storage := new Item[length](_ => filler);
      writeTo := 0;
      readFrom := length - 1;
      messagesWaiting := 0;
      waitingToReceive, waitingToSend := [], [];
      txLock, rxLock := UNLOCKED, UNLOCKED;
    }

    /** `prvCopyDataToQueue` at the back */
    method CopyToBack(x: Item)
      requires Valid() && carriesData && messagesWaiting < length
      modifies this`writeTo, this`messagesWaiting, storage
      ensures Valid() && Contents() == old(Contents()) + [x]
    {
      hide NoDup, CellRing.Contents;
      ghost var was := View();
      storage[writeTo] := x;
      writeTo := writeTo + 1;
      if writeTo >= length {
        writeTo := 0;
      }
      messagesWaiting := messagesWaiting + 1;
      PushBack(was, x);
      assert View() == was.Back(x);
    }

    /** `prvCopyDataToQueue` at the front, and over the only item of a queue of length one */
    method CopyToFront(x: Item, overwrite: bool)
      requires Valid() && carriesData && (if overwrite then length == 1 else messagesWaiting < length)
      modifies this`readFrom, this`messagesWaiting, storage
      ensures Valid() && Contents() == if overwrite then [x] else [x] + old(Contents())
    {
      hide NoDup, CellRing.Contents;
      ghost var was := View();
      storage[readFrom] := x;
      if readFrom == 0 {
        readFrom := length - 1;
      } else {
        readFrom := readFrom - 1;
      }
      var messages := messagesWaiting;
      if overwrite && messages > 0 {
        messages := messages - 1;
      }
      messagesWaiting := messages + 1;
      PushFront(was, x, overwrite);
      assert View() == was.Front(x, overwrite);
    }

    /** `prvCopyDataFromQueue` followed by taking the item off the count */
    method CopyFrom() returns (x: Item)
      requires Valid() && carriesData && messagesWaiting > 0
      modifies this`readFrom, this`messagesWaiting
      ensures Valid() && [x] + Contents() == old(Contents())
    {
      hide NoDup, CellRing.Contents;
      ghost var was := View();
      readFrom := readFrom + 1;
      if readFrom >= length {
        readFrom := 0;
      }
      x := storage[readFrom];
      messagesWaiting := messagesWaiting - 1;
      Pop(was);
      assert View() == was.Taken();
    }

    /** `prvCopyDataToQueue`; a semaphore only counts, and takes no notice of an overwriting */
    method CopyDataToQueue(x: Item, position: Position)
      requires Valid() && (if position.Overwrite? then length == 1 else messagesWaiting < length)
      modifies this`writeTo, this`readFrom, this`messagesWaiting, storage
      ensures Sound()
      ensures messagesWaiting == if position.Overwrite? && carriesData then 1 else old(messagesWaiting) + 1
      ensures carriesData ==> Contents() == Added(old(Contents()), x, position)
    {
      if !carriesData {
        messagesWaiting := messagesWaiting + 1;
      } else if position.ToBack? {
        CopyToBack(x);
      } else {
        CopyToFront(x, position.Overwrite?);
      }
    }

    /** `xTaskRemoveFromEventList` on the receivers, if there are any */
    method WakeReceiver() returns (woken: Option<Task>)
      requires Sound()
      modifies this`waitingToReceive
      ensures Sound() && Receivers(Woke(woken)) == old(Receivers({})).Wake()
      ensures FirstWoken(old(waitingToReceive), woken, waitingToReceive)
    {
      woken := None;
      if waitingToReceive != [] {
        woken, waitingToReceive := Some(waitingToReceive[0]), waitingToReceive[1..];
      }
    }

    method WakeSender() returns (woken: Option<Task>)
      requires Sound()
      modifies this`waitingToSend
      ensures Sound() && Senders(Woke(woken)) == old(Senders({})).Wake()
      ensures FirstWoken(old(waitingToSend), woken, waitingToSend)
    {
      woken := None;
      if waitingToSend != [] {
        woken, waitingToSend := Some(waitingToSend[0]), waitingToSend[1..];
      }
    }

    /**
     The first critical section of `xQueueGenericSend`.  It keeps the count within the length if and only if it does not
     overwrite on a semaphore that is full, which makes the count 2.
     */
    method Send(x: Item, position: Position) returns (ok: bool, woken: Option<Task>)
      requires Valid() && (position.Overwrite? ==> length == 1)
      modifies this, storage
      ensures Sound() && ok == (old(messagesWaiting) < length || position.Overwrite?)
      ensures Valid() <==> (position.Overwrite? && !carriesData ==> old(messagesWaiting) < length)
      ensures ok ==> messagesWaiting == if position.Overwrite? && carriesData then 1 else old(messagesWaiting) + 1
      ensures ok && carriesData ==> Contents() == Added(old(Contents()), x, position)
      ensures ok ==> Receivers(Woke(woken)) == old(Receivers({})).Wake()
      ensures ok ==> FirstWoken(old(waitingToReceive), woken, waitingToReceive)
      ensures !ok ==> unchanged(this) && unchanged(storage) && woken == None
      ensures Senders({}) == old(Senders({}))
    {
      ok, woken := messagesWaiting < length || position.Overwrite?, None;
      if ok {
        CopyDataToQueue(x, position);
        woken := WakeReceiver();
      }
    }

    /** `xQueueGenericSendFromISR`, and `xQueueGiveFromISR` for semaphores, for which `cTxLock` must have room, too */
    method SendFromISR(x: Item, position: Position) returns (ok: bool, woken: Option<Task>)
      requires Valid() && (position.Overwrite? ==> length == 1)
      modifies this, storage
      ensures Sound() && ok == (old(messagesWaiting) < length || position.Overwrite?)
      ensures Valid() <==> && (position.Overwrite? && !carriesData ==> old(messagesWaiting) < length)
                           && (ok ==> old(txLock) < MAX_LOCK)
      ensures ok ==> messagesWaiting == if position.Overwrite? && carriesData then 1 else old(messagesWaiting) + 1
      ensures ok && carriesData ==> Contents() == Added(old(Contents()), x, position)
      ensures ok ==> Receivers(Woke(woken)) == old(Receivers({})).Supplied()
      ensures ok ==> FirstWokenUnless(old(txLock) != UNLOCKED, old(waitingToReceive), woken, waitingToReceive)
      ensures !ok ==> unchanged(this) && unchanged(storage) && woken == None
      ensures Senders({}) == old(Senders({}))
    {
      ok, woken := messagesWaiting < length || position.Overwrite?, None;
      if ok {
        var lock := txLock;
        CopyDataToQueue(x, position);
        if lock == UNLOCKED {
          woken := WakeReceiver();
        } else {
          txLock := Bumped(lock);
        }
      }
    }

    /** Taking one message, or one unit of a semaphore */
    method Take() returns (x: Option<Item>)
      requires Valid() && messagesWaiting > 0
      modifies this`readFrom, this`messagesWaiting
      ensures Valid() && messagesWaiting == old(messagesWaiting) - 1
      ensures if carriesData then x.Some? && [x.value] + Contents() == old(Contents()) else x.None?
    {
      x := None;
      if carriesData {
        var item := CopyFrom();
        x := Some(item);
      } else {
        messagesWaiting := messagesWaiting - 1;
      }
    }

    /** The first critical section of `xQueueReceive` and of `xQueueSemaphoreTake` */
    method Receive() returns (ok: bool, x: Option<Item>, woken: Option<Task>)
      requires Valid()
      modifies this
      ensures Valid() && ok == (old(messagesWaiting) > 0)
      ensures ok ==> messagesWaiting == old(messagesWaiting) - 1
      ensures ok && carriesData ==> x.Some? && [x.value] + Contents() == old(Contents())
      ensures ok ==> Senders(Woke(woken)) == old(Senders({})).Wake()
      ensures ok ==> FirstWoken(old(waitingToSend), woken, waitingToSend)
      ensures !ok ==> unchanged(this) && x == None && woken == None
      ensures Receivers({}) == old(Receivers({}))
    {
      ok, x, woken := messagesWaiting > 0, None, None;
      if ok {
        x := Take();
        woken := WakeSender();
      }
    }

    /** `xQueueReceiveFromISR`, for which `cRxLock` must have room */
    method ReceiveFromISR() returns (ok: bool, x: Option<Item>, woken: Option<Task>)
      requires Valid()
      modifies this
      ensures Sound() && ok == (old(messagesWaiting) > 0)
      ensures Valid() <==> (ok ==> old(rxLock) < MAX_LOCK)
      ensures ok ==> messagesWaiting == old(messagesWaiting) - 1
      ensures ok && carriesData ==> x.Some? && [x.value] + Contents() == old(Contents())
      ensures ok ==> Senders(Woke(woken)) == old(Senders({})).Supplied()
      ensures ok ==> FirstWokenUnless(old(rxLock) != UNLOCKED, old(waitingToSend), woken, waitingToSend)
      ensures !ok ==> unchanged(this) && x == None && woken == None
      ensures Receivers({}) == old(Receivers({}))
    {
      ok, x, woken := messagesWaiting > 0, None, None;
      if ok {
        var lock := rxLock;
        x := Take();
        if lock == UNLOCKED {
          woken := WakeSender();
        } else {
          rxLock := Bumped(lock);
        }
      }
    }

    /** The first critical section of `xQueuePeek`: read, put the read pointer back, pass the wake-up on. */
    method Peek() returns (ok: bool, x: Option<Item>, woken: Option<Task>)
      requires Valid()
      modifies this
      ensures Valid() && ok == (old(messagesWaiting) > 0)
      ensures messagesWaiting == old(messagesWaiting) && Senders({}) == old(Senders({}))
      ensures carriesData ==> Contents() == old(Contents()) && (ok ==> x == Some(Contents()[0]))
      ensures Receivers(Woke(woken)) == if ok then old(Receivers({})).Wake() else old(Receivers({}))
      ensures FirstWokenUnless(!ok, old(waitingToReceive), woken, waitingToReceive)
    {
      ok, x, woken := messagesWaiting > 0, None, None;
      if ok {
        if carriesData {
          var original := readFrom;
          readFrom := readFrom + 1;
          if readFrom >= length {
            readFrom := 0;
          }
          x := Some(storage[readFrom]);
          readFrom := original;
        }
        woken := WakeReceiver();
      }
    }

    /** `prvLockQueue` */
    method Lock()
      requires Valid()
      modifies this`txLock, this`rxLock
      ensures Valid() && Receivers({}) == old(Receivers({})).Locked() && Senders({}) == old(Senders({})).Locked()
      ensures txLock == (if old(txLock) < 0 then 0 else old(txLock)) && rxLock == if old(rxLock) < 0 then 0 else old(rxLock)
    {
      if rxLock == UNLOCKED {
        rxLock := 0;
      }
      if txLock == UNLOCKED {
        txLock := 0;
      }
    }

    /** The first critical section of `prvUnlockQueue`; `woken` lists whom it wakes, in order. */
    method UnlockTx() returns (woken: seq<Task>)
      requires Valid()
      modifies this`txLock, this`waitingToReceive
      ensures Valid() && Receivers(Elements(woken)) == old(Receivers({})).Unlocked()
      ensures old(waitingToReceive) == woken + waitingToReceive
    {
      hide NoDup, Half.Unlocked, CellRing.Valid;
      var lock := txLock;
      woken := [];
      while lock > 0 && waitingToReceive != []
        invariant old(waitingToReceive) == woken + waitingToReceive
        invariant txLock == old(txLock) && lock == txLock - |woken| && (lock >= 0 || woken == [])
        decreases |waitingToReceive|
      {
        woken, waitingToReceive := woken + [waitingToReceive[0]], waitingToReceive[1..];
        lock := lock - 1;
      }
      Drained(old(waitingToReceive), txLock, woken, waitingToReceive);
      txLock := UNLOCKED;
    }

    /** The second one */
    method UnlockRx() returns (woken: seq<Task>)
      requires Valid()
      modifies this`rxLock, this`waitingToSend
      ensures Valid() && Senders(Elements(woken)) == old(Senders({})).Unlocked()
      ensures old(waitingToSend) == woken + waitingToSend
    {
      hide NoDup, Half.Unlocked, CellRing.Valid;
      var lock := rxLock;
      woken := [];
      while lock > 0 && waitingToSend != []
        invariant old(waitingToSend) == woken + waitingToSend
        invariant rxLock == old(rxLock) && lock == rxLock - |woken| && (lock >= 0 || woken == [])
        decreases |waitingToSend|
      {
        woken, waitingToSend := woken + [waitingToSend[0]], waitingToSend[1..];
        lock := lock - 1;
      }
      Drained(old(waitingToSend), rxLock, woken, waitingToSend);
      rxLock := UNLOCKED;
    }

    /** `xQueueGenericReset` of a queue in use: it wakes one blocked sender, however many there are. */
    method Reset() returns (woken: Option<Task>)
      requires Valid()
      modifies this
      ensures Valid() && messagesWaiting == 0 && txLock == rxLock == UNLOCKED
      ensures waitingToReceive == old(waitingToReceive)
      ensures Senders(Woke(woken)) == Half(old(waitingToSend), {}, UNLOCKED).Wake()
      ensures FirstWoken(old(waitingToSend), woken, waitingToSend)
    {
      messagesWaiting, writeTo, readFrom := 0, 0, length - 1;
      txLock, rxLock := UNLOCKED, UNLOCKED;
      woken := WakeSender();
    }

    /** `uxQueueSpacesAvailable` */
    method SpacesAvailable() returns (n: nat)
      requires Valid()
      ensures carriesData ==> |Contents()| + n == length
      ensures messagesWaiting + n == length
    {
      n := length - messagesWaiting;
    }
  }

  // ---------------------------------------------------------------------------------------------
  // Whole runs on the ring

  datatype Op<Item> = Put(x: Item, position: Position) | Look | Take

  datatype Reply<Item> = Reply(ok: bool, item: Option<Item>)

  /** Overwriting is for queues of length one. */
  predicate Allowed<Item(!new)>(op: Op<Item>, length: nat) {
    op.Put? && op.position.Overwrite? ==> length == 1
  }

  /** One operation on the cells and pointers. */
  function OnRing<Item(!new)>(r: CellRing<Item>, op: Op<Item>): (t: (CellRing<Item>, Reply<Item>))
    requires r.Valid() && Allowed(op, |r.cells|)
  {
    match op
    case Put(x, position) =>
      if r.count < |r.cells| || position.Overwrite?
      then (if position.ToBack? then r.Back(x) else r.Front(x, position.Overwrite?), Reply(true, None))
      else (r, Reply(false, None))
    case Look => (r, if r.count > 0 then Reply(true, Some(r.cells[r.First()])) else Reply(false, None))
    case Take => if r.count > 0 then (r.Taken(), Reply(true, Some(r.cells[r.First()]))) else (r, Reply(false, None))
  }

  /** The same on a bounded sequence of items. */
  function OnItems<Item>(items: seq<Item>, length: nat, op: Op<Item>): (t: (seq<Item>, Reply<Item>)) {
    match op
    case Put(x, position) =>
      if |items| < length || position.Overwrite? then (Added(items, x, position), Reply(true, None))
      else (items, Reply(false, None))
    case Look => (items, if items != [] then Reply(true, Some(items[0])) else Reply(false, None))
    case Take => if items != [] then (items[1..], Reply(true, Some(items[0]))) else (items, Reply(false, None))
  }

  lemma StepRefines<Item(!new)>(r: CellRing<Item>, op: Op<Item>)
    requires r.Valid() && Allowed(op, |r.cells|)
    ensures OnRing(r, op).0.Valid() && |OnRing(r, op).0.cells| == |r.cells|
    ensures (OnRing(r, op).0.Contents(), OnRing(r, op).1) == OnItems(r.Contents(), |r.cells|, op)
  {
    hide CellRing.Contents;
    match op
    case Put(x, position) =>
      if position.ToBack? && r.count < |r.cells| {
        PushBack(r, x);
      } else if position.Overwrite? || r.count < |r.cells| {
        PushFront(r, x, position.Overwrite?);
      }
    case _ =>
      if r.count > 0 {
        Pop(r);
      }
  }

  /** A run of operations leads from `r` to `t`, with these replies. */
  ghost predicate RingRun<Item(!new)>(r: CellRing<Item>, ops: seq<Op<Item>>, replies: seq<Reply<Item>>, t: CellRing<Item>)
    requires r.Valid()
    decreases |ops|
  {
    && |replies| == |ops|
    && if ops == [] then t == r
       else
         && Allowed(ops[0], |r.cells|)
         && OnRing(r, ops[0]).1 == replies[0]
         && OnRing(r, ops[0]).0.Valid()
         && RingRun(OnRing(r, ops[0]).0, ops[1..], replies[1..], t)
  }

  function ItemsAfter<Item>(items: seq<Item>, length: nat, ops: seq<Op<Item>>): seq<Item>
    decreases |ops|
  {
    if ops == [] then items else ItemsAfter(OnItems(items, length, ops[0]).0, length, ops[1..])
  }

  function Replies<Item>(items: seq<Item>, length: nat, ops: seq<Op<Item>>): seq<Reply<Item>>
    decreases |ops|
  {
    if ops == [] then []
    else [OnItems(items, length, ops[0]).1] + Replies(OnItems(items, length, ops[0]).0, length, ops[1..])
  }

  /**
   The ring refines a bounded deque: whatever mix of posts at the back and at the front, overwriting, peeks and
   receives, and however often the pointers go round, it gives the same replies and holds the same items.
   */
  lemma {:induction false} RingIsDeque<Item(!new)>(
    r: CellRing<Item>, ops: seq<Op<Item>>, replies: seq<Reply<Item>>, t: CellRing<Item>)
    requires r.Valid() && RingRun(r, ops, replies, t)
    ensures t.Valid() && |t.cells| == |r.cells|
    ensures t.Contents() == ItemsAfter(r.Contents(), |r.cells|, ops)
    ensures replies == Replies(r.Contents(), |r.cells|, ops)
    decreases |ops|
  {
    hide CellRing.Valid, CellRing.Contents, OnRing, OnItems;
    if ops != [] {
      StepRefines(r, ops[0]);
      RingIsDeque(OnRing(r, ops[0]).0, ops[1..], replies[1..], t);
      assert replies == [replies[0]] + replies[1..];
    }
  }

  /** What an operation has put into the queue, */
  function In<Item>(op: Op<Item>, reply: Reply<Item>): seq<Item> {
    if op.Put? && reply.ok then [op.x] else []
  }

  /** and what it has handed out for good. */
  function Out<Item>(op: Op<Item>, reply: Reply<Item>): seq<Item> {
    if op.Take? && reply.item.Some? then [reply.item.value] else []
  }

  function Accepted<Item>(ops: seq<Op<Item>>, replies: seq<Reply<Item>>): seq<Item>
    requires |ops| == |replies|
  {
    if ops == [] then [] else In(ops[0], replies[0]) + Accepted(ops[1..], replies[1..])
  }

  function Received<Item>(ops: seq<Op<Item>>, replies: seq<Reply<Item>>): seq<Item>
    requires |ops| == |replies|
  {
    if ops == [] then [] else Out(ops[0], replies[0]) + Received(ops[1..], replies[1..])
  }

  lemma OneFlow<Item>(items: seq<Item>, length: nat, op: Op<Item>)
    requires op.Put? ==> op.position.ToBack?
    ensures var (next, reply) := OnItems(items, length, op); Out(op, reply) + next == items + In(op, reply)
  {
  }

  lemma Joined<Item>(items: seq<Item>, x: seq<Item>, y: seq<Item>, next: seq<Item>, later: seq<Item>, taken: seq<Item>,
                     left: seq<Item>)
    requires y + next == items + x && taken + left == next + later
    ensures (y + taken) + left == items + (x + later)
  {
    calc {
      (y + taken) + left;
      y + (taken + left);
      y + (next + later);
      (y + next) + later;
      (items + x) + later;
      items + (x + later);
    }
  }

  /**
   On the ring itself: without posts to the front or overwriting, every accepted item is received once, in order, or
   is still there.
   */
  lemma {:induction false} FirstInFirstOut<Item(!new)>(
    r: CellRing<Item>, ops: seq<Op<Item>>, replies: seq<Reply<Item>>, t: CellRing<Item>)
    requires r.Valid() && RingRun(r, ops, replies, t)
    requires forall op <- ops :: op.Put? ==> op.position.ToBack?
    ensures t.Valid() && Received(ops, replies) + t.Contents() == r.Contents() + Accepted(ops, replies)
    decreases |ops|
  {
    hide CellRing.Valid, CellRing.Contents, OnRing, OnItems, In, Out;
    if ops != [] {
      var next := OnRing(r, ops[0]).0;
      StepRefines(r, ops[0]);
      OneFlow(r.Contents(), |r.cells|, ops[0]);
      FirstInFirstOut(next, ops[1..], replies[1..], t);
      Joined(r.Contents(), In(ops[0], replies[0]), Out(ops[0], replies[0]), next.Contents(),
             Accepted(ops[1..], replies[1..]), Received(ops[1..], replies[1..]), t.Contents());
    }
  }

  /** What the loops of `prvUnlockQueue` leave behind. */
  lemma Drained(waiting: seq<Task>, lock: int, woken: seq<Task>, rest: seq<Task>)
    requires NoDup(waiting) && waiting == woken + rest
    requires |woken| <= lock || woken == []
    requires lock - |woken| <= 0 || rest == []
    ensures NoDup(rest)
    ensures Half(waiting, {}, lock).Unlocked() == Half(rest, Elements(woken), UNLOCKED)
  {
    assert |woken| == WakeCount(lock, |waiting|);
    assert waiting[..|woken|] == woken && waiting[|woken|..] == rest;
  }

  /** What a send makes of the queue's contents. */
  function Added<Item>(items: seq<Item>, x: Item, position: Position): seq<Item> {
    match position
    case ToBack => items + [x]
    case ToFront => [x] + items
    case Overwrite => [x]
  }

  function Woke(woken: Option<Task>): set<Task> {
    if woken.Some? then {woken.value} else {}
  }
}
