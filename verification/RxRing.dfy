/**
 The zero-copy Ethernet receive ring of CM7/core/src/ethernetif.c.

 Nine descriptors go round between the DMA, which fills them up to the tail, and the driver, which hands filled
 buffers out in pbufs; a pbuf freed by any task puts its buffer back at the tail.  One step is one access that somebody
 else could come before or after: a DMA completion, one read of a descriptor or of the DMA pointer by the input task, one
 word written to the descriptor at the tail, one move of a pointer.
 */
module RxRing {
  import opened Numbers
  import opened Options

  /** `ETH_RX_DESC_CNT` */
  const COUNT: nat := 9
  /** `ETH_RX_BUFFER_SIZE_ALIGNED`: 1528 rounded up to whole cache lines of 32 bytes */
  const BUFFER_SIZE: nat := 1536

  /** It is the least size in whole cache lines that holds `ETH_RX_BUFFER_SIZE`, the largest frame. */
  lemma BufferHoldsFrame(n: nat)
    ensures 1528 <= BUFFER_SIZE && BUFFER_SIZE % 32 == 0
    ensures n >= 1528 && n % 32 == 0 ==> n >= BUFFER_SIZE
  {
    if n < BUFFER_SIZE {
      assert n / 32 <= 47;
    }
  }

  type Buffer = nat

  /** What the DMA reports of a frame in DESC3, and which bytes it has written. */
  datatype Frame = Frame(bytes: nat, length: nat, context: bool, first: bool, last: bool)

  /** DESC0, and DESC3: owned by the DMA, or written back with a frame. */
  datatype Descriptor = Descriptor(buffer: Buffer, done: Option<Frame>)

  /** The length field of DESC3; `carbon_hw_ethernet_prepare_rx_desc` leaves it zero. */
  function LengthField(d: Descriptor): nat {
    if d.done.Some? then d.done.value.length else 0
  }

  /** The frames of which a pbuf is made. */
  predicate Accepts(f: Frame, length: nat) {
    !f.context && f.first && f.last && length <= BUFFER_SIZE
  }

  /** The descriptor is not a context descriptor, and holds a frame from beginning to end. */
  predicate IsWhole(f: Frame) {
    !f.context && f.first && f.last
  }

  /** `INCREASE_RX_POINTER` */
  function Next(i: nat): (n: nat)
    requires i < COUNT
    ensures n < COUNT
  {
    if i == COUNT - 1 then 0 else i + 1
  }

  /** How far ahead of `a` `b` is. */
  function Ahead(a: nat, b: nat): (n: nat)
    requires a < COUNT && b < COUNT
    ensures n < COUNT && (n == 0 <==> a == b)
  {
    if b >= a then b - a else b + COUNT - a
  }

  /**
   What a length field told when it was read: the length of the frame, if the DMA had completed the descriptor;
   nothing, if the descriptor was prepared; and otherwise the length of the frame that was in it one lap ago.
   */
  datatype Seen = Fresh | Blank | Stale

  /** What was read of a descriptor. */
  datatype Look = Look(buffer: Buffer, length: nat, seen: Seen)

  /**
   How far carbon_lwip_low_level_input has come.  It looks `dry` if no descriptor was armed, nor one just being given
   its buffer, when it read DESC0.
   */
  datatype Input =
    | Resting
    | Addressed(d: nat, buffer: Buffer, dry: bool) // has read DESC0
    | Peeked(d: nat, look: Look, dry: bool)        // has read the length too, not yet DMACCARDR
    | Passed(look: Look)                           // has seen that the DMA is elsewhere
    | Holding(look: Look)                          // has a pbuf for it
    | Discarding(look: Look)                       // is about to take rx_ptk_mutex
    | Recycling                                    // has it, to put the buffer back

  /** How far the holder of rx_ptk_mutex has come with carbon_lwip_prepare_rx_descriptor. */
  datatype Recycle =
    | Unlocked
    | Unprepared(buffer: Buffer, byInput: bool)
    | Refilled(buffer: Buffer, byInput: bool)      // has written DESC0
    | Prepared(buffer: Buffer, byInput: bool)      // has written DESC3
  {
    /** The descriptor at the tail has its new buffer. */
    predicate HasBuffer() {
      Refilled? || Prepared?
    }
  }

  /** What became of a frame: the length it was taken for, and whether a pbuf was made of it. */
  datatype Outcome = Outcome(frame: Frame, length: nat, seen: Seen, kept: bool)

  /** The length that is read for frame `k`. */
  function LengthRead(seen: Seen, arrived: seq<Frame>, k: nat): nat
    requires seen.Fresh? ==> k < |arrived|
    requires k <= |arrived|
  {
    match seen
    case Fresh => arrived[k].length
    case Blank => 0
    case Stale => if k >= COUNT then arrived[k - COUNT].length else 0
  }

  predicate OutcomeOk(o: Outcome, arrived: seq<Frame>, k: nat)
    requires k < |arrived|
  {
    && o.frame == arrived[k] && o.length == LengthRead(o.seen, arrived, k)
    && o.kept == Accepts(o.frame, o.length)
  }

  /** `n` descriptors in ring order. */
  function Window(descriptors: seq<Descriptor>, from: nat, n: nat): (w: seq<Descriptor>)
    requires |descriptors| == COUNT && from < COUNT && n <= COUNT
    ensures |w| == n && forall i :: 0 <= i < n ==> w[i] == descriptors[Wrapped(from + i, COUNT)]
  {
    seq(n, i requires 0 <= i < n => descriptors[Wrapped(from + i, COUNT)])
  }

  /** Each of the eight buffers in use is in one place: an armed descriptor, a pbuf, or somebody's hand. */
  ghost predicate EightBuffers(line: seq<Descriptor>, out: map<Buffer, Frame>, hand: Option<Buffer>) {
    && |line| + |out| + (if hand.Some? then 1 else 0) == COUNT - 1
    && (forall i, j :: 0 <= i < j < |line| ==> line[i].buffer != line[j].buffer)
    && (forall d <- line :: d.buffer !in out)
    && (hand.Some? ==> hand.value !in out && forall d <- line :: d.buffer != hand.value)
  }

  /** The DMA has put these frames into the first descriptors, in order, and nothing into the others. */
  ghost predicate FilledInOrder(line: seq<Descriptor>, memory: map<Buffer, Frame>, frames: seq<Frame>)
    requires |frames| <= |line|
  {
    && (forall i :: 0 <= i < |frames| ==>
          line[i].done == Some(frames[i]) && line[i].buffer in memory && memory[line[i].buffer] == frames[i])
    && (forall i :: |frames| <= i < |line| ==> line[i].done == None)
  }

  /** From position `from` on, the descriptors of a lap show what was in them a lap before. */
  ghost predicate Remembers(lap: seq<Descriptor>, from: nat, arrived: seq<Frame>, n: nat)
    requires |lap| == COUNT && n <= |arrived|
  {
    forall i :: from <= i < COUNT ==> lap[i].done == if n + i >= COUNT then Some(arrived[n + i - COUNT]) else None
  }

  datatype Ring = Ring(
    descriptors: seq<Descriptor>,
    toProcess: nat,
    current: nat,                 // DMACCARDR
    tail: nat,                    // DMACRDTPR
    input: Input,
    recycle: Recycle,
    out: map<Buffer, Frame>,      // buffers in pbufs, with what they were handed out for
    memory: map<Buffer, Frame>,   // what each buffer holds
    arrived: seq<Frame>,          // frames the DMA has completed
    handled: seq<Outcome>         // frames the driver is done with
  ) {
    ghost predicate InRange() {
      |descriptors| == COUNT && toProcess < COUNT && current < COUNT && tail < COUNT
    }

    /** The descriptors the driver has armed, from the one to process up to the tail. */
    function Line(): (line: seq<Descriptor>)
      requires |descriptors| == COUNT && toProcess < COUNT && tail < COUNT
      ensures |line| == Armed()
    {
      Window(descriptors, toProcess, Armed())
    }

    function Filled(): nat
      requires toProcess < COUNT && current < COUNT
    {
      Ahead(toProcess, current)
    }

    function Armed(): nat
      requires toProcess < COUNT && tail < COUNT
    {
      Ahead(toProcess, tail)
    }

    /** The buffer on its way from a pbuf back to the ring. */
    function InHand(): Option<Buffer> {
      match recycle
      case Unlocked => None
      case Unprepared(b, _) => Some(b)
      case Refilled(b, _) => Some(b)
      case Prepared(b, _) => Some(b)
    }

    predicate Busy() {
      !recycle.Unlocked?
    }

    /** The DMA is between the descriptor to process and the tail. */
    ghost predicate PointersOk()
      requires InRange()
    {
      Filled() <= Armed() && |arrived| == |handled| + Filled()
    }

    /** A pbuf's bytes stay what they were when it was handed out. */
    ghost predicate PbufsOk() {
      forall b <- out :: b in memory && memory[b] == out[b]
    }

    /** The length in `look` is what it was seen to be. */
    ghost predicate LengthOk(look: Look)
      requires InRange() && PointersOk()
    {
      && (look.seen.Fresh? ==> Filled() > 0)
      && look.length == LengthRead(look.seen, arrived, |handled|)
    }

    /** `look` tells of the first filled descriptor. */
    ghost predicate Sees(look: Look)
      requires InRange() && PointersOk()
    {
      Filled() > 0 && descriptors[toProcess].buffer == look.buffer && LengthOk(look)
    }

    /** Unless it was read dry, the address is that of the descriptor to process, which will not change. */
    ghost predicate AddressOk(d: nat, buffer: Buffer, dry: bool)
      requires InRange()
    {
      d == toProcess && (!dry ==> descriptors[toProcess].buffer == buffer && (Armed() > 0 || recycle.HasBuffer()))
    }

    /** The input task knows the descriptor to process. */
    ghost predicate InputOk()
      requires InRange() && PointersOk()
    {
      match input
      case Resting => true
      case Addressed(d, buffer, dry) => AddressOk(d, buffer, dry)
      case Peeked(d, look, dry) => AddressOk(d, look.buffer, dry) && LengthOk(look)
      case Passed(look) => Sees(look)
      case Holding(look) => Sees(look) && Accepts(arrived[|handled|], look.length)
      case Discarding(look) => Sees(look) && !Accepts(arrived[|handled|], look.length)
      case Recycling => true
    }

    /** The driver is done with the frames in the order in which they arrived. */
    ghost predicate HandledOk()
      requires |handled| <= |arrived|
    {
      forall k :: 0 <= k < |handled| ==> OutcomeOk(handled[k], arrived, k)
    }

    ghost predicate RecycleOk()
      requires InRange()
    {
      && (recycle.HasBuffer() ==> descriptors[tail].buffer == recycle.buffer)
      && (recycle.Prepared? ==> descriptors[tail].done == None)
      && (input.Recycling? <==> Busy() && recycle.byInput)
    }

    /** A descriptor no longer armed still shows the frame that was in it one lap ago. */
    ghost predicate HistoryOk()
      requires InRange() && |handled| <= |arrived|
    {
      Remembers(Window(descriptors, toProcess, COUNT), if recycle.Prepared? then Armed() + 1 else Armed(),
                arrived, |handled|)
    }

    ghost predicate Valid() {
      && InRange() && PointersOk() && PbufsOk() && HandledOk() && RecycleOk() && InputOk() && HistoryOk()
      && EightBuffers(Line(), out, InHand()) && FilledInOrder(Line(), memory, arrived[|handled|..])
    }
  }

  datatype Action =
    | Complete(f: Frame)      // the DMA fills the current descriptor
    | PeekAddress             // carbon_lwip_low_level_input reads DESC0,
    | PeekLength              // the length in DESC3,
    | Compare                 // and DMACCARDR,
    | Classify(room: bool)    // then the flags; `room` in the pbuf pool
    | Commit                  // and moves on
    | Discard                 // DISCARD_DESCRIPTOR up to the recycling
    | Free(b: Buffer)         // pbuf_free_custom up to the recycling
    | WriteAddress            // carbon_lwip_prepare_rx_descriptor writes DESC0
    | WriteControl            // and DESC3,
    | Publish                 // and moves the tail; then the mutex is released

  predicate Enabled(r: Ring, a: Action) {
    && |r.descriptors| == COUNT && r.toProcess < COUNT && r.current < COUNT && r.tail < COUNT
    && match a
       case Complete(_) => r.current != r.tail
       case PeekAddress => r.input.Resting?
       case PeekLength => r.input.Addressed?
       case Compare => r.input.Peeked?
       case Classify(_) => r.input.Passed?
       case Commit => r.input.Holding? && r.descriptors[r.toProcess].done.Some?
       case Discard => r.input.Discarding? && r.recycle.Unlocked? && r.descriptors[r.toProcess].done.Some?
       case Free(b) => b in r.out && r.recycle.Unlocked?
       case WriteAddress => r.recycle.Unprepared?
       case WriteControl => r.recycle.Refilled?
       case Publish => r.recycle.Prepared?
  }

  /** Either of the two conditions that stop the firmware. */
  predicate Critical(r: Ring)
    requires r.tail < COUNT
  {
    r.current == Next(r.tail) || r.toProcess == Next(r.tail)
  }

  function Apply(r: Ring, a: Action): Ring
    requires Enabled(r, a)
  {
    match a
    case Complete(f) =>
      var d := r.descriptors[r.current];
      r.(descriptors := r.descriptors[r.current := d.(done := Some(f))], memory := r.memory[d.buffer := f],
         arrived := r.arrived + [f], current := Next(r.current))
    case PeekAddress =>
      r.(input := Addressed(r.toProcess, r.descriptors[r.toProcess].buffer,
                            r.toProcess == r.tail && !r.recycle.HasBuffer()))
    case PeekLength =>
      var seen := if r.toProcess != r.current then Fresh
                  else if r.toProcess != r.tail || r.recycle.Prepared? then Blank
                  else Stale;
      r.(input := Peeked(r.input.d, Look(r.input.buffer, LengthField(r.descriptors[r.toProcess]), seen), r.input.dry))
    case Compare =>
      r.(input := if r.input.d == r.current then Resting else Passed(r.input.look))
    case Classify(room) =>
      var d := r.descriptors[r.toProcess];
      r.(input := if d.done.None? then Resting
                  else if !Accepts(d.done.value, r.input.look.length) then Discarding(r.input.look)
                  else if room then Holding(r.input.look) else Resting)
    case Commit =>
      var f, look := r.descriptors[r.toProcess].done.value, r.input.look;
      r.(out := r.out[look.buffer := f], handled := r.handled + [Outcome(f, look.length, look.seen, true)],
         toProcess := Next(r.toProcess), input := Resting)
    case Discard =>
      var f, look := r.descriptors[r.toProcess].done.value, r.input.look;
      r.(recycle := Unprepared(look.buffer, true), handled := r.handled + [Outcome(f, look.length, look.seen, false)],
         toProcess := Next(r.toProcess), input := Recycling)
    case Free(b) => r.(out := r.out - {b}, recycle := Unprepared(b, false))
    case WriteAddress =>
      if Critical(r) then r
      else r.(descriptors := r.descriptors[r.tail := r.descriptors[r.tail].(buffer := r.recycle.buffer)],
              recycle := Refilled(r.recycle.buffer, r.recycle.byInput))
    case WriteControl =>
      r.(descriptors := r.descriptors[r.tail := r.descriptors[r.tail].(done := None)],
         recycle := Prepared(r.recycle.buffer, r.recycle.byInput))
    case Publish =>
      r.(tail := Next(r.tail), recycle := Unlocked, input := if r.recycle.byInput then Resting else r.input)
  }

  /** carbon_hw_ethernet_rx_dec_list_init: all nine descriptors are prepared, eight of them armed. */
  function Created(buffers: seq<Buffer>, memory: map<Buffer, Frame>): Ring
    requires |buffers| == COUNT
  {
    Ring(seq(COUNT, i requires 0 <= i < COUNT => Descriptor(buffers[i], None)), 0, 0, COUNT - 1, Resting, Unlocked,
         map[], memory, [], [])
  }

  /** The input task goes on with an address that is no longer that of the descriptor: reading DESC0 again would tell. */
  predicate Overtaken(r: Ring, a: Action) {
    && a.Compare? && r.input.Peeked? && r.input.d != r.current
    && r.toProcess < |r.descriptors| && r.descriptors[r.toProcess].buffer != r.input.look.buffer
  }

  // ---------------------------------------------------------------------------------------------
  // Each step keeps the invariant

  lemma WindowTail(ds: seq<Descriptor>, from: nat, n: nat)
    requires |ds| == COUNT && from < COUNT && 0 < n <= COUNT
    ensures Window(ds, from, n) == [ds[from]] + Window(ds, Next(from), n - 1)
  {
    forall i | 1 <= i < n ensures Window(ds, from, n)[i] == Window(ds, Next(from), n - 1)[i - 1] {
      assert Wrapped(from + i, COUNT) == Wrapped(Next(from) + (i - 1), COUNT);
    }
  }

  lemma WindowSnoc(ds: seq<Descriptor>, from: nat, n: nat)
    requires |ds| == COUNT && from < COUNT && n < COUNT
    ensures Window(ds, from, n + 1) == Window(ds, from, n) + [ds[Wrapped(from + n, COUNT)]]
  {
  }

  lemma WindowUpdate(ds: seq<Descriptor>, from: nat, n: nat, j: nat, d: Descriptor)
    requires |ds| == COUNT && from < COUNT && n <= COUNT && j < COUNT
    ensures Window(ds[j := d], from, n)
            == if Ahead(from, j) < n then Window(ds, from, n)[Ahead(from, j) := d] else Window(ds, from, n)
  {
    var after := if Ahead(from, j) < n then Window(ds, from, n)[Ahead(from, j) := d] else Window(ds, from, n);
    forall i | 0 <= i < n ensures Window(ds[j := d], from, n)[i] == after[i] {
    }
  }

  lemma WindowTurn(ds: seq<Descriptor>, from: nat)
    requires |ds| == COUNT && from < COUNT
    ensures Window(ds, Next(from), COUNT) == Window(ds, from, COUNT)[1..] + [ds[from]]
    ensures Window(ds, from, COUNT)[0] == ds[from]
  {
    forall i | 0 <= i < COUNT - 1 ensures Window(ds, Next(from), COUNT)[i] == Window(ds, from, COUNT)[i + 1] {
      assert Wrapped(Next(from) + i, COUNT) == Wrapped(from + (i + 1), COUNT);
    }
  }

  // What the steps do to the memory of the last lap

  lemma TurnRemembers(lap: seq<Descriptor>, from: nat, arrived: seq<Frame>, n: nat)
    requires |lap| == COUNT && n < |arrived| && Remembers(lap, from, arrived, n) && from > 0
    requires lap[0].done == Some(arrived[n])
    ensures Remembers(lap[1..] + [lap[0]], from - 1, arrived, n + 1)
  {
  }

  lemma FillRemembers(lap: seq<Descriptor>, from: nat, arrived: seq<Frame>, n: nat, k: nat, d: Descriptor, f: Frame)
    requires |lap| == COUNT && n <= |arrived| && Remembers(lap, from, arrived, n) && k < from && k < COUNT
    ensures Remembers(lap[k := d], from, arrived + [f], n)
  {
  }

  // What the steps do to the line, the pbufs and the hand

  lemma TakenOut(line: seq<Descriptor>, out: map<Buffer, Frame>, hand: Option<Buffer>, f: Frame)
    requires EightBuffers(line, out, hand) && line != []
    ensures EightBuffers(line[1..], out[line[0].buffer := f], hand)
  {
    assert line[0] in line;
    assert forall d <- line[1..] :: d in line;
    var b := line[0].buffer;
    assert out[b := f].Keys == out.Keys + {b};
    forall d <- line[1..] ensures d.buffer != b {
      var i :| 0 <= i < |line[1..]| && line[1..][i] == d;
      assert line[i + 1] == d;
    }
    CountKeys(out, b, f);
  }

  lemma CountKeys(out: map<Buffer, Frame>, b: Buffer, f: Frame)
    requires b !in out
    ensures |out[b := f]| == |out| + 1
  {
  }

  lemma TakenInHand(line: seq<Descriptor>, out: map<Buffer, Frame>)
    requires EightBuffers(line, out, None) && line != []
    ensures EightBuffers(line[1..], out, Some(line[0].buffer))
  {
    assert line[0] in line;
    assert forall d <- line[1..] :: d in line;
    forall d <- line[1..] ensures d.buffer != line[0].buffer {
      var i :| 0 <= i < |line[1..]| && line[1..][i] == d;
      assert line[i + 1] == d;
    }
  }

  lemma PutBack(line: seq<Descriptor>, out: map<Buffer, Frame>, b: Buffer)
    requires EightBuffers(line, out, Some(b))
    ensures EightBuffers(line + [Descriptor(b, None)], out, None)
  {
    assert forall i :: 0 <= i < |line| ==> line[i] in line;
  }

  lemma Filling(line: seq<Descriptor>, out: map<Buffer, Frame>, hand: Option<Buffer>, k: nat, f: Frame)
    requires EightBuffers(line, out, hand) && k < |line|
    ensures EightBuffers(line[k := line[k].(done := Some(f))], out, hand)
  {
    var after := line[k := line[k].(done := Some(f))];
    assert line[k] in line;
    assert forall d <- after :: exists e <- line :: e.buffer == d.buffer;
  }

  lemma LineBuffers(line: seq<Descriptor>, out: map<Buffer, Frame>, hand: Option<Buffer>)
    requires EightBuffers(line, out, hand)
    ensures forall i, j :: 0 <= i < j < |line| ==> line[i].buffer != line[j].buffer
    ensures forall d <- line :: d.buffer !in out
  {
  }

  lemma FilledOne(line: seq<Descriptor>, memory: map<Buffer, Frame>, frames: seq<Frame>, f: Frame)
    requires |frames| < |line| && FilledInOrder(line, memory, frames)
    requires forall i, j :: 0 <= i < j < |line| ==> line[i].buffer != line[j].buffer
    ensures var k := |frames|;
            FilledInOrder(line[k := line[k].(done := Some(f))], memory[line[k].buffer := f], frames + [f])
  {
  }

  lemma PeekAddressKeeps(r: Ring)
    requires r.Valid() && Enabled(r, PeekAddress)
    ensures Apply(r, PeekAddress).Valid()
  {
    hide EightBuffers, FilledInOrder, Remembers;
  }

  /** The descriptor to process, if it is not armed, is the one at the tail, and shows its frame of one lap ago. */
  lemma PeekLengthKeeps(r: Ring)
    requires r.Valid() && Enabled(r, PeekLength)
    ensures Apply(r, PeekLength).Valid()
  {
    hide EightBuffers;
    var lap := Window(r.descriptors, r.toProcess, COUNT);
    assert lap[0] == r.descriptors[r.toProcess];
    if r.Armed() > 0 {
      assert r.Line()[0] == r.descriptors[r.toProcess];
    }
  }

  lemma CompareKeeps(r: Ring)
    requires r.Valid() && Enabled(r, Compare)
    ensures Apply(r, Compare).Valid() <==> !Overtaken(r, Compare)
  {
    hide EightBuffers, FilledInOrder, Remembers;
  }

  lemma ClassifyKeeps(r: Ring, room: bool)
    requires r.Valid() && Enabled(r, Classify(room))
    ensures Apply(r, Classify(room)).Valid()
  {
    hide EightBuffers, Remembers;
    FirstOnLine(r);
  }

  lemma FirstOnLine(r: Ring)
    requires r.InRange() && r.Armed() > 0
    ensures r.Line()[0] == r.descriptors[r.toProcess]
  {
  }

  lemma FreeKeeps(r: Ring, b: Buffer)
    requires r.Valid() && Enabled(r, Free(b))
    ensures Apply(r, Free(b)).Valid()
  {
    assert |r.out - {b}| == |r.out| - 1;
  }

  /** What the two conditions guard against: with the tail moved, the ring would look empty to the DMA or to the driver. */
  lemma CriticalMeans(r: Ring)
    requires r.InRange()
    ensures Critical(r) <==> var t := r.(tail := Next(r.tail)); t.current == t.tail || t.Armed() == 0
  {
  }

  /** With a buffer on its way back, one descriptor too few is armed for the tail to run into anything. */
  lemma NeverCritical(r: Ring)
    requires r.Valid() && r.Busy()
    ensures !Critical(r)
  {
  }

  /** Writing the descriptor at the tail does not touch the line. */
  lemma TailOffLine(r: Ring, d: Descriptor)
    requires r.InRange()
    ensures var r' := r.(descriptors := r.descriptors[r.tail := d]);
            && r'.InRange() && r'.Line() == r.Line()
            && (r.Armed() > 0 ==> r'.descriptors[r.toProcess] == r.descriptors[r.toProcess])
            && Window(r'.descriptors, r.toProcess, COUNT) == Window(r.descriptors, r.toProcess, COUNT)[r.Armed() := d]
  {
    WindowUpdate(r.descriptors, r.toProcess, r.Armed(), r.tail, d);
    WindowUpdate(r.descriptors, r.toProcess, COUNT, r.tail, d);
  }

  lemma WriteAddressKeeps(r: Ring)
    requires r.Valid() && Enabled(r, WriteAddress)
    ensures Apply(r, WriteAddress).Valid()
  {
    hide EightBuffers, FilledInOrder, Window;
    NeverCritical(r);
    var d := r.descriptors[r.tail].(buffer := r.recycle.buffer);
    TailOffLine(r, d);
    TailInLap(r);
  }

  lemma TailInLap(r: Ring)
    requires r.InRange()
    ensures Window(r.descriptors, r.toProcess, COUNT)[r.Armed()] == r.descriptors[r.tail]
  {
  }

  lemma WriteControlKeeps(r: Ring)
    requires r.Valid() && Enabled(r, WriteControl)
    ensures Apply(r, WriteControl).Valid()
  {
    hide EightBuffers, FilledInOrder;
    TailOffLine(r, r.descriptors[r.tail].(done := None));
  }

  lemma PublishKeeps(r: Ring)
    requires r.Valid() && Enabled(r, Publish)
    ensures Apply(r, Publish).Valid()
  {
    hide EightBuffers;
    var r' := Apply(r, Publish);
    PublishRoom(r);
    WindowSnoc(r.descriptors, r.toProcess, r.Armed());
    assert r'.Line() == r.Line() + [r.descriptors[r.tail]];
    PutBack(r.Line(), r.out, r.recycle.buffer);
  }

  lemma PublishRoom(r: Ring)
    requires r.Valid() && r.Busy()
    ensures r.Armed() <= COUNT - 2
  {
  }

  /** The driver takes the first descriptor off the line. */
  lemma LineShrinks(r: Ring)
    requires r.InRange() && r.PointersOk() && r.Filled() > 0
    ensures var r' := r.(toProcess := Next(r.toProcess));
            && r.Line() == [r.descriptors[r.toProcess]] + r'.Line()
            && r'.Armed() == r.Armed() - 1 && r'.Filled() == r.Filled() - 1
  {
    WindowTail(r.descriptors, r.toProcess, r.Armed());
  }

  /** The frame taken off the line is the oldest one, and is what the descriptor will still show a lap later. */
  lemma OldestTaken(r: Ring)
    requires r.Valid() && r.Filled() > 0
    ensures |r.handled| < |r.arrived| && r.descriptors[r.toProcess].done == Some(r.arrived[|r.handled|])
    ensures r.Line() != [] && r.Line()[0] == r.descriptors[r.toProcess]
    ensures r.arrived[|r.handled| + 1..] == r.arrived[|r.handled|..][1..]
    ensures FilledInOrder(r.Line()[1..], r.memory, r.arrived[|r.handled| + 1..])
    ensures Remembers(Window(r.descriptors, Next(r.toProcess), COUNT),
                      (if r.recycle.Prepared? then r.Armed() + 1 else r.Armed()) - 1, r.arrived, |r.handled| + 1)
  {
    hide EightBuffers, Remembers;
    LineShrinks(r);
    assert r.arrived[|r.handled|..][0] == r.arrived[|r.handled|];
    WindowTurn(r.descriptors, r.toProcess);
    TurnRemembers(Window(r.descriptors, r.toProcess, COUNT), if r.recycle.Prepared? then r.Armed() + 1 else r.Armed(),
                  r.arrived, |r.handled|);
  }

  lemma CommitKeeps(r: Ring)
    requires r.Valid() && Enabled(r, Commit)
    ensures Apply(r, Commit).Valid()
  {
    hide EightBuffers, FilledInOrder, Remembers, Window, Accepts, LengthRead;
    LineShrinks(r);
    OldestTaken(r);
    assert Apply(r, Commit).Line() == r.Line()[1..];
    TakenOut(r.Line(), r.out, r.InHand(), r.arrived[|r.handled|]);
    OldestInMemory(r);
  }

  lemma OldestInMemory(r: Ring)
    requires r.Valid() && r.Filled() > 0
    ensures |r.handled| < |r.arrived|
    ensures var b := r.descriptors[r.toProcess].buffer; b in r.memory && r.memory[b] == r.arrived[|r.handled|]
  {
    hide EightBuffers, Remembers;
    LineShrinks(r);
    assert r.arrived[|r.handled|..][0] == r.arrived[|r.handled|];
  }

  lemma DiscardKeeps(r: Ring)
    requires r.Valid() && Enabled(r, Discard)
    ensures Apply(r, Discard).Valid()
  {
    hide EightBuffers, FilledInOrder, Remembers, Window;
    LineShrinks(r);
    OldestTaken(r);
    assert Apply(r, Discard).Line() == r.Line()[1..];
    TakenInHand(r.Line(), r.out);
  }

  lemma CompleteLine(r: Ring, f: Frame)
    requires r.Valid() && Enabled(r, Complete(f))
    ensures var r' := Apply(r, Complete(f)); var k := r.Filled();
            && r'.InRange() && k < r.Armed() && r'.Filled() == k + 1 && r'.Armed() == r.Armed()
            && r.descriptors[r.current] == r.Line()[k]
            && r'.Line() == r.Line()[k := r.Line()[k].(done := Some(f))]
  {
    hide EightBuffers, FilledInOrder, Remembers;
    var d := r.descriptors[r.current];
    WindowUpdate(r.descriptors, r.toProcess, r.Armed(), r.current, d.(done := Some(f)));
  }

  lemma CompleteKeeps(r: Ring, f: Frame)
    requires r.Valid() && Enabled(r, Complete(f))
    ensures Apply(r, Complete(f)).Valid()
  {
    hide FilledInOrder, Remembers, EightBuffers, Window;
    var r' := Apply(r, Complete(f));
    CompleteLine(r, f);
    LineBuffers(r.Line(), r.out, r.InHand());
    Filling(r.Line(), r.out, r.InHand(), r.Filled(), f);
    FilledOne(r.Line(), r.memory, r.arrived[|r.handled|..], f);
    assert r'.arrived[|r'.handled|..] == r.arrived[|r.handled|..] + [f];
    assert r.Line()[r.Filled()] in r.Line();
    CompleteRemembers(r, f);
  }

  lemma CompleteRemembers(r: Ring, f: Frame)
    requires r.Valid() && Enabled(r, Complete(f))
    ensures Apply(r, Complete(f)).HistoryOk()
  {
    hide EightBuffers, FilledInOrder, Remembers, Window, Ring.HandledOk, Ring.InputOk, Ring.PbufsOk, Ring.RecycleOk;
    var d := r.descriptors[r.current].(done := Some(f));
    WindowUpdate(r.descriptors, r.toProcess, COUNT, r.current, d);
    FillRemembers(Window(r.descriptors, r.toProcess, COUNT), if r.recycle.Prepared? then r.Armed() + 1 else r.Armed(),
                  r.arrived, |r.handled|, r.Filled(), d, f);
  }

  /** A step keeps the invariant exactly if it is not the input task going on with an old address. */
  lemma StepKeeps(r: Ring, a: Action)
    requires r.Valid() && Enabled(r, a)
    ensures Apply(r, a).Valid() <==> !Overtaken(r, a)
  {
    hide Ring.Valid, Apply, Enabled;
    match a
    case Complete(f) => CompleteKeeps(r, f);
    case PeekAddress => PeekAddressKeeps(r);
    case PeekLength => PeekLengthKeeps(r);
    case Compare => CompareKeeps(r);
    case Classify(room) => ClassifyKeeps(r, room);
    case Commit => CommitKeeps(r);
    case Discard => DiscardKeeps(r);
    case Free(b) => FreeKeeps(r, b);
    case WriteAddress => WriteAddressKeeps(r);
    case WriteControl => WriteControlKeeps(r);
    case Publish => PublishKeeps(r);
  }

  /** Being overtaken takes a look at a time when no descriptor had a buffer for the DMA. */
  lemma OvertakenIsDry(r: Ring)
    requires r.Valid() && Enabled(r, Compare) && Overtaken(r, Compare)
    ensures r.input.dry
  {
    hide EightBuffers, FilledInOrder, Remembers;
  }

  // ---------------------------------------------------------------------------------------------
  // Whole runs

  /** `actions` can happen one after the other from `r` on, and end in `t`. */
  ghost predicate Leads(r: Ring, actions: seq<Action>, t: Ring)
    decreases |actions|
  {
    if actions == [] then t == r
    else Enabled(r, actions[0]) && Leads(Apply(r, actions[0]), actions[1..], t)
  }

  /** The input task is not overtaken on the way. */
  ghost predicate Calm(r: Ring, actions: seq<Action>)
    decreases |actions|
  {
    actions != [] && Enabled(r, actions[0]) ==>
      !Overtaken(r, actions[0]) && Calm(Apply(r, actions[0]), actions[1..])
  }

  ghost predicate ValidAllAlong(r: Ring, actions: seq<Action>)
    decreases |actions|
  {
    r.Valid() && (actions != [] && Enabled(r, actions[0]) ==> ValidAllAlong(Apply(r, actions[0]), actions[1..]))
  }

  predicate Distinct(buffers: seq<Buffer>) {
    |buffers| == COUNT && forall i, j :: 0 <= i < j < COUNT ==> buffers[i] != buffers[j]
  }

  lemma CreatedIsValid(buffers: seq<Buffer>, memory: map<Buffer, Frame>)
    requires Distinct(buffers)
    ensures Created(buffers, memory).Valid()
  {
    var r := Created(buffers, memory);
    assert forall i :: 0 <= i < |r.Line()| ==> r.Line()[i] == Descriptor(buffers[i], None);
    assert forall i :: 0 <= i < COUNT ==> Window(r.descriptors, 0, COUNT)[i] == r.descriptors[i];
  }

  /** From a valid state on, the invariant holds all along a run if and only if the input task is never overtaken. */
  lemma {:induction false} ValidIffCalm(r: Ring, actions: seq<Action>)
    requires r.Valid()
    ensures ValidAllAlong(r, actions) <==> Calm(r, actions)
    decreases |actions|
  {
    hide Ring.Valid, Apply, Enabled, Overtaken;
    if actions != [] && Enabled(r, actions[0]) {
      StepKeeps(r, actions[0]);
      if !Overtaken(r, actions[0]) {
        ValidIffCalm(Apply(r, actions[0]), actions[1..]);
      }
    }
  }

  lemma {:induction false} CalmLeadsValid(r: Ring, actions: seq<Action>, t: Ring)
    requires r.Valid() && Leads(r, actions, t) && Calm(r, actions)
    ensures t.Valid()
    decreases |actions|
  {
    hide Ring.Valid, Apply, Enabled, Overtaken;
    if actions != [] {
      StepKeeps(r, actions[0]);
      CalmLeadsValid(Apply(r, actions[0]), actions[1..], t);
    }
  }

  /** The invariant holds wherever a run leads in which the input task is not overtaken. */
  lemma RunsStayValid(buffers: seq<Buffer>, memory: map<Buffer, Frame>, actions: seq<Action>, t: Ring)
    requires Distinct(buffers) && Leads(Created(buffers, memory), actions, t) && Calm(Created(buffers, memory), actions)
    ensures t.Valid()
  {
    hide Ring.Valid, Leads, Calm;
    CreatedIsValid(buffers, memory);
    CalmLeadsValid(Created(buffers, memory), actions, t);
  }

  /**
   Wherever a run leads in which the input task is not overtaken: eight buffers in eight places, the DMA between the
   descriptor to process and the tail, no pbuf's bytes overwritten, and neither critical error in sight.
   */
  lemma RingIsSafe(buffers: seq<Buffer>, memory: map<Buffer, Frame>, actions: seq<Action>, t: Ring)
    requires Distinct(buffers) && Leads(Created(buffers, memory), actions, t) && Calm(Created(buffers, memory), actions)
    ensures t.InRange() && t.Filled() <= t.Armed() && EightBuffers(t.Line(), t.out, t.InHand())
    ensures t.Armed() + |t.out| + (if t.InHand().Some? then 1 else 0) == 8
    ensures forall b <- t.out :: b in t.memory && t.memory[b] == t.out[b]
    ensures t.Busy() ==> !Critical(t)
  {
    hide FilledInOrder, Remembers, Leads, Calm;
    RunsStayValid(buffers, memory, actions, t);
    if t.Busy() {
      NeverCritical(t);
    }
  }

  /** Every frame is dealt with once, in the order in which the DMA completed them, and none is passed over. */
  lemma FramesInOrder(buffers: seq<Buffer>, memory: map<Buffer, Frame>, actions: seq<Action>, t: Ring)
    requires Distinct(buffers) && Leads(Created(buffers, memory), actions, t) && Calm(Created(buffers, memory), actions)
    ensures t.InRange() && |t.arrived| == |t.handled| + t.Filled()
    ensures forall k :: 0 <= k < |t.handled| ==> OutcomeOk(t.handled[k], t.arrived, k)
    ensures forall k :: 0 <= k < |t.handled| ==>
              var o := t.handled[k]; o.kept <==> IsWhole(t.arrived[k]) && o.length <= 1536
  {
    hide EightBuffers, FilledInOrder, Remembers, Leads, Calm;
    RunsStayValid(buffers, memory, actions, t);
  }

  /**
   The length is read before the DMA pointer.  In every such run the length a frame is taken for is its own exactly if
   the DMA had completed the descriptor by then, or what was read instead, 0 or the length of the ninth frame before,
   happens to be the same.
   */
  lemma LengthIsRight(buffers: seq<Buffer>, memory: map<Buffer, Frame>, actions: seq<Action>, t: Ring, k: nat)
    requires Distinct(buffers) && Leads(Created(buffers, memory), actions, t) && Calm(Created(buffers, memory), actions)
    requires k < |t.handled|
    ensures k < |t.arrived| && t.handled[k].frame == t.arrived[k]
    ensures t.handled[k].length == t.handled[k].frame.length
            <==> match t.handled[k].seen
                 case Fresh => true
                 case Blank => t.arrived[k].length == 0
                 case Stale => t.arrived[k].length == if k >= COUNT then t.arrived[k - COUNT].length else 0
  {
    hide Leads, Calm;
    FramesInOrder(buffers, memory, actions, t);
  }

  // ---------------------------------------------------------------------------------------------
  // When going on with an old address does harm

  /** The ring as it would be if the input task had the address of the descriptor it is to process. */
  function Righted(r: Ring): Ring
    requires |r.descriptors| == COUNT && r.toProcess < COUNT
  {
    var b := r.descriptors[r.toProcess].buffer;
    match r.input
    case Passed(look) => r.(input := Passed(look.(buffer := b)))
    case Holding(look) => r.(input := Holding(look.(buffer := b)))
    case Discarding(look) => r.(input := Discarding(look.(buffer := b)))
    case _ => r
  }

  /** Nothing is wrong but, possibly, the address that the input task has. */
  ghost predicate Tolerable(r: Ring) {
    |r.descriptors| == COUNT && r.toProcess < COUNT && Righted(r).Valid()
  }

  /** What the rest of the firmware relies on: no buffer is in two places, and pbufs keep their bytes. */
  ghost predicate Whole(r: Ring) {
    r.InRange() && EightBuffers(r.Line(), r.out, r.InHand()) && r.PbufsOk()
  }

  /** Apart from the descriptor to process, `b` is in a pbuf, on its way back to the ring, or in an armed descriptor. */
  ghost predicate Elsewhere(r: Ring, b: Buffer)
    requires r.InRange() && r.Armed() > 0
  {
    b in r.out || r.InHand() == Some(b) || exists d <- r.Line()[1..] :: d.buffer == b
  }

  /** The input task parts with a buffer that is elsewhere too, or hands out one that does not hold the frame. */
  ghost predicate Harmful(r: Ring, a: Action) {
    && Enabled(r, a) && r.Armed() > 0
    && ((a.Commit? && (Elsewhere(r, r.input.look.buffer)
                       || r.input.look.buffer !in r.memory
                       || r.memory[r.input.look.buffer] != r.descriptors[r.toProcess].done.value))
        || (a.Discard? && Elsewhere(r, r.input.look.buffer)))
  }

  /** With `b` handed out for the first descriptor, no buffer is in two places exactly if `b` was in no other. */
  lemma TakenExactly(line: seq<Descriptor>, out: map<Buffer, Frame>, hand: Option<Buffer>, b: Buffer, f: Frame)
    requires EightBuffers(line, out, hand) && line != []
    ensures EightBuffers(line[1..], out[b := f], hand)
            <==> b !in out && hand != Some(b) && forall d <- line[1..] :: d.buffer != b
  {
    assert forall d <- line[1..] :: d in line;
    if b in out {
      assert out[b := f].Keys == out.Keys;
      SameCount(out, b, f);
    } else {
      CountKeys(out, b, f);
      assert forall i :: 0 <= i < |line[1..]| ==> line[1..][i] == line[i + 1];
    }
  }

  lemma SameCount(out: map<Buffer, Frame>, b: Buffer, f: Frame)
    requires b in out
    ensures |out[b := f]| == |out|
  {
    assert |out[b := f].Keys| == |out[b := f]| && |out.Keys| == |out|;
    assert out[b := f].Keys == out.Keys;
  }

  /** The same with `b` put back. */
  lemma HandExactly(line: seq<Descriptor>, out: map<Buffer, Frame>, b: Buffer)
    requires EightBuffers(line, out, None) && line != []
    ensures EightBuffers(line[1..], out, Some(b)) <==> b !in out && forall d <- line[1..] :: d.buffer != b
  {
    assert forall d <- line[1..] :: d in line;
    assert forall i :: 0 <= i < |line[1..]| ==> line[1..][i] == line[i + 1];
  }

  lemma RightedCommit(r: Ring)
    requires Tolerable(r) && Enabled(r, Commit)
    ensures r.InRange() && r.PointersOk() && r.Filled() > 0
    ensures r.PbufsOk() && EightBuffers(r.Line(), r.out, r.InHand()) && |r.handled| < |r.arrived|
    ensures r.descriptors[r.toProcess].done == Some(r.arrived[|r.handled|])
    ensures Enabled(Righted(r), Commit)
    ensures var s, t := Righted(r), Apply(r, Commit);
            && Apply(s, Commit).Valid() && Apply(s, Commit).input.Resting?
            && t == Apply(s, Commit).(out := r.out[r.input.look.buffer := r.arrived[|r.handled|]])
  {
    hide EightBuffers, FilledInOrder, Remembers, Window, Accepts, LengthRead;
    var s := Righted(r);
    OldestTaken(s);
    CommitKeeps(s);
  }

  /** Only the pbufs and the places of the buffers can differ. */
  lemma OutDiffers(s: Ring, out: map<Buffer, Frame>)
    requires s.Valid() && s.input.Resting?
    ensures var t := s.(out := out);
            && t.InRange() && Tolerable(t) == t.Valid()
            && (t.Valid() <==> t.PbufsOk() && EightBuffers(t.Line(), t.out, t.InHand()))
  {
    hide EightBuffers, FilledInOrder, Remembers, Window;
  }

  lemma CommitHarms(r: Ring)
    requires Tolerable(r) && Enabled(r, Commit)
    ensures Whole(Apply(r, Commit)) <==> !Harmful(r, Commit)
    ensures Tolerable(Apply(r, Commit)) <==> !Harmful(r, Commit)
  {
    hide EightBuffers, Window, Tolerable, Ring.Valid, Righted;
    RightedCommit(r);
    LineShrinks(r);
    var t, look := Apply(r, Commit), r.input.look;
    OutDiffers(Apply(Righted(r), Commit), t.out);
    assert t.Line() == r.Line()[1..];
    TakenExactly(r.Line(), r.out, r.InHand(), look.buffer, r.arrived[|r.handled|]);
  }

  lemma DiscardHarms(r: Ring)
    requires Tolerable(r) && Enabled(r, Discard)
    ensures Whole(Apply(r, Discard)) <==> !Harmful(r, Discard)
    ensures Tolerable(Apply(r, Discard)) <==> !Harmful(r, Discard)
  {
    hide EightBuffers, FilledInOrder, Remembers, Window, Accepts, LengthRead;
    var s, t, look := Righted(r), Apply(r, Discard), r.input.look;
    LineShrinks(s);
    OldestTaken(s);
    assert r.Line() == s.Line() && t.Line() == r.Line()[1..];
    HandExactly(r.Line(), r.out, look.buffer);
  }

  lemma CompareTolerable(r: Ring)
    requires Tolerable(r) && Enabled(r, Compare)
    ensures Tolerable(Apply(r, Compare))
  {
    hide EightBuffers, FilledInOrder, Remembers, Window;
  }

  /** The other steps do not look at the address. */
  predicate Blind(a: Action) {
    !a.Compare? && !a.Commit? && !a.Discard?
  }

  /** The input task knows that there is a frame. */
  predicate Knows(r: Ring) {
    r.input.Passed? || r.input.Holding? || r.input.Discarding?
  }

  lemma RightedElse(r: Ring)
    requires |r.descriptors| == COUNT && r.toProcess < COUNT && !Knows(r)
    ensures Righted(r) == r
  {
  }

  lemma KnowsFrame(r: Ring)
    requires Tolerable(r) && Knows(r)
    ensures r.InRange() && r.toProcess != r.tail
  {
    hide EightBuffers, FilledInOrder, Remembers, Window;
  }

  lemma RightedSteps(r: Ring, a: Action)
    requires Tolerable(r) && Enabled(r, a) && Blind(a)
    ensures Enabled(Righted(r), a) && |Apply(r, a).descriptors| == COUNT && Apply(r, a).toProcess < COUNT
    ensures Righted(Apply(r, a)) == Apply(Righted(r), a)
  {
    hide Ring.Valid;
    if Knows(r) {
      KnowsFrame(r);
      RightedKnows(r, a);
    } else {
      RightedElse(r);
      StaysElse(r, a);
    }
  }

  lemma StaysElse(r: Ring, a: Action)
    requires Enabled(r, a) && Blind(a) && !Knows(r)
    ensures |Apply(r, a).descriptors| == COUNT && Apply(r, a).toProcess < COUNT && Righted(Apply(r, a)) == Apply(r, a)
  {
  }

  lemma RightedKnows(r: Ring, a: Action)
    requires Enabled(r, a) && Blind(a) && Knows(r) && r.toProcess != r.tail
    ensures Enabled(Righted(r), a) && |Apply(r, a).descriptors| == COUNT && Apply(r, a).toProcess < COUNT
    ensures Righted(Apply(r, a)) == Apply(Righted(r), a)
  {
    hide Accepts;
  }

  /** A step does no harm exactly if it leaves nothing wrong but possibly an address. */
  lemma HarmExactly(r: Ring, a: Action)
    requires Tolerable(r) && Enabled(r, a)
    ensures Tolerable(Apply(r, a)) <==> !Harmful(r, a)
    ensures Whole(Apply(r, a)) <==> !Harmful(r, a)
  {
    hide Tolerable, Apply, Enabled, Elsewhere, Whole;
    if a.Commit? {
      CommitHarms(r);
    } else if a.Discard? {
      DiscardHarms(r);
    } else {
      if a.Compare? {
        CompareTolerable(r);
      } else {
        BlindTolerable(r, a);
      }
      TolerableIsWhole(Apply(r, a));
    }
  }

  lemma BlindTolerable(r: Ring, a: Action)
    requires Tolerable(r) && Enabled(r, a) && Blind(a)
    ensures Tolerable(Apply(r, a))
  {
    hide Ring.Valid, Apply, Enabled, Righted;
    RightedSteps(r, a);
    StepKeeps(Righted(r), a);
  }

  lemma TolerableIsWhole(r: Ring)
    requires Tolerable(r)
    ensures Whole(r)
  {
    hide EightBuffers, FilledInOrder, Remembers, Window;
  }

  /** Harm takes an address that is no longer that of the descriptor. */
  lemma HarmIsOvertaken(r: Ring, a: Action)
    requires Tolerable(r) && Harmful(r, a)
    ensures r.descriptors[r.toProcess].buffer != r.input.look.buffer
  {
    hide Ring.Valid, Apply, Elsewhere, Whole, EightBuffers, Tolerable;
    if r.descriptors[r.toProcess].buffer == r.input.look.buffer {
      RightAddress(r, a);
      StepKeeps(r, a);
      ValidIsTolerable(Apply(r, a));
      HarmExactly(r, a);
    }
  }

  lemma RightAddress(r: Ring, a: Action)
    requires Tolerable(r) && Harmful(r, a) && r.descriptors[r.toProcess].buffer == r.input.look.buffer
    ensures Enabled(r, a) && !Overtaken(r, a) && r.Valid()
  {
    hide Ring.Valid, Elsewhere;
    assert Righted(r) == r;
  }

  lemma ValidIsTolerable(r: Ring)
    requires r.Valid()
    ensures Tolerable(r)
  {
    hide EightBuffers, FilledInOrder, Remembers, Window, Accepts, LengthRead, Ring.HandledOk, Ring.PbufsOk;
    assert Righted(r) == r;
  }

  /** No buffer is in two places, all along. */
  ghost predicate WholeAllAlong(r: Ring, actions: seq<Action>)
    decreases |actions|
  {
    Whole(r) && (actions != [] && Enabled(r, actions[0]) ==> WholeAllAlong(Apply(r, actions[0]), actions[1..]))
  }

  ghost predicate Harmless(r: Ring, actions: seq<Action>)
    decreases |actions|
  {
    actions != [] && Enabled(r, actions[0]) ==>
      !Harmful(r, actions[0]) && Harmless(Apply(r, actions[0]), actions[1..])
  }

  lemma {:induction false} TolerableIffHarmless(r: Ring, actions: seq<Action>)
    requires Tolerable(r)
    ensures WholeAllAlong(r, actions) <==> Harmless(r, actions)
    decreases |actions|
  {
    hide Tolerable, Whole, Apply, Enabled, Harmful;
    TolerableIsWhole(r);
    if actions != [] && Enabled(r, actions[0]) {
      HarmExactly(r, actions[0]);
      if !Harmful(r, actions[0]) {
        TolerableIffHarmless(Apply(r, actions[0]), actions[1..]);
      }
    }
  }

  /**
   In every run of the initialised ring, overtaken or not: no buffer is ever in two places and no pbuf's bytes change if
   and only if the input task never parts with a buffer that is elsewhere too or does not hold the frame.
   */
  lemma WholeIffHarmless(buffers: seq<Buffer>, memory: map<Buffer, Frame>, actions: seq<Action>)
    requires Distinct(buffers)
    ensures WholeAllAlong(Created(buffers, memory), actions) <==> Harmless(Created(buffers, memory), actions)
  {
    hide Ring.Valid, WholeAllAlong, Harmless;
    CreatedIsValid(buffers, memory);
    ValidIsTolerable(Created(buffers, memory));
    TolerableIffHarmless(Created(buffers, memory), actions);
  }

  // ---------------------------------------------------------------------------------------------
  // Runs in which it goes wrong

  lemma {:induction false} LeadsOn(r: Ring, a: seq<Action>, s: Ring, b: seq<Action>, t: Ring)
    requires Leads(r, a, s) && Leads(s, b, t)
    ensures Leads(r, a + b, t)
    ensures Calm(r, a) && Calm(s, b) ==> Calm(r, a + b)
    decreases |a|
  {
    hide Apply, Enabled, Overtaken;
    if a == [] {
      assert a + b == b;
    } else {
      LeadsOn(Apply(r, a[0]), a[1..], s, b, t);
      assert (a + b)[1..] == a[1..] + b;
    }
  }

  /** One step is a run. */
  lemma OneStep(r: Ring, a: Action)
    requires Enabled(r, a)
    ensures Leads(r, [a], Apply(r, a))
    ensures !Overtaken(r, a) ==> Calm(r, [a])
  {
    hide Apply, Enabled, Overtaken;
    assert Leads(Apply(r, a), [], Apply(r, a));
    assert [a][1..] == [];
  }

  lemma NextStep(r: Ring, actions: seq<Action>, s: Ring, a: Action)
    requires Leads(r, actions, s) && Enabled(s, a)
    ensures Leads(r, actions + [a], Apply(s, a))
    ensures Calm(r, actions) && !Overtaken(s, a) ==> Calm(r, actions + [a])
  {
    hide Apply, Enabled, Overtaken, Leads, Calm;
    OneStep(s, a);
    LeadsOn(r, actions, s, [a], Apply(s, a));
  }

  /** A frame arrives and is handed out, with nobody else about. */
  function Round(f: Frame): (actions: seq<Action>) {
    [Complete(f), PeekAddress, PeekLength, Compare, Classify(true), Commit]
  }

  function AfterRound(r: Ring, f: Frame): Ring
    requires |r.descriptors| == COUNT && r.toProcess < COUNT
  {
    var d := r.descriptors[r.toProcess];
    r.(descriptors := r.descriptors[r.toProcess := d.(done := Some(f))], memory := r.memory[d.buffer := f],
       arrived := r.arrived + [f], current := Next(r.toProcess), toProcess := Next(r.toProcess),
       out := r.out[d.buffer := f], handled := r.handled + [Outcome(f, f.length, Fresh, true)])
  }

  lemma RoundLeads(r: Ring, f: Frame)
    requires |r.descriptors| == COUNT && r.toProcess == r.current < COUNT && r.tail < COUNT && r.toProcess != r.tail
    requires r.input.Resting? && Accepts(f, f.length)
    ensures Leads(r, Round(f), AfterRound(r, f)) && Calm(r, Round(f))
  {
    hide Leads, Calm;
    var r1 := Apply(r, Complete(f));
    var r2 := Apply(r1, PeekAddress);
    var r3 := Apply(r2, PeekLength);
    var r4 := Apply(r3, Compare);
    var r5 := Apply(r4, Classify(true));
    OneStep(r, Complete(f));
    NextStep(r, [Complete(f)], r1, PeekAddress);
    NextStep(r, [Complete(f)] + [PeekAddress], r2, PeekLength);
    NextStep(r, [Complete(f)] + [PeekAddress] + [PeekLength], r3, Compare);
    NextStep(r, [Complete(f)] + [PeekAddress] + [PeekLength] + [Compare], r4, Classify(true));
    NextStep(r, [Complete(f)] + [PeekAddress] + [PeekLength] + [Compare] + [Classify(true)], r5, Commit);
    assert Round(f) == [Complete(f)] + [PeekAddress] + [PeekLength] + [Compare] + [Classify(true)] + [Commit];
  }

  /** A pbuf is freed, with nobody else about. */
  function FreeActions(b: Buffer): seq<Action> {
    [Free(b), WriteAddress, WriteControl, Publish]
  }

  function AfterFree(r: Ring, b: Buffer): Ring
    requires |r.descriptors| == COUNT && r.tail < COUNT
  {
    r.(out := r.out - {b}, descriptors := r.descriptors[r.tail := Descriptor(b, None)], tail := Next(r.tail))
  }

  lemma FreeLeads(r: Ring, b: Buffer)
    requires |r.descriptors| == COUNT && r.toProcess < COUNT && r.current < COUNT && r.tail < COUNT
    requires r.recycle.Unlocked? && b in r.out && !Critical(r)
    ensures Leads(r, FreeActions(b), AfterFree(r, b)) && Calm(r, FreeActions(b))
  {
    hide Leads, Calm;
    var r1 := Apply(r, Free(b));
    var r2 := Apply(r1, WriteAddress);
    var r3 := Apply(r2, WriteControl);
    OneStep(r, Free(b));
    NextStep(r, [Free(b)], r1, WriteAddress);
    NextStep(r, [Free(b)] + [WriteAddress], r2, WriteControl);
    NextStep(r, [Free(b)] + [WriteAddress] + [WriteControl], r3, Publish);
    assert FreeActions(b) == [Free(b)] + [WriteAddress] + [WriteControl] + [Publish];
    assert r3.descriptors == r.descriptors[r.tail := Descriptor(b, None)];
  }

  /** The buffers by number. */
  const BUFFERS: seq<Buffer> := [0, 1, 2, 3, 4, 5, 6, 7, 8]

  function Handed(f: Frame, k: nat): map<Buffer, Frame> {
    map b: nat | b in BUFFERS && b < k :: f
  }

  /** The ring after its first `k` frames, all of them handed out. */
  function FirstLap(f: Frame, k: nat): Ring
    requires k < COUNT
  {
    Ring(seq(COUNT, i requires 0 <= i < COUNT => Descriptor(BUFFERS[i], if i < k then Some(f) else None)), k, k, COUNT - 1,
         Resting, Unlocked, Handed(f, k), Handed(f, k), seq(k, _ => f), seq(k, _ => Outcome(f, f.length, Fresh, true)))
  }

  function Rounds(f: Frame, k: nat): seq<Action> {
    if k == 0 then [] else Rounds(f, k - 1) + Round(f)
  }

  lemma {:induction false} FirstLapLeads(f: Frame, k: nat)
    requires k < COUNT && Accepts(f, f.length)
    ensures var start := Created(BUFFERS, map[]); Leads(start, Rounds(f, k), FirstLap(f, k)) && Calm(start, Rounds(f, k))
  {
    hide Leads, Calm;
    var start := Created(BUFFERS, map[]);
    if k == 0 {
      NoSteps(start);
      assert start == FirstLap(f, 0);
    } else {
      FirstLapLeads(f, k - 1);
      var before := FirstLap(f, k - 1);
      RoundLeads(before, f);
      LeadsOn(start, Rounds(f, k - 1), before, Round(f), AfterRound(before, f));
      LapGrows(f, k - 1);
    }
  }

  lemma NoSteps(r: Ring)
    ensures Leads(r, [], r) && Calm(r, [])
  {
  }

  lemma LapGrows(f: Frame, k: nat)
    requires k + 1 < COUNT
    ensures AfterRound(FirstLap(f, k), f) == FirstLap(f, k + 1)
  {
    hide Handed;
    var a, b := AfterRound(FirstLap(f, k), f), FirstLap(f, k + 1);
    forall i | 0 <= i < COUNT ensures a.descriptors[i] == b.descriptors[i] {
    }
    assert BUFFERS[k] == k;
    HandedGrows(f, k);
    assert a.arrived == b.arrived && a.handled == b.handled;
  }

  lemma HandedGrows(f: Frame, k: nat)
    requires k in BUFFERS
    ensures Handed(f, k)[k := f] == Handed(f, k + 1)
  {
  }

  /** ... and after the first pbuf has been freed, filled again and handed out again. */
  function SecondLap(f: Frame): Ring {
    AfterRound(AfterFree(FirstLap(f, COUNT - 1), 0), f)
  }

  function SecondLapActions(f: Frame): seq<Action> {
    Rounds(f, COUNT - 1) + FreeActions(0) + Round(f)
  }

  lemma SecondLapLeads(f: Frame)
    requires Accepts(f, f.length)
    ensures var start := Created(BUFFERS, map[]);
            Leads(start, SecondLapActions(f), SecondLap(f)) && Calm(start, SecondLapActions(f))
  {
    hide Leads, Calm, Rounds;
    var start, full := Created(BUFFERS, map[]), FirstLap(f, COUNT - 1);
    FirstLapLeads(f, COUNT - 1);
    assert BUFFERS[0] == 0;
    FreeLeads(full, 0);
    LeadsOn(start, Rounds(f, COUNT - 1), full, FreeActions(0), AfterFree(full, 0));
    RoundLeads(AfterFree(full, 0), f);
    LeadsOn(start, Rounds(f, COUNT - 1) + FreeActions(0), AfterFree(full, 0), Round(f), SecondLap(f));
  }

  /** All buffers are out, and the descriptor to process, which is that at the tail, still names the first of them. */
  lemma SecondLapFacts(f: Frame)
    ensures var r := SecondLap(f);
            && |r.descriptors| == COUNT && r.toProcess == r.current == r.tail == 0
            && r.descriptors[0] == Descriptor(0, Some(f)) && 0 in r.out && 1 in r.out
            && r.input == Resting && r.recycle == Unlocked
            && |r.handled| == COUNT && r.arrived == seq(COUNT, _ => f)
  {
    assert BUFFERS[0] == 0 && BUFFERS[1] == 1;
  }

  /** The input task looks, the pbuf of `x` is freed and its buffer filled, and the input task goes on. */
  function SharingActions(x: Buffer, f: Frame): seq<Action> {
    [PeekAddress] + [PeekLength] + FreeActions(x) + [Complete(f)] + [Compare] + [Classify(true)]
  }

  /**
   What being overtaken leads to.  With all buffers out the input task reads DESC0; before it reads DMACCARDR a pbuf is
   freed and its buffer is filled.  The task then holds the buffer it read of, which another pbuf still has.
   */
  lemma OvertakenSharesABuffer(r: Ring, x: Buffer, f: Frame)
    requires r.InRange() && r.input.Resting? && r.recycle.Unlocked? && r.toProcess == r.current == r.tail
    requires x in r.out && Accepts(f, LengthField(r.descriptors[r.toProcess]))
    requires r.descriptors[r.toProcess].buffer in r.out && r.descriptors[r.toProcess].buffer != x
    ensures exists t ::
              && Leads(r, SharingActions(x, f), t) && !Calm(r, SharingActions(x, f))
              && t.input.Holding? && t.input.look.buffer in t.out
              && t.InRange() && t.descriptors[t.toProcess].buffer == x != t.input.look.buffer
  {
    hide Leads, Calm;
    var r1 := Apply(r, PeekAddress);
    OneStep(r, PeekAddress);
    NextStep(r, [PeekAddress], r1, PeekLength);
    var r2 := Apply(r1, PeekLength);
    var a := [PeekAddress] + [PeekLength];
    FreeLeads(r2, x);
    var r3 := AfterFree(r2, x);
    LeadsOn(r, a, r2, FreeActions(x), r3);
    a := a + FreeActions(x);
    NextStep(r, a, r3, Complete(f));
    var r4 := Apply(r3, Complete(f));
    NextStep(r, a + [Complete(f)], r4, Compare);
    var r5 := Apply(r4, Compare);
    NextStep(r, a + [Complete(f)] + [Compare], r5, Classify(true));
    var t := Apply(r5, Classify(true));
    NotCalm(r, a + [Complete(f)], r4, Compare, [Classify(true)]);
    assert Leads(r, SharingActions(x, f), t);
  }

  lemma {:induction false} NotCalm(r: Ring, a: seq<Action>, s: Ring, b: Action, rest: seq<Action>)
    requires Leads(r, a, s) && Enabled(s, b) && Overtaken(s, b)
    ensures !Calm(r, a + [b] + rest)
    decreases |a|
  {
    hide Apply, Enabled, Overtaken;
    if a == [] {
      assert a + [b] + rest == [b] + rest;
    } else {
      NotCalm(Apply(r, a[0]), a[1..], s, b, rest);
      assert (a + [b] + rest)[1..] == a[1..] + [b] + rest;
    }
  }

  /** Such a run from the initialised ring on. */
  lemma OvertakingHappens(f: Frame)
    requires Accepts(f, f.length)
    ensures exists actions, t ::
              && Leads(Created(BUFFERS, map[]), actions, t)
              && t.input.Holding? && t.input.look.buffer in t.out
  {
    hide Leads, Calm, SecondLap;
    var start, r := Created(BUFFERS, map[]), SecondLap(f);
    SecondLapLeads(f);
    SecondLapFacts(f);
    OvertakenSharesABuffer(r, 1, f);
    var t :| Leads(r, SharingActions(1, f), t) && t.input.Holding? && t.input.look.buffer in t.out;
    LeadsOn(start, SecondLapActions(f), r, SharingActions(1, f), t);
  }

  /**
   A calm run with an old length: DESC0 is read after it has been written anew, the length before.  The frame is handed
   out in the right buffer with the length of the frame one lap before.
   */
  lemma StaleLengthHappens(f: Frame, g: Frame)
    requires Accepts(f, f.length) && Accepts(g, f.length)
    ensures exists actions, t ::
              && Leads(Created(BUFFERS, map[]), actions, t) && Calm(Created(BUFFERS, map[]), actions)
              && t.handled != [] && t.handled[|t.handled| - 1] == Outcome(g, f.length, Stale, true)
  {
    hide Leads, Calm, SecondLap;
    var start, r := Created(BUFFERS, map[]), SecondLap(f);
    SecondLapLeads(f);
    SecondLapFacts(f);
    var a := SecondLapActions(f);
    NextStep(start, a, r, Free(1));
    var r1 := Apply(r, Free(1));
    NextStep(start, a + [Free(1)], r1, WriteAddress);
    var r2 := Apply(r1, WriteAddress);
    a := a + [Free(1)] + [WriteAddress];
    NextStep(start, a, r2, PeekAddress);
    var r3 := Apply(r2, PeekAddress);
    NextStep(start, a + [PeekAddress], r3, PeekLength);
    var r4 := Apply(r3, PeekLength);
    a := a + [PeekAddress] + [PeekLength];
    NextStep(start, a, r4, WriteControl);
    var r5 := Apply(r4, WriteControl);
    NextStep(start, a + [WriteControl], r5, Publish);
    var r6 := Apply(r5, Publish);
    a := a + [WriteControl] + [Publish];
    NextStep(start, a, r6, Complete(g));
    var r7 := Apply(r6, Complete(g));
    NextStep(start, a + [Complete(g)], r7, Compare);
    var r8 := Apply(r7, Compare);
    a := a + [Complete(g)] + [Compare];
    NextStep(start, a, r8, Classify(true));
    var r9 := Apply(r8, Classify(true));
    NextStep(start, a + [Classify(true)], r9, Commit);
    assert Leads(start, a + [Classify(true)] + [Commit], Apply(r9, Commit));
  }

  /** A calm run with length 0: the first frame arrives between the reads of the length and of the DMA pointer. */
  lemma BlankLengthHappens(f: Frame)
    requires Accepts(f, 0)
    ensures exists actions, t ::
              && Leads(Created(BUFFERS, map[]), actions, t) && Calm(Created(BUFFERS, map[]), actions)
              && t.handled == [Outcome(f, 0, Blank, true)]
  {
    hide Leads, Calm;
    var r := Created(BUFFERS, map[]);
    var r1 := Apply(r, PeekAddress);
    var r2 := Apply(r1, PeekLength);
    var r3 := Apply(r2, Complete(f));
    var r4 := Apply(r3, Compare);
    var r5 := Apply(r4, Classify(true));
    OneStep(r, PeekAddress);
    NextStep(r, [PeekAddress], r1, PeekLength);
    NextStep(r, [PeekAddress] + [PeekLength], r2, Complete(f));
    NextStep(r, [PeekAddress] + [PeekLength] + [Complete(f)], r3, Compare);
    NextStep(r, [PeekAddress] + [PeekLength] + [Complete(f)] + [Compare], r4, Classify(true));
    NextStep(r, [PeekAddress] + [PeekLength] + [Complete(f)] + [Compare] + [Classify(true)], r5, Commit);
    assert Leads(r, [PeekAddress] + [PeekLength] + [Complete(f)] + [Compare] + [Classify(true)] + [Commit],
                 Apply(r5, Commit));
  }

  // ---------------------------------------------------------------------------------------------
  // The code, undisturbed

  /** What one call of carbon_lwip_low_level_input makes of the ring with nobody else about. */
  function AfterInput(r: Ring, room: bool): Ring
    requires |r.descriptors| == COUNT && r.toProcess < COUNT && r.tail < COUNT
  {
    var d := r.descriptors[r.toProcess];
    if r.toProcess == r.current || d.done.None? then r
    else
      var f := d.done.value;
      var t := r.(toProcess := Next(r.toProcess),
                  handled := r.handled + [Outcome(f, f.length, Fresh, Accepts(f, f.length))]);
      if !Accepts(f, f.length) then
        t.(descriptors := r.descriptors[r.tail := Descriptor(d.buffer, None)], tail := Next(r.tail))
      else if room then t.(out := r.out[d.buffer := f])
      else r
  }

  class Driver {
    const descriptors: array<Descriptor>
    var toProcess: nat
    var current: nat
    var tail: nat
    ghost var out: map<Buffer, Frame>
    ghost var memory: map<Buffer, Frame>
    ghost var arrived: seq<Frame>
    ghost var handled: seq<Outcome>

    ghost function View(): Ring
      reads this, descriptors
    {
      Ring(descriptors[..], toProcess, current, tail, Resting, Unlocked, out, memory, arrived, handled)
    }

    /** `carbon_hw_ethernet_rx_dec_list_init` */
    constructor (buffers: seq<Buffer>, ghost memory: map<Buffer, Frame>)
      requires |buffers| == COUNT && forall i, j :: 0 <= i < j < COUNT ==> buffers[i] != buffers[j]
      ensures View() == Created(buffers, memory) && View().Valid()
    {
      descriptors := new Descriptor[COUNT](_ => Descriptor(0, None));
      toProcess, current, tail := 0, 0, COUNT - 1;
      out, this.memory, arrived, handled := map[], memory, [], [];
      new;
      for i := 0 to COUNT
        invariant toProcess == current == 0 && tail == COUNT - 1
        invariant out == map[] && this.memory == memory && arrived == [] && handled == []
        invariant forall k :: 0 <= k < i ==> descriptors[k] == Descriptor(buffers[k], None)
      {
        descriptors[i] := Descriptor(buffers[i], None);
      }
      assert View().descriptors == Created(buffers, memory).descriptors;
      CreatedIsValid(buffers, memory);
    }

    /** `carbon_lwip_prepare_rx_descriptor`; the result says whether it ran into a critical error. */
    method PrepareDescriptor(buffer: Buffer) returns (critical: bool)
      requires View().InRange()
      modifies this`tail, descriptors
      ensures critical == Critical(old(View()))
      ensures critical ==> View() == old(View())
      ensures !critical ==>
                View() == old(View()).(descriptors := old(View()).descriptors[old(tail) := Descriptor(buffer, None)],
                                       tail := Next(old(tail)))
    {
      critical := current == Next(tail) || toProcess == Next(tail);
      if !critical {
        descriptors[tail] := Descriptor(buffer, None);
        tail := Next(tail);
      }
    }

    /** `pbuf_free_custom` */
    method FreePbuf(b: Buffer)
      requires View().Valid() && b in out
      modifies this`tail, this`out, descriptors
      ensures View().Valid() && View() == AfterFree(old(View()), b)
      ensures out == old(out) - {b}
    {
      hide Ring.Valid;
      FreeIsSteps(View(), b);
      out := out - {b};
      var critical := PrepareDescriptor(b);
    }

    /** `carbon_lwip_low_level_input`; `room` in the pbuf pool */
    method LowLevelInput(room: bool) returns (p: Option<(Buffer, nat)>)
      requires View().Valid()
      modifies this, descriptors
      ensures View().Valid() && View() == AfterInput(old(View()), room)
      ensures old(View().InRange())
      ensures var d := old(View()).descriptors[old(toProcess)];
              p == if old(toProcess != current) && d.done.Some? && Accepts(d.done.value, d.done.value.length) && room
                   then Some((d.buffer, d.done.value.length)) else None
      ensures var d := old(View()).descriptors[old(toProcess)];
              old(toProcess != current) && d.done.Some? && IsWhole(d.done.value) && d.done.value.length <= 1528 && room ==>
                p == Some((d.buffer, d.done.value.length))
      ensures p.Some? ==>
                && old(|handled| < |arrived|)
                && var f := old(arrived)[|old(handled)|];
                && out == old(out)[p.value.0 := f] && p.value.0 !in old(out) && p.value.1 == f.length
                && IsWhole(f) && p.value.1 <= 1536
                && handled == old(handled) + [Outcome(f, f.length, Fresh, true)]
      ensures p.None? ==> out == old(out)
    {
      hide Ring.Valid;
      ghost var r := View();
      IsInRange(r);
      InputIsSteps(r, room);
      p := None;
      var d := descriptors[toProcess];
      var length := LengthField(d);
      if toProcess == current {
        return;
      }
      if d.done.None? {
        return;
      }
      OldestFirst(r);
      var f := d.done.value;
      if f.context || !f.first || !f.last || length > BUFFER_SIZE {
        toProcess := Next(toProcess);
        handled := handled + [Outcome(f, length, Fresh, false)];
        var critical := PrepareDescriptor(d.buffer);
      } else if room {
        p := Some((d.buffer, length));
        out := out[d.buffer := f];
        handled := handled + [Outcome(f, length, Fresh, true)];
        toProcess := Next(toProcess);
      }
    }
  }

  lemma IsInRange(r: Ring)
    requires r.Valid()
    ensures r.InRange()
  {
  }

  /** The descriptor to process, once filled, holds the oldest frame not dealt with, in a buffer of its own. */
  lemma OldestFirst(r: Ring)
    requires r.Valid() && r.toProcess != r.current
    ensures r.InRange() && |r.handled| < |r.arrived|
    ensures r.descriptors[r.toProcess].done == Some(r.arrived[|r.handled|])
    ensures r.descriptors[r.toProcess].buffer !in r.out
  {
    LineShrinks(r);
    assert r.Line()[0] == r.descriptors[r.toProcess];
    assert r.arrived[|r.handled|..][0] == r.arrived[|r.handled|];
  }

  /** The code's calls are runs of steps. */
  lemma FreeIsSteps(r: Ring, b: Buffer)
    requires r.Valid() && r.input.Resting? && r.recycle.Unlocked? && b in r.out
    ensures r.InRange() && !Critical(r)
    ensures Leads(r, FreeActions(b), AfterFree(r, b)) && AfterFree(r, b).Valid()
  {
    hide Leads, Calm, EightBuffers, FilledInOrder, Remembers;
    FreeKeeps(r, b);
    NeverCritical(Apply(r, Free(b)));
    FreeLeads(r, b);
    CalmLeadsValid(r, FreeActions(b), AfterFree(r, b));
  }

  function LookActions(): seq<Action> {
    [PeekAddress, PeekLength, Compare]
  }

  /** What one call does depends on the frame and on the pbuf pool. */
  function InputActions(r: Ring, room: bool): seq<Action>
    requires |r.descriptors| == COUNT && r.toProcess < COUNT
  {
    var d := r.descriptors[r.toProcess];
    if r.toProcess == r.current then LookActions()
    else if d.done.None? then LookActions() + [Classify(room)]
    else if !Accepts(d.done.value, d.done.value.length) then
      LookActions() + [Classify(room)] + [Discard] + [WriteAddress] + [WriteControl] + [Publish]
    else if room then LookActions() + [Classify(room)] + [Commit]
    else LookActions() + [Classify(room)]
  }

  lemma LookLeads(r: Ring)
    requires r.InRange() && r.input.Resting?
    ensures var d := r.descriptors[r.toProcess];
            var t := if r.toProcess == r.current then r
                     else r.(input := Passed(Look(d.buffer, LengthField(d), Fresh)));
            Leads(r, LookActions(), t) && Calm(r, LookActions())
  {
    hide Leads, Calm;
    var r1 := Apply(r, PeekAddress);
    var r2 := Apply(r1, PeekLength);
    OneStep(r, PeekAddress);
    NextStep(r, [PeekAddress], r1, PeekLength);
    NextStep(r, [PeekAddress] + [PeekLength], r2, Compare);
    assert LookActions() == [PeekAddress] + [PeekLength] + [Compare];
  }

  lemma InputLeads(r: Ring, room: bool)
    requires r.InRange() && r.input.Resting? && r.recycle.Unlocked?
    requires !Critical(r.(toProcess := Next(r.toProcess))) || r.toProcess == r.current
    ensures Leads(r, InputActions(r, room), AfterInput(r, room)) && Calm(r, InputActions(r, room))
  {
    hide Leads, Calm, Apply, Enabled, Overtaken;
    LookLeads(r);
    if r.toProcess != r.current {
      SortLeads(r, room);
      var sorted := Sorted(r, room);
      SortedEnables(r, room);
      if sorted.input.Holding? {
        CommitLeads(r, LookActions() + [Classify(room)], sorted);
      } else if sorted.input.Discarding? {
        DiscardLeads(r, LookActions() + [Classify(room)], sorted);
      }
    }
  }

  /** The state after the flags have been read. */
  function Sorted(r: Ring, room: bool): Ring
    requires r.InRange()
  {
    var d := r.descriptors[r.toProcess];
    var look := Look(d.buffer, LengthField(d), Fresh);
    r.(input := if d.done.None? then Resting
                else if !Accepts(d.done.value, look.length) then Discarding(look)
                else if room then Holding(look) else Resting)
  }

  lemma SortedEnables(r: Ring, room: bool)
    requires r.InRange() && r.recycle.Unlocked?
    ensures Sorted(r, room).input.Holding? ==> Enabled(Sorted(r, room), Commit)
    ensures Sorted(r, room).input.Discarding? ==> Enabled(Sorted(r, room), Discard)
  {
  }

  lemma SortLeads(r: Ring, room: bool)
    requires r.InRange() && r.input.Resting? && r.toProcess != r.current
    ensures Leads(r, LookActions() + [Classify(room)], Sorted(r, room)) && Calm(r, LookActions() + [Classify(room)])
  {
    hide Leads, Calm;
    LookLeads(r);
    var d := r.descriptors[r.toProcess];
    NextStep(r, LookActions(), r.(input := Passed(Look(d.buffer, LengthField(d), Fresh))), Classify(room));
  }

  lemma CommitLeads(start: Ring, a: seq<Action>, r: Ring)
    requires Leads(start, a, r) && Calm(start, a) && Enabled(r, Commit)
    ensures var f, look := r.descriptors[r.toProcess].done.value, r.input.look;
            && Leads(start, a + [Commit], r.(toProcess := Next(r.toProcess), input := Resting,
                                             out := r.out[look.buffer := f],
                                             handled := r.handled + [Outcome(f, look.length, look.seen, true)]))
            && Calm(start, a + [Commit])
  {
    hide Leads, Calm;
    NextStep(start, a, r, Commit);
  }

  lemma DiscardLeads(start: Ring, a: seq<Action>, r: Ring)
    requires Leads(start, a, r) && Calm(start, a) && Enabled(r, Discard) && !Critical(r.(toProcess := Next(r.toProcess)))
    ensures var f, look := r.descriptors[r.toProcess].done.value, r.input.look;
            var b := a + [Discard] + [WriteAddress] + [WriteControl] + [Publish];
            && Leads(start, b, r.(toProcess := Next(r.toProcess), input := Resting,
                                  handled := r.handled + [Outcome(f, look.length, look.seen, false)],
                                  descriptors := r.descriptors[r.tail := Descriptor(look.buffer, None)],
                                  tail := Next(r.tail)))
            && Calm(start, b)
  {
    hide Leads, Calm;
    NextStep(start, a, r, Discard);
    var r3 := Apply(r, Discard);
    NextStep(start, a + [Discard], r3, WriteAddress);
    var r4 := Apply(r3, WriteAddress);
    NextStep(start, a + [Discard] + [WriteAddress], r4, WriteControl);
    var r5 := Apply(r4, WriteControl);
    NextStep(start, a + [Discard] + [WriteAddress] + [WriteControl], r5, Publish);
    assert r5.descriptors == r.descriptors[r.tail := Descriptor(r.input.look.buffer, None)];
  }

  lemma InputIsSteps(r: Ring, room: bool)
    requires r.Valid() && r.input.Resting? && r.recycle.Unlocked?
    ensures r.InRange() && AfterInput(r, room).Valid()
    ensures Leads(r, InputActions(r, room), AfterInput(r, room)) && Calm(r, InputActions(r, room))
    ensures r.toProcess != r.current ==> !Critical(r.(toProcess := Next(r.toProcess)))
  {
    hide Leads, Calm, EightBuffers, FilledInOrder, Remembers, AfterInput;
    if r.toProcess != r.current {
      NextNotCritical(r);
    }
    InputLeads(r, room);
    CalmLeadsValid(r, InputActions(r, room), AfterInput(r, room));
  }

  lemma NextNotCritical(r: Ring)
    requires r.Valid() && r.recycle.Unlocked? && r.toProcess != r.current
    ensures r.InRange() && !Critical(r.(toProcess := Next(r.toProcess)))
  {
    hide FilledInOrder, Remembers;
  }
}
