/**
 A message buffer with its writer and its reader running at the same time, in any interleaving of single byte copies
 (lib/freertos/stream_buffer.c).

 The writer publishes `xHead` twice a message, after the length and after the body; the reader publishes `xTail`
 twice.  Here both count all bytes ever written or read; the code keeps them modulo the buffer's length, and
 `RingPositions` says that its arithmetic on them, as proved of class StreamBuffer, is that of the protocol.
 */
module MessageProtocol {
  import opened Numbers
  import opened Ticks
  import opened StreamBuffer

  type Message = seq<Byte>

  datatype Writer =
    | WIdle
    | WPrefix(copied: nat)  // has copied this many bytes of the length
    | WBody(copied: nat)    // has published the length and copied this many bytes of the message

  datatype Reader =
    | RIdle
    | RPrefix(available: nat, copy: seq<Byte>)
    | RBody(available: nat, length: nat, copy: seq<Byte>)

  datatype Channel = Channel(
    cells: seq<Byte>,
    head: nat,                // published by the writer
    tail: nat,                // published by the reader
    writer: Writer,
    reader: Reader,
    sent: seq<Message>,       // all whose sending has begun; the last one may be on its way
    received: seq<Message>
  )

  datatype Action =
    | StartSend(m: Message)   // the writer has found enough space
    | CopyIn                  // one byte of its memcpy
    | PublishHead
    | StartReceive            // the reader has found more than a length available
    | CopyOut
    | PublishTail
    | PutBack                 // the length is all it wanted, or the message is too long for its memory

  predicate Enabled(c: Channel, a: Action) {
    0 < |c.cells| && match a
                     case StartSend(m) =>
                       c.writer.WIdle? && 0 < |m| < WRAP && PREFIX + |m| <= |c.cells| - 1 - (c.head - c.tail)
                     case CopyIn => c.sent != [] && |Current(c)| < WRAP && !WriterDone(c)
                     case PublishHead => c.sent != [] && !c.writer.WIdle? && WriterDone(c)
                     case StartReceive => c.reader.RIdle? && c.head - c.tail > PREFIX
                     case CopyOut => !ReaderDone(c.reader)
                     case PublishTail => !c.reader.RIdle? && ReaderDone(c.reader)
                     case PutBack => c.reader.RBody? && c.reader.copy == [] && c.tail >= PREFIX
  }

  /** Nothing is left to copy before the next publication. */
  predicate WriterDone(c: Channel)
    requires c.sent != []
  {
    match c.writer
    case WIdle => true
    case WPrefix(copied) => copied >= PREFIX
    case WBody(copied) => copied >= |Current(c)|
  }

  predicate ReaderDone(r: Reader) {
    match r
    case RIdle => true
    case RPrefix(available, copy) => |copy| >= Min(available, PREFIX)
    case RBody(_, _, copy) => |copy| >= Wanted(r)
  }

  /** The message being sent. */
  function Current(c: Channel): Message
    requires c.sent != []
  {
    c.sent[|c.sent| - 1]
  }

  /** How much of the body `prvReadBytesFromBuffer` reads. */
  function Wanted(r: Reader): nat
    requires r.RBody?
  {
    Min(r.available, r.length)
  }

  function Apply(c: Channel, a: Action): Channel
    requires Enabled(c, a)
  {
    match a
    case StartSend(m) => c.(writer := WPrefix(0), sent := c.sent + [m])
    case CopyIn =>
      var i := c.writer.copied;
      if c.writer.WPrefix?
      then c.(cells := c.cells[(c.head + i) % |c.cells| := Prefix(|Current(c)|)[i]], writer := WPrefix(i + 1))
      else c.(cells := c.cells[(c.head + i) % |c.cells| := Current(c)[i]], writer := WBody(i + 1))
    case PublishHead =>
      c.(head := c.head + c.writer.copied, writer := if c.writer.WPrefix? then WBody(0) else WIdle)
    case StartReceive => c.(reader := RPrefix(c.head - c.tail, []))
    case CopyOut =>
      var r := c.reader;
      c.(reader := r.(copy := r.copy + [c.cells[(c.tail + |r.copy|) % |c.cells|]]))
    case PublishTail =>
      (match c.reader
       case RPrefix(available, copy) =>
         c.(tail := c.tail + |copy|,
            reader := RBody(if |copy| <= available then available - |copy| else 0,
                            if |copy| == PREFIX then Length(copy) else 0, []))
       case RBody(_, _, copy) =>
         c.(tail := c.tail + |copy|, reader := RIdle, received := c.received + [copy]))
    case PutBack => c.(tail := c.tail - PREFIX, reader := RIdle)
  }

  // ---------------------------------------------------------------------------------------------

  function Stream(sent: seq<Message>): seq<Byte>
    requires Sendable(sent)
  {
    if sent == [] then [] else Stream(sent[..|sent| - 1]) + Frame(sent[|sent| - 1])
  }

  lemma {:induction false} StreamPrefix(sent: seq<Message>, k: nat)
    requires Sendable(sent) && k <= |sent|
    ensures Stream(sent[..k]) <= Stream(sent)
  {
    if k < |sent| {
      StreamPrefix(sent[..|sent| - 1], k);
      assert sent[..|sent| - 1][..k] == sent[..k];
    } else {
      assert sent[..k] == sent;
    }
  }

  lemma StreamNext(sent: seq<Message>, k: nat)
    requires Sendable(sent) && k < |sent|
    ensures Stream(sent[..k + 1]) == Stream(sent[..k]) + Frame(sent[k])
    ensures Stream(sent[..k]) + Frame(sent[k]) <= Stream(sent)
  {
    assert sent[..k + 1][..k] == sent[..k];
    StreamPrefix(sent, k + 1);
  }

  /** How many bytes have been written, published or not. */
  function Written(c: Channel): nat {
    c.head + if c.writer.WIdle? then 0 else c.writer.copied
  }

  /** What the writer has published and what it has still to write make up the stream. */
  ghost predicate WriterOk(c: Channel)
    requires Sendable(c.sent)
  {
    match c.writer
    case WIdle => c.head == |Stream(c.sent)|
    case WPrefix(copied) =>
      copied <= PREFIX && c.sent != [] && c.head + PREFIX + |Current(c)| == |Stream(c.sent)|
    case WBody(copied) => c.sent != [] && copied <= |Current(c)| && c.head + |Current(c)| == |Stream(c.sent)|
  }

  /** The cells not yet released hold the stream, as far as it has been written. */
  ghost predicate CellsOk(c: Channel)
    requires Sendable(c.sent) && 0 < |c.cells| && Written(c) <= |Stream(c.sent)|
  {
    forall p :: c.tail <= p < Written(c) ==> Cell(c.cells, p) == Stream(c.sent)[p]
  }

  function Cell(cells: seq<Byte>, p: nat): Byte
    requires 0 < |cells|
  {
    cells[p % |cells|]
  }

  ghost predicate ReaderOk(c: Channel)
    requires Sendable(c.sent)
  {
    var k := |c.received|;
    && c.received <= c.sent
    && match c.reader
       case RIdle => c.tail == |Stream(c.sent[..k])|
       case RPrefix(available, copy) =>
         && k < |c.sent| && c.tail == |Stream(c.sent[..k])|
         && PREFIX + |c.sent[k]| <= available <= c.head - c.tail
         && |copy| <= PREFIX && copy == Prefix(|c.sent[k]|)[..|copy|]
       case RBody(available, length, copy) =>
         && k < |c.sent| && c.tail == |Stream(c.sent[..k])| + PREFIX
         && length == |c.sent[k]| <= available <= c.head - c.tail
         && |copy| <= length && copy == c.sent[k][..|copy|]
  }

  /** Behind the tail, what has been read of a message stays until the writer comes round to it. */
  ghost predicate BehindOk(c: Channel)
    requires Sendable(c.sent) && 0 < |c.cells| && Written(c) <= |Stream(c.sent)|
  {
    c.reader.RBody? ==>
      forall p: nat :: c.tail - PREFIX <= p < c.tail && p < Written(c) <= p + |c.cells| ==>
        Cell(c.cells, p) == Stream(c.sent)[p]
  }

  ghost predicate Valid(c: Channel) {
    && 0 < |c.cells| && Sendable(c.sent)
    && WriterOk(c) && Written(c) <= |Stream(c.sent)| && c.tail <= c.head
    && |Stream(c.sent)| - c.tail <= |c.cells| - 1
    && CellsOk(c) && ReaderOk(c) && BehindOk(c)
  }

  // ---------------------------------------------------------------------------------------------

  /** More than a length beyond a message boundary means a whole message beyond it. */
  lemma WholeMessage(c: Channel, k: nat)
    requires Sendable(c.sent) && WriterOk(c) && k <= |c.sent|
    requires c.head - |Stream(c.sent[..k])| > PREFIX
    ensures k < |c.sent| && c.head - |Stream(c.sent[..k])| >= PREFIX + |c.sent[k]|
  {
    hide Stream, Prefix;
    var m := |c.sent|;
    assert c.sent[..m] == c.sent;
    if k < m {
      StreamNext(c.sent, m - 1);
      StreamNext(c.sent, k);
      if k < m - 1 {
        StreamGrows(c.sent, k + 1, m - 1);
      }
    }
  }

  lemma StreamGrows(sent: seq<Message>, j: nat, k: nat)
    requires Sendable(sent) && j <= k <= |sent|
    ensures |Stream(sent[..j])| <= |Stream(sent[..k])|
  {
    StreamPrefix(sent[..k], j);
    assert sent[..k][..j] == sent[..j];
  }

  lemma StartReceiveKeeps(c: Channel)
    requires Valid(c) && Enabled(c, StartReceive)
    ensures Valid(Apply(c, StartReceive))
  {
    WholeMessage(c, |c.received|);
  }

  lemma StartSendKeeps(c: Channel, m: Message)
    requires Valid(c) && Enabled(c, StartSend(m))
    ensures Valid(Apply(c, StartSend(m)))
  {
    var c' := Apply(c, StartSend(m));
    assert c'.sent[..|c.sent|] == c.sent;
    assert c'.sent[..|c.received|] == c.sent[..|c.received|];
  }

  /** The byte the writer copies next is the next one of the stream. */
  lemma NextByte(c: Channel)
    requires Valid(c) && Enabled(c, CopyIn)
    ensures Written(c) < |Stream(c.sent)|
    ensures Stream(c.sent)[Written(c)]
            == if c.writer.WPrefix? then Prefix(|Current(c)|)[c.writer.copied] else Current(c)[c.writer.copied]
  {
    var s := Stream(c.sent[..|c.sent| - 1]);
    assert Stream(c.sent) == s + Frame(Current(c));
  }

  lemma CellWritten(cells: seq<Byte>, tail: nat, at: nat, stream: seq<Byte>)
    requires 0 < |cells| && tail <= at < |stream| && |stream| - tail < |cells|
    requires forall p :: tail <= p < at ==> Cell(cells, p) == stream[p]
    ensures var cells' := cells[at % |cells| := stream[at]];
            forall p :: tail <= p <= at ==> Cell(cells', p) == stream[p]
  {
    forall p | tail <= p <= at ensures Cell(cells[at % |cells| := stream[at]], p) == stream[p] {
      if p < at {
        Apart(p, at, |cells|);
      }
    }
  }

  /** A position that the writer has not come round to keeps its cell. */
  lemma CellKept(cells: seq<Byte>, p: nat, at: nat, b: Byte)
    requires 0 < |cells| && p < at < p + |cells|
    ensures Cell(cells[at % |cells| := b], p) == Cell(cells, p)
  {
    Apart(p, at, |cells|);
  }

  lemma CopyInShape(c: Channel)
    requires Valid(c) && Enabled(c, CopyIn)
    ensures var t := Apply(c, CopyIn);
            && t == c.(cells := t.cells, writer := t.writer) && Written(t) == Written(c) + 1 <= |Stream(c.sent)|
            && t.cells == c.cells[Written(c) % |c.cells| := Stream(c.sent)[Written(c)]]
            && WriterOk(t)
  {
    hide Stream, Prefix, CellsOk, ReaderOk, BehindOk;
    NextByte(c);
  }

  lemma CopyInKeeps(c: Channel)
    requires Valid(c) && Enabled(c, CopyIn)
    ensures Valid(Apply(c, CopyIn))
  {
    hide Stream, Prefix, Apply, WriterOk, Enabled, Written, Cell;
    CopyInShape(c);
    WrittenIsPublished(c);
    CellWritten(c.cells, c.tail, Written(c), Stream(c.sent));
    var t := Apply(c, CopyIn);
    forall p: nat | c.tail - PREFIX <= p < c.tail && p < Written(t) <= p + |c.cells|
      ensures Cell(t.cells, p) == Cell(c.cells, p) {
      CellKept(c.cells, p, Written(c), Stream(c.sent)[Written(c)]);
    }
  }

  /** Positions less than a buffer's length apart lie in different cells. */
  lemma Apart(p: nat, q: nat, length: nat)
    requires p < q < p + length
    ensures p % length != q % length
  {
    var a, b := p / length, q / length;
    if p % length == q % length {
      Difference(p, q, length);
      if b - a >= 1 {
        AtLeast(b - a, length);
      } else {
        AtLeast(a - b + 1, length);
        Expand(a - b, length);
      }
    }
  }

  lemma Difference(p: nat, q: nat, length: nat)
    requires length > 0 && p % length == q % length
    ensures q - p == (q / length - p / length) * length
  {
  }

  lemma AtLeast(k: int, length: nat)
    requires k >= 1
    ensures k * length >= length
  {
  }

  lemma Expand(k: int, length: nat)
    ensures (k + 1) * length == k * length + length
    ensures (-k) * length == -(k * length)
  {
  }

  lemma PublishHeadKeeps(c: Channel)
    requires Valid(c) && Enabled(c, PublishHead)
    ensures Valid(Apply(c, PublishHead))
  {
  }

  lemma CopyOutKeeps(c: Channel)
    requires Valid(c) && Enabled(c, CopyOut)
    ensures Valid(Apply(c, CopyOut))
  {
    hide Stream, Prefix;
    var k, n := |c.received|, |c.reader.copy|;
    StreamNext(c.sent, k);
    WrittenIsPublished(c);
    assert Cell(c.cells, c.tail + n) == Stream(c.sent)[c.tail + n];
    var f := Frame(c.sent[k]);
    var at := if c.reader.RPrefix? then n else PREFIX + n;
    assert Stream(c.sent)[c.tail + n] == f[at];
    assert f[at] == if c.reader.RPrefix? then Prefix(|c.sent[k]|)[n] else c.sent[k][n];
    assert CellsOk(Apply(c, CopyOut));
  }

  lemma WrittenIsPublished(c: Channel)
    ensures c.head <= Written(c)
  {
  }

  lemma PublishTailKeeps(c: Channel)
    requires Valid(c) && Enabled(c, PublishTail)
    ensures Valid(Apply(c, PublishTail))
  {
    hide Stream, Prefix;
    var k := |c.received|;
    StreamNext(c.sent, k);
    if c.reader.RPrefix? {
      PrefixRoundTrip(|c.sent[k]|);
      assert c.reader.copy == Prefix(|c.sent[k]|);
    } else {
      assert c.reader.copy == c.sent[k];
      assert c.received + [c.reader.copy] == c.sent[..k + 1];
    }
  }

  /** Counted from the beginning of the message whose length has been read, what is stored or being sent fits. */
  ghost predicate FitsAgain(c: Channel) {
    Sendable(c.sent) && |Stream(c.sent)| - (c.tail - PREFIX) <= |c.cells| - 1
  }

  /** Putting the tail back is harmless if and only if the writer has not been given the room in the meantime. */
  lemma PutBackExactly(c: Channel)
    requires Valid(c) && Enabled(c, PutBack)
    ensures Valid(Apply(c, PutBack)) <==> FitsAgain(c)
  {
    hide Stream, Cell;
    var t := Apply(c, PutBack);
    if FitsAgain(c) {
      WrittenIsPublished(c);
      forall p | t.tail <= p < Written(t) ensures Cell(t.cells, p) == Stream(t.sent)[p] {
        if p < c.tail {
          assert c.tail - PREFIX <= p;
        }
      }
    }
  }

  /** Every step keeps the invariant, but putting back the tail where room has been used that it takes back. */
  lemma StepKeeps(c: Channel, a: Action)
    requires Valid(c) && Enabled(c, a)
    ensures Valid(Apply(c, a)) <==> (a.PutBack? ==> FitsAgain(c))
  {
    hide Valid, Apply, Enabled;
    match a
    case StartSend(m) => StartSendKeeps(c, m);
    case CopyIn => CopyInKeeps(c);
    case PublishHead => PublishHeadKeeps(c);
    case StartReceive => StartReceiveKeeps(c);
    case CopyOut => CopyOutKeeps(c);
    case PublishTail => PublishTailKeeps(c);
    case PutBack => PutBackExactly(c);
  }

  // ---------------------------------------------------------------------------------------------
  // Whole runs

  function Created(cells: seq<Byte>): Channel {
    Channel(cells, 0, 0, WIdle, RIdle, [], [])
  }

  ghost predicate StepAt(states: seq<Channel>, actions: seq<Action>, i: nat)
    requires i < |actions| && i + 1 < |states|
  {
    Enabled(states[i], actions[i]) && states[i + 1] == Apply(states[i], actions[i])
  }

  /** Any interleaving of what one writer and one reader do to a new buffer. */
  ghost predicate Run(states: seq<Channel>, actions: seq<Action>) {
    && |states| == |actions| + 1
    && states[0] == Created(states[0].cells) && 0 < |states[0].cells|
    && forall i :: 0 <= i < |actions| ==> StepAt(states, actions, i)
  }

  /** Until state `k` no length is put back into room that has been used. */
  ghost predicate Undisturbed(states: seq<Channel>, actions: seq<Action>, k: nat)
    requires k <= |actions| && k <= |states|
  {
    forall i :: 0 <= i < k && actions[i].PutBack? ==> FitsAgain(states[i])
  }

  lemma {:induction false} RunsStayValid(states: seq<Channel>, actions: seq<Action>, k: nat)
    requires Run(states, actions) && k < |states| && Undisturbed(states, actions, k)
    ensures Valid(states[k])
  {
    hide Valid, Apply, Enabled, FitsAgain;
    if k == 0 {
      CreatedIsValid(states[0].cells);
    } else {
      RunsStayValid(states, actions, k - 1);
      assert StepAt(states, actions, k - 1);
      StepKeeps(states[k - 1], actions[k - 1]);
    }
  }

  /** The invariant holds all along a run if and only if that does not happen in it. */
  lemma ValidIffUndisturbed(states: seq<Channel>, actions: seq<Action>)
    requires Run(states, actions)
    ensures (forall k :: 0 <= k < |states| ==> Valid(states[k])) <==> Undisturbed(states, actions, |actions|)
  {
    hide Valid, Apply, Enabled, FitsAgain;
    if Undisturbed(states, actions, |actions|) {
      forall k | 0 <= k < |states| ensures Valid(states[k]) {
        RunsStayValid(states, actions, k);
      }
    } else {
      var i :| 0 <= i < |actions| && actions[i].PutBack? && !FitsAgain(states[i]);
      assert StepAt(states, actions, i);
      if Valid(states[i]) {
        StepKeeps(states[i], actions[i]);
      }
    }
  }

  lemma CreatedIsValid(cells: seq<Byte>)
    requires 0 < |cells|
    ensures Valid(Created(cells))
  {
  }

  /**
   As long as no length is put back too late, the reader has received exactly the first messages sent, whole and in order,
   and what it is copying right now is the beginning of the next one, never overwritten under its hands.
   */
  lemma ReceivedAsSent(states: seq<Channel>, actions: seq<Action>, k: nat)
    requires Run(states, actions) && k < |states| && Undisturbed(states, actions, k)
    ensures var c := states[k];
            && c.received <= c.sent
            && (c.reader.RBody? ==> |c.received| < |c.sent| && c.reader.copy <= c.sent[|c.received|]
                                    && c.reader.length == |c.sent[|c.received|]|
                                    && Wanted(c.reader) == |c.sent[|c.received|]|)
  {
    RunsStayValid(states, actions, k);
  }

  /** When both sides rest and nothing is stored, everything sent has been received. */
  lemma NothingLost(states: seq<Channel>, actions: seq<Action>, k: nat)
    requires Run(states, actions) && k < |states| && Undisturbed(states, actions, k)
    requires states[k].writer.WIdle? && states[k].reader.RIdle? && states[k].head == states[k].tail
    ensures states[k].received == states[k].sent
  {
    RunsStayValid(states, actions, k);
    var c := states[k];
    assert c.received == c.sent[..|c.received|];
    if |c.received| < |c.sent| {
      StreamNext(c.sent, |c.received|);
    }
  }

  /** As long as the reader rests, whatever a finished writer has published it can fetch. */
  lemma NeverStuck(states: seq<Channel>, actions: seq<Action>, k: nat)
    requires Run(states, actions) && k < |states| && Undisturbed(states, actions, k)
    requires states[k].writer.WIdle? && states[k].reader.RIdle? && states[k].received != states[k].sent
    ensures Enabled(states[k], StartReceive)
  {
    RunsStayValid(states, actions, k);
    var c := states[k];
    assert c.sent[..|c.sent|] == c.sent;
    assert c.received == c.sent[..|c.received|];
    StreamNext(c.sent, |c.received|);
  }

  // ---------------------------------------------------------------------------------------------
  // The code's positions

  lemma Remainder(a: int, q: int, length: nat, r: nat)
    requires a == q * length + r && r < length
    ensures a % length == r
  {
    if a % length != r {
      var d := a / length;
      assert a == d * length + a % length;
      if d > q {
        AtLeast(d - q, length);
        Spread(d, q, length);
      } else if d < q {
        AtLeast(q - d, length);
        Spread(q, d, length);
      }
    }
  }

  lemma Spread(a: int, b: int, length: nat)
    ensures (a - b) * length == a * length - b * length
  {
  }

  /** Moving a position on by up to a buffer's length, as the code does it. */
  lemma MovedOn(p: nat, n: nat, length: nat)
    requires 0 < length && n <= length
    ensures (p + n) % length == Wrapped(p % length + n, length)
  {
    var q, r := p / length, p % length;
    assert p == q * length + r;
    if r + n < length {
      Remainder(p + n, q, length, r + n);
    } else {
      Expand(q, length);
      Remainder(p + n, q + 1, length, r + n - length);
    }
  }

  /** The code at `at`, which stands for position `p`, moves on by `n` to what stands for `p + n`. */
  predicate MovesOn(p: nat, at: nat, n: nat, length: nat)
    requires 0 < length
  {
    Wrapped(at + n, length) == (p + n) % length
  }

  /**
   In every valid state, with `xHead` and `xTail` being `head` and `tail` modulo the buffer's length: what
   `prvBytesInBuffer` and `xStreamBufferSpacesAvailable` compute from them are the protocol's numbers, the bytes they
   delimit are the published part of the stream, and both move on as the code moves them.
   */
  lemma RingPositions(c: Channel)
    requires Valid(c)
    ensures var length, h, t := |c.cells|, c.head % |c.cells|, c.tail % |c.cells|;
            && BytesBetween(h, t, length) == c.head - c.tail
            && c.head <= |Stream(c.sent)| && Stored(c.cells, h, t) == Stream(c.sent)[c.tail..c.head]
            && (forall n :: 0 <= n <= length ==> MovesOn(c.head, h, n, length) && MovesOn(c.tail, t, n, length))
  {
    hide Stream, ReaderOk, WriterOk, CellsOk, Wrapped, MovesOn;
    var length, h, t := |c.cells|, c.head % |c.cells|, c.tail % |c.cells|;
    WrittenIsPublished(c);
    forall n | 0 <= n <= length ensures MovesOn(c.head, h, n, length) && MovesOn(c.tail, t, n, length) {
      Moved(c.head, n, length);
      Moved(c.tail, n, length);
    }
    Between(c.tail, c.head - c.tail, length);
    StoredIsStream(c, h, t);
  }

  /** Writer and reader may start exactly when the code's counts, taken from its positions, let them. */
  lemma StartsAsCounted(c: Channel, m: Message)
    requires Valid(c)
    ensures var stored := BytesBetween(c.head % |c.cells|, c.tail % |c.cells|, |c.cells|);
            && (Enabled(c, StartSend(m)) <==>
                  c.writer.WIdle? && 0 < |m| < WRAP && PREFIX + |m| <= |c.cells| - 1 - stored)
            && (Enabled(c, StartReceive) <==> c.reader.RIdle? && stored > PREFIX)
  {
    hide Stream, ReaderOk, WriterOk, CellsOk, BehindOk, MovesOn;
    RingPositions(c);
  }

  lemma Moved(p: nat, n: nat, length: nat)
    requires 0 < length && n <= length
    ensures MovesOn(p, p % length, n, length)
  {
    MovedOn(p, n, length);
  }

  lemma Between(p: nat, n: nat, length: nat)
    requires n < length
    ensures BytesBetween((p + n) % length, p % length, length) == n
  {
    MovedOn(p, n, length);
    Bounded(p, length);
    Bounded(p + n, length);
  }

  lemma Bounded(p: nat, length: nat)
    requires 0 < length
    ensures p % length < length
  {
  }

  lemma StoredIsStream(c: Channel, h: nat, t: nat)
    requires 0 < |c.cells| && Sendable(c.sent) && Written(c) <= |Stream(c.sent)| && CellsOk(c)
    requires c.tail <= c.head <= Written(c)
    requires h < |c.cells| && t < |c.cells| && BytesBetween(h, t, |c.cells|) == c.head - c.tail
    requires forall n :: 0 <= n <= |c.cells| ==> MovesOn(c.tail, t, n, |c.cells|)
    ensures Stored(c.cells, h, t) == Stream(c.sent)[c.tail..c.head]
  {
    hide Stream;
    var s := Stored(c.cells, h, t);
    forall i | 0 <= i < |s| ensures s[i] == Stream(c.sent)[c.tail + i] {
      assert MovesOn(c.tail, t, i, |c.cells|);
      assert s[i] == Cell(c.cells, c.tail + i);
    }
  }

  // ---------------------------------------------------------------------------------------------
  // Looking at the next message's length while the writer is at work

  /**
   `xStreamBufferNextMessageLengthBytes` asserts that it finds more than a length or nothing.  It finds a length and
   nothing else, and stops the firmware, if and only if everything before has been received and the writer is between the
   two publications of a message.
   */
  lemma LookFindsLengthOnly(c: Channel)
    requires Valid(c) && c.reader.RIdle?
    ensures 0 < c.head - c.tail <= PREFIX
            <==> c.writer.WBody? && c.sent != [] && c.received == c.sent[..|c.sent| - 1]
  {
    hide Stream, Prefix, CellsOk, BehindOk;
    var k, m := |c.received|, |c.sent|;
    assert c.sent[..m] == c.sent && c.received == c.sent[..k];
    if k < m {
      StreamNext(c.sent, m - 1);
      StreamNext(c.sent, k);
      if k < m - 1 {
        StreamGrows(c.sent, k + 1, m - 1);
      }
    }
  }

  /** When the tail has been put back too late and the writer rests, the buffer looks as good as empty, however full. */
  lemma OverrunLooksEmpty(c: Channel)
    requires Valid(c) && Enabled(c, PutBack) && c.writer.WIdle? && PREFIX < |c.cells|
    ensures var t := Apply(c, PutBack);
            var seen := BytesBetween(t.head % |t.cells|, t.tail % |t.cells|, |t.cells|);
            if FitsAgain(c) then seen == t.head - t.tail
            else |t.cells| <= t.head - t.tail && seen == t.head - t.tail - |t.cells| < PREFIX
  {
    hide Stream, CellsOk, BehindOk, ReaderOk;
    var t, length := Apply(c, PutBack), |c.cells|;
    if FitsAgain(c) {
      Between(t.tail, t.head - t.tail, length);
    } else {
      OnceRound(t.tail, length);
      Between(t.tail + length, t.head - t.tail - length, length);
    }
  }

  lemma OnceRound(p: nat, length: nat)
    requires 0 < length
    ensures (p + length) % length == p % length
  {
    MovedOn(p, length, length);
    Bounded(p, length);
  }

  /** An undisturbed run of a new buffer of these cells leads to `c`. */
  ghost predicate Reached(cells: seq<Byte>, c: Channel) {
    exists states, actions :: Run(states, actions) && Undisturbed(states, actions, |actions|)
      && states[0] == Created(cells) && states[|actions|] == c
  }

  lemma ReachedFirst(cells: seq<Byte>)
    requires 0 < |cells|
    ensures Reached(cells, Created(cells))
  {
    var states, actions: seq<Action> := [Created(cells)], [];
    assert Run(states, actions) && Undisturbed(states, actions, 0);
  }

  lemma ReachedNext(cells: seq<Byte>, c: Channel, a: Action)
    requires Reached(cells, c) && Enabled(c, a) && (a.PutBack? ==> FitsAgain(c))
    ensures Reached(cells, Apply(c, a))
  {
    hide Enabled, Apply, FitsAgain;
    var states, actions :| Run(states, actions) && Undisturbed(states, actions, |actions|)
      && states[0] == Created(cells) && states[|actions|] == c;
    var states', actions' := states + [Apply(c, a)], actions + [a];
    forall i | 0 <= i < |actions'| ensures StepAt(states', actions', i) {
      if i < |actions| {
        assert StepAt(states, actions, i);
      }
    }
    assert states'[0] == states[0] && states'[|actions'|] == Apply(c, a);
    forall i | 0 <= i < |actions'| && actions'[i].PutBack? ensures FitsAgain(states'[i]) {
      if i < |actions| {
        assert actions[i].PutBack?;
      }
    }
    assert Run(states', actions') && Undisturbed(states', actions', |actions'|);
  }

  /** The rest of what the writer has to copy before it publishes */
  lemma {:induction false} AllIn(cells: seq<Byte>, c: Channel) returns (t: Channel)
    requires Reached(cells, c) && c.sent != [] && 0 < |c.cells| && 0 < |Current(c)| < WRAP && !c.writer.WIdle?
    requires c.writer.copied <= if c.writer.WPrefix? then PREFIX else |Current(c)|
    ensures Reached(cells, t) && |t.cells| == |c.cells|
    ensures t == c.(cells := t.cells,
                    writer := if c.writer.WPrefix? then WPrefix(PREFIX) else WBody(|Current(c)|))
    decreases (if c.writer.WPrefix? then PREFIX else |Current(c)|) - c.writer.copied
  {
    hide Reached, Prefix;
    if WriterDone(c) {
      t := c;
    } else {
      ReachedNext(cells, c, CopyIn);
      t := AllIn(cells, Apply(c, CopyIn));
    }
  }

  lemma {:induction false} AllOut(cells: seq<Byte>, c: Channel) returns (t: Channel)
    requires Reached(cells, c) && 0 < |c.cells|
    requires c.reader.RPrefix? && c.reader.available > PREFIX && |c.reader.copy| <= PREFIX
    ensures Reached(cells, t) && t == c.(reader := t.reader) && ReaderDone(t.reader)
    ensures t.reader.RPrefix? && |t.reader.copy| == PREFIX && t.reader.available == c.reader.available
    decreases PREFIX - |c.reader.copy|
  {
    hide Reached;
    if ReaderDone(c.reader) {
      t := c;
    } else {
      ReachedNext(cells, c, CopyOut);
      t := AllOut(cells, Apply(c, CopyOut));
    }
  }

  /** A message of one byte goes into the buffer. */
  lemma OneSent(cells: seq<Byte>, c: Channel, b: Byte) returns (half: Channel, t: Channel)
    requires Reached(cells, c) && Enabled(c, StartSend([b]))
    ensures Reached(cells, half) && half == c.(cells := half.cells, head := c.head + PREFIX, writer := WBody(0),
                                               sent := c.sent + [[b]])
    ensures Reached(cells, t) && |t.cells| == |c.cells|
    ensures t == c.(cells := t.cells, head := c.head + PREFIX + 1, sent := c.sent + [[b]])
  {
    hide Reached;
    ReachedNext(cells, c, StartSend([b]));
    var c1 := Apply(c, StartSend([b]));
    assert Current(c1) == [b];
    var c2 := AllIn(cells, c1);
    ReachedNext(cells, c2, PublishHead);
    half := Apply(c2, PublishHead);
    var c3 := AllIn(cells, half);
    ReachedNext(cells, c3, PublishHead);
    t := Apply(c3, PublishHead);
  }

  /** The reader gets to know the length. */
  lemma LengthRead(cells: seq<Byte>, c: Channel) returns (t: Channel)
    requires Reached(cells, c) && Enabled(c, StartReceive)
    ensures Reached(cells, t) && t == c.(tail := c.tail + PREFIX, reader := t.reader)
    ensures t.reader.RBody? && t.reader.copy == []
  {
    hide Reached;
    ReachedNext(cells, c, StartReceive);
    var c1 := AllOut(cells, Apply(c, StartReceive));
    ReachedNext(cells, c1, PublishTail);
    t := Apply(c1, PublishTail);
  }

  /** In a buffer of seven cells a message of one byte gets the room of the length that is being looked at. */
  lemma OverrunHappens(cells: seq<Byte>, b: Byte) returns (c: Channel)
    requires |cells| == 7
    ensures Reached(cells, c) && Enabled(c, PutBack) && c.writer.WIdle? && !FitsAgain(c)
    ensures Apply(c, PutBack).received == [] && Apply(c, PutBack).sent == [[b], [b]]
    ensures BytesBetween(Apply(c, PutBack).head % 7, Apply(c, PutBack).tail % 7, 7) == 3
  {
    hide Reached;
    ReachedFirst(cells);
    var _, c1 := OneSent(cells, Created(cells), b);
    var c2 := LengthRead(cells, c1);
    assert Enabled(c2, StartSend([b]));
    var half, t := OneSent(cells, c2, b);
    c := t;
    assert c.sent == [[b], [b]];
    TwoFrames(b);
  }

  lemma TwoFrames(b: Byte)
    ensures Sendable([[b], [b]]) && |Stream([[b], [b]])| == 10
  {
    assert [[b], [b]][..1] == [[b]] && [[b]][..0] == [];
    assert Stream([[b]]) == Stream([]) + Frame([b]);
  }

  /** With the first message on its way, a look finds the length alone. */
  lemma LookCanStop(cells: seq<Byte>, b: Byte) returns (c: Channel)
    requires |cells| == 7
    ensures Reached(cells, c) && c.reader.RIdle? && c.head - c.tail == PREFIX
  {
    hide Reached;
    ReachedFirst(cells);
    var half, _ := OneSent(cells, Created(cells), b);
    c := half;
  }
}
