/**
 Stream and message buffers (lib/freertos/stream_buffer.c): a byte ring with one writer and one reader, and
 messages in it that are preceded by their length.
 */
module StreamBuffer {
  import opened Numbers
  import opened Ticks

  type Byte = x: int | 0 <= x < 256

  /** `sbBYTES_TO_STORE_MESSAGE_LENGTH` */
  const PREFIX: nat := 4

  /** A 32-bit length as it lies in memory, low byte first. */
  function Prefix(n: nat): (p: seq<Byte>)
    requires n < WRAP
    ensures |p| == PREFIX
  {
    [n % 256, n / 256 % 256, n / 0x1_0000 % 256, n / 0x100_0000]
  }

  function Length(p: seq<Byte>): (n: nat)
    requires |p| == PREFIX
    ensures n < WRAP
  {
    p[0] as int + 256 * (p[1] as int) + 0x1_0000 * (p[2] as int) + 0x100_0000 * (p[3] as int)
  }

  lemma PrefixRoundTrip(n: nat)
    requires n < WRAP
    ensures Length(Prefix(n)) == n
  {
    var a, b, c := n / 256, n / 0x1_0000, n / 0x100_0000;
    assert a == b * 256 + a % 256 && b == c * 256 + b % 256;
  }

  function Frame(message: seq<Byte>): (f: seq<Byte>)
    requires |message| < WRAP
    ensures |f| == PREFIX + |message|
  {
    Prefix(|message|) + message
  }

  /** Of two positions in the ring: the bytes in the cells from `tail` up to `head`. */
  function BytesBetween(head: nat, tail: nat, length: nat): (n: nat)
    requires head < length && tail < length
    ensures n < length && Wrapped(tail + n, length) == head
  {
    if head >= tail then head - tail else length + head - tail
  }

  /** The bytes from `tail` up to `head`. */
  function Stored(cells: seq<Byte>, head: nat, tail: nat): (s: seq<Byte>)
    requires head < |cells| && tail < |cells|
    ensures |s| == BytesBetween(head, tail, |cells|)
    ensures forall i :: 0 <= i < |s| ==> s[i] == cells[Wrapped(tail + i, |cells|)]
  {
    seq(BytesBetween(head, tail, |cells|), i requires 0 <= i < BytesBetween(head, tail, |cells|) =>
      cells[Wrapped(tail + i, |cells|)])
  }

  class StreamBuffer {
    const buffer: array<Byte>         // pucBuffer, of xLength bytes
    const isMessageBuffer: bool
    var head: nat
    var tail: nat

    ghost predicate Valid()
      reads this
    {
      head < buffer.Length < WRAP / 2 && tail < buffer.Length
    }

    ghost function Contents(): (s: seq<Byte>)
      requires Valid()
      reads this, buffer
    {
      Stored(buffer[..], head, tail)
    }

    constructor (length: nat, isMessageBuffer: bool)
      requires 0 < length < WRAP / 2
      ensures Valid() && Contents() == [] && fresh(buffer) && buffer.Length == length
      ensures this.isMessageBuffer == isMessageBuffer
    {
      buffer := new Byte[length](_ => 0);
      this.isMessageBuffer := isMessageBuffer;
      head, tail := 0, 0;
    }

    /** `prvBytesInBuffer` */
    method BytesInBuffer() returns (count: nat)
      requires Valid()
      ensures count == |Contents()|
    {
      count := buffer.Length + head;
      count := count - tail;
      if count >= buffer.Length {
        count := count - buffer.Length;
      }
    }

    /** `xStreamBufferSpacesAvailable`: one cell always stays free. */
    method SpacesAvailable() returns (space: nat)
      requires Valid()
      ensures space == buffer.Length - 1 - |Contents()|
    {
      space := buffer.Length + tail;
      space := space - head;
      space := space - 1;
      if space >= buffer.Length {
        space := space - buffer.Length;
      }
    }

    /** `prvWriteBytesToBuffer`: a copy in two parts if it runs past the end. */
    method WriteBytes(data: seq<Byte>)
      requires Valid() && 0 < |data| <= buffer.Length - 1 - |Contents()|
      modifies this`head, buffer
      ensures Valid() && Contents() == old(Contents()) + data
    {
      ghost var was := buffer[..];
      var first := Min(buffer.Length - head, |data|);
      forall i | 0 <= i < first {
        buffer[head + i] := data[i];
      }
      if |data| > first {
        forall i | 0 <= i < |data| - first {
          buffer[i] := data[first + i];
        }
      }
      var nextHead := head + |data|;
      if nextHead >= buffer.Length {
        nextHead := nextHead - buffer.Length;
      }
      WrittenBytes(was, buffer[..], head, tail, data);
      head := nextHead;
    }

    /** `prvReadBytesFromBuffer` */
    method ReadBytes(maxCount: nat, available: nat) returns (data: seq<Byte>)
      requires Valid() && available <= |Contents()|
      modifies this`tail
      ensures Valid() && |data| == Min(maxCount, available)
      ensures old(Contents()) == data + Contents()
    {
      data := [];
      var count := Min(available, maxCount);
      if count > 0 {
        var nextTail := tail;
        var first := Min(buffer.Length - nextTail, count);
        data := buffer[nextTail..nextTail + first];
        if count > first {
          data := data + buffer[..count - first];
        }
        nextTail := nextTail + count;
        if nextTail >= buffer.Length {
          nextTail := nextTail - buffer.Length;
        }
        ReadsBytes(buffer[..], head, tail, count, data);
        tail := nextTail;
      }
    }

    /**
     `prvWriteMessageToBuffer` with the space found by the sender and the space it computed as `required`.  If the sum
     has wrapped, the copy of the message runs into an assertion: the firmware is `halted`, whatever is stored then.
     */
    method WriteMessage(data: seq<Byte>, space: nat, required: nat) returns (sent: nat, halted: bool)
      requires Valid() && 0 < |data| < WRAP && space <= buffer.Length - 1 - |Contents()|
      requires isMessageBuffer ==> required == (|data| + PREFIX) % WRAP
      modifies this`head, buffer
      ensures Valid()
      ensures !isMessageBuffer ==> sent == Min(|data|, space) && Contents() == old(Contents()) + data[..sent]
      ensures isMessageBuffer && !halted ==>
                if |data| + PREFIX <= space then sent == |data| && Contents() == old(Contents()) + Frame(data)
                else sent == 0 && Contents() == old(Contents())
      ensures halted <==> isMessageBuffer && |data| + PREFIX >= WRAP && 0 < space && |data| + PREFIX - WRAP <= space
    {
      sent, halted := 0, false;
      if space > 0 {
        if !isMessageBuffer {
          sent := Min(|data|, space);
          WriteBytes(data[..sent]);
        } else if space >= required {
          if |data| > buffer.Length {
            halted := true;
          } else {
            WriteBytes(Prefix(|data|));
            WriteBytes(data);
            sent := |data|;
          }
        }
      }
    }

    /**
     `xStreamBufferSend` once it stops waiting for space, of which it has then `found` so much, and 0 if it did not wait;
     the reader may have made more since.  Its assertion stops the firmware if the sum wraps.
     */
    method Send(data: seq<Byte>, found: nat) returns (sent: nat, halted: bool)
      requires Valid() && 0 < |data| < WRAP && found <= buffer.Length - 1 - |Contents()|
      modifies this`head, buffer
      ensures Valid()
      ensures halted <==> isMessageBuffer && |data| + PREFIX >= WRAP
      ensures !halted ==>
                var space := if found == 0 then buffer.Length - 1 - |old(Contents())| else found;
                if isMessageBuffer then
                  if |data| + PREFIX <= space then sent == |data| && Contents() == old(Contents()) + Frame(data)
                  else sent == 0 && Contents() == old(Contents())
                else sent == Min(|data|, space) && Contents() == old(Contents()) + data[..sent]
    {
      sent, halted := 0, false;
      var required := |data|;
      if isMessageBuffer {
        required := (required + PREFIX) % WRAP;
        if required <= |data| {
          return 0, true;
        }
      }
      var space := found;
      if space == 0 {
        space := SpacesAvailable();
      }
      sent, halted := WriteMessage(data, space, required);
    }

    /**
     `xStreamBufferSendFromISR`, which does not check the sum: a length of 2^32 - 4 or more stops the firmware, too, unless
     there is too little space even for the wrapped sum.
     */
    method SendFromISR(data: seq<Byte>) returns (sent: nat, halted: bool)
      requires Valid() && 0 < |data| < WRAP
      modifies this`head, buffer
      ensures Valid()
      ensures var space := buffer.Length - 1 - |old(Contents())|;
              && (halted <==> isMessageBuffer && |data| + PREFIX >= WRAP && 0 < space && |data| + PREFIX - WRAP <= space)
              && (!halted ==>
                    if isMessageBuffer then
                      if |data| + PREFIX <= space then sent == |data| && Contents() == old(Contents()) + Frame(data)
                      else sent == 0 && Contents() == old(Contents())
                    else sent == Min(|data|, space) && Contents() == old(Contents()) + data[..sent])
    {
      var required := |data|;
      if isMessageBuffer {
        required := (required + PREFIX) % WRAP;
      }
      var space := SpacesAvailable();
      sent, halted := WriteMessage(data, space, required);
    }

    /** `prvReadMessageFromBuffer` for a message buffer: all of the next message, or nothing if it does not fit */
    method ReadMessage(maxLength: nat, available: nat, ghost message: seq<Byte>, ghost rest: seq<Byte>)
      returns (data: seq<Byte>)
      requires Valid() && PREFIX < available <= |Contents()|
      requires |message| < WRAP && Contents() == Frame(message) + rest && PREFIX + |message| <= available
      modifies this`tail
      ensures Valid()
      ensures if |message| <= maxLength then data == message && Contents() == rest
              else data == [] && Contents() == old(Contents())
    {
      var originalTail := tail;
      var prefix := ReadBytes(PREFIX, available);
      FrameParts(message, rest, prefix, Contents());
      var nextLength := Length(prefix);
      if nextLength > maxLength {
        tail := originalTail;
        nextLength := 0;
        data := [];
      } else {
        data := ReadBytes(nextLength, available - PREFIX);
        assert data == (data + Contents())[..|message|];
      }
    }

    /** `xStreamBufferReceive` and `xStreamBufferReceiveFromISR` on a stream, once they stop waiting for data */
    method ReceiveStream(maxLength: nat) returns (data: seq<Byte>)
      requires Valid() && !isMessageBuffer
      modifies this`tail
      ensures Valid() && |data| == Min(maxLength, |old(Contents())|) && old(Contents()) == data + Contents()
    {
      var available := BytesInBuffer();
      data := [];
      if available > 0 {
        data := ReadBytes(maxLength, available);
      }
    }

    /** The same on a buffer that holds whole messages */
    method ReceiveMessage(maxLength: nat, ghost messages: seq<seq<Byte>>) returns (data: seq<Byte>)
      requires Valid() && isMessageBuffer && Sendable(messages) && Contents() == Frames(messages)
      modifies this`tail
      ensures Valid()
      ensures if messages != [] && |messages[0]| <= maxLength
              then data == messages[0] && Contents() == Frames(messages[1..])
              else data == [] && Contents() == old(Contents())
    {
      var available := BytesInBuffer();
      data := [];
      if messages == [] {
        assert available == 0;
      } else {
        assert messages[0] in messages;
      }
      if available > PREFIX {
        data := ReadMessage(maxLength, available, messages[0], Frames(messages[1..]));
      }
    }

    /** `xStreamBufferNextMessageLengthBytes` */
    method NextMessageLength(ghost messages: seq<seq<Byte>>) returns (n: nat)
      requires Valid() && isMessageBuffer && Sendable(messages) && Contents() == Frames(messages)
      modifies this`tail
      ensures tail == old(tail) && n == if messages == [] then 0 else |messages[0]|
    {
      n := 0;
      var available := BytesInBuffer();
      if messages == [] {
        assert available == 0;
      } else {
        assert messages[0] in messages;
      }
      if available > PREFIX {
        var originalTail := tail;
        var prefix := ReadBytes(PREFIX, available);
        FrameParts(messages[0], Frames(messages[1..]), prefix, Contents());
        n := Length(prefix);
        tail := originalTail;
      }
    }
  }

  /** What is a message to these functions: it is not empty, and its length has 32 bits. */
  predicate Sendable(messages: seq<seq<Byte>>) {
    forall m <- messages :: 0 < |m| < WRAP
  }

  function Frames(messages: seq<seq<Byte>>): seq<Byte>
    requires Sendable(messages)
  {
    if messages == [] then [] else Frame(messages[0]) + Frames(messages[1..])
  }

  lemma FrameParts(message: seq<Byte>, rest: seq<Byte>, prefix: seq<Byte>, after: seq<Byte>)
    requires |message| < WRAP && |prefix| == PREFIX && prefix + after == Frame(message) + rest
    ensures Length(prefix) == |message| && after == message + rest
  {
    var all := prefix + after;
    assert prefix == all[..PREFIX] == Prefix(|message|);
    assert after == all[PREFIX..] == message + rest;
    PrefixRoundTrip(|message|);
  }

  lemma WrittenBytes(was: seq<Byte>, now: seq<Byte>, head: nat, tail: nat, data: seq<Byte>)
    requires head < |was| && tail < |was| && |now| == |was|
    requires |data| < |was| - BytesBetween(head, tail, |was|)
    requires forall i :: 0 <= i < |data| ==> now[Wrapped(head + i, |was|)] == data[i]
    requires forall k :: 0 <= k < |was| && BytesBetween(k, head, |was|) >= |data| ==> now[k] == was[k]
    ensures Wrapped(head + |data|, |was|) < |was|
    ensures Stored(now, Wrapped(head + |data|, |was|), tail) == Stored(was, head, tail) + data
  {
    var n := BytesBetween(head, tail, |was|);
    var after, before := Stored(now, Wrapped(head + |data|, |was|), tail), Stored(was, head, tail);
    assert |after| == n + |data|;
    forall i | 0 <= i < |after| ensures after[i] == (before + data)[i] {
      var k := Wrapped(tail + i, |was|);
      if i < n {
        assert BytesBetween(k, head, |was|) >= |data|;
      } else {
        assert k == Wrapped(head + (i - n), |was|);
      }
    }
  }

  lemma ReadsBytes(cells: seq<Byte>, head: nat, tail: nat, count: nat, data: seq<Byte>)
    requires head < |cells| && tail < |cells| && count <= BytesBetween(head, tail, |cells|) && |data| == count
    requires forall i :: 0 <= i < count ==> data[i] == cells[Wrapped(tail + i, |cells|)]
    ensures Wrapped(tail + count, |cells|) < |cells|
    ensures Stored(cells, head, tail) == data + Stored(cells, head, Wrapped(tail + count, |cells|))
  {
    var n, t := BytesBetween(head, tail, |cells|), Wrapped(tail + count, |cells|);
    var before, after := Stored(cells, head, tail), Stored(cells, head, t);
    assert |after| == n - count;
    forall i | 0 <= i < n ensures before[i] == (data + after)[i] {
      if i >= count {
        assert Wrapped(t + (i - count), |cells|) == Wrapped(tail + i, |cells|);
      }
    }
  }
}
