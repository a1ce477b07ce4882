// The read halves of `compat.rs`: byte sources as streams, and streams as byte sources.
module CompatRead {
  import opened Flow
  import opened StreamReader

  /** `CompatFlow` reading from an asynchronous byte source into the spare room of its buffer. */
  class FlowRx {
    var incoming: seq<byte>
    var rxBuf: Option<Buffer>
    var spare: nat
    var pendings: nat
    // the source never fails
    const reliable: bool

    constructor (incoming: seq<byte>, pendings: nat, reliable: bool)
      ensures this.incoming == incoming && this.pendings == pendings && rxBuf == None
      ensures this.reliable == reliable
    {
      this.incoming, this.pendings, rxBuf, spare := incoming, pendings, None, 0;
      this.reliable := reliable;
    }

    method CommitRxBuffer(buffer: Buffer, spare: nat)
      requires rxBuf.None?
      modifies this`rxBuf, this`spare
      ensures rxBuf == Some(buffer) && this.spare == spare
    {
      rxBuf, this.spare := Some(buffer), spare;
    }

    /** With room in the buffer this is a lower stream: it delivers a non-empty portion, or reports
        the end of a source that has nothing left, or a failure of the source. Without room a read
        fills nothing, and the end of the stream is reported whatever the source still holds. */
    method PollRxBuffer() returns (r: Poll<Result<Buffer, (Buffer, FlowError)>>)
      requires rxBuf.Some?
      modifies this`rxBuf, this`incoming, this`pendings
      ensures r.Pending? ==>
        pendings < old(pendings) && rxBuf == old(rxBuf) && incoming == old(incoming)
      ensures r.Ready? ==> pendings == old(pendings) && rxBuf == None
      ensures r.Ready? && r.value.Ok? ==> var b := r.value.value;
        && old(rxBuf.value) < b && b + incoming == old(rxBuf.value + incoming)
        && |b| <= |old(rxBuf.value)| + spare
      ensures r.Ready? && r.value.Err? ==>
        r.value.error.0 == old(rxBuf.value) && incoming == old(incoming)
      ensures r.Ready? && r.value.Err? && r.value.error.1 != Eof ==>
        r.value.error.1 == Io && !reliable
      // the end is reported for a source that has nothing left, and for a full buffer
      ensures r.Ready? && !(r.value.Err? && r.value.error.1 == Io) ==>
        (r.value.Err? <==> old(incoming) == [] || spare == 0)
    {
      var stall: bool := *;
      if stall && pendings > 0 {
        pendings := pendings - 1;
        return Pending;
      }
      var buf := rxBuf.value;
      rxBuf := None;
      var fail: bool := *;
      if fail && !reliable {
        return Ready(Err((buf, Io)));
      }
      var most := if |incoming| < spare then |incoming| else spare;
      if most == 0 {
        return Ready(Err((buf, Eof)));
      }
      var filled: nat :| 0 < filled <= most;
      buf := buf + incoming[..filled];
      assert buf + incoming[filled..] == old(rxBuf.value) + (incoming[..filled] + incoming[filled..]);
      incoming := incoming[filled..];
      r := Ready(Ok(buf));
    }
  }

  /** A source that holds a byte, and a buffer without room: the end of the stream is reported. */
  method FullBufferEnds(b: byte) returns (r: Poll<Result<Buffer, (Buffer, FlowError)>>, left: seq<byte>)
    ensures r == Ready(Err(([], Eof))) && left == [b]
  {
    var rx := new FlowRx([b], 0, true);
    rx.CommitRxBuffer([], 0);
    r := rx.PollRxBuffer();
    left := rx.incoming;
  }

  /** `CompatStream::poll_read` into a buffer with `room` bytes left; an end of stream fills nothing.
      No read ever sees a byte twice or loses one, errors of the lower stream included. */
  method PollRead(reader: Reader, lower: LowerStream, room: nat)
    returns (r: Poll<Result<seq<byte>, FlowError>>)
    requires reader.Valid(lower) && reader.Settled(lower) && reader.Waiting(lower, 1)
    modifies reader, lower
    ensures reader.Valid(lower) && reader.Settled(lower) && reader.Waiting(lower, 1)
    ensures r.Pending? ==> lower.pendings < old(lower.pendings)
    ensures r.Ready? ==> lower.pendings == old(lower.pendings)
    ensures r.Ready? && r.value.Ok? ==>
      && |r.value.value| <= room && r.value.value + reader.Queue(lower) == old(reader.Queue(lower))
      && (r.value.value == [] && room > 0 && lower.reliable ==> old(reader.Queue(lower)) == [])
    ensures !(r.Ready? && r.value.Ok?) ==> reader.Queue(lower) == old(reader.Queue(lower))
    // an end of the stream reads nothing, any other error is passed on
    ensures r.Ready? && r.value.Ok? && r.value.value == [] && room > 0 ==> lower.error == Some(Eof)
    ensures r.Ready? && r.value.Err? ==>
      !lower.reliable && r.value.error != Eof && lower.error == Some(r.value.error)
  {
    var peek := reader.PollPeekAtLeast(lower, 1);
    match peek
    case Pending =>
      r := Pending;
    case Ready(Err(e)) =>
      if e != Eof {
        return Ready(Err(e));
      }
      var read := TakeFront(reader, lower, [], room);
      r := Ready(Ok(read));
    case Ready(Ok(data)) =>
      var read := TakeFront(reader, lower, data, room);
      r := Ready(Ok(read));
  }

  // Copies what fits of the bytes at hand and advances over it.
  method TakeFront(reader: Reader, ghost lower: LowerStream, data: seq<byte>, room: nat)
    returns (read: seq<byte>)
    requires reader.Valid(lower) && reader.Settled(lower) && reader.state.PollSizeHint?
    requires data <= reader.state.buf[reader.state.offset..]
    modifies reader
    ensures reader.Valid(lower) && reader.Settled(lower) && reader.state.PollSizeHint?
    ensures |read| == (if room < |data| then room else |data|)
    ensures read + reader.Queue(lower) == old(reader.Queue(lower))
  {
    var toRead := if room < |data| then room else |data|;
    ghost var queue := reader.Queue(lower);
    reader.Advance(toRead, lower);
    assert data[..toRead] == queue[..toRead];
    read := data[..toRead];
  }

  /** Reading until nothing comes yields the whole queue, whatever the segmentation, the Pendings
      and the size of the reads. */
  method ReadToEnd(reader: Reader, lower: LowerStream, room: nat) returns (all: seq<byte>)
    requires reader.Valid(lower) && reader.Settled(lower) && reader.Waiting(lower, 1)
    requires lower.reliable && room > 0
    modifies reader, lower
    ensures reader.Valid(lower) && all == old(reader.Queue(lower))
  {
    all := [];
    while true
      invariant reader.Valid(lower) && reader.Settled(lower) && reader.Waiting(lower, 1)
      invariant all + reader.Queue(lower) == old(reader.Queue(lower))
      decreases |reader.Queue(lower)|, lower.pendings
    {
      ghost var queue := reader.Queue(lower);
      var poll := PollRead(reader, lower, room);
      if poll.Ready? {
        var data := poll.value.value;
        if data == [] {
          return;
        }
        assert all + data + reader.Queue(lower) == all + (data + reader.Queue(lower));
        all := all + data;
      }
    }
  }
}
