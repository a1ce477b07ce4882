// Types shared by every stream layer, and the peer at the bottom of the stack.
module Flow {
  type byte = b: int | 0 <= b < 256
  type Buffer = seq<byte>

  datatype Option<+T> = None | Some(value: T) {
    function GetOr(default: T): T {
      if Some? then value else default
    }
  }

  // Byte counters are 64-bit and wrap around.
  const COUNTER_SPAN := 0x1_0000_0000_0000_0000

  // Room for content that is asked for beyond a hint's overhead.
  const CONTENT := 4096

  lemma WrapOnce(n: nat, len: nat)
    ensures (n % COUNTER_SPAN + len) % COUNTER_SPAN == (n + len) % COUNTER_SPAN
  {
  }

  datatype Result<+T, +E> = Ok(value: T) | Err(error: E)

  datatype Poll<+T> = Pending | Ready(value: T)

  datatype FlowError = Io | Eof | UnexpectedData | NoOutbound

  datatype SizeHint = AtLeast(min: nat) | Unknown(overhead: nat) {
    function WithMinContent(contentLen: nat): nat {
      match this
      case AtLeast(min) => min
      case Unknown(overhead) => overhead + contentLen
    }
  }

  lemma Regroup<T>(a: seq<T>, b: seq<T>, c: seq<T>)
    ensures a + (b + c) == a + b + c
  {
  }

  lemma HeadAndTail<T>(s: seq<T>)
    requires s != []
    ensures [s[0]] + s[1..] == s
  {
  }

  // A slice that begins behind the first part of a concatenation.
  lemma SliceBehind(a: seq<byte>, b: seq<byte>, i: nat, j: nat)
    requires |a| <= i <= j <= |a| + |b|
    ensures (a + b)[i..j] == b[i - |a|..j - |a|] && (a + b)[i..] == b[i - |a|..]
  {
  }

  /** The read side of an arbitrary lower `Stream`. Every answer is chosen freely among those the
      trait allows: any segmentation of `incoming`, Pending as often as the budget `pendings` lets
      it, and, unless the stream is `reliable`, a failure at any call. The budget is any natural
      number, so every finite schedule is covered. A `plain` stream is a `CompatFlow`: its hints are
      empty and it fills no more than the room in the buffer. The requires clauses are the panic
      sites of the implementations: a missing or doubled buffer, and polling for data that was not
      announced. */
  class LowerStream {
    var incoming: seq<byte>
    var rxBuf: Option<Buffer>
    // room behind the bytes in the buffer that was committed
    var room: nat
    var pendings: nat
    const reliable: bool
    const plain: bool
    // a size request was answered and its data has not been delivered yet
    ghost var announced: bool
    // the error of the last call, if it was one
    ghost var error: Option<FlowError>
    // the end was reported in place of data
    ghost var ended: bool

    constructor (incoming: seq<byte>, pendings: nat, reliable: bool, plain: bool)
      ensures this.incoming == incoming && this.pendings == pendings && this.reliable == reliable
      ensures rxBuf == None && !announced && !ended && this.plain == plain
    {
      this.incoming, this.pendings, this.reliable, this.plain := incoming, pendings, reliable, plain;
      rxBuf, room, announced, error, ended := None, 0, false, None, false;
    }

    method PollRequestSize() returns (r: Poll<Result<SizeHint, FlowError>>)
      modifies this`pendings, this`announced, this`error
      ensures error == if r.Ready? && r.value.Err? then Some(r.value.error) else None
      ensures r.Pending? ==> pendings < old(pendings)
      ensures r.Ready? ==> pendings == old(pendings)
      ensures announced == (old(announced) || (r.Ready? && r.value.Ok?))
      ensures r.Ready? && r.value.Ok? ==> r.value.value != AtLeast(0)
      ensures r.Ready? && r.value.Ok? && plain ==> r.value.value == Unknown(0)
      ensures r.Ready? && reliable ==> r.value.Ok?
    {
      error := None;
      var stall: bool := *;
      if stall && pendings > 0 {
        pendings := pendings - 1;
        return Pending;
      }
      var fail: bool := *;
      if fail && !reliable {
        var e: FlowError := *;
        error := Some(e);
        return Ready(Err(e));
      }
      var hint: SizeHint := *;
      announced := true;
      r := Ready(Ok(if plain || hint == AtLeast(0) then Unknown(0) else hint));
    }

    method CommitRxBuffer(buffer: Buffer, room: nat) returns (r: Result<(), (Buffer, FlowError)>)
      requires rxBuf.None? && room > 0
      modifies this`rxBuf, this`room, this`error
      ensures error == if r.Err? then Some(r.error.1) else None
      ensures r.Ok? ==> rxBuf == Some(buffer) && this.room == room
      ensures r.Err? ==> rxBuf == None && r.error.0 == buffer && !reliable
    {
      var fail: bool := *;
      if fail && !reliable {
        var e: FlowError := *;
        error := Some(e);
        return Err((buffer, e));
      }
      rxBuf, this.room, error := Some(buffer), room, None;
      r := Ok(());
    }

    method PollRxBuffer() returns (r: Poll<Result<Buffer, (Buffer, FlowError)>>)
      requires rxBuf.Some? && announced && room > 0
      modifies this`rxBuf, this`incoming, this`pendings, this`announced, this`error, this`ended
      ensures error == if r.Ready? && r.value.Err? then Some(r.value.error.1) else None
      ensures ended == (old(ended) || error == Some(Eof))
      ensures r.Pending? ==>
        pendings < old(pendings) && rxBuf == old(rxBuf) && incoming == old(incoming) && announced
      ensures r.Ready? ==> pendings == old(pendings) && rxBuf == None && !announced
      ensures r.Ready? && r.value.Ok? ==> var b := r.value.value;
        old(rxBuf.value) < b && b + incoming == old(rxBuf.value + incoming)
      ensures r.Ready? && r.value.Err? ==> var b := r.value.error.0;
        old(rxBuf.value) <= b && b + incoming == old(rxBuf.value + incoming)
      ensures r.Ready? && r.value.Err? && reliable ==>
        r.value.error.1 == Eof && incoming == old(incoming) == []
      ensures r.Ready? && plain ==>
        var b := if r.value.Ok? then r.value.value else r.value.error.0;
        |b| <= |old(rxBuf.value)| + room
    {
      error := None;
      var stall: bool := *;
      if stall && pendings > 0 {
        pendings := pendings - 1;
        return Pending;
      }
      var held := rxBuf.value;
      rxBuf, announced := None, false;
      var fail: bool := *;
      if fail && !reliable {
        var e: FlowError := *;
        var n: nat :| n <= |incoming| && (plain ==> n <= room);
        var segment := incoming[..n];
        incoming := incoming[n..];
        error, ended := Some(e), ended || e == Eof;
        return Ready(Err((held + segment, e)));
      }
      if incoming == [] {
        error, ended := Some(Eof), true;
        return Ready(Err((held, Eof)));
      }
      var n: nat :| 0 < n <= |incoming| && (plain ==> n <= room);
      var segment := incoming[..n];
      incoming := incoming[n..];
      r := Ready(Ok(held + segment));
    }
  }
}
