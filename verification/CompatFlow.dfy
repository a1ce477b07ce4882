// The write half of `CompatFlow`, over an asynchronous byte sink.
module CompatFlow {
  import opened Flow

  class TxHalf {
    // bytes the sink has accepted, in order
    var wire: seq<byte>
    // how much of it the sink has been made to pass on
    ghost var flushed: nat
    // set once the sink has been shut down
    var shut: bool
    // the committed buffer and the write position; None while a client holds the buffer
    var txBuf: Option<(Buffer, nat)>
    var pendings: nat
    const reliable: bool

    constructor (pendings: nat, reliable: bool)
      ensures Valid() && txBuf.Some? && wire == [] && Unsent() == [] && !shut
      ensures this.pendings == pendings && this.reliable == reliable
    {
      wire, shut, txBuf, flushed := [], false, Some(([], 0)), 0;
      this.pendings, this.reliable := pendings, reliable;
    }

    ghost predicate Valid()
      reads this
    {
      txBuf.Some? ==> txBuf.value.1 <= |txBuf.value.0|
    }

    ghost function Unsent(): seq<byte>
      requires Valid()
      reads this
    {
      if txBuf.Some? then txBuf.value.0[txBuf.value.1..] else []
    }

    // `poll_write` of the sink: it waits, fails, or takes at least one byte.
    method PollWrite(slice: seq<byte>) returns (r: Poll<Result<nat, FlowError>>)
      requires slice != [] && !shut
      modifies this`wire, this`pendings
      ensures r.Pending? ==> pendings < old(pendings) && wire == old(wire)
      ensures r.Ready? ==> pendings == old(pendings)
      ensures r.Ready? && r.value.Ok? ==>
        0 < r.value.value <= |slice| && wire == old(wire) + slice[..r.value.value]
      ensures r.Ready? && r.value.Err? ==> wire == old(wire) && !reliable && r.value.error == Io
    {
      var stall: bool, fail: bool := *, *;
      if stall && pendings > 0 {
        pendings := pendings - 1;
        return Pending;
      }
      if fail && !reliable {
        return Ready(Err(Io));
      }
      var n: nat :| 0 < n <= |slice|;
      wire := wire + slice[..n];
      r := Ready(Ok(n));
    }

    // `poll_flush` of the sink
    method PollFlush() returns (r: Poll<Result<(), FlowError>>)
      modifies this`pendings, this`flushed
      ensures r.Pending? ==> pendings < old(pendings)
      ensures r.Ready? ==> pendings == old(pendings)
      ensures r.Ready? && r.value.Ok? ==> flushed == |wire|
      ensures !(r.Ready? && r.value.Ok?) ==> flushed == old(flushed)
      ensures r.Ready? && r.value.Err? ==> !reliable && r.value.error == Io
    {
      var stall: bool, fail: bool := *, *;
      if stall && pendings > 0 {
        pendings := pendings - 1;
        return Pending;
      }
      if fail && !reliable {
        return Ready(Err(Io));
      }
      flushed := |wire|;
      r := Ready(Ok(()));
    }

    // `poll_shutdown` of the sink
    method PollShutdown() returns (r: Poll<Result<(), FlowError>>)
      requires !shut
      modifies this`pendings, this`shut
      ensures r.Pending? ==> pendings < old(pendings)
      ensures r.Ready? ==> pendings == old(pendings)
      ensures shut <==> r.Ready? && r.value.Ok?
      ensures r.Ready? && r.value.Err? ==> !reliable && r.value.error == Io
    {
      var stall: bool, fail: bool := *, *;
      if stall && pendings > 0 {
        pendings := pendings - 1;
        return Pending;
      }
      if fail && !reliable {
        return Ready(Err(Io));
      }
      shut := true;
      r := Ready(Ok(()));
    }

    /** Panics, in the source, unless the buffer has been committed. */
    method PollFlushTx() returns (r: Poll<Result<(), FlowError>>)
      requires Valid() && txBuf.Some? && !shut
      modifies this`wire, this`txBuf, this`pendings, this`flushed
      ensures Valid() && txBuf.Some? && wire + Unsent() == old(wire + Unsent())
      ensures r.Pending? ==> pendings < old(pendings)
      ensures r.Ready? ==> pendings == old(pendings)
      ensures r.Ready? && r.value.Ok? ==> Unsent() == [] && flushed == |wire|
      ensures r.Ready? && r.value.Err? ==> !reliable && r.value.error == Io
    {
      var buf, offset := txBuf.value.0, txBuf.value.1;
      while offset < |buf|
        invariant offset <= |buf| && txBuf == Some((buf, offset)) && pendings == old(pendings)
        invariant wire + buf[offset..] == old(wire + Unsent())
      {
        var write := PollWrite(buf[offset..]);
        match write
        case Pending =>
          return Pending;
        case Ready(Err(e)) =>
          return Ready(Err(e));
        case Ready(Ok(written)) =>
          assert buf[offset..] == buf[offset..offset + written] + buf[offset + written..];
          offset := offset + written;
          txBuf := Some((buf, offset));
      }
      r := PollFlush();
    }

    /** The buffer comes back empty, and everything committed before is on the wire. */
    method PollTxBuffer(size: nat) returns (r: Poll<Result<Buffer, FlowError>>)
      requires Valid() && txBuf.Some? && !shut && size > 0
      modifies this`wire, this`txBuf, this`pendings, this`flushed
      ensures Valid() && wire + Unsent() == old(wire + Unsent())
      ensures r.Pending? ==> pendings < old(pendings)
      ensures r.Ready? ==> pendings == old(pendings)
      ensures txBuf.None? <==> r.Ready? && r.value.Ok?
      ensures r.Ready? && r.value.Ok? ==> r.value.value == [] && flushed == |wire|
      ensures r.Ready? && r.value.Err? ==> !reliable && r.value.error == Io
    {
      var flush := PollFlushTx();
      match flush
      case Pending =>
        r := Pending;
      case Ready(Err(e)) =>
        r := Ready(Err(e));
      case Ready(Ok(_)) =>
        txBuf := None;
        r := Ready(Ok([]));
    }

    method CommitTxBuffer(buffer: Buffer)
      requires txBuf.None?
      modifies this`txBuf
      ensures Valid() && txBuf.Some? && Unsent() == buffer
    {
      txBuf := Some((buffer, 0));
    }

    /** The sink is shut down only after every committed byte went to it. */
    method PollCloseTx() returns (r: Poll<Result<(), FlowError>>)
      requires Valid() && txBuf.Some? && !shut
      modifies this`wire, this`txBuf, this`pendings, this`flushed, this`shut
      ensures Valid() && txBuf.Some? && wire + Unsent() == old(wire + Unsent())
      ensures r.Pending? ==> pendings < old(pendings)
      ensures r.Ready? ==> pendings == old(pendings)
      ensures shut <==> r.Ready? && r.value.Ok?
      ensures shut ==> Unsent() == [] && flushed == |wire|
      ensures r.Ready? && r.value.Err? ==> !reliable && r.value.error == Io
    {
      r := PollFlushTx();
      if r.Ready? && r.value.Ok? {
        r := PollShutdown();
      }
    }
  }
}
