// The sending side of a pipe: a `CompatFlow` or an `IpStackStream`.
module PipeSink {
  import opened Flow
  import CompatFlow
  import opened IpStackTx

  /** What both kinds promise to the pipe. They differ in the buffer they hand out: `CompatFlow`
      writes everything first and hands it out empty, `IpStackStream` may leave unsent bytes in it. */
  datatype Sink = ToCompat(compat: CompatFlow.TxHalf) | ToIpStack(ip: IpStackTx.TxHalf) {
    function Half(): object {
      match this case ToCompat(c) => c case ToIpStack(i) => i
    }

    ghost predicate Valid()
      reads Half()
    {
      match this case ToCompat(c) => c.Valid() case ToIpStack(i) => i.Valid()
    }

    // bytes that left for the network, in order
    function Wire(): seq<byte>
      reads Half()
    {
      match this case ToCompat(c) => c.wire case ToIpStack(i) => i.sent
    }

    // committed bytes that did not leave yet
    ghost function Unsent(): seq<byte>
      requires Valid()
      reads Half()
    {
      match this case ToCompat(c) => c.Unsent() case ToIpStack(i) => i.Unsent()
    }

    // everything committed has left, and the kind of sink that buffers has been made to pass it on
    ghost predicate Flushed()
      requires Valid()
      reads Half()
    {
      Unsent() == [] && (ToCompat? ==> compat.flushed == |compat.wire|)
    }

    // the one way in which this kind of sink fails
    ghost function Failure(): FlowError {
      match this case ToCompat(_) => Io case ToIpStack(_) => Eof
    }

    // the buffer is here rather than with a client
    ghost predicate HasBuffer()
      reads Half()
    {
      match this case ToCompat(c) => c.txBuf.Some? case ToIpStack(i) => i.txBuf.Some?
    }

    ghost predicate Shut()
      reads Half()
    {
      match this case ToCompat(c) => c.shut case ToIpStack(i) => i.closed
    }

    // of the buffer; that of a `CompatFlow` makes no difference
    function Capacity(): nat
      reads Half()
    {
      match this case ToCompat(_) => 0 case ToIpStack(i) => i.capacity
    }

    ghost function Pendings(): nat
      reads Half()
    {
      match this case ToCompat(c) => c.pendings case ToIpStack(i) => |i.script|
    }

    ghost predicate Reliable() {
      match this case ToCompat(c) => c.reliable case ToIpStack(i) => i.reliable
    }

    method PollFlushTx() returns (r: Poll<Result<(), FlowError>>)
      requires Valid() && HasBuffer() && !Shut()
      modifies Half()
      ensures Valid() && HasBuffer() && !Shut() && Wire() + Unsent() == old(Wire() + Unsent())
      ensures Capacity() == old(Capacity())
      ensures r.Pending? ==> Pendings() < old(Pendings())
      ensures Pendings() <= old(Pendings()) && (r.Ready? && Reliable() ==> r.value.Ok?)
      ensures r.Ready? && r.value.Err? ==> r.value.error == Failure()
      ensures r.Ready? && r.value.Ok? ==> Flushed()
    {
      match this
      case ToCompat(c) => r := c.PollFlushTx();
      case ToIpStack(i) => r := i.PollFlushTx();
    }

    method PollTxBuffer(size: nat) returns (r: Poll<Result<Buffer, FlowError>>)
      requires Valid() && HasBuffer() && !Shut() && size > 0
      modifies Half()
      ensures Valid() && !Shut()
      ensures r.Pending? ==> Pendings() < old(Pendings())
      ensures Pendings() <= old(Pendings()) && (r.Ready? && Reliable() ==> r.value.Ok?)
      ensures r.Ready? && r.value.Err? ==> r.value.error == Failure()
      ensures HasBuffer() <==> !(r.Ready? && r.value.Ok?)
      ensures HasBuffer() ==> Wire() + Unsent() == old(Wire() + Unsent())
      ensures !HasBuffer() ==> Wire() + r.value.value == old(Wire() + Unsent()) && Unsent() == []
      ensures !HasBuffer() && ToCompat? ==> r.value.value == []
      ensures ToIpStack? && !HasBuffer() ==>
        r.value.value == Retained(old(Unsent()), old(Capacity()), size, old(ip.script))
      ensures ToIpStack? && !HasBuffer() ==> |r.value.value| + size <= Capacity()
      ensures ToIpStack? && old(Capacity()) >= size ==> Capacity() == old(Capacity())
    {
      match this
      case ToCompat(c) => r := c.PollTxBuffer(size);
        assert !HasBuffer() ==> Wire() + [] == Wire();
      case ToIpStack(i) => r := i.PollTxBuffer(size);
    }

    method CommitTxBuffer(buffer: Buffer)
      requires Valid() && !HasBuffer()
      modifies Half()
      ensures Valid() && HasBuffer() && Unsent() == buffer && Wire() == old(Wire())
      ensures Shut() == old(Shut()) && Pendings() == old(Pendings())
      ensures ToIpStack? && |buffer| <= old(Capacity()) ==> Capacity() == old(Capacity())
    {
      match this
      case ToCompat(c) => c.CommitTxBuffer(buffer);
      case ToIpStack(i) => i.CommitTxBuffer(buffer);
    }

    method PollCloseTx() returns (r: Poll<Result<(), FlowError>>)
      requires Valid() && HasBuffer() && !Shut()
      modifies Half()
      ensures Valid() && HasBuffer() && Wire() + Unsent() == old(Wire() + Unsent())
      ensures r.Pending? ==> Pendings() < old(Pendings())
      ensures Pendings() <= old(Pendings()) && (r.Ready? && Reliable() ==> r.value.Ok?)
      ensures r.Ready? && r.value.Err? ==> r.value.error == Failure()
      ensures Capacity() == old(Capacity())
      ensures Shut() <==> r.Ready? && r.value.Ok?
      ensures Shut() ==> Flushed()
    {
      match this
      case ToCompat(c) => r := c.PollCloseTx();
      case ToIpStack(i) => r := i.PollCloseTx();
    }
  }
}
