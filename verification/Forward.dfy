// The pipe: one buffer circulating between a source stream and a sink, in each of two directions.
module Forward {
  import opened Flow
  import opened PipeSink
  import opened IpStackTx

  datatype ForwardState =
    AwaitingSizeHint | PollingTxBuf(hint: SizeHint) | PollingRxBuf | Closing | Done

  /** One direction of `StreamForward`, with the state `poll_forward_oneway` rewrites. */
  class Oneway {
    const rx: LowerStream
    const tx: Sink
    var state: ForwardState
    // 64-bit, wrapping
    var counter: nat
    // everything the source had to deliver when forwarding began
    ghost const source: seq<byte>
    // set when a poll returned an error; the future is finished then
    ghost var failed: bool
    // the error it returned
    ghost var error: FlowError
    // how many bytes the sink had handed out again, unsent, in buffers that were counted since
    ghost var recounted: nat
    // a `CompatFlow` delivers into the buffer a new `IpStackStream` starts out with
    ghost const snug: bool

    constructor (rx: LowerStream, tx: Sink)
      requires rx.rxBuf.None? && !rx.ended && tx.Valid() && tx.HasBuffer() && !tx.Shut()
      requires tx.Wire() == [] && tx.Unsent() == [] && tx.Half() != rx
      ensures this.rx == rx && this.tx == tx && state == AwaitingSizeHint && counter == 0
      ensures source == rx.incoming && !failed && recounted == 0 && Valid()
      ensures snug <==> rx.plain && tx.ToIpStack? && tx.Capacity() == INITIAL_CAPACITY
    {
      this.rx, this.tx, state, counter := rx, tx, AwaitingSizeHint, 0;
      source, failed, error, recounted := rx.incoming, false, Io, 0;
      snug := rx.plain && tx.ToIpStack? && tx.Capacity() == INITIAL_CAPACITY;
    }

    // Everything that was received: what left for the network, what the sink still has to send, and
    // what is in the circulating buffer.
    ghost function Committed(): seq<byte>
      requires tx.Valid()
      reads this, rx, tx.Half()
    {
      tx.Wire() + tx.Unsent() + rx.rxBuf.GetOr([])
    }

    /** Conservation: what was received and what the source still holds are, in this order, exactly
        what the source had. Between polls the circulating buffer holds only bytes an
        `IpStackStream` left in it. */
    ghost predicate Conserved()
      requires tx.Valid()
      reads this, rx, tx.Half()
    {
      && Committed() + rx.incoming == source
      && (rx.rxBuf.Some? ==> tx.Unsent() == [] && (tx.ToCompat? ==> rx.rxBuf.value == []))
    }

    /** The buffer is in the one place that the state names, and the source has announced the data
        that is waited for, which is what every panic site of the streams relies on. The counter is
        the number of bytes received, plus those that came back unsent and are counted again. */
    ghost predicate Valid()
      reads this, rx, tx.Half()
    {
      && tx.Half() != rx && tx.Valid()
      && Conserved()
      && (state.PollingTxBuf? ==> state.hint != AtLeast(0))
      && (tx.Shut() ==> tx.Flushed())
      && (tx.ToCompat? || snug ==> recounted == 0)
      && (snug ==> Snug())
      && (failed ==> rx.error == Some(error) || (!tx.Reliable() && error == tx.Failure()))
      && (!failed ==>
        && (rx.ended <==> state.Closing? || state.Done?)
        && (rx.rxBuf.Some? <==> state.PollingRxBuf?)
        && (tx.HasBuffer() <==> !state.PollingRxBuf?)
        && (state.PollingTxBuf? || state.PollingRxBuf? ==> rx.announced)
        && (state.PollingRxBuf? ==> rx.room > 0)
        && (tx.Shut() <==> state.Done?)
        && counter == (|Committed()| + recounted) % COUNTER_SPAN
        && (rx.reliable && (state.Closing? || state.Done?) ==> rx.incoming == []))
    }

    // Every request is for the whole buffer, and what comes back fits it.
    ghost predicate Snug()
      reads this, rx, tx.Half()
    {
      && rx.plain && tx.ToIpStack? && tx.Capacity() == INITIAL_CAPACITY
      && (rx.rxBuf.Some? ==> rx.rxBuf.value == [] && rx.room == INITIAL_CAPACITY)
      && (state.PollingTxBuf? ==> state.hint == Unknown(0))
    }

    /** How many bytes the next delivery counts again, for each script of the socket. */
    ghost function Excess(script: seq<Answer>): nat
      requires tx.ToIpStack? && state.PollingTxBuf?
      reads this, tx.Half()
    {
      |Retained(tx.ip.Unsent(), tx.Capacity(), state.hint.WithMinContent(CONTENT), script)|
    }

    ghost predicate Reliable()
      reads this
    {
      rx.reliable && tx.Reliable()
    }

    ghost function Patience(): nat
      reads this, rx, tx.Half()
    {
      rx.pendings + tx.Pendings()
    }

    // The loop goes round again only after a byte moved or with a later state.
    ghost predicate Progressed(left: nat, was: ForwardState)
      reads this, rx
    {
      |rx.incoming| < left || (|rx.incoming| == left && Stage(state) < Stage(was))
    }

    // The arms of `poll_forward_oneway`; None sends it round the loop again.
    method AwaitSizeHint() returns (r: Option<Poll<Result<(), FlowError>>>)
      requires Valid() && !failed && state.AwaitingSizeHint?
      modifies this`state, this`failed, this`error, rx, tx.Half()
      ensures Valid() && (failed <==> r.Some? && r.value.Ready? && r.value.value.Err?)
      ensures failed ==> r == Some(Ready(Err(error)))
      ensures r.Some? ==> r.value.Pending? || r.value.value.Err?
      ensures Patience() <= old(Patience()) && tx.Pendings() <= old(tx.Pendings())
      ensures r == Some(Pending) ==> Patience() < old(Patience())
      ensures r.Some? ==> state == old(state)
      ensures r.None? ==> Progressed(|old(rx.incoming)|, old(state))
      ensures Reliable() ==> !failed
      ensures r == Some(Pending) ==> tx.Flushed() || tx.Pendings() < old(tx.Pendings())
    {
      var hint := rx.PollRequestSize();
      match hint
      case Pending =>
        var flush := FlushMeanwhile();
        r := Some(flush);
      case Ready(Err(e)) =>
        failed, error := true, e;
        r := Some(Ready(Err(e)));
      case Ready(Ok(h)) =>
        state := PollingTxBuf(h);
        r := None;
    }

    // The source has nothing yet: what the sink still has is flushed in the meantime.
    method FlushMeanwhile() returns (r: Poll<Result<(), FlowError>>)
      requires Valid() && !failed && state.AwaitingSizeHint?
      modifies this`failed, this`error, tx.Half()
      ensures Valid() && (failed <==> r.Ready?) && (failed ==> r == Ready(Err(error)))
      ensures tx.Pendings() <= old(tx.Pendings())
      ensures failed ==> !tx.Reliable()
      ensures !failed ==> tx.Flushed() || tx.Pendings() < old(tx.Pendings())
    {
      var flush := tx.PollFlushTx();
      failed := flush.Ready? && flush.value.Err?;
      if flush.Ready? && flush.value.Err? {
        error := flush.value.error;
        return flush;
      }
      r := Pending;
    }

    method TakeTxBuffer() returns (r: Option<Poll<Result<(), FlowError>>>)
      requires Valid() && !failed && state.PollingTxBuf?
      modifies this`state, this`failed, this`error, rx, tx.Half()
      ensures Valid() && (failed <==> r.Some? && r.value.Ready? && r.value.value.Err?)
      ensures failed ==> r == Some(Ready(Err(error)))
      ensures r.Some? ==> r.value.Pending? || r.value.value.Err?
      ensures Patience() <= old(Patience()) && tx.Pendings() <= old(tx.Pendings())
      ensures r == Some(Pending) ==> Patience() < old(Patience())
      ensures r.Some? ==> state == old(state)
      ensures r.None? ==> Progressed(|old(rx.incoming)|, old(state))
      ensures Reliable() ==> !failed
      ensures r.None? && tx.ToIpStack? ==> |rx.rxBuf.GetOr([])| == old(Excess(tx.ip.script))
    {
      var size := state.hint.WithMinContent(CONTENT);
      var offered := AskSink(size);
      if offered.Ready? && offered.value.Ok? {
        var room := RoomBehind(offered.value.value, size);
        r := HandOver(offered.value.value, room);
      } else {
        r := Some(if offered.Pending? then Pending else Ready(Err(offered.value.error)));
      }
    }

    // The sink's answer to the request for a buffer.
    method AskSink(size: nat) returns (offered: Poll<Result<Buffer, FlowError>>)
      requires Valid() && !failed && state.PollingTxBuf? && size == state.hint.WithMinContent(CONTENT)
      modifies this`failed, this`error, tx.Half()
      ensures failed <==> offered.Ready? && offered.value.Err?
      ensures failed ==> offered == Ready(Err(error))
      ensures failed ==> !tx.Reliable()
      ensures tx.Pendings() <= old(tx.Pendings())
      ensures offered.Pending? ==> tx.Pendings() < old(tx.Pendings())
      ensures offered.Pending? || offered.value.Err? ==> Valid()
      ensures offered.Ready? && offered.value.Ok? ==>
        && var buf := offered.value.value;
        && tx.Valid() && !tx.HasBuffer() && !tx.Shut() && tx.Unsent() == []
        && tx.Wire() + buf == old(Committed()) && (tx.ToCompat? ==> buf == [])
        && (tx.ToIpStack? ==> |buf| == old(Excess(tx.ip.script)) && |buf| + size <= tx.Capacity())
        && (snug ==> Snug() && buf == [] && tx.Capacity() == size == INITIAL_CAPACITY)
    {
      if snug {
        EmptyHandOutIff(tx.ip.Unsent(), tx.Capacity(), size);
      }
      offered := tx.PollTxBuffer(size);
      failed := offered.Ready? && offered.value.Err?;
      error := if offered.Ready? && offered.value.Err? then offered.value.error else error;
      assert tx.Wire() + tx.Unsent() + [] == tx.Wire() + tx.Unsent();
      assert old(tx.Wire() + tx.Unsent()) + [] == old(tx.Wire() + tx.Unsent());
    }

    // What was reserved, or more.
    method RoomBehind(buf: Buffer, size: nat) returns (room: nat)
      requires size > 0 && (tx.ToIpStack? ==> |buf| + size <= tx.Capacity())
      ensures room >= size && (tx.ToIpStack? ==> room == tx.Capacity() - |buf|)
    {
      room :| room >= size;
      if tx.ToIpStack? {
        room := tx.Capacity() - |buf|;
      }
    }

    // Passes the sink's buffer on to the source, or back to the sink if that fails.
    method HandOver(buf: Buffer, room: nat) returns (r: Option<Poll<Result<(), FlowError>>>)
      requires tx.Half() != rx && tx.Valid() && !tx.HasBuffer() && !tx.Shut() && tx.Unsent() == []
      requires rx.rxBuf.None? && rx.announced && !rx.ended && !failed && state.PollingTxBuf?
      requires state.hint != AtLeast(0)
      requires tx.Wire() + buf + rx.incoming == source
      requires room > 0 && (tx.ToCompat? ==> buf == []) && (tx.ToCompat? || snug ==> recounted == 0)
      requires snug ==> Snug() && buf == [] && room == INITIAL_CAPACITY
      requires counter == (|tx.Wire() + buf| + recounted) % COUNTER_SPAN
      modifies this`state, this`failed, this`error, rx`rxBuf, rx`room, rx`error, tx.Half()
      ensures Valid() && (failed <==> r.Some?) && (failed ==> r == Some(Ready(Err(error))))
      ensures tx.Pendings() == old(tx.Pendings())
      ensures failed ==> !rx.reliable
      ensures state == if failed then old(state) else PollingRxBuf
      ensures !failed ==> rx.rxBuf == Some(buf)
    {
      HandedOut(tx.Wire(), buf);
      var committed := rx.CommitRxBuffer(buf, room);
      failed := committed.Err?;
      if committed.Err? {
        error := committed.error.1;
        tx.CommitTxBuffer(committed.error.0);
        r := Some(Ready(Err(committed.error.1)));
      } else {
        state := PollingRxBuf;
        r := None;
      }
    }

    method ReceiveBuffer() returns (r: Option<Poll<Result<(), FlowError>>>)
      requires Valid() && !failed && state.PollingRxBuf?
      modifies this`state, this`counter, this`failed, this`error, this`recounted, rx, tx.Half()
      ensures Valid() && (failed <==> r.Some? && r.value.Ready? && r.value.value.Err?)
      ensures failed ==> r == Some(Ready(Err(error)))
      ensures r.Some? ==> r.value.Pending? || r.value.value.Err?
      ensures Patience() <= old(Patience()) && tx.Pendings() <= old(tx.Pendings())
      ensures r == Some(Pending) ==> Patience() < old(Patience())
      ensures r.Some? ==> state == old(state)
      ensures r.None? ==> Progressed(|old(rx.incoming)|, old(state))
      ensures r.None? ==> recounted == old(recounted) + |old(rx.rxBuf.value)|
      ensures Reliable() ==> !failed
      // the end of the source is no error, and an error counts nothing
      ensures failed ==> error != Eof && counter == old(counter)
    {
      ghost var retained, left := rx.rxBuf.value, rx.incoming;
      var received := rx.PollRxBuffer();
      if received.Pending? {
        return Some(Pending);
      }
      var buf := if received.value.Ok? then received.value.value else received.value.error.0;
      Rejoin(tx.Wire(), retained, left, buf, rx.incoming);
      r := Arrive(buf, if received.value.Ok? then None else Some(received.value.error.1), |retained|);
    }

    // What a delivery, the end of the source or its failure does to the state.
    method Arrive(buf: Buffer, end: Option<FlowError>, ghost retained: nat)
      returns (r: Option<Poll<Result<(), FlowError>>>)
      requires tx.Valid() && !tx.HasBuffer() && tx.Unsent() == [] && !tx.Shut()
      requires rx.rxBuf.None? && tx.Half() != rx && retained <= |buf|
      requires !failed && state.PollingRxBuf?
      requires tx.Wire() + buf + rx.incoming == source && (tx.ToCompat? || snug ==> retained == 0)
      requires snug ==> Snug() && |buf| <= INITIAL_CAPACITY && recounted == 0
      requires tx.ToCompat? ==> recounted == 0
      requires counter == (|tx.Wire()| + retained + recounted) % COUNTER_SPAN
      requires rx.reliable && end.Some? ==> rx.incoming == []
      requires rx.error == end && (rx.ended <==> end == Some(Eof))
      modifies this`state, this`counter, this`failed, this`error, this`recounted, tx.Half()
      ensures Valid() && tx.Pendings() == old(tx.Pendings())
      ensures failed <==> end.Some? && end.value != Eof
      ensures r == if failed then Some(Ready(Err(error))) else None
      ensures failed ==> end == Some(error) && counter == old(counter)
      ensures state == if failed then old(state) else if end.None? then AwaitingSizeHint else Closing
      ensures !failed ==> recounted == old(recounted) + retained
    {
      var fatal := end.Some? && end.value != Eof;
      failed := fatal;
      Land(buf, !fatal, retained);
      if fatal {
        error := end.value;
        r := Some(Ready(Err(end.value)));
      } else {
        state := if end.None? then AwaitingSizeHint else Closing;
        r := None;
      }
    }

    // Hands the buffer back to the sink; its bytes are counted unless they came with an error.
    method Land(buf: Buffer, counted: bool, ghost retained: nat)
      requires tx.Valid() && !tx.HasBuffer() && tx.Unsent() == [] && !tx.Shut()
      requires rx.rxBuf.None? && tx.Half() != rx && retained <= |buf|
      requires tx.Wire() + buf + rx.incoming == source && (tx.ToCompat? || snug ==> retained == 0)
      requires snug ==> Snug() && |buf| <= INITIAL_CAPACITY
      requires counter == (|tx.Wire()| + retained + recounted) % COUNTER_SPAN
      modifies this`counter, this`recounted, tx.Half()
      ensures tx.Valid() && tx.HasBuffer() && !tx.Shut() && Conserved()
      ensures tx.Unsent() == buf && tx.Wire() == old(tx.Wire())
      ensures tx.Pendings() == old(tx.Pendings())
      ensures counted ==> counter == (|Committed()| + recounted) % COUNTER_SPAN
      ensures recounted == old(recounted) + if counted then retained else 0
      ensures !counted ==> counter == old(counter)
      ensures snug ==> Snug()
    {
      tx.CommitTxBuffer(buf);
      assert tx.Wire() + buf + [] == tx.Wire() + buf;
      if counted {
        WrapOnce(|tx.Wire()| + retained + recounted, |buf|);
        counter := (counter + |buf|) % COUNTER_SPAN;
        recounted := recounted + retained;
      }
    }

    method Close() returns (r: Option<Poll<Result<(), FlowError>>>)
      requires Valid() && !failed && state.Closing?
      modifies this`state, this`failed, this`error, rx, tx.Half()
      ensures Valid() && (failed <==> r.Some? && r.value.Ready? && r.value.value.Err?)
      ensures failed ==> r == Some(Ready(Err(error)))
      ensures r.Some? ==> r.value.Pending? || r.value.value.Err?
      ensures Patience() <= old(Patience()) && tx.Pendings() <= old(tx.Pendings())
      ensures r == Some(Pending) ==> Patience() < old(Patience())
      ensures r.Some? ==> state == old(state)
      ensures r.None? ==> Progressed(|old(rx.incoming)|, old(state))
      ensures Reliable() ==> !failed
    {
      var closed := tx.PollCloseTx();
      match closed
      case Pending =>
        r := Some(Pending);
      case Ready(Err(e)) =>
        failed, error := true, e;
        r := Some(Ready(Err(e)));
      case Ready(Ok(_)) =>
        state := Done;
        r := None;
    }

    /** `poll_forward_oneway`. It returns Pending only when a stream did, so that over streams that
        do not fail it ends with every byte on the wire and the sink shut down. */
    method Poll() returns (r: Poll<Result<(), FlowError>>)
      requires Valid() && !failed
      modifies this`state, this`counter, this`failed, this`error, this`recounted, rx, tx.Half()
      ensures Valid() && (failed <==> r.Ready? && r.value.Err?) && (failed ==> r == Ready(Err(error)))
      ensures r.Ready? && r.value.Ok? <==> state.Done? && !failed
      ensures r.Pending? ==> Patience() < old(Patience())
      ensures Patience() <= old(Patience())
      ensures Reliable() ==> !failed
      // it does not sit on bytes while it waits for more
      ensures r.Pending? && state.AwaitingSizeHint? ==>
        tx.Flushed() || tx.Pendings() < old(tx.Pendings())
    {
      while true
        invariant Valid() && !failed && Patience() <= old(Patience())
        invariant tx.Pendings() <= old(tx.Pendings())
        decreases |rx.incoming|, Stage(state)
      {
        var turn: Option<Poll<Result<(), FlowError>>>;
        match state {
          case AwaitingSizeHint => turn := AwaitSizeHint();
          case PollingTxBuf(_) => turn := TakeTxBuffer();
          case PollingRxBuf => turn := ReceiveBuffer();
          case Closing => turn := Close();
          case Done => return Ready(Ok(()));
        }
        if turn.Some? {
          return turn.value;
        }
      }
    }
  }

  lemma Rejoin(wire: seq<byte>, retained: Buffer, left: seq<byte>, buf: Buffer, rest: seq<byte>)
    requires buf + rest == retained + left
    ensures wire + buf + rest == wire + [] + retained + left
    ensures |wire + [] + retained| == |wire| + |retained|
  {
    assert wire + buf + rest == wire + (buf + rest);
    assert wire + [] + retained + left == wire + (retained + left);
  }

  lemma HandedOut(wire: seq<byte>, buf: Buffer)
    ensures wire + [] + buf == wire + buf == wire + buf + []
  {
  }

  // How far the loop is from an answer while no byte moves.
  function Stage(s: ForwardState): nat {
    match s
    case AwaitingSizeHint => 4
    case PollingTxBuf(_) => 3
    case PollingRxBuf => 2
    case Closing => 1
    case Done => 0
  }

  /** Polled until it is done, a direction between streams that do not fail - whatever the
      segmentation and the Pendings - has moved everything, in order, and shut the sink after it. */
  method ForwardAll(way: Oneway)
    requires way.Valid() && !way.failed && way.Reliable()
    modifies way`state, way`counter, way`failed, way`error, way`recounted, way.rx, way.tx.Half()
    ensures way.Valid() && way.state.Done? && way.tx.Shut()
    ensures way.tx.Wire() == way.source && way.rx.incoming == []
    ensures way.counter == (|way.source| + way.recounted) % COUNTER_SPAN
    ensures way.tx.ToCompat? || way.snug ==> way.recounted == 0
  {
    var poll := way.Poll();
    while poll.Pending?
      invariant way.Valid() && !way.failed
      invariant poll.Ready? ==> poll.value.Ok? && way.state.Done?
      decreases way.Patience(), poll.Pending?
    {
      poll := way.Poll();
    }
    WholeOnWire(way);
  }

  /** `StreamForward`: the two directions polled together. They share no stream half. */
  class StreamForward {
    const uplink: Oneway
    const downlink: Oneway

    ghost predicate Apart()
      reads this
    {
      && uplink != downlink && uplink.rx != downlink.rx && uplink.tx.Half() != downlink.tx.Half()
      && uplink.rx != downlink.tx.Half() && downlink.rx != uplink.tx.Half()
    }

    ghost function Patience(): nat
      reads this, uplink, downlink, uplink.rx, uplink.tx.Half(), downlink.rx, downlink.tx.Half()
    {
      uplink.Patience() + downlink.Patience()
    }

    constructor (uplink: Oneway, downlink: Oneway)
      ensures this.uplink == uplink && this.downlink == downlink
    {
      this.uplink, this.downlink := uplink, downlink;
    }

    /** Both directions are polled even when one of them fails; an error of either ends both, and
        success means both are done. Neither direction's bytes reach the other. */
    method Poll() returns (r: Poll<Result<(), FlowError>>)
      requires Apart() && uplink.Valid() && downlink.Valid() && !uplink.failed && !downlink.failed
      modifies uplink`state, uplink`counter, uplink`failed, uplink`error, uplink`recounted
      modifies uplink.rx, uplink.tx.Half()
      modifies downlink`state, downlink`counter, downlink`failed, downlink`error, downlink`recounted
      modifies downlink.rx, downlink.tx.Half()
      ensures uplink.Valid() && downlink.Valid()
      ensures r.Ready? && r.value.Err? <==> uplink.failed || downlink.failed
      ensures r.Ready? && r.value.Err? ==>
        r.value.error == if downlink.failed then downlink.error else uplink.error
      ensures r.Ready? && r.value.Ok? <==>
        uplink.state.Done? && downlink.state.Done? && !uplink.failed && !downlink.failed
      ensures r.Pending? ==> Patience() < old(Patience())
      ensures uplink.Reliable() && downlink.Reliable() ==> !uplink.failed && !downlink.failed
    {
      var down := downlink.Poll();
      var up := uplink.Poll();
      match (down, up)
      case (Ready(Ok(_)), Ready(Ok(_))) =>
        r := Ready(Ok(()));
      case (Ready(Err(e)), _) =>
        r := Ready(Err(e));
      case (_, Ready(Err(e))) =>
        r := Ready(Err(e));
      case (_, _) =>
        r := Pending;
    }
  }

  /** Any number of polls of the pair, stopping when it is ready: conservation and the placement of
      both buffers hold throughout, and a pair of reliable directions runs to completion. */
  method Run(pair: StreamForward, polls: nat) returns (r: Poll<Result<(), FlowError>>)
    requires pair.Apart() && pair.uplink.Valid() && pair.downlink.Valid()
    requires !pair.uplink.failed && !pair.downlink.failed
    modifies pair.uplink`state, pair.uplink`counter, pair.uplink`failed, pair.uplink`error
    modifies pair.uplink`recounted
    modifies pair.uplink.rx, pair.uplink.tx.Half()
    modifies pair.downlink`state, pair.downlink`counter, pair.downlink`failed, pair.downlink`error
    modifies pair.downlink`recounted, pair.downlink.rx, pair.downlink.tx.Half()
    ensures pair.uplink.Valid() && pair.downlink.Valid()
    ensures r.Ready? && r.value.Ok? ==>
      && pair.uplink.tx.Shut() && pair.downlink.tx.Shut()
      && (pair.uplink.rx.reliable ==> pair.uplink.tx.Wire() == pair.uplink.source)
      && (pair.downlink.rx.reliable ==> pair.downlink.tx.Wire() == pair.downlink.source)
    ensures pair.uplink.Reliable() && pair.downlink.Reliable() && polls > old(pair.Patience()) ==>
      r.Ready? && r.value.Ok?
  {
    r := Pending;
    var n := 0;
    while n < polls && r.Pending?
      invariant n <= polls && pair.uplink.Valid() && pair.downlink.Valid()
      invariant r.Pending? ==> !pair.uplink.failed && !pair.downlink.failed
      invariant r.Pending? ==> pair.Patience() + n <= old(pair.Patience())
      invariant pair.uplink.Reliable() && pair.downlink.Reliable() && r.Ready? ==> r.value.Ok?
      invariant r.Ready? && r.value.Ok? ==>
        && pair.uplink.state.Done? && pair.downlink.state.Done?
        && !pair.uplink.failed && !pair.downlink.failed
    {
      r := pair.Poll();
      n := n + 1;
    }
    if r.Ready? && r.value.Ok? {
      WholeOnWire(pair.uplink);
      WholeOnWire(pair.downlink);
    }
  }

  /** A direction that is done over a reliable source has everything on the wire. */
  lemma WholeOnWire(way: Oneway)
    requires way.Valid() && !way.failed && way.state.Done?
    ensures way.tx.Shut() && way.Committed() == way.tx.Wire()
    ensures way.tx.Wire() + way.rx.incoming == way.source
    ensures way.rx.reliable ==> way.tx.Wire() == way.source
  {
    assert way.tx.Wire() + [] + [] == way.tx.Wire();
    assert way.tx.Wire() + [] == way.tx.Wire();
  }

  /** The next delivery is counted once, whatever the socket does, exactly when nothing is unsent or
      the size asked for is the capacity of the sink's buffer. */
  lemma CountedOnceIff(way: Oneway)
    requires way.Valid() && way.tx.ToIpStack? && way.state.PollingTxBuf?
    ensures (forall script :: way.Excess(script) == 0)
      <==> way.tx.Unsent() == [] || way.tx.Capacity() == way.state.hint.WithMinContent(CONTENT)
  {
    var unsent, capacity := way.tx.ip.Unsent(), way.tx.Capacity();
    var size := way.state.hint.WithMinContent(CONTENT);
    EmptyHandOutIff(unsent, capacity, size);
    if forall script :: way.Excess(script) == 0 {
      forall script ensures Retained(unsent, capacity, size, script) == [] {
        assert way.Excess(script) == 0;
      }
    }
  }

  // A direction between a source that announced a one-byte chunk with its tag and a new
  // `IpStackStream`, when the byte before it has been received and is still unsent.
  method OneByteUnsent(b: byte) returns (way: Oneway)
    ensures fresh(way) && fresh(way.rx) && fresh(way.tx.Half())
    ensures way.Valid() && way.Reliable() && !way.failed && way.Patience() == 0
    ensures way.tx.ToIpStack? && way.tx.Capacity() == INITIAL_CAPACITY && way.tx.ip.script == []
    ensures way.state == PollingTxBuf(AtLeast(17))
    ensures way.source == way.tx.Unsent() == [b] && way.counter == 1 && way.recounted == 0
  {
    var rx := new LowerStream([b], 0, true, false);
    var half := new IpStackTx.TxHalf(INITIAL_CAPACITY, []);
    way := new Oneway(rx, ToIpStack(half));
    rx.incoming, rx.announced, half.txBuf := [], true, Some(([b], 0));
    way.counter, way.state := 1, PollingTxBuf(AtLeast(17));
    assert way.Committed() == [b];
  }

  /** A run that counts a byte twice: it comes back unsent with the next buffer, and then the source
      ends. */
  method CountsTwice(b: byte) returns (counter: nat, ghost received: seq<byte>)
    ensures counter == 2 && received == [b]
  {
    var way := OneByteUnsent(b);
    assert way.Excess([]) == 1;
    var offered := way.TakeTxBuffer();
    assert |way.rx.rxBuf.GetOr([])| == 1;
    var ended := way.ReceiveBuffer();
    assert way.Committed() == [b] && way.recounted == 1;
    counter, received := way.counter, way.Committed();
  }
}
