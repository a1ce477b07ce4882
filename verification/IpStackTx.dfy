// The transmit half of `IpStackStream`: a buffer that may keep unsent bytes between commits.
module IpStackTx {
  import opened Flow

  // The capacity of the buffer a new connection starts out with.
  const INITIAL_CAPACITY := 4096

  // What the TCP socket does with a slice: it takes up to `n` bytes, none meaning that its queue is
  // full, or the connection can no longer send.
  datatype Answer = Accept(n: nat) | Broken

  // How an attempt to get rid of unsent bytes ends: with few enough left, at a full queue, or broken.
  datatype Drained = Low(left: seq<byte>, rest: seq<Answer>)
    | Full(left: seq<byte>, rest: seq<Answer>)
    | Failed(left: seq<byte>, rest: seq<Answer>)

  /** Offers what is unsent, slice by slice, until at most `room` bytes are left. Behind the end of
      the script the socket takes everything. */
  function Drain(unsent: seq<byte>, room: nat, script: seq<Answer>): (r: Drained)
    ensures |r.rest| <= |script| && (r.Full? ==> |r.rest| < |script|)
    ensures r.Low? ==> |r.left| <= room
    ensures r.Failed? ==> Broken in script
    ensures forall a :: a in r.rest ==> a in script
    decreases |script|
  {
    if |unsent| <= room then Low(unsent, script)
    else if script == [] then Low([], [])
    else match script[0]
      case Broken => Failed(unsent, script[1..])
      case Accept(n) =>
        if n == 0 then Full(unsent, script[1..])
        else Drain(if n < |unsent| then unsent[n..] else [], room, script[1..])
  }

  type Amount = n: nat | n > 0 witness 1

  function Sum(ns: seq<Amount>): nat {
    if ns == [] then 0 else ns[0] + Sum(ns[1..])
  }

  // A socket that takes so many bytes one after another.
  function Accepts(ns: seq<Amount>): seq<Answer> {
    if ns == [] then [] else [Accept(ns[0])] + Accepts(ns[1..])
  }

  /** What a drain does, by the amounts the socket takes: while more than `room` bytes are left it goes
      on, and then it waits at a full queue, fails with a broken connection, or is done. */
  lemma {:induction false} DrainAfter(
      unsent: seq<byte>, room: nat, ns: seq<Amount>, next: Answer, rest: seq<Answer>)
    requires room < |unsent| && Sum(ns) < |unsent| - room
    requires next.Broken? || next.n == 0 || next.n >= |unsent| - room - Sum(ns)
    ensures var left := unsent[Sum(ns)..];
      Drain(unsent, room, Accepts(ns) + [next] + rest) == match next
        case Broken => Failed(left, rest)
        case Accept(n) =>
          if n == 0 then Full(left, rest)
          else Low(if n < |left| then left[n..] else [], rest)
    decreases |ns|
  {
    var script := Accepts(ns) + [next] + rest;
    if ns == [] {
      assert script == [next] + rest && script[1..] == rest && unsent[0..] == unsent;
    } else {
      var n := ns[0];
      FirstAccept(ns, next, rest);
      DrainAfter(unsent[n..], room, ns[1..], next, rest);
      assert unsent[n..][Sum(ns[1..])..] == unsent[Sum(ns)..];
    }
  }

  lemma FirstAccept(ns: seq<Amount>, next: Answer, rest: seq<Answer>)
    requires ns != []
    ensures var script := Accepts(ns) + [next] + rest;
      script[0] == Accept(ns[0]) && script[1..] == Accepts(ns[1..]) + [next] + rest
  {
  }

  // How many unsent bytes may stay in front of `size` new ones: what the capacity leaves, or all of
  // them if it could not hold the new ones anyway.
  function Room(capacity: nat, size: nat, unsent: nat): nat {
    if capacity >= size then capacity - size else unsent
  }

  // The unsent bytes that are handed out with the buffer, if it is.
  function Retained(unsent: seq<byte>, capacity: nat, size: nat, script: seq<Answer>): seq<byte> {
    var d := Drain(unsent, Room(capacity, size, |unsent|), script);
    if d.Low? then d.left else []
  }

  /** Nothing is sent if the new bytes fit behind the unsent ones, nor if they would not fit anyway;
      otherwise as much as makes them fit. */
  lemma RetainedFits(unsent: seq<byte>, capacity: nat, size: nat, script: seq<Answer>)
    ensures var left := Retained(unsent, capacity, size, script);
      && (|unsent| + size <= capacity || capacity < size ==> left == unsent)
      && (capacity >= size ==> |left| + size <= capacity)
  {
    assert Drain(unsent, |unsent|, script) == Low(unsent, script);
  }

  /** The buffer comes back empty whatever the socket does exactly when nothing is unsent or the
      request takes the whole capacity. */
  lemma EmptyHandOutIff(unsent: seq<byte>, capacity: nat, size: nat)
    ensures (forall script :: Retained(unsent, capacity, size, script) == [])
      <==> unsent == [] || capacity == size
  {
    var room := Room(capacity, size, |unsent|);
    if unsent == [] {
      forall script ensures Retained(unsent, capacity, size, script) == [] {
        assert Drain(unsent, room, script) == Low(unsent, script);
      }
    } else if capacity == size {
      assert room == 0;
    } else if |unsent| <= room {
      assert Retained(unsent, capacity, size, []) == unsent;
    } else {
      LeavesSome(unsent, room);
      assert Retained(unsent, capacity, size, [Accept(|unsent| - room)]) != [];
    }
  }

  // A socket that takes just enough.
  lemma LeavesSome(unsent: seq<byte>, room: nat)
    requires 0 < room < |unsent|
    ensures var d := Drain(unsent, room, [Accept(|unsent| - room)]); d.Low? && |d.left| == room
  {
    assert Drain(unsent[|unsent| - room..], room, []) == Low(unsent[|unsent| - room..], []);
  }

  // What one answer of the socket leaves of a slice.
  function LeftBy(unsent: seq<byte>, script: seq<Answer>): seq<byte> {
    if script == [] then []
    else if script[0].Broken? then unsent
    else if script[0].n < |unsent| then unsent[script[0].n..]
    else []
  }

  function Rest(script: seq<Answer>): seq<Answer> {
    if script == [] then [] else script[1..]
  }

  // What the loops make of it: they go on, wait, or fail.
  function StepResult(script: seq<Answer>): Poll<Result<(), FlowError>> {
    if script == [] then Ready(Ok(()))
    else if script[0].Broken? then Ready(Err(Eof))
    else if script[0].n == 0 then Pending
    else Ready(Ok(()))
  }

  lemma StepDrains(unsent: seq<byte>, room: nat, script: seq<Answer>)
    requires |unsent| > room
    ensures var left, rest := LeftBy(unsent, script), Rest(script);
      Drain(unsent, room, script) == match StepResult(script)
        case Pending => Full(left, rest)
        case Ready(Err(_)) => Failed(left, rest)
        case Ready(Ok(_)) => Drain(left, room, rest)
  {
    if script == [] {
      assert Drain([], room, []) == Low([], []);
    }
  }

  class TxHalf {
    // bytes the TCP socket has accepted, in order
    var sent: seq<byte>
    // the committed buffer and how much of it was sent; None while a client holds the buffer
    var txBuf: Option<(Buffer, nat)>
    // of the buffer, wherever it is
    var capacity: nat
    var script: seq<Answer>
    var closed: bool
    // the connection never breaks
    ghost const reliable: bool

    ghost predicate Valid()
      reads this
    {
      && (txBuf.Some? ==> txBuf.value.1 <= |txBuf.value.0| <= capacity)
      && (reliable ==> Broken !in script)
    }

    function Unsent(): seq<byte>
      reads this
    {
      if txBuf.Some? && txBuf.value.1 <= |txBuf.value.0| then txBuf.value.0[txBuf.value.1..] else []
    }

    constructor (capacity: nat, script: seq<Answer>)
      ensures Valid() && txBuf.Some? && sent == [] && Unsent() == [] && !closed
      ensures this.capacity == capacity && this.script == script
      ensures reliable == (Broken !in script)
    {
      sent, txBuf, closed := [], Some(([], 0)), false;
      this.capacity, this.script, reliable := capacity, script, Broken !in script;
    }

    /** `send_slice` of the socket, which is never handed an empty slice. */
    method SendSlice(slice: seq<byte>) returns (r: Result<nat, ()>)
      requires slice != []
      modifies this`sent, this`script
      ensures old(script) == [] ==> r == Ok(|slice|) && script == []
      ensures old(script) != [] ==> script == old(script)[1..] && match old(script)[0]
        case Broken => r.Err?
        case Accept(n) => r == Ok(if n < |slice| then n else |slice|)
      ensures sent == old(sent) + if r.Ok? then slice[..r.value] else []
    {
      if script == [] {
        sent := sent + slice;
        assert slice[..|slice|] == slice;
        return Ok(|slice|);
      }
      var answer := script[0];
      script := script[1..];
      match answer
      case Broken =>
        assert sent + [] == sent;
        r := Err(());
      case Accept(n) =>
        var taken := if n < |slice| then n else |slice|;
        sent := sent + slice[..taken];
        r := Ok(taken);
    }

    // The step both loops share: offers what is unsent to the socket and moves the position.
    method SendUnsent() returns (r: Poll<Result<(), FlowError>>)
      requires Valid() && txBuf.Some? && Unsent() != []
      modifies this`sent, this`txBuf, this`script
      ensures Valid() && txBuf.Some? && |txBuf.value.0| == |old(txBuf.value.0)|
      ensures sent + Unsent() == old(sent + Unsent())
      ensures r == StepResult(old(script)) && script == Rest(old(script))
      ensures Unsent() == LeftBy(old(Unsent()), old(script))
      ensures r.Pending? ==> |script| < |old(script)|
      ensures r.Ready? && r.value.Ok? ==> |Unsent()| < |old(Unsent())|
      ensures r.Ready? && reliable ==> r.value.Ok?
    {
      var (buffer, readAt) := txBuf.value;
      var outcome := SendSlice(buffer[readAt..]);
      if outcome.Err? {
        return Ready(Err(Eof));
      }
      var n := outcome.value;
      if n == 0 {
        return Pending;
      }
      Moved(old(sent), buffer, readAt, n);
      txBuf := Some((buffer, readAt + n));
      r := Ready(Ok(()));
    }

    /** Hands out the buffer, unsent bytes included, once `size` more bytes fit its capacity. The
        outcome is the function of the socket's answers above. */
    method PollTxBuffer(size: nat) returns (r: Poll<Result<Buffer, FlowError>>)
      requires Valid() && txBuf.Some? && size > 0
      modifies this`sent, this`txBuf, this`script, this`capacity
      ensures Valid()
      ensures match Drain(old(Unsent()), Room(old(capacity), size, |old(Unsent())|), old(script))
        case Low(left, rest) => r == Ready(Ok(left)) && script == rest
        case Full(left, rest) => r == Pending && Unsent() == left && script == rest
        case Failed(left, rest) => r == Ready(Err(Eof)) && Unsent() == left && script == rest
      ensures reliable && r.Ready? ==> r.value.Ok?
      ensures !(r.Ready? && r.value.Ok?) ==> txBuf.Some? && sent + Unsent() == old(sent + Unsent())
      ensures r.Ready? && r.value.Ok? ==>
        && txBuf == None && sent + r.value.value == old(sent + Unsent())
        && |r.value.value| + size <= capacity
      ensures old(capacity) >= size ==> capacity == old(capacity)
    {
      ghost var room := Room(capacity, size, |Unsent()|);
      while capacity >= size && capacity - |txBuf.value.0| + txBuf.value.1 < size
        invariant Valid() && txBuf.Some? && capacity == old(capacity)
        invariant sent + Unsent() == old(sent + Unsent()) && |Unsent()| <= |old(Unsent())|
        invariant Drain(old(Unsent()), room, old(script)) == Drain(Unsent(), room, script)
        decreases |Unsent()|
      {
        StepDrains(Unsent(), room, script);
        var step := SendUnsent();
        match step
        case Pending =>
          return Pending;
        case Ready(Err(e)) =>
          return Ready(Err(e));
        case Ready(Ok(_)) =>
      }
      var left := Unsent();
      if |left| + size > capacity {
        var grown: nat :| grown >= |left| + size;
        capacity := grown;
      }
      txBuf := None;
      r := Ready(Ok(left));
    }

    // A buffer that was filled beyond its capacity has been given more.
    method CommitTxBuffer(buffer: Buffer)
      requires Valid() && txBuf.None?
      modifies this`txBuf, this`capacity
      ensures Valid() && txBuf.Some? && Unsent() == buffer
      ensures |buffer| <= old(capacity) ==> capacity == old(capacity)
    {
      if |buffer| > capacity {
        var grown: nat :| grown >= |buffer|;
        capacity := grown;
      }
      txBuf := Some((buffer, 0));
    }

    /** A drain to the last byte. */
    method PollFlushTx() returns (r: Poll<Result<(), FlowError>>)
      requires Valid() && txBuf.Some?
      modifies this`sent, this`txBuf, this`script
      ensures match Drain(old(Unsent()), 0, old(script))
        case Low(left, rest) => r.Ready? && r.value.Ok? && Unsent() == left == [] && script == rest
        case Full(left, rest) => r == Pending && Unsent() == left && script == rest
        case Failed(left, rest) => r == Ready(Err(Eof)) && Unsent() == left && script == rest
      ensures Valid() && txBuf.Some? && sent + Unsent() == old(sent + Unsent())
      ensures |script| <= |old(script)|
      ensures r.Pending? ==> |script| < |old(script)|
      ensures r.Ready? && r.value.Ok? ==> Unsent() == []
      ensures r.Ready? && reliable ==> r.value.Ok?
    {
      while |txBuf.value.0| > txBuf.value.1
        invariant Valid() && txBuf.Some?
        invariant sent + Unsent() == old(sent + Unsent())
        invariant |script| <= |old(script)|
        invariant Drain(old(Unsent()), 0, old(script)) == Drain(Unsent(), 0, script)
        decreases |Unsent()|
      {
        StepDrains(Unsent(), 0, script);
        var step := SendUnsent();
        if step.Pending? || step.value.Err? {
          return step;
        }
      }
      r := Ready(Ok(()));
    }

    /** The FIN follows every committed byte into the socket, and waits while its queue holds any. */
    method PollCloseTx() returns (r: Poll<Result<(), FlowError>>)
      requires Valid()
      modifies this`sent, this`txBuf, this`script, this`closed
      ensures match Drain(old(Unsent()), 0, old(script))
        case Low(_, rest) =>
          if rest != [] && rest[0] == Accept(0) then r == Pending && script == rest[1..]
          else r.Ready? && r.value.Ok? && script == rest
        case Full(_, rest) => r == Pending && script == rest
        case Failed(_, rest) => r == Ready(Err(Eof)) && script == rest
      ensures Valid() && txBuf.Some? == old(txBuf.Some?)
      ensures sent + Unsent() == old(sent + Unsent())
      ensures |script| <= |old(script)|
      ensures r.Pending? ==> |script| < |old(script)|
      ensures r.Ready? && r.value.Ok? ==> closed && Unsent() == []
      ensures !(r.Ready? && r.value.Ok?) ==> closed == old(closed)
      ensures r.Ready? && reliable ==> r.value.Ok?
    {
      if txBuf.Some? {
        r := PollFlushTx();
        if r.Pending? || r.value.Err? {
          return;
        }
      }
      if script != [] && script[0] == Accept(0) {
        script := script[1..];
        return Pending;
      }
      closed := true;
      r := Ready(Ok(()));
    }
  }

  lemma Moved(sent: seq<byte>, buffer: Buffer, readAt: nat, n: nat)
    requires readAt + n <= |buffer|
    ensures sent + buffer[readAt..][..n] + buffer[readAt + n..] == sent + buffer[readAt..]
    ensures buffer[readAt..][n..] == buffer[readAt + n..]
  {
    assert buffer[readAt..][..n] + buffer[readAt + n..] == buffer[readAt..];
  }
}
