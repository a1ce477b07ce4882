// The pipe with a Shadowsocks stream at either end: `poll_forward_oneway`, every poll of which is
// repeated until it is ready.
module PipeAead {
  import opened Flow
  import opened Aead
  import opened PipeSink
  import opened Rx = ShadowsocksRx
  import opened Tx = ShadowsocksTx

  function Flat(chunks: seq<seq<byte>>): seq<byte> {
    if chunks == [] then [] else chunks[0] + Flat(chunks[1..])
  }

  lemma FlatCons(p: seq<byte>, chunks: seq<seq<byte>>)
    ensures Flat([p] + chunks) == p + Flat(chunks)
  {
    assert ([p] + chunks)[1..] == chunks;
  }

  lemma {:induction false} FlatAppend(chunks: seq<seq<byte>>, p: seq<byte>)
    ensures Flat(chunks + [p]) == Flat(chunks) + p
  {
    if chunks == [] {
      FlatCons(p, []);
      assert [] + [p] == [p] + [];
    } else {
      FlatAppend(chunks[1..], p);
      assert (chunks + [p])[1..] == chunks[1..] + [p];
    }
  }

  // ---- the stream as the source ----

  // Decoding stops behind a size field whose chunk does not follow in full.
  function CutInChunk(c: Cipher, v: View): bool
    decreases v.Length()
  {
    SizeFailure(c, v).None? &&
    match NextChunk(c, AfterSize(c, v), NextSize(c, v))
    case Err(e) => e == Eof
    case Ok((_, rest)) => CutInChunk(c, rest)
  }

  // How a direction whose source is the stream ends.
  function PipeResult(c: Cipher, v: View): Result<(), FlowError> {
    if CutInChunk(c, v) then Ok(()) else Err(Decode(c, v).1)
  }

  // `out` and what is still to be decoded make up the same bytes, with the same end.
  ghost predicate Forwarded(c: Cipher, start: View, out0: seq<byte>, v: View, out: seq<byte>) {
    && out + Flat(Decode(c, v).0) == out0 + Flat(Decode(c, start).0)
    && PipeResult(c, v) == PipeResult(c, start)
  }

  lemma ForwardedStep(
      c: Cipher, start: View, out0: seq<byte>, v: View, out: seq<byte>, p: seq<byte>, rest: View)
    requires Forwarded(c, start, out0, v, out) && SizeFailure(c, v).None?
    requires NextChunk(c, AfterSize(c, v), NextSize(c, v)) == Ok((p, rest))
    ensures Forwarded(c, start, out0, rest, out + p) && rest.Length() < v.Length()
  {
    var more := Decode(c, rest).0;
    DecodeCons(c, v, p, rest);
    FlatCons(p, more);
    Regroup(out, p, Flat(more));
  }

  lemma ForwardedEnd(c: Cipher, start: View, out0: seq<byte>, v: View, out: seq<byte>)
    requires Forwarded(c, start, out0, v, out) && Decode(c, v).0 == []
    ensures out == out0 + Flat(Decode(c, start).0)
  {
    assert out + [] == out;
  }

  method TakeBuffer(tx: Sink, size: nat) returns (buf: Buffer)
    requires tx.Valid() && tx.HasBuffer() && !tx.Shut() && tx.Reliable() && size > 0
    modifies tx.Half()
    ensures tx.Valid() && !tx.HasBuffer() && !tx.Shut() && tx.Unsent() == []
    ensures tx.Wire() + buf == old(tx.Wire() + tx.Unsent())
  {
    while true
      invariant tx.Valid() && tx.HasBuffer() && !tx.Shut()
      invariant tx.Wire() + tx.Unsent() == old(tx.Wire() + tx.Unsent())
      decreases tx.Pendings()
    {
      var poll := tx.PollTxBuffer(size);
      if poll.Ready? {
        return poll.value.value;
      }
    }
  }

  method CloseSink(tx: Sink)
    requires tx.Valid() && tx.HasBuffer() && !tx.Shut() && tx.Reliable()
    modifies tx.Half()
    ensures tx.Valid() && tx.HasBuffer() && tx.Shut() && tx.Unsent() == []
    ensures tx.Wire() + tx.Unsent() == old(tx.Wire() + tx.Unsent())
  {
    while true
      invariant tx.Valid() && tx.HasBuffer() && !tx.Shut()
      invariant tx.Wire() + tx.Unsent() == old(tx.Wire() + tx.Unsent())
      decreases tx.Pendings()
    {
      var poll := tx.PollCloseTx();
      if poll.Ready? {
        return;
      }
    }
  }

  // Hands the buffer back to the sink; None goes on, an end of the stream closes the sink.
  method Land(tx: Sink, data: Result<Buffer, (Buffer, FlowError)>)
    returns (r: Option<Result<(), FlowError>>)
    requires tx.Valid() && !tx.HasBuffer() && !tx.Shut() && tx.Reliable()
    modifies tx.Half()
    ensures tx.Valid() && tx.HasBuffer()
    ensures tx.Wire() + tx.Unsent()
      == old(tx.Wire()) + if data.Ok? then data.value else data.error.0
    ensures r.None? <==> data.Ok?
    ensures data.Err? ==> r.value == if data.error.1 == Eof then Ok(()) else Err(data.error.1)
    ensures tx.Shut() <==> data.Err? && data.error.1 == Eof
    ensures tx.Shut() ==> tx.Unsent() == []
  {
    match data
    case Ok(b) =>
      tx.CommitTxBuffer(b);
      r := None;
    case Err((b, e)) =>
      tx.CommitTxBuffer(b);
      if e == Eof {
        CloseSink(tx);
      }
      r := Some(if e == Eof then Ok(()) else Err(e));
  }

  // A chunk was announced: the sink's buffer, the chunk behind what is in it, back to the sink.
  method ForwardChunk(rx: RxHalf, tx: Sink, size: nat) returns (r: Option<Result<(), FlowError>>)
    requires rx.Valid() && rx.ChunkExpected() && rx.lower.reliable && tx.Half() !in rx.Repr
    requires tx.Valid() && tx.HasBuffer() && !tx.Shut() && tx.Reliable() && size > 0
    modifies rx.Repr, tx.Half()
    ensures rx.Valid() && rx.SizeExpected() && rx.Repr == old(rx.Repr)
    ensures tx.Valid() && tx.HasBuffer() && (tx.Shut() ==> tx.Unsent() == [])
    ensures match NextChunk(rx.cipher, old(rx.Undecoded()), old(rx.rxChunkSize))
      case Ok((p, rest)) =>
        && r.None? && !tx.Shut() && rx.Undecoded() == rest
        && tx.Wire() + tx.Unsent() == old(tx.Wire() + tx.Unsent()) + p
      case Err(e) =>
        && r == Some(if e == Eof then Ok(()) else Err(e)) && (tx.Shut() <==> e == Eof)
        && tx.Wire() + tx.Unsent() == old(tx.Wire() + tx.Unsent())
  {
    ghost var next := NextChunk(rx.cipher, rx.Undecoded(), rx.rxChunkSize);
    var buf := TakeBuffer(tx, size);
    ghost var wire := tx.Wire();
    var data := ReceiveBehind(rx, buf);
    if next.Ok? {
      Regroup(wire, buf, next.value.0);
    }
    r := Land(tx, data);
  }

  method ReceiveBehind(rx: RxHalf, buf: Buffer) returns (data: Result<Buffer, (Buffer, FlowError)>)
    requires rx.Valid() && rx.ChunkExpected() && rx.lower.reliable
    modifies rx.Repr
    ensures rx.Valid() && rx.SizeExpected() && rx.Repr == old(rx.Repr)
    ensures match NextChunk(rx.cipher, old(rx.Undecoded()), old(rx.rxChunkSize))
      case Ok((p, rest)) => data == Ok(buf + p) && rx.Undecoded() == rest
      case Err(e) => data == Err((buf, e))
  {
    rx.CommitRxBuffer(buf);
    data := RxBuffer(rx);
  }

  // One turn: a size, then the chunk.
  method ForwardFrame(rx: RxHalf, tx: Sink) returns (r: Option<Result<(), FlowError>>)
    requires rx.Valid() && rx.SizeExpected() && rx.lower.reliable && tx.Half() !in rx.Repr
    requires tx.Valid() && tx.HasBuffer() && !tx.Shut() && tx.Reliable()
    modifies rx.Repr, tx.Half()
    ensures rx.Valid() && fresh(rx.Repr - old(rx.Repr)) && tx.Valid() && tx.HasBuffer()
    ensures r.None? ==>
      && var v := old(rx.Undecoded());
      && rx.SizeExpected() && SizeFailure(rx.cipher, v).None? && !tx.Shut()
      && var next := NextChunk(rx.cipher, AfterSize(rx.cipher, v), NextSize(rx.cipher, v));
      && next.Ok? && next.value.1 == rx.Undecoded()
      && tx.Wire() + tx.Unsent() == old(tx.Wire() + tx.Unsent()) + next.value.0
    ensures r.Some? ==>
      && tx.Wire() + tx.Unsent() == old(tx.Wire() + tx.Unsent())
      && (tx.Shut() <==> r.value.Ok?) && (tx.Shut() ==> tx.Unsent() == [])
      && EndsAs(rx.cipher, old(rx.Undecoded()), r.value)
  {
    ghost var c, v := rx.cipher, rx.Undecoded();
    var hint := RequestSize(rx);
    if hint.Err? {
      StopsAtSize(c, v, hint.error);
      return Some(Err(hint.error));
    }
    ghost var next := NextChunk(c, rx.Undecoded(), rx.rxChunkSize);
    r := ForwardChunk(rx, tx, hint.value.WithMinContent(CONTENT));
    if next.Err? {
      StopsAtChunk(c, v, next.error);
    }
  }

  // Nothing more is decoded, and the direction ends with the result.
  ghost predicate EndsAs(c: Cipher, v: View, r: Result<(), FlowError>) {
    Decode(c, v).0 == [] && PipeResult(c, v) == r
  }

  lemma StopsAtSize(c: Cipher, v: View, e: FlowError)
    requires SizeFailure(c, v) == Some(e)
    ensures EndsAs(c, v, Err(e))
  {
  }

  lemma StopsAtChunk(c: Cipher, v: View, e: FlowError)
    requires SizeFailure(c, v).None?
    requires NextChunk(c, AfterSize(c, v), NextSize(c, v)) == Err(e)
    ensures EndsAs(c, v, if e == Eof then Ok(()) else Err(e))
  {
  }

  /** The pipe from a stream into a sink that does not fail delivers every decoded chunk, whatever the
      segmentation. It reports success, and closes the sink, exactly for a stream that was cut inside
      a chunk; every other end, the clean one included, is an error and leaves the sink open. */
  method ForwardFrames(rx: RxHalf, tx: Sink) returns (r: Result<(), FlowError>)
    requires rx.Valid() && rx.SizeExpected() && rx.lower.reliable && tx.Half() !in rx.Repr
    requires tx.Valid() && tx.HasBuffer() && !tx.Shut() && tx.Reliable()
    modifies rx.Repr, tx.Half()
    ensures tx.Valid() && (tx.Shut() <==> r.Ok?) && (tx.Shut() ==> tx.Unsent() == [])
    ensures r == PipeResult(rx.cipher, old(rx.Undecoded()))
    ensures tx.Wire() + tx.Unsent()
      == old(tx.Wire() + tx.Unsent()) + Flat(Decode(rx.cipher, old(rx.Undecoded())).0)
  {
    ghost var c, start, out0 := rx.cipher, rx.Undecoded(), tx.Wire() + tx.Unsent();
    while true
      invariant rx.Valid() && rx.SizeExpected() && fresh(rx.Repr - old(rx.Repr))
      invariant tx.Half() !in rx.Repr && tx.Valid() && tx.HasBuffer() && !tx.Shut()
      invariant Forwarded(c, start, out0, rx.Undecoded(), tx.Wire() + tx.Unsent())
      decreases rx.Undecoded().Length()
    {
      ghost var v, out := rx.Undecoded(), tx.Wire() + tx.Unsent();
      var turn := ForwardFrame(rx, tx);
      if turn.Some? {
        ForwardedEnd(c, start, out0, v, out);
        return turn.value;
      }
      ghost var (p, rest) := NextChunk(c, AfterSize(c, v), NextSize(c, v)).value;
      ForwardedStep(c, start, out0, v, out, p, rest);
    }
  }

  /** What that means for a wire of whole frames and a part of one more: the whole frames are
      delivered, and the pipe succeeds if and only if the part reaches beyond its size field. A wire
      that ends with a whole frame ends in an error. */
  lemma CutOutcomeIff(
      c: Cipher, key: seq<byte>, k: nat, chunks: seq<seq<byte>>, part: seq<byte>, p: seq<byte>)
    requires LegalChunks(chunks) && 1 <= |p| <= MAX_CHUNK
    requires part < Frame(c, key, k + 2 * |chunks|, p)
    ensures var v := View(key, k, Frames(c, key, k, chunks) + part);
      && Decode(c, v) == (chunks, Eof)
      && PipeResult(c, v) == if |part| >= PRE_CHUNK_OVERHEAD then Ok(()) else Err(Eof)
  {
    PartOfFrame(c, key, k + 2 * |chunks|, part, p);
    var wire := Frames(c, key, k, chunks) + part;
    var tail := View(key, k + 2 * |chunks|, part);
    DecodeBehind(c, key, k, chunks, tail, wire, [], Eof);
    ResultBehind(c, key, k, chunks, tail, wire);
    assert chunks + [] == chunks;
  }

  /** A stream that was tampered with never closes the sink: the chunks before the bad one arrive, and
      the pipe fails. */
  lemma TamperedFails(
      c: Cipher, key: seq<byte>, k: nat, chunks: seq<seq<byte>>, at: nat, n: nat, bad: seq<byte>,
      tail: seq<byte>, wire: seq<byte>)
    requires LegalChunks(chunks) && at == k + 2 * |chunks|
    requires 1 <= n <= MAX_CHUNK && |bad| == n + TAG_LEN && !IsSealed(c, key, at + 1, bad)
    requires wire == Frames(c, key, k, chunks) + (Sealed(c, key, at, SizeField(n)) + (bad + tail))
    ensures Decode(c, View(key, k, wire)) == (chunks, UnexpectedData)
    ensures PipeResult(c, View(key, k, wire)) == Err(UnexpectedData)
  {
    var part := Sealed(c, key, at, SizeField(n)) + (bad + tail);
    TamperedRefused(c, key, k, chunks, at, n, bad, tail, wire);
    BadChunkFails(c, key, at, n, bad, tail, part);
    ResultBehind(c, key, k, chunks, View(key, at, part), wire);
  }

  lemma BadChunkFails(
      c: Cipher, key: seq<byte>, k: nat, n: nat, bad: seq<byte>, tail: seq<byte>, part: seq<byte>)
    requires 1 <= n <= MAX_CHUNK && |bad| == n + TAG_LEN && !IsSealed(c, key, k + 1, bad)
    requires part == Sealed(c, key, k, SizeField(n)) + (bad + tail)
    ensures PipeResult(c, View(key, k, part)) == Err(UnexpectedData)
  {
    BadChunk(c, key, k, n, bad, tail, part);
    StopsAtChunk(c, View(key, k, part), UnexpectedData);
  }

  lemma {:induction false} ResultBehind(
      c: Cipher, key: seq<byte>, k: nat, chunks: seq<seq<byte>>, tail: View, wire: seq<byte>)
    requires LegalChunks(chunks) && tail.View? && tail.key == key && tail.k == k + 2 * |chunks|
    requires wire == Frames(c, key, k, chunks) + tail.bytes
    ensures PipeResult(c, View(key, k, wire)) == PipeResult(c, tail)
    decreases |chunks|
  {
    if chunks == [] {
      assert wire == tail.bytes && View(key, k, wire) == tail;
    } else {
      var rest := FirstAndRest(c, key, k, chunks, tail.bytes, wire);
      ResultBehind(c, key, k + 2, chunks[1..], tail, rest);
      WholeFrameFirst(c, key, k, chunks[0], rest, wire);
    }
  }

  lemma WholeFrameFirst(
      c: Cipher, key: seq<byte>, k: nat, p: seq<byte>, tail: seq<byte>, wire: seq<byte>)
    requires 1 <= |p| <= MAX_CHUNK && wire == Frame(c, key, k, p) + tail
    ensures var (more, e) := Decode(c, View(key, k + 2, tail));
      Decode(c, View(key, k, wire)) == ([p] + more, e)
    ensures PipeResult(c, View(key, k, wire)) == PipeResult(c, View(key, k + 2, tail))
  {
    DecodeFrame(c, key, k, p, tail);
    DecodeCons(c, View(key, k, wire), p, View(key, k + 2, tail));
  }

  lemma PartOfFrame(c: Cipher, key: seq<byte>, k: nat, part: seq<byte>, p: seq<byte>)
    requires 1 <= |p| <= MAX_CHUNK && part < Frame(c, key, k, p)
    ensures var v := View(key, k, part);
      && Decode(c, v) == ([], Eof)
      && PipeResult(c, v) == if |part| >= PRE_CHUNK_OVERHEAD then Ok(()) else Err(Eof)
  {
    if |part| >= PRE_CHUNK_OVERHEAD {
      var size := Sealed(c, key, k, SizeField(|p|));
      assert part[..PRE_CHUNK_OVERHEAD] == Frame(c, key, k, p)[..PRE_CHUNK_OVERHEAD] == size;
      SizeFieldRoundTripIff(c, key, k, |p|);
    }
  }

  // ---- the stream as the sink ----

  // One turn of a source that does not fail: its next portion becomes a frame, and so does the
  // empty buffer with which it reports its end.
  method SealPortion(rx: LowerStream, tx: TxHalf) returns (p: seq<byte>, ended: bool)
    requires rx.rxBuf.None? && rx.reliable && tx.Valid() && tx.Idle() && tx.lower.Reliable()
    requires tx.lower.Half() != rx
    modifies rx, tx, tx.lower.Half(), tx.crypto`used, tx.crypto.nonce
    ensures rx.rxBuf.None? && tx.Valid() && tx.Idle() && p + rx.incoming == old(rx.incoming)
    ensures (ended <==> p == []) && (ended ==> rx.incoming == [])
    ensures |tx.crypto.used| == |old(tx.crypto.used)| + 2
    ensures tx.Out() == old(tx.Out())
      + Frame(tx.crypto.cipher, tx.crypto.key, |old(tx.crypto.used)|, p)
  {
    ghost var out := tx.Out();
    var size := AwaitSize(rx);
    var buf := TakeSealingBuffer(tx, size);
    var committed := rx.CommitRxBuffer(buf, size);
    p, ended := Portion(rx);
    FillAndCommit(tx, buf, p, out);
  }

  method AwaitSize(rx: LowerStream) returns (size: nat)
    requires rx.rxBuf.None? && rx.reliable
    modifies rx`pendings, rx`announced, rx`error
    ensures rx.announced && size > 0
  {
    while true
      decreases rx.pendings
    {
      var hint := rx.PollRequestSize();
      if hint.Ready? {
        return hint.value.value.WithMinContent(CONTENT);
      }
    }
  }

  method TakeSealingBuffer(tx: TxHalf, size: nat) returns (buf: Buffer)
    requires tx.Valid() && tx.Idle() && tx.lower.Reliable()
    modifies tx, tx.lower.Half()
    ensures tx.Valid() && !tx.lower.HasBuffer() && !tx.lower.Shut()
    ensures |buf| == tx.txOffset + PRE_CHUNK_OVERHEAD
    ensures tx.lower.Wire() + buf == old(tx.Out()) + ZERO_PREFIX
  {
    while true
      invariant tx.Valid() && tx.Idle() && tx.Out() == old(tx.Out())
      decreases tx.lower.Pendings()
    {
      var poll := tx.PollTxBuffer(size);
      if poll.Ready? {
        return poll.value.value;
      }
    }
  }

  // What the source puts behind the bytes in the buffer.
  method Portion(rx: LowerStream) returns (p: seq<byte>, ended: bool)
    requires rx.rxBuf.Some? && rx.announced && rx.room > 0 && rx.reliable
    modifies rx
    ensures rx.rxBuf.None? && p + rx.incoming == old(rx.incoming)
    ensures (ended <==> p == []) && (ended ==> rx.incoming == [])
  {
    ghost var held, left := rx.rxBuf.value, rx.incoming;
    var before := |rx.rxBuf.value|;
    while true
      invariant rx.rxBuf == Some(held) && rx.incoming == left && rx.announced && rx.room > 0
      decreases rx.pendings
    {
      var poll := rx.PollRxBuffer();
      if poll.Ready? {
        ended := poll.value.Err?;
        var b := if ended then poll.value.error.0 else poll.value.value;
        p := b[before..];
        BehindHeld(held, left, b, rx.incoming);
        return;
      }
    }
  }

  lemma BehindHeld(held: Buffer, left: seq<byte>, b: Buffer, rest: seq<byte>)
    requires held <= b && b + rest == held + left
    ensures b[|held|..] + rest == left
  {
    assert (b + rest)[|held|..] == b[|held|..] + rest;
    assert (held + left)[|held|..] == left;
  }

  /** The pipe from a source that does not fail into a stream: every portion becomes a frame, and at
      the end the empty buffer becomes one more, before the close. */
  method SealAll(rx: LowerStream, tx: TxHalf) returns (ghost chunks: seq<seq<byte>>)
    requires rx.rxBuf.None? && rx.reliable && tx.Valid() && tx.Idle() && tx.lower.Reliable()
    requires tx.lower.Half() != rx
    modifies rx, tx, tx.lower.Half(), tx.crypto`used, tx.crypto.nonce
    ensures Flat(chunks) == old(rx.incoming) && [] !in chunks
    ensures tx.Valid() && tx.lower.Shut()
    ensures tx.lower.Wire() == old(tx.Out()) + Frames(
      tx.crypto.cipher, tx.crypto.key, |old(tx.crypto.used)|, chunks + [[]])
  {
    ghost var start := Sealing(tx.crypto.cipher, tx.crypto.key, |tx.crypto.used|, tx.Out(), rx.incoming);
    chunks := [];
    NothingSealed(start);
    while true
      invariant rx.rxBuf.None? && tx.Valid() && tx.Idle()
      invariant SoFar(start, chunks, |tx.crypto.used|, tx.Out(), rx.incoming)
      decreases |rx.incoming|
    {
      ghost var k, out, left := |tx.crypto.used|, tx.Out(), rx.incoming;
      var p, ended := SealPortion(rx, tx);
      SealedStep(start, chunks, k, out, left, p, rx.incoming);
      if ended {
        CloseSealed(tx);
        return;
      }
      chunks := chunks + [p];
    }
  }

  // Where a direction into a stream started: the session, its next operation, the bytes out, the
  // bytes to come.
  datatype Sealing = Sealing(c: Cipher, key: seq<byte>, k: nat, out: seq<byte>, source: seq<byte>)

  // The portions so far, the next operation, the bytes out and those still to come.
  ghost predicate SoFar(
      s: Sealing, chunks: seq<seq<byte>>, k: nat, out: seq<byte>, left: seq<byte>)
  {
    && [] !in chunks && k == s.k + 2 * |chunks|
    && out == s.out + Frames(s.c, s.key, s.k, chunks) && Flat(chunks) + left == s.source
  }

  lemma NothingSealed(s: Sealing)
    ensures SoFar(s, [], s.k, s.out, s.source)
  {
    assert s.out + [] == s.out && [] + s.source == s.source;
  }

  lemma SealedStep(
      s: Sealing, chunks: seq<seq<byte>>, k: nat, out: seq<byte>, left: seq<byte>, p: seq<byte>,
      rest: seq<byte>)
    requires SoFar(s, chunks, k, out, left) && p + rest == left
    ensures var sealed := out + Frame(s.c, s.key, k, p);
      && sealed == s.out + Frames(s.c, s.key, s.k, chunks + [p])
      && (p != [] ==> SoFar(s, chunks + [p], k + 2, sealed, rest))
    ensures left == [] ==> Flat(chunks) == s.source
  {
    FramesAppend(s.c, s.key, s.k, chunks, p);
    Regroup(s.out, Frames(s.c, s.key, s.k, chunks), Frame(s.c, s.key, k, p));
    FlatAppend(chunks, p);
    Regroup(Flat(chunks), p, rest);
    assert Flat(chunks) + [] == Flat(chunks);
  }

  method CloseSealed(tx: TxHalf)
    requires tx.Valid() && tx.Idle() && tx.lower.Reliable()
    modifies tx.lower.Half()
    ensures tx.Valid() && tx.lower.Shut() && tx.lower.Wire() == old(tx.Out())
  {
    CloseSink(tx.lower);
    assert tx.lower.Wire() + [] == tx.lower.Wire();
  }

  /** The receiver refuses the empty frame: it delivers the chunks before it, if their lengths are
      legal, and then fails instead of ending. */
  lemma {:induction false} EmptyFrameRefused(
      c: Cipher, key: seq<byte>, k: nat, chunks: seq<seq<byte>>)
    requires LegalChunks(chunks)
    ensures var v := View(key, k, Frames(c, key, k, chunks + [[]]));
      Decode(c, v) == (chunks, UnexpectedData) && PipeResult(c, v) == Err(UnexpectedData)
    decreases |chunks|
  {
    if chunks == [] {
      var last: seq<seq<byte>> := [[]];
      assert chunks + [[]] == last && last[1..] == [];
      assert Frames(c, key, k, last) == Frame(c, key, k, []) + [];
      SizeSeen(c, key, k, [], []);
    } else {
      var tail := Frames(c, key, k + 2, chunks[1..] + [[]]);
      EmptyFrameRefused(c, key, k + 2, chunks[1..]);
      assert (chunks + [[]])[1..] == chunks[1..] + [[]];
      WholeFrameFirst(c, key, k, chunks[0], tail, Frames(c, key, k, chunks + [[]]));
      HeadAndTail(chunks);
    }
  }

  // ---- a stream between two pipes ----

  /** A source piped into a stream whose other end is piped into a sink: all bytes arrive, if every
      portion fits a chunk, but the second pipe always ends in an error and never closes its sink. */
  method Relay(
      c: Cipher, master: seq<byte>, iv: seq<byte>, source: LowerStream, transport: Sink, sink: Sink,
      pendings: nat)
    returns (r: Result<(), FlowError>, ghost portions: seq<seq<byte>>)
    requires |iv| == c.ivLen && source.rxBuf.None? && source.reliable
    requires transport.Valid() && transport.HasBuffer() && !transport.Shut() && transport.Reliable()
    requires transport.Wire() == [] == transport.Unsent() && transport.Half() != source
    requires sink.Valid() && sink.HasBuffer() && !sink.Shut() && sink.Reliable()
    requires sink.Half() != transport.Half() && sink.Half() != source
    modifies source, transport.Half(), sink.Half()
    ensures sink.Valid() && Flat(portions) == old(source.incoming)
    ensures LegalChunks(portions) ==>
      && sink.Wire() + sink.Unsent() == old(sink.Wire() + sink.Unsent()) + old(source.incoming)
      && r == Err(UnexpectedData) && !sink.Shut()
  {
    var crypto := new Session(c, master, iv);
    var tx := new TxHalf(transport, crypto);
    portions := SealAll(source, tx);
    ghost var key := crypto.key;
    var wire := iv + tx.lower.Wire();
    assert wire[..c.ivLen] == iv && wire[c.ivLen..] == Frames(c, key, 0, portions + [[]]);
    if LegalChunks(portions) {
      EmptyFrameRefused(c, key, 0, portions);
    }
    var rx := Connect(c, master, wire, pendings);
    r := ForwardFrames(rx, sink);
  }
}
