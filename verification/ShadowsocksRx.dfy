// The receiving half of `ShadowsocksStream`, with the protocol its clients follow.
module ShadowsocksRx {
  import opened Flow
  import opened Aead
  import opened StreamReader

  datatype RxCryptoState = ReadingIv(key: seq<byte>) | CryptoReady(session: Session)

  // What is still to be decoded: the session key, the number of the next operation, the bytes.
  datatype View = NoIv | View(key: seq<byte>, k: nat, bytes: seq<byte>) {
    function Length(): nat {
      if View? then |bytes| else 0
    }
  }

  function Start(c: Cipher, master: seq<byte>, wire: seq<byte>): View {
    if |wire| < c.ivLen then NoIv else View(c.subkey(master, wire[..c.ivLen]), 0, wire[c.ivLen..])
  }

  // Why no further size field can be read, if so.
  function SizeFailure(c: Cipher, v: View): Option<FlowError> {
    if v.NoIv? || |v.bytes| < PRE_CHUNK_OVERHEAD then Some(Eof)
    else if OpenedSize(c, v.key, v.k, v.bytes[..PRE_CHUNK_OVERHEAD]).None? then Some(UnexpectedData)
    else None
  }

  function NextSize(c: Cipher, v: View): (size: nat)
    requires SizeFailure(c, v).None?
    ensures 0 < size <= MAX_CHUNK
  {
    OpenedSize(c, v.key, v.k, v.bytes[..PRE_CHUNK_OVERHEAD]).value
  }

  function AfterSize(c: Cipher, v: View): (r: View)
    requires SizeFailure(c, v).None?
    ensures r.View?
  {
    View(v.key, v.k + 1, v.bytes[PRE_CHUNK_OVERHEAD..])
  }

  // The next `size` bytes of payload and what follows them, or why they cannot be delivered.
  function NextChunk(c: Cipher, v: View, size: nat): (r: Result<(seq<byte>, View), FlowError>)
    requires v.View?
    ensures r.Ok? ==> r.value.1.View? && |r.value.1.bytes| + size + POST_CHUNK_OVERHEAD == |v.bytes|
    ensures r.Ok? ==> |r.value.0| == size
  {
    var need := size + POST_CHUNK_OVERHEAD;
    if |v.bytes| < need then Err(Eof) else
    match Opened(c, v.key, v.k, v.bytes[..need])
    case None => Err(UnexpectedData)
    case Some(p) => Ok((p, View(v.key, v.k + 1, v.bytes[need..])))
  }

  /** Reference decoder: the chunks a whole wire stands for and the error that ends it. */
  function Decode(c: Cipher, v: View): (r: (seq<seq<byte>>, FlowError))
    decreases v.Length()
  {
    match SizeFailure(c, v)
    case Some(e) => ([], e)
    case None =>
      match NextChunk(c, AfterSize(c, v), NextSize(c, v))
      case Err(e) => ([], e)
      case Ok((p, rest)) =>
        var (more, e) := Decode(c, rest);
        ([p] + more, e)
  }

  ghost predicate LegalChunks(chunks: seq<seq<byte>>) {
    forall i :: 0 <= i < |chunks| ==> 1 <= |chunks[i]| <= MAX_CHUNK
  }

  /** Every list of chunks of legal length is decoded as sent, up to the end of the stream. */
  lemma {:induction false} DecodeFrames(
      c: Cipher, key: seq<byte>, k: nat, chunks: seq<seq<byte>>)
    requires LegalChunks(chunks)
    ensures Decode(c, View(key, k, Frames(c, key, k, chunks))) == (chunks, Eof)
    decreases |chunks|
  {
    if chunks != [] {
      var tail := Frames(c, key, k + 2, chunks[1..]);
      DecodeFrames(c, key, k + 2, chunks[1..]);
      DecodeOneFrame(c, key, k, chunks[0], tail, Frames(c, key, k, chunks), chunks[1..], Eof);
      HeadAndTail(chunks);
    }
  }

  lemma DecodeOneFrame(
      c: Cipher, key: seq<byte>, k: nat, p: seq<byte>, tail: seq<byte>, wire: seq<byte>,
      more: seq<seq<byte>>, e: FlowError)
    requires 1 <= |p| <= MAX_CHUNK && wire == Frame(c, key, k, p) + tail
    requires Decode(c, View(key, k + 2, tail)) == (more, e)
    ensures Decode(c, View(key, k, wire)) == ([p] + more, e)
  {
    DecodeFrame(c, key, k, p, tail);
    DecodeCons(c, View(key, k, wire), p, View(key, k + 2, tail));
  }

  lemma DecodeCons(c: Cipher, v: View, p: seq<byte>, rest: View)
    requires SizeFailure(c, v).None?
    requires NextChunk(c, AfterSize(c, v), NextSize(c, v)) == Ok((p, rest))
    ensures Decode(c, v) == ([p] + Decode(c, rest).0, Decode(c, rest).1)
  {
  }

  lemma DecodeFrame(c: Cipher, key: seq<byte>, k: nat, p: seq<byte>, tail: seq<byte>)
    requires 1 <= |p| <= MAX_CHUNK
    ensures var v := View(key, k, Frame(c, key, k, p) + tail);
      && SizeFailure(c, v).None? && NextSize(c, v) == |p|
      && NextChunk(c, AfterSize(c, v), |p|) == Ok((p, View(key, k + 2, tail)))
  {
    var size := Sealed(c, key, k, SizeField(|p|));
    var data := Sealed(c, key, k + 1, p);
    var wire := Frame(c, key, k, p) + tail;
    assert wire[..PRE_CHUNK_OVERHEAD] == size;
    SizeFieldRoundTripIff(c, key, k, |p|);
    assert wire[PRE_CHUNK_OVERHEAD..] == data + tail;
    assert (data + tail)[..|data|] == data && (data + tail)[|data|..] == tail;
    OpenedSealed(c, key, k + 1, p);
  }

  /** A chunk arrives as sent, and the stream goes on behind it, exactly when its length is legal. */
  lemma ChunkSurvivesIff(c: Cipher, key: seq<byte>, k: nat, p: seq<byte>, tail: seq<byte>)
    ensures var (more, e) := Decode(c, View(key, k + 2, tail));
      Decode(c, View(key, k, Frame(c, key, k, p) + tail)) == ([p] + more, e)
      <==> 1 <= |p| <= MAX_CHUNK
  {
    if 1 <= |p| <= MAX_CHUNK {
      var (more, e) := Decode(c, View(key, k + 2, tail));
      DecodeOneFrame(c, key, k, p, tail, Frame(c, key, k, p) + tail, more, e);
    } else {
      var v := View(key, k, Frame(c, key, k, p) + tail);
      SizeSeen(c, key, k, p, tail);
      FirstChunkLen(c, v);
      assert Decode(c, v).0 == [] || |Decode(c, v).0[0]| != |p|;
    }
  }

  lemma FirstChunkLen(c: Cipher, v: View)
    ensures Decode(c, v).0 != [] ==>
      SizeFailure(c, v).None? && |Decode(c, v).0[0]| == NextSize(c, v)
  {
  }

  /** What the receiver takes for the length of a chunk: the lower 14 bits, of which zero ends the
      stream. */
  lemma SizeSeen(c: Cipher, key: seq<byte>, k: nat, p: seq<byte>, tail: seq<byte>)
    ensures var v, seen := View(key, k, Frame(c, key, k, p) + tail), |p| % (MAX_CHUNK + 1);
      if seen == 0 then SizeFailure(c, v) == Some(UnexpectedData)
      else SizeFailure(c, v).None? && NextSize(c, v) == seen
  {
    var wire := Frame(c, key, k, p) + tail;
    assert wire[..PRE_CHUNK_OVERHEAD] == Sealed(c, key, k, SizeField(|p|));
    OpenedSealed(c, key, k, SizeField(|p|));
    MaskedLength(|p|);
  }

  /** Whatever is delivered was sealed under the session key with the next unused nonces: the bytes
      consumed for `got` are sealed size fields, each followed by its sealed chunk, in order. */
  lemma {:induction false} DeliveredWasSealed(c: Cipher, v: View)
    requires v.View?
    ensures Authentic(c, v, Decode(c, v).0)
    decreases |v.bytes|
  {
    if SizeFailure(c, v).None? && NextChunk(c, AfterSize(c, v), NextSize(c, v)).Ok? {
      var (p, rest) := NextChunk(c, AfterSize(c, v), NextSize(c, v)).value;
      var pre := v.bytes[..PRE_CHUNK_OVERHEAD];
      var field := Opened(c, v.key, v.k, pre).value;
      assert Sealed(c, v.key, v.k, field) + Sealed(c, v.key, v.k + 1, p)
        == v.bytes[..FrameLen(p)];
      assert BeginsWithFrame(c, v, field, p);
      assert rest.bytes == v.bytes[FrameLen(p)..];
      DeliveredWasSealed(c, rest);
      assert Decode(c, v).0[1..] == Decode(c, rest).0;
    }
  }

  // The length a size field of two bytes announces.
  function Announced(field: seq<byte>): nat
    requires |field| == SIZE_LEN
  {
    (field[0] as int * 256 + field[1] as int) % 0x4000
  }

  // `left` begins with a sealed size field that announces `n` bytes.
  ghost predicate Announces(c: Cipher, key: seq<byte>, k: nat, left: seq<byte>, n: nat) {
    |left| >= PRE_CHUNK_OVERHEAD && n > 0 && exists field: seq<byte> ::
      Sealed(c, key, k, field) == left[..PRE_CHUNK_OVERHEAD]
      && |field| == SIZE_LEN && Announced(field) == n
  }

  /** How decoding ends, by the bytes behind the delivered chunks. It is the end of the stream exactly
      if they are too few for a size field, or for the chunk that an authentic size field announces.
      Everything else is unexpected data: a size field that was not sealed or announces nothing, and
      a chunk that was not sealed although there are enough bytes for it. */
  lemma {:induction false} DecodeEnds(c: Cipher, v: View, chunks: seq<seq<byte>>, e: FlowError)
    returns (left: View)
    requires v.View? && Decode(c, v) == (chunks, e)
    ensures WireLen(chunks) <= |v.bytes|
    ensures left == View(v.key, v.k + 2 * |chunks|, v.bytes[WireLen(chunks)..])
    ensures EndMeans(c, left, e)
    decreases |v.bytes|
  {
    left := v;
    if SizeFailure(c, v).Some? {
      EndsAtSize(c, v, SizeFailure(c, v).value);
    } else if NextChunk(c, AfterSize(c, v), NextSize(c, v)).Err? {
      EndsAtChunk(c, v, NextChunk(c, AfterSize(c, v), NextSize(c, v)).error);
    } else {
      var (p, rest) := NextChunk(c, AfterSize(c, v), NextSize(c, v)).value;
      var more := Decode(c, rest).0;
      DecodeCons(c, v, p, rest);
      left := DecodeEnds(c, rest, more, e);
      BehindFirst(c, v, p, rest);
      LeftBehind(v, p, rest, more, chunks, left);
    }
  }

  lemma LeftBehind(
      v: View, p: seq<byte>, rest: View, more: seq<seq<byte>>, chunks: seq<seq<byte>>, left: View)
    requires v.View? && FrameLen(p) <= |v.bytes| && chunks == [p] + more
    requires rest == View(v.key, v.k + 2, v.bytes[FrameLen(p)..]) && WireLen(more) <= |rest.bytes|
    requires left == View(rest.key, rest.k + 2 * |more|, rest.bytes[WireLen(more)..])
    ensures WireLen(chunks) <= |v.bytes|
    ensures left == View(v.key, v.k + 2 * |chunks|, v.bytes[WireLen(chunks)..])
  {
    WireLenCons(p, more);
  }

  // The bytes that the frames of some chunks take up.
  function WireLen(chunks: seq<seq<byte>>): nat {
    if chunks == [] then 0 else FrameLen(chunks[0]) + WireLen(chunks[1..])
  }

  lemma WireLenCons(p: seq<byte>, more: seq<seq<byte>>)
    ensures WireLen([p] + more) == FrameLen(p) + WireLen(more)
  {
    assert ([p] + more)[1..] == more;
  }

  /** It is the length of their frames. */
  lemma {:induction false} WireLenOfFrames(c: Cipher, key: seq<byte>, k: nat, chunks: seq<seq<byte>>)
    ensures |Frames(c, key, k, chunks)| == WireLen(chunks)
    decreases |chunks|
  {
    if chunks != [] {
      WireLenOfFrames(c, key, k + 2, chunks[1..]);
    }
  }

  lemma BehindFirst(c: Cipher, v: View, p: seq<byte>, rest: View)
    requires v.View? && SizeFailure(c, v).None?
    requires NextChunk(c, AfterSize(c, v), NextSize(c, v)) == Ok((p, rest))
    ensures FrameLen(p) <= |v.bytes|
    ensures rest == View(v.key, v.k + 2, v.bytes[FrameLen(p)..])
  {
  }

  ghost predicate EndMeans(c: Cipher, left: View, e: FlowError)
    requires left.View?
  {
    && (e == Eof || e == UnexpectedData)
    && (e == Eof <==> TooShort(c, left.key, left.k, left.bytes))
    && (e == UnexpectedData ==> forall n: nat ::
          Announces(c, left.key, left.k, left.bytes, n) && |left.bytes| >= ChunkEnd(n) ==>
          !IsSealed(c, left.key, left.k + 1, left.bytes[PRE_CHUNK_OVERHEAD..ChunkEnd(n)]))
  }

  // Too few bytes for a size field, or for the chunk that one announces.
  ghost predicate TooShort(c: Cipher, key: seq<byte>, k: nat, left: seq<byte>) {
    || |left| < PRE_CHUNK_OVERHEAD
    || exists n: nat :: Announces(c, key, k, left, n) && |left| < ChunkEnd(n)
  }

  // Where a frame ends whose size field announces `n`.
  function ChunkEnd(n: nat): nat {
    PRE_CHUNK_OVERHEAD + n + TAG_LEN
  }

  lemma EndsAtSize(c: Cipher, v: View, e: FlowError)
    requires v.View? && SizeFailure(c, v) == Some(e)
    ensures Decode(c, v) == ([], e) && v.bytes[0..] == v.bytes && EndMeans(c, v, e)
  {
    if |v.bytes| >= PRE_CHUNK_OVERHEAD {
      SizeRead(c, v.key, v.k, v.bytes);
    }
  }

  lemma EndsAtChunk(c: Cipher, v: View, e: FlowError)
    requires v.View? && SizeFailure(c, v).None?
    requires NextChunk(c, AfterSize(c, v), NextSize(c, v)) == Err(e)
    ensures Decode(c, v) == ([], e) && v.bytes[0..] == v.bytes && EndMeans(c, v, e)
  {
    var n := NextSize(c, v);
    SizeRead(c, v.key, v.k, v.bytes);
    assert Announces(c, v.key, v.k, v.bytes, n);
    if |v.bytes| >= ChunkEnd(n) {
      var data := v.bytes[PRE_CHUNK_OVERHEAD..ChunkEnd(n)];
      assert data == AfterSize(c, v).bytes[..n + POST_CHUNK_OVERHEAD];
      OpensIffSealed(c, v.key, v.k + 1, data);
    }
  }

  // A size is read exactly if one is announced, and then that one.
  lemma SizeRead(c: Cipher, key: seq<byte>, k: nat, left: seq<byte>)
    requires |left| >= PRE_CHUNK_OVERHEAD
    ensures var r := OpenedSize(c, key, k, left[..PRE_CHUNK_OVERHEAD]);
      forall n: nat :: Announces(c, key, k, left, n) <==> r == Some(n)
  {
    var pre := left[..PRE_CHUNK_OVERHEAD];
    forall field: seq<byte> | |field| == SIZE_LEN && pre == Sealed(c, key, k, field)
      ensures Opened(c, key, k, pre) == Some(field)
    {
      OpenedSealed(c, key, k, field);
    }
  }

  /** A wire shorter than the IV ends before it begins. */
  lemma NoIvEnds(c: Cipher, master: seq<byte>, wire: seq<byte>)
    requires |wire| < c.ivLen
    ensures Decode(c, Start(c, master, wire)) == ([], Eof)
  {
  }

  /** Legal frames in front do not change what is made of the bytes behind them. */
  lemma {:induction false} DecodeBehind(
      c: Cipher, key: seq<byte>, k: nat, chunks: seq<seq<byte>>, tail: View, wire: seq<byte>,
      more: seq<seq<byte>>, e: FlowError)
    requires LegalChunks(chunks) && tail.View? && tail.key == key && tail.k == k + 2 * |chunks|
    requires wire == Frames(c, key, k, chunks) + tail.bytes && Decode(c, tail) == (more, e)
    ensures Decode(c, View(key, k, wire)) == (chunks + more, e)
    decreases |chunks|
  {
    if chunks == [] {
      assert wire == tail.bytes && chunks + more == more && View(key, k, wire) == tail;
    } else {
      var rest := FirstAndRest(c, key, k, chunks, tail.bytes, wire);
      DecodeBehind(c, key, k + 2, chunks[1..], tail, rest, more, e);
      DecodeOneFrame(c, key, k, chunks[0], rest, wire, chunks[1..] + more, e);
      Regroup([chunks[0]], chunks[1..], more);
      HeadAndTail(chunks);
    }
  }

  lemma FirstAndRest(
      c: Cipher, key: seq<byte>, k: nat, chunks: seq<seq<byte>>, tail: seq<byte>, wire: seq<byte>)
    returns (rest: seq<byte>)
    requires chunks != [] && wire == Frames(c, key, k, chunks) + tail
    ensures rest == Frames(c, key, k + 2, chunks[1..]) + tail
    ensures wire == Frame(c, key, k, chunks[0]) + rest
  {
    rest := Frames(c, key, k + 2, chunks[1..]) + tail;
    Regroup(Frame(c, key, k, chunks[0]), Frames(c, key, k + 2, chunks[1..]), tail);
  }

  /** A chunk that was tampered with: the chunks before it are delivered, and then the stream fails,
      whatever follows. */
  lemma TamperedRefused(
      c: Cipher, key: seq<byte>, k: nat, chunks: seq<seq<byte>>, at: nat, n: nat, bad: seq<byte>,
      tail: seq<byte>, wire: seq<byte>)
    requires LegalChunks(chunks) && at == k + 2 * |chunks|
    requires 1 <= n <= MAX_CHUNK && |bad| == n + TAG_LEN && !IsSealed(c, key, at + 1, bad)
    requires wire == Frames(c, key, k, chunks) + (Sealed(c, key, at, SizeField(n)) + (bad + tail))
    ensures Decode(c, View(key, k, wire)) == (chunks, UnexpectedData)
  {
    var part := Sealed(c, key, at, SizeField(n)) + (bad + tail);
    BadChunk(c, key, at, n, bad, tail, part);
    DecodeBehind(c, key, k, chunks, View(key, at, part), wire, [], UnexpectedData);
    assert chunks + [] == chunks;
  }

  lemma BadChunk(
      c: Cipher, key: seq<byte>, k: nat, n: nat, bad: seq<byte>, tail: seq<byte>, part: seq<byte>)
    requires 1 <= n <= MAX_CHUNK && |bad| == n + TAG_LEN && !IsSealed(c, key, k + 1, bad)
    requires part == Sealed(c, key, k, SizeField(n)) + (bad + tail)
    ensures var v := View(key, k, part);
      && SizeFailure(c, v).None? && NextSize(c, v) == n
      && NextChunk(c, AfterSize(c, v), n) == Err(UnexpectedData)
      && Decode(c, v) == ([], UnexpectedData)
  {
    SizeFirst(c, key, k, n, bad + tail, part);
    BadData(c, key, k + 1, n, bad, tail);
    EndsAtChunk(c, View(key, k, part), UnexpectedData);
  }

  lemma SizeFirst(
      c: Cipher, key: seq<byte>, k: nat, n: nat, data: seq<byte>, part: seq<byte>)
    requires 1 <= n <= MAX_CHUNK && part == Sealed(c, key, k, SizeField(n)) + data
    ensures var v := View(key, k, part);
      SizeFailure(c, v).None? && NextSize(c, v) == n && AfterSize(c, v) == View(key, k + 1, data)
  {
    assert part[..PRE_CHUNK_OVERHEAD] == Sealed(c, key, k, SizeField(n));
    assert part[PRE_CHUNK_OVERHEAD..] == data;
    SizeFieldRoundTripIff(c, key, k, n);
  }

  lemma BadData(c: Cipher, key: seq<byte>, k: nat, n: nat, bad: seq<byte>, tail: seq<byte>)
    requires |bad| == n + TAG_LEN && !IsSealed(c, key, k, bad)
    ensures NextChunk(c, View(key, k, bad + tail), n) == Err(UnexpectedData)
  {
    assert (bad + tail)[..n + POST_CHUNK_OVERHEAD] == bad;
    OpensIffSealed(c, key, k, bad);
  }

  ghost predicate Authentic(c: Cipher, v: View, got: seq<seq<byte>>)
    decreases |got|
  {
    got == [] ||
    (v.View? && (exists field :: |field| == SIZE_LEN && BeginsWithFrame(c, v, field, got[0])) &&
     Authentic(c, View(v.key, v.k + 2, v.bytes[FrameLen(got[0])..]), got[1..]))
  }

  function FrameLen(p: seq<byte>): nat {
    PRE_CHUNK_OVERHEAD + |p| + POST_CHUNK_OVERHEAD
  }

  ghost predicate BeginsWithFrame(c: Cipher, v: View, field: seq<byte>, p: seq<byte>)
    requires v.View? && |field| == SIZE_LEN
    ensures BeginsWithFrame(c, v, field, p) ==> FrameLen(p) <= |v.bytes|
  {
    Sealed(c, v.key, v.k, field) + Sealed(c, v.key, v.k + 1, p) <= v.bytes
  }

  class RxHalf {
    const cipher: Cipher
    const lower: LowerStream
    const reader: Reader
    var crypto: RxCryptoState
    var rxBuf: Option<Buffer>
    var rxChunkSize: nat
    ghost var Repr: set<object>

    constructor (
        cipher: Cipher, master: seq<byte>, lower: LowerStream, reader: Reader, ghost wire: seq<byte>)
      requires reader.Valid(lower) && reader.state.PollSizeHint? && reader.Queue(lower) == wire
      ensures this.cipher == cipher && this.lower == lower && this.reader == reader
      ensures Valid() && Repr == {this, lower, reader} && rxBuf == None && SizeExpected()
      ensures Undecoded() == Start(cipher, master, wire)
    {
      this.cipher, this.lower, this.reader := cipher, lower, reader;
      crypto, rxBuf, rxChunkSize := ReadingIv(master), None, 0;
      Repr := {this, lower, reader};
    }

    ghost predicate Valid()
      reads this, Repr
      ensures Valid() ==> {this, lower, reader} <= Repr
    {
      && {this, lower, reader} <= Repr
      && reader.Valid(lower)
      && (crypto.CryptoReady? ==>
            && crypto.session in Repr && crypto.session.nonce in Repr
            && crypto.session.Valid() && crypto.session.cipher == cipher)
    }

    ghost function Undecoded(): View
      requires Valid()
      reads this, Repr
    {
      match crypto
      case ReadingIv(master) => Start(cipher, master, reader.Queue(lower))
      case CryptoReady(s) => View(s.key, |s.used|, reader.Queue(lower))
    }

    // Between frames: the next thing to read is the IV or a size field.
    ghost predicate SizeExpected()
      requires Valid()
      reads this, Repr
    {
      reader.Waiting(lower, if crypto.ReadingIv? then cipher.ivLen else PRE_CHUNK_OVERHEAD)
    }

    // Within a frame: a size was announced and its chunk is next.
    ghost predicate ChunkExpected()
      requires Valid()
      reads this, Repr
    {
      crypto.CryptoReady? && reader.Waiting(lower, rxChunkSize + POST_CHUNK_OVERHEAD)
    }

    // The arm of `poll_request_size` that waits for the IV; None sends it round the loop again.
    method PollIv() returns (r: Option<Poll<Result<SizeHint, FlowError>>>)
      requires Valid() && SizeExpected() && crypto.ReadingIv?
      modifies Repr
      ensures Valid() && fresh(Repr - old(Repr)) && rxBuf == old(rxBuf)
      ensures r.None? ==> crypto.CryptoReady? && lower.pendings == old(lower.pendings)
      ensures r != None ==> r.value.Pending? || r.value.value.Err?
      ensures r == Some(Poll.Pending) ==> lower.pendings < old(lower.pendings)
      ensures r == None || r == Some(Poll.Pending) ==>
        SizeExpected() && Undecoded() == old(Undecoded())
      ensures r.Some? && r.value.Ready? && r.value.value.Err? && lower.reliable ==>
        SizeFailure(cipher, old(Undecoded())) == Some(r.value.value.error)
      ensures r.Some? && r.value.Ready? && r.value.value.Err? ==>
        lower.error == Some(r.value.value.error)
    {
      var poll := reader.PollReadExact(lower, cipher.ivLen);
      match poll
      case Pending =>
        r := Some(Poll.Pending);
      case Ready(Err(e)) =>
        r := Some(Ready(Err(e)));
      case Ready(Ok(iv)) =>
        var session := new Session(cipher, crypto.key, iv);
        crypto := CryptoReady(session);
        Repr := Repr + {session, session.nonce};
        r := None;
    }

    // The arm of `poll_request_size` that opens the next size field.
    method PollSize() returns (r: Poll<Result<SizeHint, FlowError>>)
      requires crypto.CryptoReady?
      requires Valid() && SizeExpected()
      modifies Repr
      ensures Valid() && Repr == old(Repr) && rxBuf == old(rxBuf)
      ensures r.Pending? ==>
        lower.pendings < old(lower.pendings) && SizeExpected() && Undecoded() == old(Undecoded())
      ensures r.Ready? && r.value.Ok? ==>
        && var v := old(Undecoded());
        && SizeFailure(cipher, v).None? && NextSize(cipher, v) == rxChunkSize
        && r.value.value == AtLeast(rxChunkSize + POST_CHUNK_OVERHEAD)
        && ChunkExpected() && Undecoded() == AfterSize(cipher, v)
      ensures r.Ready? && r.value.Err? && lower.reliable ==>
        SizeFailure(cipher, old(Undecoded())) == Some(r.value.error)
      // an error comes from below or says that the size field is not authentic
      ensures r.Ready? && r.value.Err? && lower.error != Some(r.value.error) ==>
        r.value.error == UnexpectedData && SizeFailure(cipher, old(Undecoded())) == Some(UnexpectedData)
    {
      var session := crypto.session;
      var poll := reader.PollReadExact(lower, PRE_CHUNK_OVERHEAD);
      match poll
      case Pending =>
        r := Poll.Pending;
      case Ready(Err(e)) =>
        r := Ready(Err(e));
      case Ready(Ok(pre)) =>
        var size := session.DecryptSize(pre);
        if size.None? {
          return Ready(Err(UnexpectedData));
        }
        rxChunkSize := size.value;
        r := Ready(Ok(AtLeast(size.value + POST_CHUNK_OVERHEAD)));
    }

    method PollRequestSize() returns (r: Poll<Result<SizeHint, FlowError>>)
      requires Valid() && SizeExpected()
      modifies Repr
      ensures Valid() && fresh(Repr - old(Repr)) && rxBuf == old(rxBuf)
      ensures r.Pending? ==>
        lower.pendings < old(lower.pendings) && SizeExpected() && Undecoded() == old(Undecoded())
      ensures r.Ready? && r.value.Ok? ==>
        && var v := old(Undecoded());
        && SizeFailure(cipher, v).None? && NextSize(cipher, v) == rxChunkSize
        && r.value.value == AtLeast(rxChunkSize + POST_CHUNK_OVERHEAD)
        && ChunkExpected() && Undecoded() == AfterSize(cipher, v)
      ensures r.Ready? && r.value.Err? && lower.reliable ==>
        SizeFailure(cipher, old(Undecoded())) == Some(r.value.error)
      // an error comes from below or says that the size field is not authentic
      ensures r.Ready? && r.value.Err? && lower.error != Some(r.value.error) ==>
        r.value.error == UnexpectedData && SizeFailure(cipher, old(Undecoded())) == Some(UnexpectedData)
    {
      ghost var v := Undecoded();
      while true
        invariant Valid() && SizeExpected() && fresh(Repr - old(Repr))
        invariant Undecoded() == v && rxBuf == old(rxBuf) && lower.pendings == old(lower.pendings)
        decreases crypto.ReadingIv?
      {
        match crypto
        case ReadingIv(_) =>
          var done := PollIv();
          if done.Some? {
            return done.value;
          }
        case CryptoReady(_) =>
          r := PollSize();
          return;
      }
    }

    method CommitRxBuffer(buffer: Buffer)
      modifies this`rxBuf
      ensures rxBuf == Some(buffer)
    {
      rxBuf := Some(buffer);
    }

    // The callback of the read in `poll_rx_buffer`: chunk and tag split, opened in place.
    method OpenChunk(part: seq<byte>) returns (plain: Option<seq<byte>>)
      requires Valid() && crypto.CryptoReady? && |part| == rxChunkSize + POST_CHUNK_OVERHEAD
      modifies crypto.session`used, crypto.session.nonce
      ensures Valid() && |crypto.session.used| == |old(crypto.session.used)| + 1
      ensures plain == Opened(cipher, crypto.session.key, |old(crypto.session.used)|, part)
    {
      assert part[..rxChunkSize] + part[rxChunkSize..] == part;
      plain := crypto.session.Decrypt(part[..rxChunkSize], part[rxChunkSize..]);
    }

    /** The two preconditions on `crypto` and `rxBuf` are the panics of the source. */
    method PollRxBuffer() returns (r: Poll<Result<Buffer, (Buffer, FlowError)>>)
      requires Valid() && rxBuf.Some? && ChunkExpected()
      modifies Repr
      ensures Valid() && Repr == old(Repr)
      ensures lower.pendings <= old(lower.pendings)
      ensures r.Pending? ==>
        && lower.pendings < old(lower.pendings) && ChunkExpected() && rxBuf == old(rxBuf)
        && Undecoded() == old(Undecoded()) && rxChunkSize == old(rxChunkSize)
      ensures r.Ready? ==> rxBuf == None && SizeExpected()
      ensures r.Ready? && r.value.Ok? ==>
        && var next := NextChunk(cipher, old(Undecoded()), old(rxChunkSize));
        && next.Ok? && r.value.value == old(rxBuf.value) + next.value.0
        && Undecoded() == next.value.1
      ensures r.Ready? && r.value.Err? ==> r.value.error.0 == old(rxBuf.value)
      ensures r.Ready? && r.value.Err? && lower.reliable ==>
        NextChunk(cipher, old(Undecoded()), old(rxChunkSize)) == Err(r.value.error.1)
      // an error comes from below or says that the chunk is not authentic
      ensures r.Ready? && r.value.Err? && lower.error != Some(r.value.error.1) ==>
        && r.value.error.1 == UnexpectedData
        && NextChunk(cipher, old(Undecoded()), old(rxChunkSize)) == Err(UnexpectedData)
    {
      ghost var v := Undecoded();
      var poll := reader.PollReadExact(lower, rxChunkSize + POST_CHUNK_OVERHEAD);
      if poll.Pending? {
        return Poll.Pending;
      }
      var buf := rxBuf.value;
      rxBuf := None;
      if poll.value.Err? {
        return Ready(Err((buf, poll.value.error)));
      }
      var plain := OpenChunk(poll.value.value);
      if plain.None? {
        return Ready(Err((buf, UnexpectedData)));
      }
      r := Ready(Ok(buf + plain.value));
    }
  }

  // `poll_fn(|cx| s.poll_request_size(cx)).await`
  method RequestSize(rx: RxHalf) returns (r: Result<SizeHint, FlowError>)
    requires rx.Valid() && rx.SizeExpected() && rx.lower.reliable
    modifies rx.Repr
    ensures rx.Valid() && fresh(rx.Repr - old(rx.Repr))
    ensures r.Ok? ==>
      && var v := old(rx.Undecoded());
      && SizeFailure(rx.cipher, v).None? && NextSize(rx.cipher, v) == rx.rxChunkSize
      && rx.ChunkExpected() && rx.Undecoded() == AfterSize(rx.cipher, v)
      && r.value == AtLeast(rx.rxChunkSize + POST_CHUNK_OVERHEAD)
    ensures rx.rxBuf == old(rx.rxBuf)
    ensures r.Err? ==> SizeFailure(rx.cipher, old(rx.Undecoded())) == Some(r.error)
  {
    ghost var v := rx.Undecoded();
    while true
      invariant rx.Valid() && rx.SizeExpected() && fresh(rx.Repr - old(rx.Repr))
      invariant rx.Undecoded() == v && rx.rxBuf == old(rx.rxBuf)
      decreases rx.lower.pendings
    {
      var poll := rx.PollRequestSize();
      if poll.Ready? {
        return poll.value;
      }
    }
  }

  // `poll_fn(|cx| s.poll_rx_buffer(cx)).await`
  method RxBuffer(rx: RxHalf) returns (r: Result<Buffer, (Buffer, FlowError)>)
    requires rx.Valid() && rx.ChunkExpected() && rx.lower.reliable && rx.rxBuf.Some?
    modifies rx.Repr
    ensures rx.Valid() && rx.SizeExpected() && rx.Repr == old(rx.Repr)
    ensures match NextChunk(rx.cipher, old(rx.Undecoded()), old(rx.rxChunkSize))
      case Ok((p, rest)) => r == Ok(old(rx.rxBuf.value) + p) && rx.Undecoded() == rest
      case Err(e) => r == Err((old(rx.rxBuf.value), e))
  {
    ghost var v := rx.Undecoded();
    while true
      invariant rx.Valid() && rx.ChunkExpected() && rx.Repr == old(rx.Repr)
      invariant rx.Undecoded() == v && rx.rxBuf == old(rx.rxBuf)
      invariant rx.rxChunkSize == old(rx.rxChunkSize)
      decreases rx.lower.pendings
    {
      var poll := rx.PollRxBuffer();
      if poll.Ready? {
        return poll.value;
      }
    }
  }

  // One turn of a client in the prescribed order: request a size, commit a buffer, poll it.
  method ReceiveOne(rx: RxHalf) returns (r: Result<Buffer, FlowError>)
    requires rx.Valid() && rx.SizeExpected() && rx.lower.reliable
    modifies rx.Repr
    ensures rx.Valid() && fresh(rx.Repr - old(rx.Repr))
    ensures r.Ok? ==>
      && var v := old(rx.Undecoded());
      && rx.SizeExpected() && SizeFailure(rx.cipher, v).None?
      && NextChunk(rx.cipher, AfterSize(rx.cipher, v), NextSize(rx.cipher, v))
        == Ok((r.value, rx.Undecoded()))
    ensures r.Err? ==> Decode(rx.cipher, old(rx.Undecoded())) == ([], r.error)
  {
    var hint := RequestSize(rx);
    if hint.Err? {
      return Err(hint.error);
    }
    rx.CommitRxBuffer([]);
    ghost var v, size := rx.Undecoded(), rx.rxChunkSize;
    var data := RxBuffer(rx);
    if data.Err? {
      return Err(data.error.1);
    }
    ghost var p := NextChunk(rx.cipher, v, size).value.0;
    assert [] + p == p;
    r := Ok(data.value);
  }

  /** Over a lower stream that segments and delays as it likes, what a client receives is a
      function of the wire alone. */
  method ReceiveAll(rx: RxHalf) returns (chunks: seq<seq<byte>>, e: FlowError)
    requires rx.Valid() && rx.SizeExpected() && rx.lower.reliable
    modifies rx.Repr
    ensures (chunks, e) == Decode(rx.cipher, old(rx.Undecoded()))
  {
    ghost var c, whole := rx.cipher, Decode(rx.cipher, rx.Undecoded());
    chunks := [];
    assert [] + whole.0 == whole.0;
    while true
      invariant rx.Valid() && rx.SizeExpected() && fresh(rx.Repr - old(rx.Repr))
      invariant Decoding(c, whole, chunks, rx.Undecoded())
      decreases rx.Undecoded().Length()
    {
      ghost var v := rx.Undecoded();
      var data := ReceiveOne(rx);
      if data.Err? {
        return chunks, data.error;
      }
      DecodingStep(c, whole, chunks, v, data.value, rx.Undecoded());
      chunks := chunks + [data.value];
    }
  }

  // `chunks` are what a decoding with result `whole` has delivered when `v` is left.
  ghost predicate Decoding(
      c: Cipher, whole: (seq<seq<byte>>, FlowError), chunks: seq<seq<byte>>, v: View)
    ensures Decoding(c, whole, chunks, v) && Decode(c, v).0 == [] ==>
      whole == (chunks, Decode(c, v).1)
  {
    assert chunks + [] == chunks;
    whole == (chunks + Decode(c, v).0, Decode(c, v).1)
  }

  lemma DecodingStep(
      c: Cipher, whole: (seq<seq<byte>>, FlowError), chunks: seq<seq<byte>>, v: View,
      p: seq<byte>, rest: View)
    requires SizeFailure(c, v).None?
    requires NextChunk(c, AfterSize(c, v), NextSize(c, v)) == Ok((p, rest))
    requires Decoding(c, whole, chunks, v)
    ensures Decoding(c, whole, chunks + [p], rest) && rest.Length() < v.Length()
  {
    DecodeCons(c, v, p, rest);
    Regroup(chunks, [p], Decode(c, rest).0);
  }

  // A receiver at the start of a wire that `lower` delivers in full.
  method Connect(c: Cipher, master: seq<byte>, wire: seq<byte>, pendings: nat) returns (rx: RxHalf)
    ensures rx.Valid() && rx.SizeExpected() && rx.lower.reliable && fresh(rx.Repr)
    ensures rx.cipher == c && rx.Undecoded() == Start(c, master, wire)
  {
    var lower := new LowerStream(wire, pendings, true, false);
    var reader := new Reader([]);
    assert reader.Queue(lower) == wire;
    rx := new RxHalf(c, master, lower, reader, wire);
  }

  /** The round trip: whatever the segmentation and however often Pending is answered, the chunks
      arrive as sealed, in order, one per buffer, and then the stream ends. */
  method RoundTrip(
      c: Cipher, master: seq<byte>, iv: seq<byte>, wire: seq<byte>, ghost chunks: seq<seq<byte>>,
      pendings: nat)
    returns (got: seq<seq<byte>>, e: FlowError)
    requires |iv| == c.ivLen && LegalChunks(chunks)
    requires wire == iv + Frames(c, c.subkey(master, iv), 0, chunks)
    ensures got == chunks && e == Eof
  {
    var rx := Connect(c, master, wire, pendings);
    WireDecodes(c, master, iv, chunks);
    got, e := ReceiveAll(rx);
  }

  lemma WireDecodes(c: Cipher, master: seq<byte>, iv: seq<byte>, chunks: seq<seq<byte>>)
    requires |iv| == c.ivLen
    requires LegalChunks(chunks)
    ensures var wire := iv + Frames(c, c.subkey(master, iv), 0, chunks);
      Decode(c, Start(c, master, wire)) == (chunks, Eof)
  {
    var frames := Frames(c, c.subkey(master, iv), 0, chunks);
    assert (iv + frames)[..c.ivLen] == iv && (iv + frames)[c.ivLen..] == frames;
    DecodeFrames(c, c.subkey(master, iv), 0, chunks);
  }
}
