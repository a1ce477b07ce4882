// The sending half of `ShadowsocksStream`, over a transport that may retain unsent bytes, and the
// first request of a connection.
module ShadowsocksTx {
  import opened Flow
  import opened Aead
  import opened Address
  import opened PipeSink
  import opened IpStackTx

  const ZERO_PREFIX: seq<byte> := seq(PRE_CHUNK_OVERHEAD, _ => 0)

  class TxHalf {
    const lower: Sink
    const crypto: Session
    var txOffset: nat

    ghost predicate Valid()
      reads this, lower.Half(), crypto, crypto.nonce
    {
      && lower.Valid() && crypto.Valid()
      && lower.Half() != this && lower.Half() != crypto && lower.Half() != crypto.nonce
    }

    // The buffer is with the transport, which takes writes.
    ghost predicate Idle()
      reads lower.Half()
    {
      lower.HasBuffer() && !lower.Shut()
    }

    // Every byte handed to the transport, sent or still in its buffer.
    ghost function Out(): seq<byte>
      requires Valid()
      reads this, lower.Half(), crypto, crypto.nonce
    {
      lower.Wire() + lower.Unsent()
    }

    constructor (lower: Sink, crypto: Session)
      requires lower.Valid() && crypto.Valid()
      requires lower.Half() != crypto && lower.Half() != crypto.nonce
      ensures Valid() && this.lower == lower && this.crypto == crypto
    {
      this.lower, this.crypto, txOffset := lower, crypto, 0;
    }

    /** The buffer comes back with the transport's retained bytes in front; `txOffset` marks where
        the new frame starts, and room for its size field is left there. */
    method PollTxBuffer(size: nat) returns (r: Poll<Result<Buffer, FlowError>>)
      requires Valid() && Idle()
      modifies this, lower.Half()
      ensures Valid() && !lower.Shut()
      ensures r.Pending? ==> lower.Pendings() < old(lower.Pendings())
      ensures lower.Pendings() <= old(lower.Pendings())
      ensures r.Ready? && lower.Reliable() ==> r.value.Ok?
      ensures !(r.Ready? && r.value.Ok?) ==> Idle() && Out() == old(Out())
      ensures r.Ready? && r.value.Ok? ==>
        && !lower.HasBuffer() && |r.value.value| == txOffset + PRE_CHUNK_OVERHEAD
        && lower.Wire() + r.value.value == old(Out()) + ZERO_PREFIX
      // what is asked for is room for the chunk with the size field, its tag and the chunk's tag
      ensures r.Ready? && r.value.Ok? && lower.ToIpStack? ==>
        && |r.value.value| + size + TAG_LEN <= lower.Capacity()
        && r.value.value == old(Retained(
          lower.Unsent(), lower.Capacity(), size + 2 * TAG_LEN + SIZE_LEN, lower.ip.script)) + ZERO_PREFIX
    {
      var poll := lower.PollTxBuffer(size + PRE_CHUNK_OVERHEAD + POST_CHUNK_OVERHEAD);
      match poll
      case Pending =>
        r := Pending;
      case Ready(Err(e)) =>
        r := Ready(Err(e));
      case Ready(Ok(buf)) =>
        txOffset := |buf|;
        assert lower.Wire() + (buf + ZERO_PREFIX) == lower.Wire() + buf + ZERO_PREFIX;
        r := Ready(Ok(buf + ZERO_PREFIX));
    }

    /** Seals what the client wrote behind the prefix; the bytes in front of it are not touched. */
    method CommitTxBuffer(buffer: Buffer)
      requires Valid() && !lower.HasBuffer() && !lower.Shut()
      requires txOffset + PRE_CHUNK_OVERHEAD <= |buffer|
      modifies lower.Half(), crypto`used, crypto.nonce
      ensures Valid() && Idle()
      ensures |crypto.used| == |old(crypto.used)| + 2
      ensures lower.Wire() == old(lower.Wire()) && lower.Pendings() == old(lower.Pendings())
      ensures lower.Unsent() == buffer[..txOffset] + Frame(crypto.cipher, crypto.key,
                |old(crypto.used)|, buffer[txOffset + PRE_CHUNK_OVERHEAD..])
    {
      var pre, chunk, post := crypto.Encrypt(buffer[txOffset + PRE_CHUNK_OVERHEAD..]);
      assert buffer[..txOffset] + pre + chunk + post == buffer[..txOffset] + (pre + chunk + post);
      lower.CommitTxBuffer(buffer[..txOffset] + pre + chunk + post);
    }
  }

  /** One client write: poll for room until ready, append the chunk, commit. Socket bytes and
      retained bytes together grow by exactly one whole frame, or by nothing on an error. */
  method WriteChunk(tx: TxHalf, chunk: seq<byte>) returns (r: Result<(), FlowError>)
    requires tx.Valid() && tx.Idle()
    modifies tx, tx.lower.Half(), tx.crypto`used, tx.crypto.nonce
    ensures tx.Valid() && tx.Idle()
    ensures r.Ok? ==>
      && |tx.crypto.used| == |old(tx.crypto.used)| + 2
      && tx.Out() == old(tx.Out())
        + Frame(tx.crypto.cipher, tx.crypto.key, |old(tx.crypto.used)|, chunk)
    ensures r.Err? ==> tx.Out() == old(tx.Out()) && tx.crypto.used == old(tx.crypto.used)
    ensures tx.lower.Reliable() ==> r.Ok?
  {
    ghost var out := tx.Out();
    while true
      invariant tx.Valid() && tx.Idle() && tx.Out() == out
      invariant tx.crypto.used == old(tx.crypto.used)
      decreases tx.lower.Pendings()
    {
      var poll := tx.PollTxBuffer(|chunk|);
      match poll
      case Pending =>
      case Ready(Err(e)) =>
        return Err(e);
      case Ready(Ok(buf)) =>
        FillAndCommit(tx, buf, chunk, out);
        return Ok(());
    }
  }

  // The client's part of a write: `buf` as `PollTxBuffer` handed it out, the chunk, the commit.
  method FillAndCommit(tx: TxHalf, buf: Buffer, chunk: seq<byte>, ghost out: seq<byte>)
    requires tx.Valid() && !tx.lower.HasBuffer() && !tx.lower.Shut()
    requires |buf| == tx.txOffset + PRE_CHUNK_OVERHEAD
    requires tx.lower.Wire() + buf == out + ZERO_PREFIX
    modifies tx.lower.Half(), tx.crypto`used, tx.crypto.nonce
    ensures tx.Valid() && tx.Idle()
    ensures |tx.crypto.used| == |old(tx.crypto.used)| + 2
    ensures tx.Out() == out + Frame(tx.crypto.cipher, tx.crypto.key, |old(tx.crypto.used)|, chunk)
  {
    ghost var frame := Frame(tx.crypto.cipher, tx.crypto.key, |tx.crypto.used|, chunk);
    ghost var sent, kept := tx.lower.Wire(), buf[..tx.txOffset];
    assert (buf + chunk)[tx.txOffset + PRE_CHUNK_OVERHEAD..] == chunk;
    assert (buf + chunk)[..tx.txOffset] == kept;
    CutPrefix(sent, kept, buf, out);
    tx.CommitTxBuffer(buf + chunk);
    assert sent + (kept + frame) == sent + kept + frame;
  }

  lemma CutPrefix(sent: seq<byte>, kept: seq<byte>, buf: seq<byte>, out: seq<byte>)
    requires |buf| == |kept| + PRE_CHUNK_OVERHEAD && kept == buf[..|kept|]
    requires sent + buf == out + ZERO_PREFIX
    ensures sent + kept == out
  {
    assert sent + kept == (sent + buf)[..|sent| + |kept|];
    assert out == (out + ZERO_PREFIX)[..|out|];
  }

  /** The wire always carries whole frames only: after any number of writes, accepted or refused,
      socket bytes and retained bytes are the frames of the chunks accepted so far; over a transport
      that does not fail all are accepted. */
  method WriteAll(tx: TxHalf, chunks: seq<seq<byte>>) returns (done: nat)
    requires tx.Valid() && tx.Idle()
    modifies tx, tx.lower.Half(), tx.crypto`used, tx.crypto.nonce
    ensures tx.Valid() && tx.Idle() && done <= |chunks|
    ensures tx.lower.Reliable() ==> done == |chunks|
    ensures |tx.crypto.used| == |old(tx.crypto.used)| + 2 * done
    ensures tx.Out() == old(tx.Out())
      + Frames(tx.crypto.cipher, tx.crypto.key, |old(tx.crypto.used)|, chunks[..done])
  {
    ghost var c, key, k, out := tx.crypto.cipher, tx.crypto.key, |tx.crypto.used|, tx.Out();
    done := 0;
    while done < |chunks|
      invariant tx.Valid() && tx.Idle() && done <= |chunks|
      invariant |tx.crypto.used| == k + 2 * done
      invariant tx.Out() == out + Frames(c, key, k, chunks[..done])
    {
      var r := WriteChunk(tx, chunks[done]);
      if r.Err? {
        return;
      }
      OneMoreFrame(c, key, k, chunks, done, out);
      done := done + 1;
    }
  }

  lemma OneMoreFrame(
      c: Cipher, key: seq<byte>, k: nat, chunks: seq<seq<byte>>, done: nat, out: seq<byte>)
    requires done < |chunks|
    ensures out + Frames(c, key, k, chunks[..done]) + Frame(c, key, k + 2 * done, chunks[done])
      == out + Frames(c, key, k, chunks[..done + 1])
  {
    FramesAppend(c, key, k, chunks[..done], chunks[done]);
    assert chunks[..done] + [chunks[done]] == chunks[..done + 1];
  }

  /** `get_req`: the IV and the sealed destination header with the initial data behind it. The
      session that is returned has made the two operations of that frame. */
  method GetReq(c: Cipher, master: seq<byte>, iv: seq<byte>, dest: Destination, initialData: seq<byte>)
    returns (req: seq<byte>, crypto: Session)
    requires |iv| == c.ivLen
    ensures crypto.Valid() && fresh(crypto) && fresh(crypto.nonce) && |crypto.used| == 2
    ensures crypto.cipher == c && crypto.key == c.subkey(master, iv)
    ensures req == iv + Frame(c, crypto.key, 0, WriteDest(dest) + initialData)
  {
    crypto := new Session(c, master, iv);
    var pre, chunk, post := crypto.Encrypt(WriteDest(dest) + initialData);
    req := iv + (pre + chunk + post);
  }
}
