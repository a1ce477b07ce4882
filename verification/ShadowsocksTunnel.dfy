// Both halves composed: what one end writes is what the other end reads.
module ShadowsocksTunnel {
  import opened Flow
  import opened Aead
  import opened Address
  import opened PipeSink
  import Tx = ShadowsocksTx
  import Rx = ShadowsocksRx

  /** A connection from its first request to a flushed transport: the wire is the IV and the frames
      of the header chunk and of every accepted chunk. None means the transport failed; if it does
      not, everything is accepted. */
  method Send(
      c: Cipher, master: seq<byte>, iv: seq<byte>, dest: Destination, initialData: seq<byte>,
      chunks: seq<seq<byte>>, transport: Sink)
    returns (wire: Option<seq<byte>>, accepted: nat)
    requires |iv| == c.ivLen && Unused(transport)
    modifies transport.Half()
    ensures accepted <= |chunks|
    ensures transport.Reliable() ==> wire.Some? && accepted == |chunks|
    ensures wire.Some? ==> wire.value == iv + Frames(c, c.subkey(master, iv), 0,
      [WriteDest(dest) + initialData] + chunks[..accepted])
  {
    var req, crypto := Tx.GetReq(c, master, iv, dest, initialData);
    var tx := new Tx.TxHalf(transport, crypto);
    var flushed;
    flushed, accepted := WriteAndFlush(tx, chunks);
    if !flushed {
      return None, accepted;
    }
    WholeWire(c, crypto.key, iv, WriteDest(dest) + initialData, chunks[..accepted]);
    wire := Some(req + tx.lower.Wire());
  }

  // A transport that has carried nothing yet.
  ghost predicate Unused(transport: Sink)
    reads transport.Half()
  {
    && transport.Valid() && transport.HasBuffer() && !transport.Shut()
    && transport.Wire() == [] == transport.Unsent()
  }

  // Over a fresh transport: all writes, then the flush.
  method WriteAndFlush(tx: Tx.TxHalf, chunks: seq<seq<byte>>) returns (ok: bool, accepted: nat)
    requires tx.Valid() && tx.Idle() && tx.Out() == []
    modifies tx, tx.lower.Half(), tx.crypto`used, tx.crypto.nonce
    ensures accepted <= |chunks|
    ensures tx.lower.Reliable() ==> ok && accepted == |chunks|
    ensures ok ==>
      var done := chunks[..accepted];
      tx.lower.Wire() == Frames(tx.crypto.cipher, tx.crypto.key, |old(tx.crypto.used)|, done)
  {
    ghost var c, key, k := tx.crypto.cipher, tx.crypto.key, |tx.crypto.used|;
    accepted := Tx.WriteAll(tx, chunks);
    assert tx.Out() == Frames(c, key, k, chunks[..accepted]);
    ok := Flush(tx);
  }

  /** What one end writes is what the other end reads, over any segmentation and delay: the header
      chunk and then every accepted chunk, unchanged, in order and one per buffer. Unless the
      transport fails, that is every chunk. */
  method Tunnel(
      c: Cipher, master: seq<byte>, iv: seq<byte>, dest: Destination, initialData: seq<byte>,
      chunks: seq<seq<byte>>, transport: Sink, pendings: nat)
    returns (got: Option<seq<seq<byte>>>, accepted: nat)
    requires |iv| == c.ivLen
    requires |WriteDest(dest) + initialData| <= MAX_CHUNK && Rx.LegalChunks(chunks)
    requires Unused(transport)
    modifies transport.Half()
    ensures accepted <= |chunks|
    ensures transport.Reliable() ==> got.Some? && accepted == |chunks|
    ensures got.Some? ==> got.value == [WriteDest(dest) + initialData] + chunks[..accepted]
  {
    var wire;
    wire, accepted := Send(c, master, iv, dest, initialData, chunks, transport);
    if wire.None? {
      return None, accepted;
    }
    ghost var all := [WriteDest(dest) + initialData] + chunks[..accepted];
    var received, _ := Rx.RoundTrip(c, master, iv, wire.value, all, pendings);
    got := Some(received);
  }

  lemma WholeWire(
      c: Cipher, key: seq<byte>, iv: seq<byte>, first: seq<byte>, chunks: seq<seq<byte>>)
    ensures iv + Frame(c, key, 0, first) + Frames(c, key, 2, chunks)
      == iv + Frames(c, key, 0, [first] + chunks)
  {
    assert ([first] + chunks)[1..] == chunks;
  }

  // `poll_fn(|cx| s.poll_flush_tx(cx)).await`
  method Flush(tx: Tx.TxHalf) returns (ok: bool)
    requires tx.Valid() && tx.Idle()
    modifies tx.lower.Half()
    ensures tx.Valid() && tx.Idle() && tx.Out() == old(tx.Out())
    ensures ok ==> tx.lower.Wire() == old(tx.Out())
    ensures tx.lower.Reliable() ==> ok
  {
    ghost var out := tx.Out();
    while true
      invariant tx.Valid() && tx.Idle() && tx.Out() == out
      decreases tx.lower.Pendings()
    {
      var poll := tx.lower.PollFlushTx();
      match poll
      case Pending =>
      case Ready(Err(_)) =>
        return false;
      case Ready(Ok(_)) =>
        assert tx.lower.Wire() + [] == tx.lower.Wire();
        return true;
    }
  }
}
