// Shadowsocks datagrams: each packet is sealed on its own, under its own IV.
module ShadowsocksDatagram {
  import opened Flow
  import opened Aead
  import opened Address

  // The packet `send_to` hands to the lower session, for the IV it drew.
  function SealPacket(
      c: Cipher, master: seq<byte>, iv: seq<byte>, dest: Destination, payload: seq<byte>): seq<byte>
  {
    iv + Sealed(c, c.subkey(master, iv), 0, WriteDest(dest) + payload)
  }

  // What `poll_recv_from` makes of a packet; None ends the session.
  function OpenPacket(c: Cipher, master: seq<byte>, packet: seq<byte>, norm: Normalise)
    : Option<(Destination, seq<byte>)>
  {
    if |packet| <= c.ivLen + POST_CHUNK_OVERHEAD then None else
    var iv, sealed := packet[..c.ivLen], packet[c.ivLen..];
    match Opened(c, c.subkey(master, iv), 0, sealed)
    case None => None
    case Some(plain) =>
      match ParseDest(plain, norm)
      case None => None
      case Some((dest, header)) => Some((dest, plain[header..]))
  }

  /** A packet comes back with the normalised destination and the payload, for any IV. */
  lemma PacketRoundTrip(
      c: Cipher, master: seq<byte>, iv: seq<byte>, dest: Destination, payload: seq<byte>,
      norm: Normalise)
    requires |iv| == c.ivLen && FitsLength(dest)
    ensures OpenPacket(c, master, SealPacket(c, master, iv, dest, payload), norm)
      == match Normalised(dest, norm)
         case None => None
         case Some(d) => Some((d, payload))
  {
    var plain := WriteDest(dest) + payload;
    var packet := SealPacket(c, master, iv, dest, payload);
    assert packet[..c.ivLen] == iv;
    assert packet[c.ivLen..] == Sealed(c, c.subkey(master, iv), 0, plain);
    OpenedSealed(c, c.subkey(master, iv), 0, plain);
    ParseWritten(dest, payload, norm);
    assert plain[|WriteDest(dest)|..] == payload;
  }

  /** Nothing is delivered that was not sealed under the session key of its own IV: header and
      payload are the sealed plaintext. */
  lemma DeliveredWasSealed(c: Cipher, master: seq<byte>, packet: seq<byte>, norm: Normalise)
    requires OpenPacket(c, master, packet, norm).Some?
    ensures var (dest, payload) := OpenPacket(c, master, packet, norm).value;
      exists header :: ParseDest(header + payload, norm) == Some((dest, |header|))
        && packet == packet[..c.ivLen]
          + Sealed(c, c.subkey(master, packet[..c.ivLen]), 0, header + payload)
  {
    var iv, sealed := packet[..c.ivLen], packet[c.ivLen..];
    var plain := Opened(c, c.subkey(master, iv), 0, sealed).value;
    var n := ParseDest(plain, norm).value.1;
    assert plain == plain[..n] + plain[n..] && |plain[..n]| == n;
    assert packet == iv + Sealed(c, c.subkey(master, iv), 0, plain[..n] + plain[n..]);
  }

  /** The session: sealed packets leave through `sent`, one IV each. */
  class Session {
    const cipher: Cipher
    const master: seq<byte>
    var sent: seq<(Destination, Buffer)>

    constructor (cipher: Cipher, master: seq<byte>)
      ensures this.cipher == cipher && this.master == master && sent == []
    {
      this.cipher, this.master, sent := cipher, master, [];
    }

    method SendTo(remotePeer: Destination, buf: Buffer, iv: seq<byte>)
      requires |iv| == cipher.ivLen
      modifies this`sent
      ensures sent == old(sent) + [(remotePeer, SealPacket(cipher, master, iv, remotePeer, buf))]
    {
      var crypto := new Aead.Session(cipher, master, iv);
      var chunk, post := crypto.EncryptAll(WriteDest(remotePeer) + buf);
      assert iv + chunk + post == iv + (chunk + post);
      sent := sent + [(remotePeer, iv + chunk + post)];
    }

    method Receive(packet: Buffer, norm: Normalise) returns (r: Option<(Destination, Buffer)>)
      ensures r == OpenPacket(cipher, master, packet, norm)
    {
      if |packet| <= cipher.ivLen + POST_CHUNK_OVERHEAD {
        return None;
      }
      var iv, rem := packet[..cipher.ivLen], packet[cipher.ivLen..];
      var cut := |rem| - POST_CHUNK_OVERHEAD;
      var crypto := new Aead.Session(cipher, master, iv);
      assert rem[..cut] + rem[cut..] == rem;
      var payload := crypto.Decrypt(rem[..cut], rem[cut..]);
      if payload.None? {
        return None;
      }
      var dest := ParseDest(payload.value, norm);
      if dest.None? {
        return None;
      }
      // the IV and the header are drained from the front, the tag is cut off the end
      r := Some((dest.value.0, payload.value[dest.value.1..]));
    }
  }
}
