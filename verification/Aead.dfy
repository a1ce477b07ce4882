// The AEAD session of one direction: a derived key, a counter nonce and the frame format.
module Aead {
  import opened Flow
  import opened Nonce

  const TAG_LEN := 16
  const SIZE_LEN := 2
  const PRE_CHUNK_OVERHEAD := SIZE_LEN + TAG_LEN
  const POST_CHUNK_OVERHEAD := TAG_LEN
  const MAX_CHUNK := 0x3fff

  /** An AEAD primitive and its key derivation: `seal` and `open` take a key and a nonce. */
  datatype Primitive = Primitive(
    ivLen: nat,
    nonceLen: nat,
    subkey: (seq<byte>, seq<byte>) -> seq<byte>,
    seal: (seq<byte>, seq<byte>, seq<byte>) -> (seq<byte>, seq<byte>),
    open: (seq<byte>, seq<byte>, seq<byte>, seq<byte>) -> Option<seq<byte>>)

  /** What is assumed of the ciphers: sealing works in place and appends a 16-byte tag, and opening
      accepts exactly what sealing under the same key and nonce produces. */
  ghost predicate Lawful(c: Primitive) {
    && c.nonceLen > 0
    && (forall k, n, p :: SealLaw(c, k, n, p))
    && (forall k, n, ct, tag :: OpenLaw(c, k, n, ct, tag))
  }

  ghost predicate SealLaw(c: Primitive, k: seq<byte>, n: seq<byte>, p: seq<byte>) {
    var (ct, tag) := c.seal(k, n, p);
    |ct| == |p| && |tag| == TAG_LEN && c.open(k, n, ct, tag) == Some(p)
  }

  ghost predicate OpenLaw(
      c: Primitive, k: seq<byte>, n: seq<byte>, ct: seq<byte>, tag: seq<byte>) {
    c.open(k, n, ct, tag).Some? ==> c.seal(k, n, c.open(k, n, ct, tag).value) == (ct, tag)
  }

  const NULL_TAG: seq<byte> := seq(TAG_LEN, _ => 0)

  // Shows that the assumptions can be met; no property depends on it.
  const NULL_CIPHER: Primitive := Primitive(
    0, 1, (key, iv) => key, (k, n, p) => (p, NULL_TAG),
    (k, n, ct, tag) => if tag == NULL_TAG then Some(ct) else None)

  type Cipher = c: Primitive | Lawful(c) witness NULL_CIPHER

  // Two bytes, big-endian, of the length cast to 16 bits.
  function SizeField(len: nat): seq<byte> {
    [len / 256 % 256, len % 256]
  }

  function Sealed(c: Cipher, key: seq<byte>, k: nat, p: seq<byte>): (r: seq<byte>)
    ensures |r| == |p| + TAG_LEN
  {
    assert SealLaw(c, key, NonceAt(c.nonceLen, k), p);
    var (ct, tag) := c.seal(key, NonceAt(c.nonceLen, k), p);
    ct + tag
  }

  function Opened(c: Cipher, key: seq<byte>, k: nat, s: seq<byte>): (r: Option<seq<byte>>)
    requires |s| >= TAG_LEN
    ensures r.Some? ==> s == Sealed(c, key, k, r.value)
  {
    var cut := |s| - TAG_LEN;
    assert OpenLaw(c, key, NonceAt(c.nonceLen, k), s[..cut], s[cut..]);
    c.open(key, NonceAt(c.nonceLen, k), s[..cut], s[cut..])
  }

  // The chunk length a sealed size field announces: 14 bits, and zero is refused.
  function OpenedSize(c: Cipher, key: seq<byte>, k: nat, pre: seq<byte>): (r: Option<nat>)
    requires |pre| == PRE_CHUNK_OVERHEAD
    ensures r.Some? ==> 0 < r.value <= MAX_CHUNK
  {
    match Opened(c, key, k, pre)
    case None => None
    case Some(field) =>
      var size := (field[0] * 256 + field[1]) % (MAX_CHUNK + 1);
      if size == 0 then None else Some(size)
  }

  // The frame of chunk `p` whose size field is sealed by operation `k` and whose data by `k + 1`.
  function Frame(c: Cipher, key: seq<byte>, k: nat, p: seq<byte>): seq<byte> {
    Sealed(c, key, k, SizeField(|p|)) + Sealed(c, key, k + 1, p)
  }

  function Frames(c: Cipher, key: seq<byte>, k: nat, chunks: seq<seq<byte>>): seq<byte>
    decreases |chunks|
  {
    if chunks == [] then []
    else Frame(c, key, k, chunks[0]) + Frames(c, key, k + 2, chunks[1..])
  }

  lemma OpenedSealed(c: Cipher, key: seq<byte>, k: nat, p: seq<byte>)
    ensures Opened(c, key, k, Sealed(c, key, k, p)) == Some(p)
  {
    assert SealLaw(c, key, NonceAt(c.nonceLen, k), p);
    var (ct, tag) := c.seal(key, NonceAt(c.nonceLen, k), p);
    assert (ct + tag)[..|p|] == ct && (ct + tag)[|p|..] == tag;
  }

  // Some plaintext seals to these bytes.
  ghost predicate IsSealed(c: Cipher, key: seq<byte>, k: nat, s: seq<byte>) {
    exists p :: Sealed(c, key, k, p) == s
  }

  /** Exactly what was sealed under the key and the operation's nonce opens. */
  lemma OpensIffSealed(c: Cipher, key: seq<byte>, k: nat, s: seq<byte>)
    requires |s| >= TAG_LEN
    ensures Opened(c, key, k, s).Some? <==> IsSealed(c, key, k, s)
  {
    if p :| Sealed(c, key, k, p) == s {
      OpenedSealed(c, key, k, p);
    }
  }

  /** A size field is the length in two bytes, the high one first. */
  lemma SizeFieldBytes(high: byte, low: byte)
    ensures SizeField(high as int * 256 + low as int) == [high, low]
  {
  }

  /** A frame on the wire: the sealed size field with its tag, then the sealed chunk with its tag,
      under consecutive nonces. */
  lemma FrameOnWire(c: Cipher, key: seq<byte>, k: nat, p: seq<byte>)
    ensures
      var (size, sizeTag) := c.seal(key, NonceAt(c.nonceLen, k), SizeField(|p|));
      var (text, tag) := c.seal(key, NonceAt(c.nonceLen, k + 1), p);
      Frame(c, key, k, p) == size + sizeTag + text + tag
  {
    var (size, sizeTag) := c.seal(key, NonceAt(c.nonceLen, k), SizeField(|p|));
    var (text, tag) := c.seal(key, NonceAt(c.nonceLen, k + 1), p);
    Regroup(size + sizeTag, text, tag);
  }

  /** The size field survives the trip exactly for the chunk lengths the format allows. */
  lemma SizeFieldRoundTripIff(c: Cipher, key: seq<byte>, k: nat, len: nat)
    ensures OpenedSize(c, key, k, Sealed(c, key, k, SizeField(len))) == Some(len)
      <==> 1 <= len <= MAX_CHUNK
  {
    OpenedSealed(c, key, k, SizeField(len));
    MaskedLength(len);
  }

  lemma MaskedLength(len: nat)
    ensures (len / 256 % 256 * 256 + len % 256) % (MAX_CHUNK + 1) == len % (MAX_CHUNK + 1)
  {
    TwoBytes(len);
    MaskDropsMultiples(len % 0x1_0000, len / 0x1_0000);
  }

  lemma TwoBytes(len: nat)
    ensures len / 256 % 256 * 256 + len % 256 == len % 0x1_0000
  {
    assert len / 256 == 256 * (len / 0x1_0000) + len / 256 % 256;
  }

  lemma MaskDropsMultiples(low: nat, high: nat)
    ensures (low + 0x1_0000 * high) % (MAX_CHUNK + 1) == low % (MAX_CHUNK + 1)
  {
    var q, r := low / (MAX_CHUNK + 1), low % (MAX_CHUNK + 1);
    assert low + 0x1_0000 * high == (MAX_CHUNK + 1) * (q + 4 * high) + r;
  }

  lemma {:induction false} FramesAppend(
      c: Cipher, key: seq<byte>, k: nat, chunks: seq<seq<byte>>, p: seq<byte>)
    ensures Frames(c, key, k, chunks + [p])
      == Frames(c, key, k, chunks) + Frame(c, key, k + 2 * |chunks|, p)
    decreases |chunks|
  {
    if chunks == [] {
      assert Frames(c, key, k, [p]) == Frame(c, key, k, p) + Frames(c, key, k + 2, []);
    } else {
      FramesAppend(c, key, k + 2, chunks[1..], p);
      assert (chunks + [p])[1..] == chunks[1..] + [p];
    }
  }

  /** `RustCryptoAead`. The ghost log `used` holds the nonce of every completed operation. */
  class Session {
    const cipher: Cipher
    const key: seq<byte>
    const nonce: array<byte>
    ghost var used: seq<seq<byte>>

    ghost predicate Valid()
      reads this, nonce
    {
      && nonce.Length == cipher.nonceLen
      && nonce[..] == NonceAt(cipher.nonceLen, |used|)
      && forall i :: 0 <= i < |used| ==> used[i] == NonceAt(cipher.nonceLen, i)
    }

    constructor (cipher: Cipher, master: seq<byte>, iv: seq<byte>)
      ensures Valid() && fresh(nonce) && used == []
      ensures this.cipher == cipher && key == cipher.subkey(master, iv)
    {
      this.cipher, key, used := cipher, cipher.subkey(master, iv), [];
      nonce := new byte[cipher.nonceLen](_ => 0);
      new;
      assert nonce[..] == NonceAt(cipher.nonceLen, 0);
    }

    method Bump()
      requires Valid()
      modifies this`used, nonce
      ensures Valid() && used == old(used) + [old(nonce[..])]
    {
      used := used + [nonce[..]];
      IncreaseNumBuf(nonce);
    }

    method Encrypt(data: seq<byte>)
      returns (pre: seq<byte>, chunk: seq<byte>, post: seq<byte>)
      requires Valid()
      modifies this`used, nonce
      ensures Valid() && |used| == |old(used)| + 2 && old(used) <= used
      ensures |pre| == PRE_CHUNK_OVERHEAD && |chunk| == |data| && |post| == POST_CHUNK_OVERHEAD
      ensures pre + chunk + post == Frame(cipher, key, |old(used)|, data)
    {
      assert SealLaw(cipher, key, nonce[..], SizeField(|data|));
      var (sizeText, sizeTag) := cipher.seal(key, nonce[..], SizeField(|data|));
      pre := sizeText + sizeTag;
      Bump();
      assert SealLaw(cipher, key, nonce[..], data);
      var (text, tag) := cipher.seal(key, nonce[..], data);
      chunk, post := text, tag;
      Bump();
    }

    method EncryptAll(data: seq<byte>) returns (chunk: seq<byte>, post: seq<byte>)
      requires Valid()
      modifies this`used, nonce
      ensures Valid() && |used| == |old(used)| + 1 && old(used) <= used
      ensures |chunk| == |data| && |post| == POST_CHUNK_OVERHEAD
      ensures chunk + post == Sealed(cipher, key, |old(used)|, data)
    {
      assert SealLaw(cipher, key, nonce[..], data);
      var (text, tag) := cipher.seal(key, nonce[..], data);
      chunk, post := text, tag;
      Bump();
    }

    /** A size field that does not authenticate leaves the nonce where it was. */
    method DecryptSize(pre: seq<byte>) returns (r: Option<nat>)
      requires Valid() && |pre| == PRE_CHUNK_OVERHEAD
      modifies this`used, nonce
      ensures Valid() && old(used) <= used
      ensures r == OpenedSize(cipher, key, |old(used)|, pre)
      ensures |used| == |old(used)| + if Opened(cipher, key, |old(used)|, pre).Some? then 1 else 0
    {
      var field := cipher.open(key, nonce[..], pre[..SIZE_LEN], pre[SIZE_LEN..]);
      assert field == Opened(cipher, key, |used|, pre);
      if field.None? {
        return None;
      }
      Bump();
      var size := (field.value[0] * 256 + field.value[1]) % (MAX_CHUNK + 1);
      r := if size == 0 then None else Some(size);
    }

    /** The nonce advances whether or not the data authenticates. */
    method Decrypt(data: seq<byte>, post: seq<byte>) returns (r: Option<seq<byte>>)
      requires Valid() && |post| == POST_CHUNK_OVERHEAD
      modifies this`used, nonce
      ensures Valid() && |used| == |old(used)| + 1 && old(used) <= used
      ensures r == Opened(cipher, key, |old(used)|, data + post)
      ensures r.Some? ==> |r.value| == |data|
    {
      r := cipher.open(key, nonce[..], data, post);
      assert OpenLaw(cipher, key, nonce[..], data, post);
      if r.Some? {
        assert SealLaw(cipher, key, nonce[..], r.value);
      }
      assert (data + post)[..|data|] == data && (data + post)[|data|..] == post;
      Bump();
    }
  }

  /** No two operations of one session ever share a nonce while fewer than 256^nonceLen were made. */
  lemma SessionNoncesDistinct(s: Session)
    requires s.Valid() && |s.used| <= Pow256(s.cipher.nonceLen)
    ensures forall i, j :: 0 <= i < j < |s.used| ==> s.used[i] != s.used[j]
    ensures |s.used| < Pow256(s.cipher.nonceLen) ==> s.nonce[..] !in s.used
  {
    var n := s.cipher.nonceLen;
    forall i, j | 0 <= i < j < |s.used| ensures s.used[i] != s.used[j] {
      DistinctBelowWrap(n, i, j);
    }
    if |s.used| < Pow256(n) && s.nonce[..] in s.used {
      var i :| 0 <= i < |s.used| && s.used[i] == s.nonce[..];
      DistinctBelowWrap(n, i, |s.used|);
    }
  }

  lemma DistinctBelowWrap(size: nat, i: nat, j: nat)
    requires i < j < Pow256(size)
    ensures NonceAt(size, i) != NonceAt(size, j)
  {
    NoncesEqualIff(size, i, j);
    ModuloUnique(i, Pow256(size), 0, i);
    ModuloUnique(j, Pow256(size), 0, j);
  }
}
