// The little-endian counter nonce of the AEAD layer.
module Nonce {
  import opened Flow

  function Pow256(n: nat): (p: nat)
    ensures p > 0
  {
    if n == 0 then 1 else 256 * Pow256(n - 1)
  }

  // The number a little-endian byte string denotes.
  function LittleEndian(s: seq<byte>): (v: nat)
    ensures v < Pow256(|s|)
  {
    if s == [] then 0 else s[0] + 256 * LittleEndian(s[1..])
  }

  function AddCarry(s: seq<byte>, c: nat): (r: seq<byte>)
    ensures |r| == |s|
  {
    if s == [] then [] else [(s[0] + c) % 256] + AddCarry(s[1..], (s[0] + c) / 256)
  }

  // The nonce of operation number `k`, counting from the all-zero nonce of a fresh session.
  function NonceAt(size: nat, k: nat): (r: seq<byte>)
    ensures |r| == size
  {
    if k == 0 then seq(size, _ => 0) else AddCarry(NonceAt(size, k - 1), 1)
  }

  lemma {:induction false} AddCarryAddsOnce(s: seq<byte>, c: nat)
    requires c <= 1
    ensures LittleEndian(AddCarry(s, c)) == (LittleEndian(s) + c) % Pow256(|s|)
  {
    CarryOut(s, c);
    var sum, p := LittleEndian(s) + c, Pow256(|s|);
    if sum < p {
      ModuloUnique(sum, p, 0, sum);
    } else {
      ModuloUnique(sum, p, 1, 0);
    }
  }

  lemma {:induction false} CarryOut(s: seq<byte>, c: nat)
    requires c <= 1
    ensures var sum := LittleEndian(s) + c; var p := Pow256(|s|);
      LittleEndian(AddCarry(s, c)) == if sum < p then sum else sum - p
    ensures LittleEndian(s) + c <= Pow256(|s|)
  {
    if s != [] {
      CarryOut(s[1..], (s[0] + c) / 256);
      assert AddCarry(s, c)[1..] == AddCarry(s[1..], (s[0] + c) / 256);
    }
  }

  lemma {:induction false} NonceValue(size: nat, k: nat)
    ensures LittleEndian(NonceAt(size, k)) == k % Pow256(size)
  {
    var p := Pow256(size);
    if k == 0 {
      ZeroValue(size);
      ModuloUnique(0, p, 0, 0);
    } else {
      NonceValue(size, k - 1);
      CarryOut(NonceAt(size, k - 1), 1);
      StepModulo(k - 1, p);
    }
  }

  lemma {:induction false} ZeroValue(size: nat)
    ensures LittleEndian(seq(size, _ => 0)) == 0
  {
    if size > 0 {
      assert seq<byte>(size, _ => 0)[1..] == seq<byte>(size - 1, _ => 0);
      ZeroValue(size - 1);
    }
  }

  lemma ModuloUnique(a: int, p: nat, q: int, r: nat)
    requires r < p && a == p * q + r
    ensures a % p == r && a / p == q
  {
    var d := a / p - q;
    assert p * d == p * (a / p) - p * q;
    assert p * d == r - a % p;
    MultipleNearZero(p, d);
  }

  lemma MultipleNearZero(p: int, d: int)
    requires 0 - p < p * d < p
    ensures d == 0
  {
    if d > 0 {
      MultipleAtLeast(p, d);
    } else if d < 0 {
      assert p * (0 - d) == 0 - p * d;
      MultipleAtLeast(p, 0 - d);
    }
  }

  lemma {:induction false} MultipleAtLeast(p: int, d: int)
    requires p > 0 && d > 0
    ensures p * d >= p
  {
    if d > 1 {
      MultipleAtLeast(p, d - 1);
      assert p * d == p * (d - 1) + p;
    }
  }

  lemma StepModulo(a: nat, p: nat)
    requires p > 0
    ensures if a % p + 1 < p then (a + 1) % p == a % p + 1 else (a + 1) % p == 0
  {
    var q, r := a / p, a % p;
    if r + 1 < p {
      ModuloUnique(a + 1, p, q, r + 1);
    } else {
      assert p * (q + 1) == p * q + p;
      ModuloUnique(a + 1, p, q + 1, 0);
    }
  }

  /** Two operations share a nonce exactly when their numbers are congruent modulo 256^size; so a
      session never repeats one before the counter wraps. */
  lemma NoncesEqualIff(size: nat, i: nat, j: nat)
    ensures NonceAt(size, i) == NonceAt(size, j) <==> i % Pow256(size) == j % Pow256(size)
  {
    NonceValue(size, i);
    NonceValue(size, j);
    if i % Pow256(size) == j % Pow256(size) {
      SameValueSameBytes(NonceAt(size, i), NonceAt(size, j));
    }
  }

  /** The counter starts at its first byte: the nonces of the first 256 operations. */
  lemma {:induction false} FirstNonces(size: nat, k: nat)
    requires size > 0 && k < 256
    ensures NonceAt(size, k) == [k] + seq(size - 1, _ => 0)
  {
    if k == 0 {
      assert NonceAt(size, 0) == seq(size, _ => 0);
    } else {
      var before := NonceAt(size, k - 1);
      FirstNonces(size, k - 1);
      assert before[0] == k - 1 && before[1..] == seq(size - 1, _ => 0);
      NoCarry(before[1..]);
      assert NonceAt(size, k) == [k] + before[1..];
    }
  }

  lemma {:induction false} NoCarry(s: seq<byte>)
    ensures AddCarry(s, 0) == s
  {
    if s != [] {
      NoCarry(s[1..]);
      assert s == [s[0]] + s[1..];
    }
  }

  lemma {:induction false} SameValueSameBytes(s: seq<byte>, t: seq<byte>)
    requires |s| == |t| && LittleEndian(s) == LittleEndian(t)
    ensures s == t
  {
    if s != [] {
      assert s[0] == t[0];
      SameValueSameBytes(s[1..], t[1..]);
      assert s == [s[0]] + s[1..] && t == [t[0]] + t[1..];
    }
  }

  /** Adds one in place. `c` is the source's 16-bit carry word, which never exceeds 256. */
  method IncreaseNumBuf(buf: array<byte>)
    requires buf.Length > 0
    modifies buf
    ensures buf[..] == AddCarry(old(buf[..]), 1)
    ensures LittleEndian(buf[..]) == (LittleEndian(old(buf[..])) + 1) % Pow256(buf.Length)
  {
    ghost var was := buf[..];
    var c: nat := buf[0] as int + 1;
    buf[0] := c % 256;
    c := c / 256;
    var n := 1;
    ghost var done := buf[..n];
    while n < buf.Length
      invariant 1 <= n <= buf.Length && c <= 1
      invariant buf[..n] == done && buf[n..] == was[n..]
      invariant AddCarry(was, 1) == done + AddCarry(was[n..], c)
    {
      assert was[n] == buf[n..][0];
      CarryStep(done, was[n..], c);
      assert was[n..][1..] == was[n + 1..];
      c := c + buf[n];
      assert c <= 256;
      buf[n] := c % 256;
      done := done + [buf[n]];
      c := c / 256;
      n := n + 1;
    }
    assert buf[..n] == buf[..];
    AddCarryAddsOnce(was, 1);
  }

  lemma CarryStep(done: seq<byte>, s: seq<byte>, c: nat)
    requires s != []
    ensures done + AddCarry(s, c)
      == done + [(s[0] + c) % 256] + AddCarry(s[1..], (s[0] + c) / 256)
  {
  }
}
