/** Byte strings, 32-byte words and big-endian numbers, shared by the oracle node's codecs. */
module Bytes {

  type byte = b: int | 0 <= b < 256

  const WORD_BYTES: nat := 32

  // usize and u64 on the 64-bit targets of the node.
  const TWO_64: nat := 0x1_0000_0000_0000_0000

  const TWO_248: nat := 0x1_00_00_00_00_00_00_00_00_00_00_00_00_00_00_00_00_00_00_00_00_00_00_00_00_00_00_00_00_00_00_00

  function Zeros(n: nat): (z: seq<byte>)
    ensures |z| == n
    ensures forall i :: 0 <= i < n ==> z[i] == 0
  {
    seq(n, _ => 0 as byte)
  }

  type Word = w: seq<byte> | |w| == WORD_BYTES witness Zeros(WORD_BYTES)

  function Pow256(n: nat): (p: nat)
    ensures p > 0
  {
    if n == 0 then 1 else 256 * Pow256(n - 1)
  }

  lemma Pow256Values()
    ensures Pow256(8) == TWO_64
    ensures Pow256(16) == 0x1_0000_0000_0000_0000_0000_0000_0000_0000
    ensures Pow256(31) == TWO_248
    ensures Pow256(32) == 256 * Pow256(31)
  {
    Pow256Step(8, 8);
    Pow256Step(16, 8);
    Pow256Step(24, 7);
  }

  lemma {:induction false} Pow256Step(a: nat, b: nat)
    ensures Pow256(a + b) == Pow256(a) * Pow256(b)
  {
    if b > 0 {
      Pow256Step(a, b - 1);
    }
  }

  lemma {:induction false} Pow256Monotone(a: nat, b: nat)
    requires a <= b
    ensures Pow256(a) <= Pow256(b)
  {
    if a < b {
      Pow256Monotone(a, b - 1);
    }
  }

  /** The `n` low-order bytes of `v`, most significant first. */
  function ToBytes(v: nat, n: nat): (b: seq<byte>)
    ensures |b| == n
  {
    if n == 0 then [] else ToBytes(v / 256, n - 1) + [v % 256]
  }

  function FromBytes(b: seq<byte>): nat {
    if b == [] then 0 else FromBytes(b[..|b| - 1]) * 256 + b[|b| - 1]
  }

  lemma {:induction false} FromBytesBound(b: seq<byte>)
    ensures FromBytes(b) < Pow256(|b|)
  {
    if b != [] {
      FromBytesBound(b[..|b| - 1]);
    }
  }

  lemma {:induction false} FromToBytes(v: nat, n: nat)
    requires v < Pow256(n)
    ensures FromBytes(ToBytes(v, n)) == v
  {
    if n > 0 {
      FromToBytes(v / 256, n - 1);
      assert ToBytes(v, n)[..n - 1] == ToBytes(v / 256, n - 1);
    }
  }

  lemma {:induction false} ToFromBytes(b: seq<byte>)
    ensures ToBytes(FromBytes(b), |b|) == b
  {
    if b != [] {
      ToFromBytes(b[..|b| - 1]);
      assert b == b[..|b| - 1] + [b[|b| - 1]];
    }
  }

  lemma {:induction false} FromBytesLeadingZeros(k: nat, b: seq<byte>)
    ensures FromBytes(Zeros(k) + b) == FromBytes(b)
  {
    if b != [] {
      FromBytesLeadingZeros(k, b[..|b| - 1]);
      assert (Zeros(k) + b)[..k + |b| - 1] == Zeros(k) + b[..|b| - 1];
    } else {
      assert Zeros(k) + b == Zeros(k);
      FromZeros(k);
    }
  }

  lemma {:induction false} FromZeros(k: nat)
    ensures FromBytes(Zeros(k)) == 0
  {
    if k > 0 {
      FromZeros(k - 1);
      assert Zeros(k)[..k - 1] == Zeros(k - 1);
    }
  }

  lemma SliceLeft(a: seq<byte>, b: seq<byte>, lo: nat, hi: nat)
    requires lo <= hi <= |a|
    ensures (a + b)[lo..hi] == a[lo..hi]
  {
  }

  lemma SliceRight(a: seq<byte>, b: seq<byte>, lo: nat, hi: nat)
    requires lo <= hi <= |b|
    ensures (a + b)[|a| + lo..|a| + hi] == b[lo..hi]
  {
  }

  lemma SliceOfSlice(s: seq<byte>, at: nat, end: nat, lo: nat, hi: nat)
    requires at <= end <= |s| && lo <= hi <= end - at
    ensures s[at..end][lo..hi] == s[at + lo..at + hi]
  {
    forall k | 0 <= k < hi - lo
      ensures s[at..end][lo..hi][k] == s[at + lo..at + hi][k]
    {
      assert s[at..end][lo..hi][k] == s[at..end][lo + k] == s[at + lo + k];
    }
  }
}
