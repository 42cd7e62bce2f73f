/** Bytes and words of memory. */
module Bytes {

  type Word32 = x: nat | x < 0x1_0000_0000

  function Rotl(n: nat, x: bv32): bv32
    requires n <= 32
  {
    (x << n) | (x >> (32 - n))
  }

  /** The word a big-endian load finds at four bytes of memory. */
  function LoadBe(b0: bv8, b1: bv8, b2: bv8, b3: bv8): bv32 {
    (b0 as bv32 << 24) | (b1 as bv32 << 16) | (b2 as bv32 << 8) | b3 as bv32
  }

  /** The word a little-endian load finds there. */
  function LoadLe(b0: bv8, b1: bv8, b2: bv8, b3: bv8): bv32 {
    b0 as bv32 | (b1 as bv32 << 8) | (b2 as bv32 << 16) | (b3 as bv32 << 24)
  }

  /** A number stored in a signed 32-bit int, modulo 2^32. */
  function Int32(x: int): int {
    (x + 0x8000_0000) % 0x1_0000_0000 - 0x8000_0000
  }

  function ZeroBytes(n: nat): (z: seq<bv8>)
    ensures |z| == n
  {
    seq(n, _ => 0)
  }

  /** Copies bytes into a buffer (memcpy, strcpy and strncpy). */
  method Put(a: array<bv8>, at: nat, d: seq<bv8>)
    requires at + |d| <= a.Length
    modifies a
    ensures a[..] == old(a[..])[..at] + d + old(a[..])[at + |d|..]
  {
    forall k | at <= k < at + |d| {
      a[k] := d[k - at];
    }
  }

  /** The same, for a string that is written from its start on. */
  method PutNext(a: array<bv8>, at: nat, d: seq<bv8>)
    requires at + |d| <= a.Length
    modifies a
    ensures a[..at + |d|] == old(a[..at]) + d
  {
    ghost var s := a[..];
    Put(a, at, d);
    assert a[..at + |d|] == a[..][..at + |d|] && s[..at] == old(a[..at]);
    Front(s[..at], d, s[at + |d|..]);
  }

  lemma Front(a: seq<bv8>, b: seq<bv8>, c: seq<bv8>)
    ensures (a + b + c)[..|a| + |b|] == a + b
  {}
}
