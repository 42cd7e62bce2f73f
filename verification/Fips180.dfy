/** SHA-1 as section 6.1 of FIPS 180-4 defines it. */
module Fips180 {
  import opened Bytes
  import opened BlockHash

  datatype Vars = Vars(a: bv32, b: bv32, c: bv32, d: bv32, e: bv32)

  const H0: Vars := Vars(0x67452301, 0xEFCDAB89, 0x98BADCFE, 0x10325476, 0xC3D2E1F0)

  function Ch(x: bv32, y: bv32, z: bv32): bv32 { (x & y) ^ (!x & z) }
  function Parity(x: bv32, y: bv32, z: bv32): bv32 { x ^ y ^ z }
  function Maj(x: bv32, y: bv32, z: bv32): bv32 { (x & y) ^ (x & z) ^ (y & z) }

  function F(t: nat, x: bv32, y: bv32, z: bv32): bv32 {
    if t < 20 then Ch(x, y, z) else if t < 40 then Parity(x, y, z) else if t < 60 then Maj(x, y, z) else Parity(x, y, z)
  }

  function K(t: nat): bv32 {
    if t < 20 then 0x5A827999 else if t < 40 then 0x6ED9EBA1 else if t < 60 then 0x8F1BBCDC else 0xCA62C1D6
  }

  /** Word t of a block, big-endian. */
  function Word(block: seq<bv8>, t: nat): bv32
    requires |block| == 64 && t < 16
  {
    LoadBe(block[4 * t], block[4 * t + 1], block[4 * t + 2], block[4 * t + 3])
  }

  function Xor4(x0: bv32, x1: bv32, x2: bv32, x3: bv32): bv32 { x0 ^ x1 ^ x2 ^ x3 }

  /** The message schedule. */
  function W(block: seq<bv8>, t: nat): bv32
    requires |block| == 64
  {
    if t < 16 then Word(block, t)
    else Rotl(1, Xor4(W(block, t - 3), W(block, t - 8), W(block, t - 14), W(block, t - 16)))
  }

  /** The assignment to T in step 3 of section 6.1.2. */
  function Temp(t: nat, v: Vars, w: bv32): bv32 {
    Sum(Rotl(5, v.a), F(t, v.b, v.c, v.d), v.e, K(t), w)
  }

  function Sum(x0: bv32, x1: bv32, x2: bv32, x3: bv32, x4: bv32): bv32 { x0 + x1 + x2 + x3 + x4 }

  function Round(v: Vars, t: nat, w: bv32): Vars {
    Vars(Temp(t, v, w), v.a, Rotl(30, v.b), v.c, v.d)
  }

  function Rounds(h: Vars, block: seq<bv8>, t: nat): Vars
    requires |block| == 64
  {
    if t == 0 then h else Round(Rounds(h, block, t - 1), t - 1, W(block, t - 1))
  }

  /** Addition modulo 2^32. */
  function Plus(x: bv32, y: bv32): bv32 { x + y }

  function Compress(h: Vars, block: seq<bv8>): Vars
    requires |block| == 64
  {
    var v := Rounds(h, block, 80);
    Vars(Plus(h.a, v.a), Plus(h.b, v.b), Plus(h.c, v.c), Plus(h.d, v.d), Plus(h.e, v.e))
  }

  /** Compress, made total: blocks are always 64 bytes. */
  function Step(h: Vars, block: seq<bv8>): Vars {
    if |block| == 64 then Compress(h, block) else h
  }

  /** x / 256^n. */
  function Shr8(x: nat, n: nat): nat {
    if n == 0 then x else Shr8(x, n - 1) / 256
  }

  /** The eight base-256 digits of a 64-bit number, most significant first. */
  function Digits(x: nat): (d: seq<nat>)
    ensures |d| == 8 && forall i :: 0 <= i < 8 ==> d[i] < 256
  {
    seq(8, i requires 0 <= i < 8 => Shr8(x, 7 - i) % 256)
  }

  function Be64(x: nat): (s: seq<bv8>)
    ensures |s| == 8
  {
    seq(8, i requires 0 <= i < 8 => Digits(x)[i] as bv8)
  }

  function Pad(m: seq<bv8>): (p: seq<bv8>)
    ensures |p| % 64 == 0
  {
    Padded(m, Be64(8 * |m| % 0x1_0000_0000_0000_0000))
  }

  function WordBytes(w: bv32): seq<bv8> {
    [(w >> 24) as bv8, ((w >> 16) & 0xff) as bv8, ((w >> 8) & 0xff) as bv8, (w & 0xff) as bv8]
  }

  function Sha1(m: seq<bv8>): seq<bv8> {
    var h := Chain(Step, H0, Pad(m));
    WordBytes(h.a) + WordBytes(h.b) + WordBytes(h.c) + WordBytes(h.d) + WordBytes(h.e)
  }

  function FromDigits(d: seq<nat>): nat {
    if d == [] then 0 else FromDigits(d[..|d| - 1]) * 256 + d[|d| - 1]
  }

  /** The eight length bytes stand for the length. */
  lemma DigitsOfLength(x: nat)
    requires x < 0x1_0000_0000_0000_0000
    ensures FromDigits(Digits(x)) == x
  {
    DigitsPrefix(x, 8);
    assert Digits(x)[..8] == Digits(x);
  }

  lemma {:induction false} DigitsPrefix(x: nat, i: nat)
    requires x < 0x1_0000_0000_0000_0000 && i <= 8
    ensures FromDigits(Digits(x)[..i]) == Shr8(x, 8 - i)
  {
    if i == 0 {
      assert Shr8(x, 8) == 0 by { Shr8All(x); }
    } else {
      DigitsPrefix(x, i - 1);
      assert Digits(x)[..i][..i - 1] == Digits(x)[..i - 1];
    }
  }

  lemma Shr8All(x: nat)
    requires x < 0x1_0000_0000_0000_0000
    ensures Shr8(x, 8) == 0
  {
    assert Shr8(x, 1) < 0x100_0000_0000_0000;
    assert Shr8(x, 2) < 0x1_0000_0000_0000;
    assert Shr8(x, 3) < 0x100_0000_0000;
    assert Shr8(x, 4) < 0x1_0000_0000;
    assert Shr8(x, 5) < 0x100_0000;
    assert Shr8(x, 6) < 0x1_0000;
    assert Shr8(x, 7) < 0x100;
  }
}
