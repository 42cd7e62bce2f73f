/** MD5 as RFC 1321 defines it. */
module Rfc1321 {
  import opened Bytes
  import opened BlockHash

  datatype Vars = Vars(a: bv32, b: bv32, c: bv32, d: bv32)

  const H0: Vars := Vars(0x67452301, 0xefcdab89, 0x98badcfe, 0x10325476)

  function F(x: bv32, y: bv32, z: bv32): bv32 { (x & y) | (!x & z) }
  function G(x: bv32, y: bv32, z: bv32): bv32 { (x & z) | (y & !z) }
  function H(x: bv32, y: bv32, z: bv32): bv32 { x ^ y ^ z }
  function I(x: bv32, y: bv32, z: bv32): bv32 { y ^ (x | !z) }

  /** The bit function of step i (section 3.4). */
  function Fn(i: nat, x: bv32, y: bv32, z: bv32): bv32 {
    if i < 16 then F(x, y, z) else if i < 32 then G(x, y, z) else if i < 48 then H(x, y, z) else I(x, y, z)
  }

  /** The message word used in step i: the rounds walk the block with strides 1, 5, 3 and 7. */
  function K(i: nat): (k: nat)
    ensures k < 16
  {
    if i < 16 then i else if i < 32 then (5 * i + 1) % 16 else if i < 48 then (3 * i + 5) % 16 else (7 * i) % 16
  }

  /** The rotation of step i: four amounts for each round. */
  function Shift(i: nat): (s: nat)
    ensures s <= 32
  {
    var j := i % 4;
    if i < 16 then (if j == 0 then 7 else if j == 1 then 12 else if j == 2 then 17 else 22)
    else if i < 32 then (if j == 0 then 5 else if j == 1 then 9 else if j == 2 then 14 else 20)
    else if i < 48 then (if j == 0 then 4 else if j == 1 then 11 else if j == 2 then 16 else 23)
    else (if j == 0 then 6 else if j == 1 then 10 else if j == 2 then 15 else 21)
  }

  /** The sine table T[1..64], counted from 0, a row for each round. */
  function T(i: nat): bv32 {
    if i < 16 then T1(i) else if i < 32 then T2(i - 16) else if i < 48 then T3(i - 32) else T4(i - 48)
  }

  function T1(i: nat): bv32 {
    match i
    case 0 => 0xd76aa478 case 1 => 0xe8c7b756 case 2 => 0x242070db case 3 => 0xc1bdceee
    case 4 => 0xf57c0faf case 5 => 0x4787c62a case 6 => 0xa8304613 case 7 => 0xfd469501
    case 8 => 0x698098d8 case 9 => 0x8b44f7af case 10 => 0xffff5bb1 case 11 => 0x895cd7be
    case 12 => 0x6b901122 case 13 => 0xfd987193 case 14 => 0xa679438e case _ => 0x49b40821
  }

  function T2(i: nat): bv32 {
    match i
    case 0 => 0xf61e2562 case 1 => 0xc040b340 case 2 => 0x265e5a51 case 3 => 0xe9b6c7aa
    case 4 => 0xd62f105d case 5 => 0x2441453 case 6 => 0xd8a1e681 case 7 => 0xe7d3fbc8
    case 8 => 0x21e1cde6 case 9 => 0xc33707d6 case 10 => 0xf4d50d87 case 11 => 0x455a14ed
    case 12 => 0xa9e3e905 case 13 => 0xfcefa3f8 case 14 => 0x676f02d9 case _ => 0x8d2a4c8a
  }

  function T3(i: nat): bv32 {
    match i
    case 0 => 0xfffa3942 case 1 => 0x8771f681 case 2 => 0x6d9d6122 case 3 => 0xfde5380c
    case 4 => 0xa4beea44 case 5 => 0x4bdecfa9 case 6 => 0xf6bb4b60 case 7 => 0xbebfbc70
    case 8 => 0x289b7ec6 case 9 => 0xeaa127fa case 10 => 0xd4ef3085 case 11 => 0x4881d05
    case 12 => 0xd9d4d039 case 13 => 0xe6db99e5 case 14 => 0x1fa27cf8 case _ => 0xc4ac5665
  }

  function T4(i: nat): bv32 {
    match i
    case 0 => 0xf4292244 case 1 => 0x432aff97 case 2 => 0xab9423a7 case 3 => 0xfc93a039
    case 4 => 0x655b59c3 case 5 => 0x8f0ccc92 case 6 => 0xffeff47d case 7 => 0x85845dd1
    case 8 => 0x6fa87e4f case 9 => 0xfe2ce6e0 case 10 => 0xa3014314 case 11 => 0x4e0811a1
    case 12 => 0xf7537e82 case 13 => 0xbd3af235 case 14 => 0x2ad7d2bb case _ => 0xeb86d391
  }

  /** Word k of a block, little-endian. */
  function Word(block: seq<bv8>, k: nat): bv32
    requires |block| == 64 && k < 16
  {
    LoadLe(block[4 * k], block[4 * k + 1], block[4 * k + 2], block[4 * k + 3])
  }

  /** The value b + ((a + f + x + t) <<< s) of one step. */
  function Mixed(a: bv32, f: bv32, x: bv32, t: bv32, s: nat, b: bv32): bv32
    requires s <= 32
  {
    b + Rotl(s, a + f + x + t)
  }

  /** Step i, with the registers renamed so that the next step reads the same way. */
  function Op(v: Vars, i: nat, block: seq<bv8>): Vars
    requires |block| == 64
  {
    Vars(v.d, Mixed(v.a, Fn(i, v.b, v.c, v.d), Word(block, K(i)), T(i), Shift(i), v.b), v.b, v.c)
  }

  function Ops(h: Vars, block: seq<bv8>, i: nat): Vars
    requires |block| == 64
  {
    if i == 0 then h else Op(Ops(h, block, i - 1), i - 1, block)
  }

  function Plus(x: bv32, y: bv32): bv32 { x + y }

  function Compress(h: Vars, block: seq<bv8>): Vars
    requires |block| == 64
  {
    var v := Ops(h, block, 64);
    Vars(Plus(h.a, v.a), Plus(h.b, v.b), Plus(h.c, v.c), Plus(h.d, v.d))
  }

  /** Compress, made total: blocks are always 64 bytes. */
  function Step(h: Vars, block: seq<bv8>): Vars {
    if |block| == 64 then Compress(h, block) else h
  }

  /** A word, low byte first. */
  function WordBytes(w: bv32): (s: seq<bv8>)
    ensures |s| == 4
  {
    [(w & 0xff) as bv8, ((w >> 8) & 0xff) as bv8, ((w >> 16) & 0xff) as bv8, ((w >> 24) & 0xff) as bv8]
  }

  /** The low 64 bits of a length in bits, as two words, low-order word first (section 3.2). */
  function LengthBytes(bits: nat): seq<bv8> {
    WordBytes((bits % 0x1_0000_0000) as bv32) + WordBytes((bits / 0x1_0000_0000 % 0x1_0000_0000) as bv32)
  }

  function Pad(m: seq<bv8>): (p: seq<bv8>)
    ensures |p| % 64 == 0
  {
    Padded(m, LengthBytes(8 * |m|))
  }

  function HashBytes(h: Vars): (s: seq<bv8>)
    ensures |s| == 16
  {
    WordBytes(h.a) + WordBytes(h.b) + WordBytes(h.c) + WordBytes(h.d)
  }

  function Md5(m: seq<bv8>): (digest: seq<bv8>)
    ensures |digest| == 16
  {
    HashBytes(Chain(Step, H0, Pad(m)))
  }
}
