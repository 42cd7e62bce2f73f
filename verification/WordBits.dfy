/** Bits of machine words, numbered from the most significant one as the DES tables do. */
module WordBits {

  type BitString = seq<bool>

  /** The constants bits32[] and bits8[]. */
  function Bits32(i: nat): bv32 {
    if i < 16 then High16(i) else Low16(i - 16)
  }

  function High16(i: nat): bv32 {
    match i
    case 0 => 0x80000000 case 1 => 0x40000000 case 2 => 0x20000000 case 3 => 0x10000000
    case 4 => 0x08000000 case 5 => 0x04000000 case 6 => 0x02000000 case 7 => 0x01000000
    case 8 => 0x00800000 case 9 => 0x00400000 case 10 => 0x00200000 case 11 => 0x00100000
    case 12 => 0x00080000 case 13 => 0x00040000 case 14 => 0x00020000 case _ => 0x00010000
  }

  function Low16(i: nat): bv32 {
    match i
    case 0 => 0x00008000 case 1 => 0x00004000 case 2 => 0x00002000 case 3 => 0x00001000
    case 4 => 0x00000800 case 5 => 0x00000400 case 6 => 0x00000200 case 7 => 0x00000100
    case 8 => 0x00000080 case 9 => 0x00000040 case 10 => 0x00000020 case 11 => 0x00000010
    case 12 => 0x00000008 case 13 => 0x00000004 case 14 => 0x00000002 case _ => 0x00000001
  }

  function Bits8(i: nat): bv8 {
    match i
    case 0 => 0x80 case 1 => 0x40 case 2 => 0x20 case 3 => 0x10
    case 4 => 0x08 case 5 => 0x04 case 6 => 0x02 case _ => 0x01
  }

  predicate Test(x: bv32, m: bv32) {
    x & m != 0
  }

  predicate Bit(x: bv32, i: nat) {
    Test(x, Bits32(i))
  }

  predicate TestByte(x: bv8, m: bv8) {
    x & m != 0
  }

  predicate ByteBit(x: bv8, i: nat) {
    TestByte(x, Bits8(i))
  }

  /** The 32 bits of a word. */
  function Bits(x: bv32): (b: BitString)
    ensures |b| == 32 && forall i :: 0 <= i < 32 ==> b[i] == Bit(x, i)
  {
    seq(32, i requires 0 <= i < 32 => Bit(x, i))
  }

  /** The low 24 bits of a word. */
  function Bits24(x: bv32): (b: BitString)
    ensures |b| == 24 && forall i :: 0 <= i < 24 ==> b[i] == Bit(x, 8 + i)
  {
    seq(24, i requires 0 <= i < 24 => Bit(x, 8 + i))
  }

  function Xor(a: BitString, b: BitString): (c: BitString)
    ensures |c| == |a|
  {
    seq(|a|, i requires 0 <= i < |a| => a[i] != (i < |b| && b[i]))
  }

  lemma XorTwice(a: BitString, b: BitString)
    ensures Xor(Xor(a, b), b) == a
  {}

  // ----- single bits

  lemma TestOr(x: bv32, y: bv32, m: bv32)
    ensures Test(x | y, m) == (Test(x, m) || Test(y, m))
  {
    RawOr(x, y, m);
    RawBoth(x & m, y & m);
  }

  lemma RawOr(x: bv32, y: bv32, m: bv32)
    ensures (x | y) & m == (x & m) | (y & m)
  {}

  lemma RawBoth(x: bv32, y: bv32)
    ensures (x | y == 0) == (x == 0 && y == 0)
  {}

  lemma BitOr(x: bv32, y: bv32, i: nat)
    ensures Bit(x | y, i) == (Bit(x, i) || Bit(y, i))
  {
    hide Bits32, Test;
    TestOr(x, y, Bits32(i));
  }

  function Or(x: bv32, y: bv32): bv32 { x | y }

  lemma OrBit(x: bv32, y: bv32, i: nat)
    ensures Bit(Or(x, y), i) == (Bit(x, i) || Bit(y, i))
  {
    hide Bit;
    BitOr(x, y, i);
  }

  function Xor32(x: bv32, y: bv32): bv32 { x ^ y }
  function And(x: bv32, y: bv32): bv32 { x & y }

  lemma XorBit(x: bv32, y: bv32, i: nat)
    ensures Bit(Xor32(x, y), i) == (Bit(x, i) != Bit(y, i))
  {
    hide Bit;
    BitXor(x, y, i);
  }

  lemma AndBit(x: bv32, y: bv32, i: nat)
    ensures Bit(And(x, y), i) == (Bit(x, i) && Bit(y, i))
  {
    hide Bit;
    BitAnd(x, y, i);
  }

  lemma TestZero(m: bv32)
    ensures !Test(0, m)
  {}

  lemma BitZero(i: nat)
    ensures !Bit(0, i)
  {
    hide Bits32, Test;
    TestZero(Bits32(i));
  }

  /** m has one bit: it selects nothing or itself, and is a power of two. */
  predicate Single(m: bv32) {
    m != 0 && m & (m - 1) == 0
  }

  lemma OneBit(i: nat)
    ensures Single(Bits32(i))
  {
    if i < 16 { OneHigh(i); } else { OneLow(i - 16); }
  }

  lemma OneHigh(i: nat)
    ensures Single(High16(i))
  {}

  lemma OneLow(i: nat)
    ensures Single(Low16(i))
  {}

  lemma Selects(x: bv32, m: bv32)
    requires Single(m)
    ensures x & m == 0 || x & m == m
  {}

  lemma RawXor(x: bv32, y: bv32, m: bv32)
    ensures (x ^ y) & m == (x & m) ^ (y & m)
  {}

  lemma TestXor(x: bv32, y: bv32, m: bv32)
    requires Single(m)
    ensures Test(x ^ y, m) == (Test(x, m) != Test(y, m))
  {
    Selects(x, m);
    Selects(y, m);
    RawXor(x, y, m);
  }

  lemma BitXor(x: bv32, y: bv32, i: nat)
    ensures Bit(x ^ y, i) == (Bit(x, i) != Bit(y, i))
  {
    hide Bits32, Test, Single;
    OneBit(i);
    TestXor(x, y, Bits32(i));
  }

  lemma TestAnd(x: bv32, y: bv32, m: bv32)
    requires Single(m)
    ensures Test(x & y, m) == (Test(x, m) && Test(y, m))
  {
    Selects(x, m);
    Selects(y, m);
  }

  lemma BitAnd(x: bv32, y: bv32, i: nat)
    ensures Bit(x & y, i) == (Bit(x, i) && Bit(y, i))
  {
    hide Bits32, Test, Single;
    OneBit(i);
    TestAnd(x, y, Bits32(i));
  }

  /** Different masks have no bit in common. */
  lemma BitOfMask(o: nat, i: nat)
    requires o < 32 && i < 32
    ensures Bit(Bits32(o), i) == (o == i)
  {
    hide High16, Low16;
    if o < 16 && i < 16 {
      HighMasks(o, i);
    } else if o >= 16 && i >= 16 {
      LowMasks(o - 16, i - 16);
    } else if o < 16 {
      MixedMasks(o, i - 16);
    } else {
      MixedMasks(i, o - 16);
    }
  }

  lemma HighMasks(o: nat, i: nat)
    requires o < 16 && i < 16
    ensures Test(High16(o), High16(i)) == (o == i)
  {}

  lemma LowMasks(o: nat, i: nat)
    requires o < 16 && i < 16
    ensures Test(Low16(o), Low16(i)) == (o == i)
  {}

  lemma MixedMasks(o: nat, i: nat)
    requires o < 16 && i < 16
    ensures !Test(High16(o), Low16(i)) && !Test(Low16(i), High16(o))
  {
    MaskHalves(o);
    MaskHalves(i);
    RawApart(High16(o), Low16(i));
  }

  lemma MaskHalves(i: nat)
    requires i < 16
    ensures High16(i) & 0xffff == 0 && Low16(i) & 0xffff_0000 == 0
  {}

  lemma RawApart(x: bv32, y: bv32)
    requires x & 0xffff == 0 && y & 0xffff_0000 == 0
    ensures x & y == 0 && y & x == 0
  {}
}
