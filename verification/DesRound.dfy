/** The cipher function of do_des: expansion by shifts, salting, and the combined S-box and P tables. */
module DesRound {
  import opened WordBits
  import opened DesTables

  /** The four groups of six in the low 24 bits. */
  function Six(w: bv32, q: nat): bv8 {
    match q
    case 0 => Six0(w)
    case 1 => Six1(w)
    case 2 => Six2(w)
    case _ => Six3(w)
  }

  function Six0(w: bv32): bv8 { ((w >> 18) & 0x3f) as bv8 }
  function Six1(w: bv32): bv8 { ((w >> 12) & 0x3f) as bv8 }
  function Six2(w: bv32): bv8 { ((w >> 6) & 0x3f) as bv8 }
  function Six3(w: bv32): bv8 { (w & 0x3f) as bv8 }

  lemma RawSix0(w: bv32, m: bv8)
    requires m < 64
    ensures ((((w >> 18) & 0x3f) as bv8) & m != 0) == (w & ((m as bv32) << 18) != 0)
  {}

  lemma SixBits0(w: bv32, j: nat)
    requires j < 6
    ensures ByteBit(Six0(w), j + 2) == Bit(w, 8 + j)
  {
    hide Bits8, Bits32;
    SixMask0(j);
    RawSix0(w, Bits8(j + 2));
  }

  lemma SixMask0(j: nat)
    requires j < 6
    ensures (Bits8(j + 2) as bv32) << 18 == Bits32(8 + j)
    ensures Bits8(j + 2) < 64
  {}

  lemma RawSix1(w: bv32, m: bv8)
    requires m < 64
    ensures ((((w >> 12) & 0x3f) as bv8) & m != 0) == (w & ((m as bv32) << 12) != 0)
  {}

  lemma SixBits1(w: bv32, j: nat)
    requires j < 6
    ensures ByteBit(Six1(w), j + 2) == Bit(w, 14 + j)
  {
    hide Bits8, Bits32;
    SixMask1(j);
    RawSix1(w, Bits8(j + 2));
  }

  lemma SixMask1(j: nat)
    requires j < 6
    ensures (Bits8(j + 2) as bv32) << 12 == Bits32(14 + j)
    ensures Bits8(j + 2) < 64
  {}

  lemma RawSix2(w: bv32, m: bv8)
    requires m < 64
    ensures ((((w >> 6) & 0x3f) as bv8) & m != 0) == (w & ((m as bv32) << 6) != 0)
  {}

  lemma SixBits2(w: bv32, j: nat)
    requires j < 6
    ensures ByteBit(Six2(w), j + 2) == Bit(w, 20 + j)
  {
    hide Bits8, Bits32;
    SixMask2(j);
    RawSix2(w, Bits8(j + 2));
  }

  lemma SixMask2(j: nat)
    requires j < 6
    ensures (Bits8(j + 2) as bv32) << 6 == Bits32(20 + j)
    ensures Bits8(j + 2) < 64
  {}

  lemma RawSix3(w: bv32, m: bv8)
    requires m < 64
    ensures (((w & 0x3f) as bv8) & m != 0) == (w & (m as bv32) != 0)
  {}

  lemma SixBits3(w: bv32, j: nat)
    requires j < 6
    ensures ByteBit(Six3(w), j + 2) == Bit(w, 26 + j)
  {
    hide Bits8, Bits32;
    SixMask3(j);
    RawSix3(w, Bits8(j + 2));
  }

  lemma SixMask3(j: nat)
    requires j < 6
    ensures Bits8(j + 2) as bv32 == Bits32(26 + j)
    ensures Bits8(j + 2) < 64
  {}

  lemma SixBits(w: bv32, q: nat, j: nat)
    requires q < 4 && j < 6
    ensures ByteBit(Six(w, q), j + 2) == Bit(w, 8 + 6 * q + j)
  {
    hide Six0, Six1, Six2, Six3, Bit, ByteBit;
    SixBits0(w, j);
    SixBits1(w, j);
    SixBits2(w, j);
    SixBits3(w, j);
  }

  // ----- the E-box, simulated by five shifted fields for each half

  function Left0(r: bv32): bv32 { (r & 0x00000001) << 23 }
  function Left1(r: bv32): bv32 { (r & 0xf8000000) >> 9 }
  function Left2(r: bv32): bv32 { (r & 0x1f800000) >> 11 }
  function Left3(r: bv32): bv32 { (r & 0x01f80000) >> 13 }
  function Left4(r: bv32): bv32 { (r & 0x001f8000) >> 15 }

  function ExpandLeft(r: bv32): bv32 {
    Or(Or(Or(Or(Left0(r), Left1(r)), Left2(r)), Left3(r)), Left4(r))
  }

  function Right0(r: bv32): bv32 { (r & 0x0001f800) << 7 }
  function Right1(r: bv32): bv32 { (r & 0x00001f80) << 5 }
  function Right2(r: bv32): bv32 { (r & 0x000001f8) << 3 }
  function Right3(r: bv32): bv32 { (r & 0x0000001f) << 1 }
  function Right4(r: bv32): bv32 { (r & 0x80000000) >> 31 }

  function ExpandRight(r: bv32): bv32 {
    Or(Or(Or(Or(Right0(r), Right1(r)), Right2(r)), Right3(r)), Right4(r))
  }

  lemma RawLeft0(r: bv32, m: bv32)
    ensures Test((r & 0x00000001) << 23, m) == Test(r, (m >> 23) & 0x00000001)
  {}

  lemma MaskLeft0(i: nat)
    requires i < 24
    ensures (Bits32(8 + i) >> 23) & 0x00000001 == if 0 <= i < 1 then Bits32(i + 31) else 0
  {}

  lemma Left0Bit(r: bv32, i: nat)
    requires i < 24
    ensures Bit(Left0(r), 8 + i) == (0 <= i < 1 && Bit(r, i + 31))
  {
    hide Bits32, Test;
    MaskLeft0(i);
    RawLeft0(r, Bits32(8 + i));
    NoMask(r);
  }

  lemma RawLeft1(r: bv32, m: bv32)
    ensures Test((r & 0xf8000000) >> 9, m) == Test(r, (m << 9) & 0xf8000000)
  {}

  lemma MaskLeft1(i: nat)
    requires i < 24
    ensures (Bits32(8 + i) << 9) & 0xf8000000 == if 1 <= i < 6 then Bits32(i - 1) else 0
  {}

  lemma Left1Bit(r: bv32, i: nat)
    requires i < 24
    ensures Bit(Left1(r), 8 + i) == (1 <= i < 6 && Bit(r, i - 1))
  {
    hide Bits32, Test;
    MaskLeft1(i);
    RawLeft1(r, Bits32(8 + i));
    NoMask(r);
  }

  lemma RawLeft2(r: bv32, m: bv32)
    ensures Test((r & 0x1f800000) >> 11, m) == Test(r, (m << 11) & 0x1f800000)
  {}

  lemma MaskLeft2(i: nat)
    requires i < 24
    ensures (Bits32(8 + i) << 11) & 0x1f800000 == if 6 <= i < 12 then Bits32(i - 3) else 0
  {}

  lemma Left2Bit(r: bv32, i: nat)
    requires i < 24
    ensures Bit(Left2(r), 8 + i) == (6 <= i < 12 && Bit(r, i - 3))
  {
    hide Bits32, Test;
    MaskLeft2(i);
    RawLeft2(r, Bits32(8 + i));
    NoMask(r);
  }

  lemma RawLeft3(r: bv32, m: bv32)
    ensures Test((r & 0x01f80000) >> 13, m) == Test(r, (m << 13) & 0x01f80000)
  {}

  lemma MaskLeft3(i: nat)
    requires i < 24
    ensures (Bits32(8 + i) << 13) & 0x01f80000 == if 12 <= i < 18 then Bits32(i - 5) else 0
  {}

  lemma Left3Bit(r: bv32, i: nat)
    requires i < 24
    ensures Bit(Left3(r), 8 + i) == (12 <= i < 18 && Bit(r, i - 5))
  {
    hide Bits32, Test;
    MaskLeft3(i);
    RawLeft3(r, Bits32(8 + i));
    NoMask(r);
  }

  lemma RawLeft4(r: bv32, m: bv32)
    ensures Test((r & 0x001f8000) >> 15, m) == Test(r, (m << 15) & 0x001f8000)
  {}

  lemma MaskLeft4(i: nat)
    requires i < 24
    ensures (Bits32(8 + i) << 15) & 0x001f8000 == if 18 <= i < 24 then Bits32(i - 7) else 0
  {}

  lemma Left4Bit(r: bv32, i: nat)
    requires i < 24
    ensures Bit(Left4(r), 8 + i) == (18 <= i < 24 && Bit(r, i - 7))
  {
    hide Bits32, Test;
    MaskLeft4(i);
    RawLeft4(r, Bits32(8 + i));
    NoMask(r);
  }

  /** The first 24 bits of the expansion. */
  lemma LeftBits(r: bv32, i: nat)
    requires i < 24
    ensures Bit(ExpandLeft(r), 8 + i) == Bit(r, E(i) - 1)
  {
    hide Bit, Or, Left0, Left1, Left2, Left3, Left4;
    OrBit(Left0(r), Left1(r), 8 + i);
    OrBit(Or(Left0(r), Left1(r)), Left2(r), 8 + i);
    OrBit(Or(Or(Left0(r), Left1(r)), Left2(r)), Left3(r), 8 + i);
    OrBit(Or(Or(Or(Left0(r), Left1(r)), Left2(r)), Left3(r)), Left4(r), 8 + i);
    Left0Bit(r, i);
    Left1Bit(r, i);
    Left2Bit(r, i);
    Left3Bit(r, i);
    Left4Bit(r, i);
  }

  lemma RawRight0(r: bv32, m: bv32)
    ensures Test((r & 0x0001f800) << 7, m) == Test(r, (m >> 7) & 0x0001f800)
  {}

  lemma MaskRight0(i: nat)
    requires i < 24
    ensures (Bits32(8 + i) >> 7) & 0x0001f800 == if 0 <= i < 6 then Bits32(i + 15) else 0
  {}

  lemma Right0Bit(r: bv32, i: nat)
    requires i < 24
    ensures Bit(Right0(r), 8 + i) == (0 <= i < 6 && Bit(r, i + 15))
  {
    hide Bits32, Test;
    MaskRight0(i);
    RawRight0(r, Bits32(8 + i));
    NoMask(r);
  }

  lemma RawRight1(r: bv32, m: bv32)
    ensures Test((r & 0x00001f80) << 5, m) == Test(r, (m >> 5) & 0x00001f80)
  {}

  lemma MaskRight1(i: nat)
    requires i < 24
    ensures (Bits32(8 + i) >> 5) & 0x00001f80 == if 6 <= i < 12 then Bits32(i + 13) else 0
  {}

  lemma Right1Bit(r: bv32, i: nat)
    requires i < 24
    ensures Bit(Right1(r), 8 + i) == (6 <= i < 12 && Bit(r, i + 13))
  {
    hide Bits32, Test;
    MaskRight1(i);
    RawRight1(r, Bits32(8 + i));
    NoMask(r);
  }

  lemma RawRight2(r: bv32, m: bv32)
    ensures Test((r & 0x000001f8) << 3, m) == Test(r, (m >> 3) & 0x000001f8)
  {}

  lemma MaskRight2(i: nat)
    requires i < 24
    ensures (Bits32(8 + i) >> 3) & 0x000001f8 == if 12 <= i < 18 then Bits32(i + 11) else 0
  {}

  lemma Right2Bit(r: bv32, i: nat)
    requires i < 24
    ensures Bit(Right2(r), 8 + i) == (12 <= i < 18 && Bit(r, i + 11))
  {
    hide Bits32, Test;
    MaskRight2(i);
    RawRight2(r, Bits32(8 + i));
    NoMask(r);
  }

  lemma RawRight3(r: bv32, m: bv32)
    ensures Test((r & 0x0000001f) << 1, m) == Test(r, (m >> 1) & 0x0000001f)
  {}

  lemma MaskRight3(i: nat)
    requires i < 24
    ensures (Bits32(8 + i) >> 1) & 0x0000001f == if 18 <= i < 23 then Bits32(i + 9) else 0
  {}

  lemma Right3Bit(r: bv32, i: nat)
    requires i < 24
    ensures Bit(Right3(r), 8 + i) == (18 <= i < 23 && Bit(r, i + 9))
  {
    hide Bits32, Test;
    MaskRight3(i);
    RawRight3(r, Bits32(8 + i));
    NoMask(r);
  }

  lemma RawRight4(r: bv32, m: bv32)
    ensures Test((r & 0x80000000) >> 31, m) == Test(r, (m << 31) & 0x80000000)
  {}

  lemma MaskRight4(i: nat)
    requires i < 24
    ensures (Bits32(8 + i) << 31) & 0x80000000 == if 23 <= i < 24 then Bits32(i - 23) else 0
  {}

  lemma Right4Bit(r: bv32, i: nat)
    requires i < 24
    ensures Bit(Right4(r), 8 + i) == (23 <= i < 24 && Bit(r, i - 23))
  {
    hide Bits32, Test;
    MaskRight4(i);
    RawRight4(r, Bits32(8 + i));
    NoMask(r);
  }

  /** The last 24 bits of the expansion. */
  lemma RightBits(r: bv32, i: nat)
    requires i < 24
    ensures Bit(ExpandRight(r), 8 + i) == Bit(r, E(24 + i) - 1)
  {
    hide Bit, Or, Right0, Right1, Right2, Right3, Right4;
    OrBit(Right0(r), Right1(r), 8 + i);
    OrBit(Or(Right0(r), Right1(r)), Right2(r), 8 + i);
    OrBit(Or(Or(Right0(r), Right1(r)), Right2(r)), Right3(r), 8 + i);
    OrBit(Or(Or(Or(Right0(r), Right1(r)), Right2(r)), Right3(r)), Right4(r), 8 + i);
    Right0Bit(r, i);
    Right1Bit(r, i);
    Right2Bit(r, i);
    Right3Bit(r, i);
    Right4Bit(r, i);
  }

  lemma NoMask(r: bv32)
    ensures !Test(r, 0)
  {}

  lemma ExpandSmall(r: bv32)
    ensures ExpandLeft(r) < 0x100_0000 && ExpandRight(r) < 0x100_0000
  {}
}
