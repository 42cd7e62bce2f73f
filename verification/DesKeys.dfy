/** The key schedule of des_setkey: permuted choices by table lookup, and rotation of 28-bit halves
    by shifts of a 32-bit word. */
module DesKeys {
  import opened WordBits
  import opened DesTables
  import opened Fips46
  import opened DesMasks

  // ----- a shift by a variable amount is that many single shifts

  function Shl(x: bv32, n: nat): bv32 {
    if n == 0 then x else Left(Shl(x, n - 1))
  }

  function Shr(x: bv32, n: nat): bv32 {
    if n == 0 then x else Right(Shr(x, n - 1))
  }

  function Left(x: bv32): bv32 { x << 1 }
  function Right(x: bv32): bv32 { x >> 1 }

  lemma TestLeft(x: bv32, m: bv32)
    ensures Test(Left(x), m) == Test(x, m >> 1)
  {}

  lemma TestRight(x: bv32, m: bv32)
    ensures Test(Right(x), m) == Test(x, m << 1)
  {}

  lemma MaskShift(i: nat)
    requires i < 32
    ensures Bits32(i) >> 1 == if i < 31 then Bits32(i + 1) else 0
    ensures Bits32(i) << 1 == if i > 0 then Bits32(i - 1) else 0
  {
    if i < 16 {
      HighShift(i);
    } else {
      LowShift(i - 16);
    }
  }

  lemma HighShift(i: nat)
    requires i < 16
    ensures High16(i) >> 1 == if i < 15 then High16(i + 1) else Low16(0)
    ensures High16(i) << 1 == if i > 0 then High16(i - 1) else 0
  {
    HighHalved(i);
    if i > 0 {
      HighHalved(i - 1);
      RawDouble(High16(i - 1));
    }
  }

  lemma HighHalved(i: nat)
    requires i < 16
    ensures High16(i) >> 1 == if i < 15 then High16(i + 1) else Low16(0)
    ensures High16(i) & 1 == 0
  {}

  lemma RawDouble(m: bv32)
    requires m & 1 == 0
    ensures (m >> 1) << 1 == m
  {}

  lemma LowShift(i: nat)
    requires i < 16
    ensures Low16(i) >> 1 == if i < 15 then Low16(i + 1) else 0
    ensures Low16(i) << 1 == if i > 0 then Low16(i - 1) else High16(15)
  {}

  lemma LeftBit(x: bv32, i: nat)
    requires i < 32
    ensures Bit(Left(x), i) == (i < 31 && Bit(x, i + 1))
  {
    hide Bits32, Test, Left;
    MaskShift(i);
    TestLeft(x, Bits32(i));
    TestNone(x);
  }

  lemma RightBit(x: bv32, i: nat)
    requires i < 32
    ensures Bit(Right(x), i) == (i > 0 && Bit(x, i - 1))
  {
    hide Bits32, Test, Right;
    MaskShift(i);
    TestRight(x, Bits32(i));
    TestNone(x);
  }

  lemma TestNone(x: bv32)
    ensures !Test(x, 0)
  {}

  lemma {:induction false} ShlBit(x: bv32, n: nat, i: nat)
    requires i < 32
    ensures Bit(Shl(x, n), i) == (i + n < 32 && Bit(x, i + n))
  {
    hide Bit, Left, Shl;
    ShlStep(x, n);
    if n > 0 {
      LeftBit(Shl(x, n - 1), i);
      if i < 31 {
        ShlBit(x, n - 1, i + 1);
      }
    }
  }

  lemma ShlStep(x: bv32, n: nat)
    ensures Shl(x, n) == if n == 0 then x else Left(Shl(x, n - 1))
  {}

  lemma {:induction false} ShrBit(x: bv32, n: nat, i: nat)
    requires i < 32
    ensures Bit(Shr(x, n), i) == (i >= n && Bit(x, i - n))
  {
    hide Bit, Right, Shr;
    ShrStep(x, n);
    if n > 0 {
      RightBit(Shr(x, n - 1), i);
      if i > 0 {
        ShrBit(x, n - 1, i - 1);
      }
    }
  }

  lemma ShrStep(x: bv32, n: nat)
    ensures Shr(x, n) == if n == 0 then x else Right(Shr(x, n - 1))
  {}

  // ----- rotation of a 28-bit half

  /** The source leaves whatever the left shift pushes above bit 28 in place. */
  function Rotated(k: bv32, shifts: nat): bv32
    requires shifts <= 28
  {
    Or(Shl(k, shifts), Shr(k, 28 - shifts))
  }

  /** In the 28 bits that are used this is the rotation. */
  lemma RotatedBit(k: bv32, shifts: nat, i: nat)
    requires shifts <= 28 && i < 28 && forall o :: 0 <= o < 4 ==> !Bit(k, o)
    ensures Bit(Rotated(k, shifts), 4 + i) == Bit(k, 4 + (i + shifts) % 28)
  {
    hide Bit, Or, Shl, Shr;
    OrBit(Shl(k, shifts), Shr(k, 28 - shifts), 4 + i);
    ShlBit(k, shifts, 4 + i);
    ShrBit(k, 28 - shifts, 4 + i);
  }

  /** The number of places rotated before round n uses its key. */
  function Total(n: nat): nat {
    if n == 0 then 0 else Total(n - 1) + KeyShifts(n - 1)
  }

  lemma TotalBound(n: nat)
    requires n <= 16
    ensures Total(n) <= 28
  {
    assert Total(4) == 6 && Total(8) == 14 && Total(12) == 21 && Total(16) == 28;
    assert Total(1) <= Total(2) <= Total(3) <= Total(4) <= Total(5) <= Total(6) <= Total(7) <= Total(8);
    assert Total(9) <= Total(10) <= Total(11) <= Total(12) <= Total(13) <= Total(14) <= Total(15) <= Total(16);
  }

  /** Rotating step by step is rotating by the total. */
  lemma {:induction false} HalvesTotal(key: BitString, n: nat)
    requires |key| == 64
    ensures Halves(key, n) == RotateHalves(Choose1(key), Total(n))
  {
    hide Choose1, RotateHalves, KeyShifts;
    if n == 0 {
      RotateNone(Choose1(key));
    } else {
      HalvesTotal(key, n - 1);
      RotateTwice(Choose1(key), Total(n - 1), KeyShifts(n - 1));
    }
  }

  lemma RotateNone(cd: BitString)
    requires |cd| == 56
    ensures RotateHalves(cd, 0) == cd
  {}

  lemma RotateTwice(cd: BitString, m: nat, n: nat)
    requires |cd| == 56
    ensures RotateHalves(RotateHalves(cd, m), n) == RotateHalves(cd, m + n)
  {
    forall i | 0 <= i < 56
      ensures RotateHalves(RotateHalves(cd, m), n)[i] == RotateHalves(cd, m + n)[i]
    {
      if i < 28 {
        ModTwice(i, m, n);
        assert RotateHalves(cd, m)[(i + n) % 28] == cd[((i + n) % 28 + m) % 28];
      } else {
        ModTwice(i - 28, m, n);
        assert RotateHalves(cd, m)[28 + (i - 28 + n) % 28] == cd[28 + ((i - 28 + n) % 28 + m) % 28];
      }
    }
  }

  lemma ModTwice(j: nat, m: nat, n: nat)
    ensures ((j + n) % 28 + m) % 28 == (j + (m + n)) % 28
  {}

  // ----- permuted choice 1

  ghost function KeySource(): (s: seq<nat>)
    ensures |s| == 56
  {
    seq(56, o requires 0 <= o < 56 => PC1(o) - 1)
  }

  /** PC1 never selects a parity bit. */
  lemma NoParity(o: nat)
    requires o < 56
    ensures (PC1(o) - 1) % 8 < 7
  {}

  /** The C and D halves as des_setkey holds them, in the low 28 bits of two words. */
  ghost predicate HoldsHalves(k0: bv32, k1: bv32, cd: BitString)
    requires |cd| == 56
  {
    && (forall o :: 4 <= o < 32 ==> Bit(k0, o) == cd[o - 4] && Bit(k1, o) == cd[24 + o])
    && (forall o :: 0 <= o < 4 ==> !Bit(k0, o) && !Bit(k1, o))
  }

  function KeyChunks(rawkey0: bv32, rawkey1: bv32): (x: seq<bv8>)
    ensures |x| == 8 && forall k :: 0 <= k < 8 ==> (x[k] as nat) < 128
  {
    UpperSevenSmall(rawkey0);
    UpperSevenSmall(rawkey1);
    var x := [UpperSeven0(rawkey0), UpperSeven1(rawkey0), UpperSeven2(rawkey0), UpperSeven3(rawkey0),
              UpperSeven0(rawkey1), UpperSeven1(rawkey1), UpperSeven2(rawkey1), UpperSeven3(rawkey1)];
    assert forall k :: 0 <= k < 8 ==> x[k] < 128 && (x[k] as nat) < 128 by {
      forall k | 0 <= k < 8 ensures x[k] < 128 && (x[k] as nat) < 128 { SmallIndex(x[k]); }
    }
    x
  }

  lemma KeyChunkBit(rawkey0: bv32, rawkey1: bv32, s: nat)
    requires s < 64 && s % 8 < 7
    ensures ByteBit(KeyChunks(rawkey0, rawkey1)[s / 8], s % 8 + 1) == (Bits(rawkey0) + Bits(rawkey1))[s]
  {
    hide UpperSeven0, UpperSeven1, UpperSeven2, UpperSeven3, ByteBit, Bit;
    if s < 32 {
      UpperSevenBits(rawkey0, s / 8, s % 8);
    } else {
      UpperSevenBits(rawkey1, s / 8 - 4, s % 8);
    }
  }

  /** The key permutation by lookup is permuted choice 1. */
  lemma Choose1ByLookup(l: array2<bv32>, r: array2<bv32>, rawkey0: bv32, rawkey1: bv32)
    requires TableOk(l, 128, 7, 8, 4, KeySource(), 0) && TableOk(r, 128, 7, 8, 4, KeySource(), 28)
    ensures var x := KeyChunks(rawkey0, rawkey1);
      HoldsHalves(Lookup(l, x), Lookup(r, x), Choose1(Bits(rawkey0) + Bits(rawkey1)))
  {
    hide TableOk, Lookup, Bit, ByteBit, KeyChunks, PC1;
    var x := KeyChunks(rawkey0, rawkey1);
    TableShape(l, 128, 7, 8, 4, KeySource(), 0);
    TableShape(r, 128, 7, 8, 4, KeySource(), 28);
    forall o | 4 <= o < 32
      ensures Bit(Lookup(l, x), o) == Choose1(Bits(rawkey0) + Bits(rawkey1))[o - 4]
      ensures Bit(Lookup(r, x), o) == Choose1(Bits(rawkey0) + Bits(rawkey1))[24 + o]
    {
      var s, s' := PC1(o - 4) - 1, PC1(24 + o) - 1;
      NoParity(o - 4);
      NoParity(24 + o);
      LookupBit(l, x, 128, 7, 8, 4, KeySource(), 0, o, s / 8, s % 8);
      LookupBit(r, x, 128, 7, 8, 4, KeySource(), 28, o, s' / 8, s' % 8);
      KeyChunkBit(rawkey0, rawkey1, s);
      KeyChunkBit(rawkey0, rawkey1, s');
    }
    forall o | 0 <= o < 4
      ensures !Bit(Lookup(l, x), o) && !Bit(Lookup(r, x), o)
    {
      LookupClear(l, x, 128, 7, 8, 4, KeySource(), 0, o);
      LookupClear(r, x, 128, 7, 8, 4, KeySource(), 28, o);
    }
  }

  // ----- permuted choice 2

  ghost function CompSource(): (s: seq<nat>)
    ensures |s| == 48
  {
    seq(48, o requires 0 <= o < 48 => PC2(o) - 1)
  }

  function CompChunks(t0: bv32, t1: bv32): (x: seq<bv8>)
    ensures |x| == 8 && forall k :: 0 <= k < 8 ==> (x[k] as nat) < 128
  {
    SevenSmall(t0);
    SevenSmall(t1);
    var x := [Seven0(t0), Seven1(t0), Seven2(t0), Seven3(t0), Seven0(t1), Seven1(t1), Seven2(t1), Seven3(t1)];
    assert forall k :: 0 <= k < 8 ==> x[k] < 128 && (x[k] as nat) < 128 by {
      forall k | 0 <= k < 8 ensures x[k] < 128 && (x[k] as nat) < 128 { SmallIndex(x[k]); }
    }
    x
  }

  /** The 28-bit halves in the low bits of two words, whatever stands above them. */
  ghost predicate LowHalves(t0: bv32, t1: bv32, cd: BitString)
    requires |cd| == 56
  {
    forall o :: 4 <= o < 32 ==> Bit(t0, o) == cd[o - 4] && Bit(t1, o) == cd[24 + o]
  }

  lemma CompChunkBit(t0: bv32, t1: bv32, cd: BitString, s: nat)
    requires |cd| == 56 && s < 56 && LowHalves(t0, t1, cd)
    ensures ByteBit(CompChunks(t0, t1)[s / 7], s % 7 + 1) == cd[s]
  {
    hide Seven0, Seven1, Seven2, Seven3, ByteBit, Bit;
    if s < 28 {
      SevenBits(t0, s / 7, s % 7);
      assert Bit(t0, s + 4) == cd[s + 4 - 4];
    } else {
      SevenBits(t1, s / 7 - 4, s % 7);
      assert Bit(t1, s - 24) == cd[24 + (s - 24)];
    }
  }

  /** A pair of 24-bit words that hold a round key. */
  ghost predicate HoldsKey(kl: bv32, kr: bv32, k: BitString)
    requires |k| == 48
  {
    && (forall o :: 8 <= o < 32 ==> Bit(kl, o) == k[o - 8] && Bit(kr, o) == k[16 + o])
    && (forall o :: 0 <= o < 8 ==> !Bit(kl, o) && !Bit(kr, o))
  }

  /** The key compression by lookup is permuted choice 2. */
  lemma Choose2ByLookup(l: array2<bv32>, r: array2<bv32>, t0: bv32, t1: bv32, cd: BitString)
    requires TableOk(l, 128, 7, 7, 8, CompSource(), 0) && TableOk(r, 128, 7, 7, 8, CompSource(), 24)
    requires |cd| == 56 && LowHalves(t0, t1, cd)
    ensures var x := CompChunks(t0, t1); HoldsKey(Lookup(l, x), Lookup(r, x), Choose2(cd))
  {
    hide TableOk, Lookup, Bit, ByteBit, CompChunks, PC2, LowHalves;
    var x := CompChunks(t0, t1);
    TableShape(l, 128, 7, 7, 8, CompSource(), 0);
    TableShape(r, 128, 7, 7, 8, CompSource(), 24);
    forall o | 8 <= o < 32
      ensures Bit(Lookup(l, x), o) == Choose2(cd)[o - 8]
      ensures Bit(Lookup(r, x), o) == Choose2(cd)[16 + o]
    {
      var s, s' := PC2(o - 8) - 1, PC2(16 + o) - 1;
      LookupBit(l, x, 128, 7, 7, 8, CompSource(), 0, o, s / 7, s % 7);
      LookupBit(r, x, 128, 7, 7, 8, CompSource(), 24, o, s' / 7, s' % 7);
      CompChunkBit(t0, t1, cd, s);
      CompChunkBit(t0, t1, cd, s');
    }
    forall o | 0 <= o < 8
      ensures !Bit(Lookup(l, x), o) && !Bit(Lookup(r, x), o)
    {
      LookupClear(l, x, 128, 7, 7, 8, CompSource(), 0, o);
      LookupClear(r, x, 128, 7, 7, 8, CompSource(), 24, o);
    }
  }

  /** The rotated words of round n hold the halves of round n. */
  lemma RotatedHalves(k0: bv32, k1: bv32, key: BitString, n: nat)
    requires |key| == 64 && Total(n) <= 28 && HoldsHalves(k0, k1, Choose1(key))
    ensures LowHalves(Rotated(k0, Total(n)), Rotated(k1, Total(n)), Halves(key, n))
  {
    hide Rotated, Bit, Choose1, Total, Halves;
    HalvesTotal(key, n);
    forall o | 4 <= o < 32
      ensures Bit(Rotated(k0, Total(n)), o) == Halves(key, n)[o - 4]
      ensures Bit(Rotated(k1, Total(n)), o) == Halves(key, n)[24 + o]
    {
      RotatedBit(k0, Total(n), o - 4);
      RotatedBit(k1, Total(n), o - 4);
    }
  }
}
