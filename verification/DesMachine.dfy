/** The static DES state of des.c and the functions that use it. */
module DesMachine {
  import opened WordBits
  import opened DesTables
  import opened Fips46
  import opened DesMasks
  import opened DesRound
  import opened DesBoxes
  import opened DesKeys

  // ----- the initial and final permutations by lookup

  function Chunks(l: bv32, r: bv32): (x: seq<bv8>)
    ensures |x| == 8 && forall k :: 0 <= k < 8 ==> (x[k] as nat) < 256
  {
    [Byte0(l), Byte1(l), Byte2(l), Byte3(l), Byte0(r), Byte1(r), Byte2(r), Byte3(r)]
  }

  lemma ChunkBit(l: bv32, r: bv32, s: nat)
    requires s < 64
    ensures ByteBit(Chunks(l, r)[s / 8], s % 8 + 0) == (Bits(l) + Bits(r))[s]
  {
    hide Byte0, Byte1, Byte2, Byte3, ByteBit, Bit;
    if s < 32 {
      ByteBits(l, s / 8, s % 8);
    } else {
      ByteBits(r, s / 8 - 4, s % 8);
    }
  }

  /** A permutation of 64 bits by a pair of mask tables. */
  lemma PermutedByLookup(tl: array2<bv32>, tr: array2<bv32>, src: seq<nat>, l: bv32, r: bv32, o: nat)
    requires |src| == 64 && forall i :: 0 <= i < 64 ==> src[i] < 64
    requires TableOk(tl, 256, 8, 8, 0, src, 0) && TableOk(tr, 256, 8, 8, 0, src, 32)
    requires o < 64
    ensures var x := Chunks(l, r); (Bits(Lookup(tl, x)) + Bits(Lookup(tr, x)))[o] == (Bits(l) + Bits(r))[src[o]]
  {
    hide TableOk, Lookup, Bit, ByteBit, Chunks;
    var x := Chunks(l, r);
    TableShape(tl, 256, 8, 8, 0, src, 0);
    TableShape(tr, 256, 8, 8, 0, src, 32);
    var s := src[o];
    if o < 32 {
      LookupBit(tl, x, 256, 8, 8, 0, src, 0, o, s / 8, s % 8);
    } else {
      LookupBit(tr, x, 256, 8, 8, 0, src, 32, o - 32, s / 8, s % 8);
    }
    ChunkBit(l, r, s);
  }

  ghost function IpSource(): (s: seq<nat>)
    ensures |s| == 64 && forall i :: 0 <= i < 64 ==> s[i] < 64
  {
    seq(64, o requires 0 <= o < 64 => IP(o) - 1)
  }

  ghost function FpSource(): (s: seq<nat>)
    ensures |s| == 64 && forall i :: 0 <= i < 64 ==> s[i] < 64
  {
    seq(64, o requires 0 <= o < 64 => FP(o) - 1)
  }

  // ----- the tables built by des_init

  datatype Tables = NotBuilt | Tables(
    ip_maskl: array2<bv32>, ip_maskr: array2<bv32>, fp_maskl: array2<bv32>, fp_maskr: array2<bv32>,
    key_perm_maskl: array2<bv32>, key_perm_maskr: array2<bv32>, comp_maskl: array2<bv32>, comp_maskr: array2<bv32>,
    m_sbox: array2<bv8>, psbox: array2<bv32>)

  ghost function Objects(t: Tables): set<object> {
    if t.NotBuilt? then {} else
      var boxes: object := t.m_sbox;
      var masks: set<object> := {t.ip_maskl, t.ip_maskr, t.fp_maskl, t.fp_maskr, t.key_perm_maskl, t.key_perm_maskr,
                                 t.comp_maskl, t.comp_maskr, t.psbox};
      {boxes} + masks
  }

  ghost predicate TablesOk(t: Tables)
    requires t.Tables?
    reads t.ip_maskl, t.ip_maskr, t.fp_maskl, t.fp_maskr, t.key_perm_maskl, t.key_perm_maskr,
          t.comp_maskl, t.comp_maskr, t.m_sbox, t.psbox
  {
    && TableOk(t.ip_maskl, 256, 8, 8, 0, IpSource(), 0) && TableOk(t.ip_maskr, 256, 8, 8, 0, IpSource(), 32)
    && TableOk(t.fp_maskl, 256, 8, 8, 0, FpSource(), 0) && TableOk(t.fp_maskr, 256, 8, 8, 0, FpSource(), 32)
    && TableOk(t.key_perm_maskl, 128, 7, 8, 4, KeySource(), 0) && TableOk(t.key_perm_maskr, 128, 7, 8, 4, KeySource(), 28)
    && TableOk(t.comp_maskl, 128, 7, 7, 8, CompSource(), 0) && TableOk(t.comp_maskr, 128, 7, 7, 8, CompSource(), 24)
    && BoxesOk(t.m_sbox) && POk(t.psbox)
  }

  lemma IpInverse(init_perm: seq<nat>, final_perm: seq<nat>)
    requires |init_perm| == |final_perm| == 64
    requires forall i :: 0 <= i < 64 ==> final_perm[i] == IP(i) - 1 && init_perm[IP(i) - 1] == i
    ensures Inverse(init_perm, IpSource()) && Inverse(final_perm, FpSource())
  {
    hide IP, FP, Inverse;
    forall b | 0 <= b < 64
      ensures init_perm[b] == FP(b) - 1
    {
      FpThenIp(b);
      assert init_perm[IP(FP(b) - 1) - 1] == FP(b) - 1;
    }
    forall b | 0 <= b < 64
      ensures IP(init_perm[b]) - 1 == b
    {
      FpThenIp(b);
    }
    InverseOf(init_perm, IpSource());
    forall b | 0 <= b < 64
      ensures FP(final_perm[b]) - 1 == b && final_perm[FP(b) - 1] == b
    {
      FpThenIp(b);
      IpThenFp(b);
    }
    InverseOf(final_perm, FpSource());
  }

  /** The setup of the initial, final and inverted key permutations. */
  method BuildIpTables() returns (il: array2<bv32>, ir: array2<bv32>, fl: array2<bv32>, fr: array2<bv32>)
    ensures fresh(il) && fresh(ir) && fresh(fl) && fresh(fr)
    ensures TableOk(il, 256, 8, 8, 0, IpSource(), 0) && TableOk(ir, 256, 8, 8, 0, IpSource(), 32)
    ensures TableOk(fl, 256, 8, 8, 0, FpSource(), 0) && TableOk(fr, 256, 8, 8, 0, FpSource(), 32)
  {
    hide TableOk, Inverse, IP, FP;
    var init_perm, final_perm := new nat[64], new nat[64];
    for i := 0 to 64
      invariant forall k :: 0 <= k < i ==> final_perm[k] == IP(k) - 1 && init_perm[IP(k) - 1] == k
    {
      forall k | 0 <= k < i ensures IP(k) != IP(i) { IpThenFp(k); IpThenFp(i); }
      final_perm[i] := IP(i) - 1;
      init_perm[final_perm[i]] := i;
    }
    IpInverse(init_perm[..], final_perm[..]);
    il, ir := new bv32[8, 256], new bv32[8, 256];
    FillTables(il, ir, 256, 8, 8, 0, init_perm, IpSource());
    fl, fr := new bv32[8, 256], new bv32[8, 256];
    FillTables(fl, fr, 256, 8, 8, 0, final_perm, FpSource());
  }

  lemma PC1Distinct(i: nat)
    requires i < 56
    ensures forall k :: 0 <= k < i ==> PC1(k) != PC1(i)
  {
    hide PC1, InvPC1;
    InvertPC1(i);
    forall k | 0 <= k < i
      ensures PC1(k) != PC1(i)
    {
      InvertPC1(k);
    }
  }

  method BuildKeyTables() returns (l: array2<bv32>, r: array2<bv32>)
    ensures fresh(l) && fresh(r)
    ensures TableOk(l, 128, 7, 8, 4, KeySource(), 0) && TableOk(r, 128, 7, 8, 4, KeySource(), 28)
  {
    hide TableOk, Inverse, PC1, InvPC1;
    var inv_key_perm := new nat[64](_ => 255);
    for i := 0 to 56
      invariant forall k :: 0 <= k < i ==> inv_key_perm[PC1(k) - 1] == k
      invariant forall b :: 0 <= b < 64 ==> inv_key_perm[b] == 255 || (inv_key_perm[b] < i && PC1(inv_key_perm[b]) - 1 == b)
    {
      PC1Distinct(i);
      inv_key_perm[PC1(i) - 1] := i;
    }
    InverseOf(inv_key_perm[..], KeySource());
    l, r := new bv32[8, 128], new bv32[8, 128];
    FillTables(l, r, 128, 7, 8, 4, inv_key_perm, KeySource());
  }

  lemma PC2Distinct(i: nat)
    requires i < 48
    ensures forall k :: 0 <= k < i ==> PC2(k) != PC2(i)
  {
    hide PC2, InvPC2;
    InvertPC2(i);
    forall k | 0 <= k < i
      ensures PC2(k) != PC2(i)
    {
      InvertPC2(k);
    }
  }

  method BuildCompTables() returns (l: array2<bv32>, r: array2<bv32>)
    ensures fresh(l) && fresh(r)
    ensures TableOk(l, 128, 7, 7, 8, CompSource(), 0) && TableOk(r, 128, 7, 7, 8, CompSource(), 24)
  {
    hide TableOk, Inverse, PC2, InvPC2;
    var inv_comp_perm := new nat[56](_ => 255);
    for i := 0 to 48
      invariant forall k :: 0 <= k < i ==> inv_comp_perm[PC2(k) - 1] == k
      invariant forall b :: 0 <= b < 56 ==> inv_comp_perm[b] == 255 || (inv_comp_perm[b] < i && PC2(inv_comp_perm[b]) - 1 == b)
    {
      PC2Distinct(i);
      inv_comp_perm[PC2(i) - 1] := i;
    }
    InverseOf(inv_comp_perm[..], CompSource());
    l, r := new bv32[8, 128], new bv32[8, 128];
    FillTables(l, r, 128, 7, 7, 8, inv_comp_perm, CompSource());
  }

  lemma InverseOf(dest: seq<nat>, src: seq<nat>)
    requires |src| <= 255 && forall k :: 0 <= k < |src| ==> src[k] < |dest| && dest[src[k]] == k
    requires forall b :: 0 <= b < |dest| ==> dest[b] == 255 || (dest[b] < |src| && src[dest[b]] == b)
    ensures Inverse(dest, src)
  {}

  method BuildBoxes() returns (m: array2<bv8>, p: array2<bv32>)
    ensures fresh(m) && fresh(p) && BoxesOk(m) && POk(p)
  {
    hide BoxesOk, POk;
    m := new bv8[4, 4096];
    FillBoxes(m);
    p := new bv32[4, 256];
    FillP(p);
  }

  method BuildTables() returns (t: Tables)
    ensures t.Tables? && TablesOk(t) && fresh(Objects(t))
  {
    hide TableOk, BoxesOk, POk;
    var il, ir, fl, fr := BuildIpTables();
    var kl, kr := BuildKeyTables();
    var cl, cr := BuildCompTables();
    var m, p := BuildBoxes();
    t := Tables(il, ir, fl, fr, kl, kr, cl, cr, m, p);
  }

  // ----- one round

  /** Salting with the words of do_des is the salt swap of crypt(3), followed by the key. */
  lemma SaltedBits(r: bv32, kl: bv32, kr: bv32, saltbits: bv32, k: BitString, salt: BitString, o: nat)
    requires |k| == 48 && |salt| == 24 && HoldsKey(kl, kr, k) && salt == Bits24(saltbits) && 8 <= o < 32
    ensures var l48, r48 := ExpandLeft(r), ExpandRight(r);
      var f := And(Xor32(l48, r48), saltbits);
      var x := Xor(SaltSwap(Expand(Bits(r)), salt), k);
      && Bit(Xor32(l48, Xor32(f, kl)), o) == x[o - 8]
      && Bit(Xor32(r48, Xor32(f, kr)), o) == x[16 + o]
  {
    hide Bit, And, Xor32, ExpandLeft, ExpandRight, E, SaltSwap, Expand, Xor;
    var l48, r48 := ExpandLeft(r), ExpandRight(r);
    LeftBits(r, o - 8);
    RightBits(r, o - 8);
    SaltedBit(l48, r48, kl, saltbits, o);
    SaltedBit(r48, l48, kr, saltbits, o);
    XorSame(l48, r48);
    assert salt[o - 8] == Bit(saltbits, 8 + (o - 8));
    SwappedBits(r, salt, k, o - 8);
  }

  /** Bits i and i + 24 of the salted and keyed E output. */
  lemma SwappedBits(r: bv32, salt: BitString, k: BitString, i: nat)
    requires |k| == 48 && |salt| == 24 && i < 24
    ensures var x := Xor(SaltSwap(Expand(Bits(r)), salt), k);
      && x[i] == ((if salt[i] then Bit(r, E(24 + i) - 1) else Bit(r, E(i) - 1)) != k[i])
      && x[24 + i] == ((if salt[i] then Bit(r, E(i) - 1) else Bit(r, E(24 + i) - 1)) != k[24 + i])
  {
    hide Bit, E;
    var e := Expand(Bits(r));
    assert e[i] == Bit(r, E(i) - 1) && e[24 + i] == Bit(r, E(24 + i) - 1);
    hide Expand;
    var s := SaltSwap(e, salt);
    assert s[i] == if salt[i] then e[24 + i] else e[i];
    assert s[24 + i] == if salt[i] then e[i] else e[24 + i];
  }

  lemma XorSame(a: bv32, b: bv32)
    ensures Xor32(a, b) == Xor32(b, a)
  {}

  /** One bit of a half after salting and keying. */
  lemma SaltedBit(a: bv32, b: bv32, k: bv32, saltbits: bv32, o: nat)
    ensures Bit(Xor32(a, Xor32(And(Xor32(a, b), saltbits), k)), o)
      == ((if Bit(saltbits, o) then Bit(b, o) else Bit(a, o)) != Bit(k, o))
  {
    hide Bit, And, Xor32;
    var f := And(Xor32(a, b), saltbits);
    XorBit(a, b, o);
    AndBit(Xor32(a, b), saltbits, o);
    XorBit(f, k, o);
    XorBit(a, Xor32(f, k), o);
  }

  lemma RawSmall(l: bv32, r: bv32, s: bv32, k: bv32)
    requires l < 0x100_0000 && r < 0x100_0000 && k < 0x100_0000
    ensures Xor32(l, Xor32(And(Xor32(l, r), s), k)) < 0x100_0000 && Xor32(r, Xor32(And(Xor32(l, r), s), k)) < 0x100_0000
  {}

  lemma SmallKey(k: bv32)
    requires forall o :: 0 <= o < 8 ==> !Bit(k, o)
    ensures k < 0x100_0000
  {
    hide Test;
    assert !Bit(k, 0) && !Bit(k, 1) && !Bit(k, 2) && !Bit(k, 3) && !Bit(k, 4) && !Bit(k, 5) && !Bit(k, 6) && !Bit(k, 7);
    HighClear(k);
  }

  lemma HighClear(k: bv32)
    requires !Test(k, 0x80000000) && !Test(k, 0x40000000) && !Test(k, 0x20000000) && !Test(k, 0x10000000)
    requires !Test(k, 0x08000000) && !Test(k, 0x04000000) && !Test(k, 0x02000000) && !Test(k, 0x01000000)
    ensures k < 0x100_0000
  {}

  /** The words of do_des compute the cipher function of FIPS 46-3, salted. */
  lemma RoundWord(m: array2<bv8>, t: array2<bv32>, r: bv32, kl: bv32, kr: bv32, saltbits: bv32, key: RoundKey)
    requires BoxesOk(m) && POk(t)
    requires |key.k| == 48 && HoldsKey(kl, kr, key.k) && key.salt == Bits24(saltbits)
    ensures var l48, r48 := ExpandLeft(r), ExpandRight(r);
      var f := And(Xor32(l48, r48), saltbits);
      var l, r' := Xor32(l48, Xor32(f, kl)), Xor32(r48, Xor32(f, kr));
      && m.Length0 == 4 && m.Length1 == 4096 && t.Length0 == 4 && t.Length1 == 256
      && l < 0x100_0000 && r' < 0x100_0000 && Bits(Boxes(m, t, l, r')) == F(Bits(r), key)
  {
    hide Bit, And, Xor32, ExpandLeft, ExpandRight, E, BoxesOk, POk, Boxes, Permute, Substitute, Xor, SaltSwap, Expand;
    Shapes(m, t);
    var l48, r48 := ExpandLeft(r), ExpandRight(r);
    var f := And(Xor32(l48, r48), saltbits);
    ExpandSmall(r);
    SmallKey(kl);
    SmallKey(kr);
    RawSmall(l48, r48, saltbits, kl);
    RawSmall(l48, r48, saltbits, kr);
    var x := Xor(SaltSwap(Expand(Bits(r)), key.salt), key.k);
    forall o | 8 <= o < 32
      ensures Bit(Xor32(l48, Xor32(f, kl)), o) == x[o - 8] && Bit(Xor32(r48, Xor32(f, kr)), o) == x[16 + o]
    {
      SaltedBits(r, kl, kr, saltbits, key.k, key.salt, o);
    }
    BoxesBits(m, t, Xor32(l48, Xor32(f, kl)), Xor32(r48, Xor32(f, kr)), x);
  }

  lemma XorWords(a: bv32, b: bv32)
    ensures Bits(Xor32(a, b)) == Xor(Bits(a), Bits(b))
  {
    hide Bit, Xor32;
    forall i | 0 <= i < 32
      ensures Bit(Xor32(a, b), i) == Xor(Bits(a), Bits(b))[i]
    {
      XorBit(a, b, i);
    }
  }
}
