/** The combined S-box and P tables of des.c, and the cipher function built on them. */
module DesBoxes {
  import opened WordBits
  import opened DesTables
  import opened Fips46
  import opened DesMasks
  import opened DesRound

  // ----- m_sbox: two boxes at a time

  /** The reordering of des_init: row bits first, then column bits. */
  function Reorder(v: bv8): bv8 {
    (v & 0x20) | ((v & 1) << 4) | ((v >> 1) & 0xf)
  }

  /** An entry of u_sbox. */
  function Unshuffled(n: nat, v: bv8): bv4 {
    Sbox(n, Reorder(v))
  }

  function Pair(u: bv4, v: bv4): bv8 {
    ((u as bv8) << 4) | v as bv8
  }

  /** The table index made of two six-bit box inputs. */
  function Twelve(i: bv8, j: bv8): bv12 {
    ((i as bv12) << 6) | j as bv12
  }

  function Cell(m: array2<bv8>, b: nat, i: bv8, j: bv8): bv8
    requires b < m.Length0 && m.Length1 == 4096
    reads m
  {
    m[b, Twelve(i, j) as nat]
  }

  ghost predicate BoxEntry(m: array2<bv8>, b: nat, i: bv8, j: bv8)
    requires b < m.Length0 && m.Length1 == 4096
    reads m
  {
    Cell(m, b, i, j) == Pair(Unshuffled(2 * b, i), Unshuffled(2 * b + 1, j))
  }

  ghost predicate BoxesOk(m: array2<bv8>)
    reads m
  {
    && m.Length0 == 4 && m.Length1 == 4096
    && forall b: nat, i: bv8, j: bv8 :: b < 4 && i < 64 && j < 64 ==> BoxEntry(m, b, i, j)
  }

  lemma TwelveParts(i: bv8, j: bv8, i': bv8, j': bv8)
    requires i < 64 && j < 64 && i' < 64 && j' < 64
    ensures Twelve(i, j) == Twelve(i', j') ==> i == i' && j == j'
  {}

  lemma TwelveIndex(i: bv8, j: bv8, i': bv8, j': bv8)
    requires i < 64 && j < 64 && i' < 64 && j' < 64
    ensures (Twelve(i, j) as nat) == (Twelve(i', j') as nat) ==> i == i' && j == j'
  {
    hide Twelve;
    assert (Twelve(i, j) as nat) as bv12 == Twelve(i, j);
    assert (Twelve(i', j') as nat) as bv12 == Twelve(i', j');
    TwelveParts(i, j, i', j');
  }

  lemma Below(x: bv8, y: bv8)
    requires y < 64
    ensures y + 1 <= 64
    ensures x < y + 1 && x != y ==> x < y
  {}

  /** The loops of des_init that merge pairs of reordered S-boxes. */
  method FillBoxes(m: array2<bv8>)
    requires m.Length0 == 4 && m.Length1 == 4096
    modifies m
    ensures BoxesOk(m)
  {
    hide Reorder, Sbox, Pair, Twelve;
    for b := 0 to 4
      invariant forall b': nat, i: bv8, j: bv8 :: b' < b && i < 64 && j < 64 ==> BoxEntry(m, b', i, j)
    {
      var i: bv8 := 0;
      while i < 64
        invariant i <= 64
        invariant forall b': nat, i: bv8, j: bv8 :: b' < b && i < 64 && j < 64 ==> BoxEntry(m, b', i, j)
        invariant forall i': bv8, j: bv8 :: i' < i && j < 64 ==> BoxEntry(m, b, i', j)
        decreases 64 - i
      {
        label before:
        FillRow(m, b, i);
        forall b': nat, i': bv8, j: bv8 | b' <= b && i' < 64 && j < 64 && (b' < b || i' < i + 1)
          ensures BoxEntry(m, b', i', j)
        {
          if b' < b || i' != i {
            Below(i', i);
            assert old@before(BoxEntry(m, b', i', j));
            assert Cell(m, b', i', j) == old@before(Cell(m, b', i', j));
          }
        }
        Below(i, i);
        i := i + 1;
      }
    }
  }

  /** The innermost of these loops. */
  method FillRow(m: array2<bv8>, b: nat, i: bv8)
    requires m.Length0 == 4 && m.Length1 == 4096 && b < 4 && i < 64
    modifies m
    ensures forall j: bv8 :: j < 64 ==> BoxEntry(m, b, i, j)
    ensures forall b': nat, i': bv8, j: bv8 :: b' < 4 && i' < 64 && j < 64 && (b' != b || i' != i) ==>
      Cell(m, b', i', j) == old(Cell(m, b', i', j))
  {
    hide Unshuffled, Pair, Cell;
    var j: bv8 := 0;
    while j < 64
      invariant j <= 64
      invariant forall j': bv8 :: j' < j ==> BoxEntry(m, b, i, j')
      invariant forall b': nat, i': bv8, j': bv8 :: b' < 4 && i' < 64 && j' < 64 && (b' != b || i' != i) ==>
        Cell(m, b', i', j') == old(Cell(m, b', i', j'))
      decreases 64 - j
    {
      label before:
      SetCell(m, b, i, j, Pair(Unshuffled(2 * b, i), Unshuffled(2 * b + 1, j)));
      forall j': bv8 | j' < j + 1
        ensures BoxEntry(m, b, i, j')
      {
        if j' != j {
          Below(j', j);
          assert old@before(BoxEntry(m, b, i, j'));
        }
      }
      Below(j, j);
      j := j + 1;
    }
  }

  method SetCell(m: array2<bv8>, b: nat, i: bv8, j: bv8, v: bv8)
    requires m.Length0 == 4 && m.Length1 == 4096 && b < 4 && i < 64 && j < 64
    modifies m
    ensures Cell(m, b, i, j) == v
    ensures forall b': nat, i': bv8, j': bv8 :: b' < 4 && i' < 64 && j' < 64 && (b' != b || i' != i || j' != j) ==>
      Cell(m, b', i', j') == old(Cell(m, b', i', j'))
  {
    hide Twelve;
    forall i': bv8, j': bv8 | i' < 64 && j' < 64
      ensures (Twelve(i, j) as nat) == (Twelve(i', j') as nat) ==> i == i' && j == j'
    {
      TwelveIndex(i, j, i', j');
    }
    m[b, Twelve(i, j) as nat] := v;
  }

  // ----- what a pair of boxes yields

  lemma RawReorder(v: bv8)
    requires v < 64
    ensures (v & 0x20) | ((v & 1) << 4) | ((v >> 1) & 0xf)
      == (if v & 0x20 != 0 then 0x20 else 0) | (if v & 1 != 0 then 0x10 else 0)
         | (if v & 0x10 != 0 then 8 else 0) | (if v & 8 != 0 then 4 else 0) | (if v & 4 != 0 then 2 else 0) | (if v & 2 != 0 then 1 else 0)
  {}

  /** The reordered index is row * 16 + column of the standard. */
  lemma ReorderIsRowColumn(v: bv8)
    requires v < 64
    ensures Reorder(v) == RowColumn(ByteBit(v, 2), ByteBit(v, 3), ByteBit(v, 4), ByteBit(v, 5), ByteBit(v, 6), ByteBit(v, 7))
  {
    RawReorder(v);
  }

  /** The bits of a merged entry are those of its two box values. */
  lemma PairBit(u: bv4, v: bv4, c: nat)
    requires c < 8
    ensures ByteBit(Pair(u, v), c) == if c < 4 then NibbleBit(u, c) else NibbleBit(v, c - 4)
  {}

  /** The six input bits of a box, as they stand in a 24-bit half. */
  ghost predicate HalfOf(w: bv32, x: BitString, first: nat)
    requires |x| == 48 && first <= 24
  {
    forall i :: 8 <= i < 32 ==> Bit(w, i) == x[first + i - 8]
  }

  lemma BoxInput(w: bv32, x: BitString, first: nat, q: nat, n: nat)
    requires |x| == 48 && first <= 24 && HalfOf(w, x, first) && q < 4 && n < 8 && 6 * n == first + 6 * q
    ensures Six(w, q) < 64 && Unshuffled(n, Six(w, q)) == BoxValue(x, n)
  {
    hide Six, Bit, ByteBit, Reorder, RowColumn, Sbox;
    SixSmall(w, q);
    forall k | 2 <= k < 8
      ensures ByteBit(Six(w, q), k) == x[6 * n + k - 2]
    {
      SixBits(w, q, k - 2);
      assert Bit(w, 8 + 6 * q + (k - 2)) == x[first + 8 + 6 * q + (k - 2) - 8];
    }
    ReorderIsRowColumn(Six(w, q));
  }

  lemma SixSmall(w: bv32, q: nat)
    ensures Six(w, q) < 64
  {}

  /** The two table indices taken from a half. */
  function UpperTwelve(w: bv32): bv12
    requires w < 0x100_0000
  {
    (w >> 12) as bv12
  }

  function LowerTwelve(w: bv32): bv12 { (w & 0xfff) as bv12 }

  lemma TwelveOfHalf(w: bv32)
    requires w < 0x100_0000
    ensures UpperTwelve(w) == Twelve(Six0(w), Six1(w)) && LowerTwelve(w) == Twelve(Six2(w), Six3(w))
  {
    RawUpper(w);
    RawLower(w);
  }

  lemma RawUpper(w: bv32)
    requires w < 0x100_0000
    ensures (w >> 12) as bv12 == (((((w >> 18) & 0x3f) as bv8) as bv12) << 6) | (((w >> 12) & 0x3f) as bv8) as bv12
  {}

  lemma RawLower(w: bv32)
    ensures (w & 0xfff) as bv12 == (((((w >> 6) & 0x3f) as bv8) as bv12) << 6) | ((w & 0x3f) as bv8) as bv12
  {}

  // ----- psbox

  /** Where each bit of the S-box output comes from in P, padded with a second half that nothing reaches. */
  ghost function PSource(): (s: seq<nat>)
    ensures |s| == 64
  {
    seq(64, o requires 0 <= o < 64 => if o < 32 then P(o) - 1 else 255)
  }

  ghost predicate POk(t: array2<bv32>)
    reads t
  {
    && t.Length0 == 4 && t.Length1 == 256
    && forall b, i :: 0 <= b < 4 && 0 <= i < 256 ==> EntryOk(t[b, i], i as bv8, 8 * b, 8, 8, 0, PSource(), 0)
  }

  lemma UnPboxInverse(dest: seq<nat>)
    requires |dest| == 32 && forall i :: 0 <= i < 32 ==> dest[P(i) - 1] == i
    ensures Inverse(dest, PSource())
  {
    hide P, InvP;
    forall b | 0 <= b < 32
      ensures dest[b] < 32 && P(dest[b]) - 1 == b
    {
      InvertInvP(b);
    }
  }

  /** The last loops of des_init. */
  method FillP(t: array2<bv32>)
    requires t.Length0 == 4 && t.Length1 == 256
    modifies t
    ensures POk(t)
  {
    hide EntryOk, Inverse, P, InvP, PSource;
    var un_pbox := new nat[32];
    for i := 0 to 32
      invariant forall i' :: 0 <= i' < i ==> un_pbox[P(i') - 1] == i'
    {
      forall i' | 0 <= i' < i ensures P(i') != P(i) { InvertP(i'); InvertP(i); }
      un_pbox[P(i) - 1] := i;
    }
    UnPboxInverse(un_pbox[..]);
    ghost var ds := un_pbox[..];
    for b := 0 to 4
      invariant un_pbox[..] == ds
      invariant forall b', i :: 0 <= b' < b && 0 <= i < 256 ==> EntryOk(t[b', i], i as bv8, 8 * b', 8, 8, 0, PSource(), 0)
    {
      for i := 0 to 256
        invariant un_pbox[..] == ds
        invariant forall b', i' :: 0 <= b' < b && 0 <= i' < 256 ==> EntryOk(t[b', i'], i' as bv8, 8 * b', 8, 8, 0, PSource(), 0)
        invariant forall i' :: 0 <= i' < i ==> EntryOk(t[b, i'], i' as bv8, 8 * b, 8, 8, 0, PSource(), 0)
      {
        var l, r := MaskEntry(i as bv8, 8, 8 * b, 0, un_pbox, PSource());
        t[b, i] := l;
      }
    }
  }

  // ----- the cipher function

  function Or4(a: bv32, b: bv32, c: bv32, d: bv32): bv32 { Or(Or(Or(a, b), c), d) }

  lemma Or4Bit(a: bv32, b: bv32, c: bv32, d: bv32, o: nat)
    ensures Bit(Or4(a, b, c, d), o) == (Bit(a, o) || Bit(b, o) || Bit(c, o) || Bit(d, o))
  {
    hide Bit, Or;
    OrBit(a, b, o);
    OrBit(Or(a, b), c, o);
    OrBit(Or(Or(a, b), c), d, o);
  }

  /** The S-box lookups, which shrink 48 bits to 32 and permute them at the same time. */
  function Boxes(m: array2<bv8>, t: array2<bv32>, l: bv32, r: bv32): bv32
    requires m.Length0 == 4 && m.Length1 == 4096 && t.Length0 == 4 && t.Length1 == 256
    requires l < 0x100_0000 && r < 0x100_0000
    reads m, t
  {
    Or4(t[0, m[0, UpperTwelve(l) as nat] as nat], t[1, m[1, LowerTwelve(l) as nat] as nat],
        t[2, m[2, UpperTwelve(r) as nat] as nat], t[3, m[3, LowerTwelve(r) as nat] as nat])
  }

  /** The merged entry for pair b holds the outputs of boxes 2b and 2b + 1. */
  ghost predicate Holds(v: bv8, x: BitString, b: nat)
    requires |x| == 48 && b < 4
  {
    v == Pair(BoxValue(x, 2 * b), BoxValue(x, 2 * b + 1))
  }

  lemma PairsHold(m: array2<bv8>, l: bv32, r: bv32, x: BitString)
    requires BoxesOk(m) && l < 0x100_0000 && r < 0x100_0000
    requires |x| == 48 && HalfOf(l, x, 0) && HalfOf(r, x, 24)
    ensures Holds(m[0, UpperTwelve(l) as nat], x, 0) && Holds(m[1, LowerTwelve(l) as nat], x, 1)
    ensures Holds(m[2, UpperTwelve(r) as nat], x, 2) && Holds(m[3, LowerTwelve(r) as nat], x, 3)
  {
    hide Pair, Unshuffled, BoxValue, Twelve, UpperTwelve, LowerTwelve, HalfOf, Six0, Six1, Six2, Six3;
    TwelveOfHalf(l);
    TwelveOfHalf(r);
    BoxInput(l, x, 0, 0, 0);
    BoxInput(l, x, 0, 1, 1);
    BoxInput(l, x, 0, 2, 2);
    BoxInput(l, x, 0, 3, 3);
    BoxInput(r, x, 24, 0, 4);
    BoxInput(r, x, 24, 1, 5);
    BoxInput(r, x, 24, 2, 6);
    BoxInput(r, x, 24, 3, 7);
    assert BoxEntry(m, 0, Six0(l), Six1(l)) && BoxEntry(m, 1, Six2(l), Six3(l));
    assert BoxEntry(m, 2, Six0(r), Six1(r)) && BoxEntry(m, 3, Six2(r), Six3(r));
  }

  /** One psbox lookup: position o receives bit P(o) - 1 of the S-box output if this pair makes it. */
  lemma POne(t: array2<bv32>, v: bv8, x: BitString, b: nat, o: nat)
    requires POk(t) && |x| == 48 && b < 4 && o < 32 && Holds(v, x, b)
    ensures Bit(t[b, v as nat], o) == (8 * b <= P(o) - 1 < 8 * b + 8 && Substitute(x)[P(o) - 1])
  {
    hide Bit, ByteBit, Pair, BoxValue, P, NibbleBit;
    SmallIndex(v);
    assert EntryOk(t[b, v as nat], (v as nat) as bv8, 8 * b, 8, 8, 0, PSource(), 0);
    var s := P(o) - 1;
    assert Source(PSource(), 0, 0, o) == s;
    if 8 * b <= s < 8 * b + 8 {
      PairBit(BoxValue(x, 2 * b), BoxValue(x, 2 * b + 1), s - 8 * b);
    }
  }

  /** The lookups compute P after S. */
  lemma BoxesBits(m: array2<bv8>, t: array2<bv32>, l: bv32, r: bv32, x: BitString)
    requires BoxesOk(m) && POk(t) && l < 0x100_0000 && r < 0x100_0000
    requires |x| == 48 && HalfOf(l, x, 0) && HalfOf(r, x, 24)
    ensures Bits(Boxes(m, t, l, r)) == Permute(Substitute(x))
  {
    hide Holds, HalfOf, BoxesOk, POk, Bit, P, Or4, UpperTwelve, LowerTwelve, Substitute;
    PairsHold(m, l, r, x);
    Shapes(m, t);
    var v0, v1 := m[0, UpperTwelve(l) as nat], m[1, LowerTwelve(l) as nat];
    var v2, v3 := m[2, UpperTwelve(r) as nat], m[3, LowerTwelve(r) as nat];
    forall o | 0 <= o < 32
      ensures Bit(Boxes(m, t, l, r), o) == Permute(Substitute(x))[o]
    {
      POne(t, v0, x, 0, o);
      POne(t, v1, x, 1, o);
      POne(t, v2, x, 2, o);
      POne(t, v3, x, 3, o);
      Or4Bit(t[0, v0 as nat], t[1, v1 as nat], t[2, v2 as nat], t[3, v3 as nat], o);
    }
  }

  lemma Shapes(m: array2<bv8>, t: array2<bv32>)
    requires BoxesOk(m) && POk(t)
    ensures m.Length0 == 4 && m.Length1 == 4096 && t.Length0 == 4 && t.Length1 == 256
  {}
}
