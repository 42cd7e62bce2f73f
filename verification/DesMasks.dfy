/** The OR-mask tables of des.c: what an entry must hold, how des_init fills one,
    and why OR-ing one entry per chunk of a word permutes its bits. */
module DesMasks {
  import opened WordBits

  // ----- chunks of a word, used as table indices

  lemma SmallIndex(x: bv8)
    ensures x < 128 ==> (x as nat) < 128
    ensures (x as nat) < 256 && (x as nat) as bv8 == x
  {}

  /** The four bytes of a word. */
  function Byte(w: bv32, q: nat): bv8 {
    match q
    case 0 => Byte0(w)
    case 1 => Byte1(w)
    case 2 => Byte2(w)
    case _ => Byte3(w)
  }

  function Byte0(w: bv32): bv8 { (w >> 24) as bv8 }
  function Byte1(w: bv32): bv8 { ((w >> 16) & 0xff) as bv8 }
  function Byte2(w: bv32): bv8 { ((w >> 8) & 0xff) as bv8 }
  function Byte3(w: bv32): bv8 { (w & 0xff) as bv8 }

  lemma RawByte0(w: bv32, m: bv8)
    ensures (((w >> 24) as bv8) & m != 0) == (w & ((m as bv32) << 24) != 0)
  {}

  lemma ByteBits0(w: bv32, j: nat)
    requires j < 8
    ensures ByteBit(Byte0(w), j) == Bit(w, j)
  {
    hide Bits8, Bits32;
    ByteMask0(j);
    RawByte0(w, Bits8(j));
  }

  lemma ByteMask0(j: nat)
    requires j < 8
    ensures (Bits8(j) as bv32) << 24 == Bits32(j)
  {}

  lemma RawByte1(w: bv32, m: bv8)
    ensures ((((w >> 16) & 0xff) as bv8) & m != 0) == (w & ((m as bv32) << 16) != 0)
  {}

  lemma ByteBits1(w: bv32, j: nat)
    requires j < 8
    ensures ByteBit(Byte1(w), j) == Bit(w, 8 + j)
  {
    hide Bits8, Bits32;
    ByteMask1(j);
    RawByte1(w, Bits8(j));
  }

  lemma ByteMask1(j: nat)
    requires j < 8
    ensures (Bits8(j) as bv32) << 16 == Bits32(8 + j)
  {}

  lemma RawByte2(w: bv32, m: bv8)
    ensures ((((w >> 8) & 0xff) as bv8) & m != 0) == (w & ((m as bv32) << 8) != 0)
  {}

  lemma ByteBits2(w: bv32, j: nat)
    requires j < 8
    ensures ByteBit(Byte2(w), j) == Bit(w, 16 + j)
  {
    hide Bits8, Bits32;
    ByteMask2(j);
    RawByte2(w, Bits8(j));
  }

  lemma ByteMask2(j: nat)
    requires j < 8
    ensures (Bits8(j) as bv32) << 8 == Bits32(16 + j)
  {}

  lemma RawByte3(w: bv32, m: bv8)
    ensures (((w & 0xff) as bv8) & m != 0) == (w & (m as bv32) != 0)
  {}

  lemma ByteBits3(w: bv32, j: nat)
    requires j < 8
    ensures ByteBit(Byte3(w), j) == Bit(w, 24 + j)
  {
    hide Bits8, Bits32;
    ByteMask3(j);
    RawByte3(w, Bits8(j));
  }

  lemma ByteMask3(j: nat)
    requires j < 8
    ensures Bits8(j) as bv32 == Bits32(24 + j)
  {}

  lemma ByteBits(w: bv32, q: nat, j: nat)
    requires q < 4 && j < 8
    ensures ByteBit(Byte(w, q), j) == Bit(w, 8 * q + j)
  {
    hide Byte0, Byte1, Byte2, Byte3, Bit, ByteBit;
    ByteBits0(w, j);
    ByteBits1(w, j);
    ByteBits2(w, j);
    ByteBits3(w, j);
  }

  /** The upper seven bits of each byte. */
  function UpperSeven(w: bv32, q: nat): bv8 {
    match q
    case 0 => UpperSeven0(w)
    case 1 => UpperSeven1(w)
    case 2 => UpperSeven2(w)
    case _ => UpperSeven3(w)
  }

  function UpperSeven0(w: bv32): bv8 { (w >> 25) as bv8 }
  function UpperSeven1(w: bv32): bv8 { ((w >> 17) & 0x7f) as bv8 }
  function UpperSeven2(w: bv32): bv8 { ((w >> 9) & 0x7f) as bv8 }
  function UpperSeven3(w: bv32): bv8 { ((w >> 1) & 0x7f) as bv8 }

  lemma RawUpperSeven0(w: bv32, m: bv8)
    requires m < 128
    ensures (((w >> 25) as bv8) & m != 0) == (w & ((m as bv32) << 25) != 0)
  {}

  lemma UpperSevenBits0(w: bv32, j: nat)
    requires j < 7
    ensures ByteBit(UpperSeven0(w), j + 1) == Bit(w, j)
  {
    hide Bits8, Bits32;
    UpperSevenMask0(j);
    RawUpperSeven0(w, Bits8(j + 1));
  }

  lemma UpperSevenMask0(j: nat)
    requires j < 7
    ensures (Bits8(j + 1) as bv32) << 25 == Bits32(j)
    ensures Bits8(j + 1) < 128
  {}

  lemma RawUpperSeven1(w: bv32, m: bv8)
    requires m < 128
    ensures ((((w >> 17) & 0x7f) as bv8) & m != 0) == (w & ((m as bv32) << 17) != 0)
  {}

  lemma UpperSevenBits1(w: bv32, j: nat)
    requires j < 7
    ensures ByteBit(UpperSeven1(w), j + 1) == Bit(w, 8 + j)
  {
    hide Bits8, Bits32;
    UpperSevenMask1(j);
    RawUpperSeven1(w, Bits8(j + 1));
  }

  lemma UpperSevenMask1(j: nat)
    requires j < 7
    ensures (Bits8(j + 1) as bv32) << 17 == Bits32(8 + j)
    ensures Bits8(j + 1) < 128
  {}

  lemma RawUpperSeven2(w: bv32, m: bv8)
    requires m < 128
    ensures ((((w >> 9) & 0x7f) as bv8) & m != 0) == (w & ((m as bv32) << 9) != 0)
  {}

  lemma UpperSevenBits2(w: bv32, j: nat)
    requires j < 7
    ensures ByteBit(UpperSeven2(w), j + 1) == Bit(w, 16 + j)
  {
    hide Bits8, Bits32;
    UpperSevenMask2(j);
    RawUpperSeven2(w, Bits8(j + 1));
  }

  lemma UpperSevenMask2(j: nat)
    requires j < 7
    ensures (Bits8(j + 1) as bv32) << 9 == Bits32(16 + j)
    ensures Bits8(j + 1) < 128
  {}

  lemma RawUpperSeven3(w: bv32, m: bv8)
    requires m < 128
    ensures ((((w >> 1) & 0x7f) as bv8) & m != 0) == (w & ((m as bv32) << 1) != 0)
  {}

  lemma UpperSevenBits3(w: bv32, j: nat)
    requires j < 7
    ensures ByteBit(UpperSeven3(w), j + 1) == Bit(w, 24 + j)
  {
    hide Bits8, Bits32;
    UpperSevenMask3(j);
    RawUpperSeven3(w, Bits8(j + 1));
  }

  lemma UpperSevenMask3(j: nat)
    requires j < 7
    ensures (Bits8(j + 1) as bv32) << 1 == Bits32(24 + j)
    ensures Bits8(j + 1) < 128
  {}

  lemma UpperSevenBits(w: bv32, q: nat, j: nat)
    requires q < 4 && j < 7
    ensures ByteBit(UpperSeven(w, q), j + 1) == Bit(w, 8 * q + j)
  {
    hide UpperSeven0, UpperSeven1, UpperSeven2, UpperSeven3, Bit, ByteBit;
    UpperSevenBits0(w, j);
    UpperSevenBits1(w, j);
    UpperSevenBits2(w, j);
    UpperSevenBits3(w, j);
  }

  lemma UpperSevenSmall(w: bv32)
    ensures UpperSeven0(w) < 128 && UpperSeven1(w) < 128 && UpperSeven2(w) < 128 && UpperSeven3(w) < 128
  {}

  /** The four groups of seven in the low 28 bits. */
  function Seven(w: bv32, q: nat): bv8 {
    match q
    case 0 => Seven0(w)
    case 1 => Seven1(w)
    case 2 => Seven2(w)
    case _ => Seven3(w)
  }

  function Seven0(w: bv32): bv8 { ((w >> 21) & 0x7f) as bv8 }
  function Seven1(w: bv32): bv8 { ((w >> 14) & 0x7f) as bv8 }
  function Seven2(w: bv32): bv8 { ((w >> 7) & 0x7f) as bv8 }
  function Seven3(w: bv32): bv8 { (w & 0x7f) as bv8 }

  lemma RawSeven0(w: bv32, m: bv8)
    requires m < 128
    ensures ((((w >> 21) & 0x7f) as bv8) & m != 0) == (w & ((m as bv32) << 21) != 0)
  {}

  lemma SevenBits0(w: bv32, j: nat)
    requires j < 7
    ensures ByteBit(Seven0(w), j + 1) == Bit(w, 4 + j)
  {
    hide Bits8, Bits32;
    SevenMask0(j);
    RawSeven0(w, Bits8(j + 1));
  }

  lemma SevenMask0(j: nat)
    requires j < 7
    ensures (Bits8(j + 1) as bv32) << 21 == Bits32(4 + j)
    ensures Bits8(j + 1) < 128
  {}

  lemma RawSeven1(w: bv32, m: bv8)
    requires m < 128
    ensures ((((w >> 14) & 0x7f) as bv8) & m != 0) == (w & ((m as bv32) << 14) != 0)
  {}

  lemma SevenBits1(w: bv32, j: nat)
    requires j < 7
    ensures ByteBit(Seven1(w), j + 1) == Bit(w, 11 + j)
  {
    hide Bits8, Bits32;
    SevenMask1(j);
    RawSeven1(w, Bits8(j + 1));
  }

  lemma SevenMask1(j: nat)
    requires j < 7
    ensures (Bits8(j + 1) as bv32) << 14 == Bits32(11 + j)
    ensures Bits8(j + 1) < 128
  {}

  lemma RawSeven2(w: bv32, m: bv8)
    requires m < 128
    ensures ((((w >> 7) & 0x7f) as bv8) & m != 0) == (w & ((m as bv32) << 7) != 0)
  {}

  lemma SevenBits2(w: bv32, j: nat)
    requires j < 7
    ensures ByteBit(Seven2(w), j + 1) == Bit(w, 18 + j)
  {
    hide Bits8, Bits32;
    SevenMask2(j);
    RawSeven2(w, Bits8(j + 1));
  }

  lemma SevenMask2(j: nat)
    requires j < 7
    ensures (Bits8(j + 1) as bv32) << 7 == Bits32(18 + j)
    ensures Bits8(j + 1) < 128
  {}

  lemma RawSeven3(w: bv32, m: bv8)
    requires m < 128
    ensures (((w & 0x7f) as bv8) & m != 0) == (w & (m as bv32) != 0)
  {}

  lemma SevenBits3(w: bv32, j: nat)
    requires j < 7
    ensures ByteBit(Seven3(w), j + 1) == Bit(w, 25 + j)
  {
    hide Bits8, Bits32;
    SevenMask3(j);
    RawSeven3(w, Bits8(j + 1));
  }

  lemma SevenMask3(j: nat)
    requires j < 7
    ensures Bits8(j + 1) as bv32 == Bits32(25 + j)
    ensures Bits8(j + 1) < 128
  {}

  lemma SevenBits(w: bv32, q: nat, j: nat)
    requires q < 4 && j < 7
    ensures ByteBit(Seven(w, q), j + 1) == Bit(w, 4 + 7 * q + j)
  {
    hide Seven0, Seven1, Seven2, Seven3, Bit, ByteBit;
    SevenBits0(w, j);
    SevenBits1(w, j);
    SevenBits2(w, j);
    SevenBits3(w, j);
  }

  lemma SevenSmall(w: bv32)
    ensures Seven0(w) < 128 && Seven1(w) < 128 && Seven2(w) < 128 && Seven3(w) < 128
  {}

  // ----- entries

  /** Whether bit s of the input lies in the chunk of n bits that starts at base, among its first j
      bits, and is set in the chunk's value x. The chunk occupies the low n bits of x. */
  predicate InChunk(s: nat, base: nat, n: nat, j: nat, x: bv8)
    requires n <= 8
  {
    base <= s < base + j && ByteBit(x, s - base + 8 - n)
  }

  /** The input bit that goes to position o of a mask. */
  function Source(src: seq<nat>, first: nat, off: nat, o: nat): nat
    requires off <= o < 32 && first + 32 - off <= |src|
  {
    src[first + o - off]
  }

  /** A mask holds, at each position o from off on, the input bit that src names for it; the bits
      above off are clear. */
  ghost predicate EntryOk(w: bv32, x: bv8, base: nat, n: nat, j: nat, off: nat, src: seq<nat>, first: nat)
    requires n <= 8 && off <= 32 && first + 32 - off <= |src|
  {
    && (forall o :: off <= o < 32 ==> Bit(w, o) == InChunk(Source(src, first, off, o), base, n, j, x))
    && (forall o :: 0 <= o < off ==> !Bit(w, o))
  }

  /** dest says for each input bit where it goes (255 for nowhere), src for each output bit where
      it comes from. */
  ghost predicate Inverse(dest: seq<nat>, src: seq<nat>) {
    && (forall b :: 0 <= b < |dest| ==> dest[b] == 255 || (dest[b] < |src| && src[dest[b]] == b))
    && (forall o :: 0 <= o < |src| && src[o] < |dest| ==> dest[src[o]] == o)
  }

  lemma EmptyEntry(x: bv8, base: nat, n: nat, off: nat, src: seq<nat>, first: nat)
    requires n <= 8 && off <= 32 && first + 32 - off <= |src|
    ensures EntryOk(0, x, base, n, 0, off, src, first)
  {
    hide Bit;
    forall o | 0 <= o < 32 ensures !Bit(0, o) { BitZero(o); }
  }

  /** A bit that is clear in x, or that goes elsewhere, changes no entry. */
  lemma SameEntry(w: bv32, x: bv8, base: nat, n: nat, j: nat, off: nat, src: seq<nat>, first: nat)
    requires n <= 8 && j < n && off <= 32 && first + 32 - off <= |src|
    requires EntryOk(w, x, base, n, j, off, src, first)
    requires !ByteBit(x, j + 8 - n) || base + j !in src[first..first + 32 - off]
    ensures EntryOk(w, x, base, n, j + 1, off, src, first)
  {
    hide Bit, ByteBit;
    forall o | off <= o < 32
      ensures InChunk(Source(src, first, off, o), base, n, j + 1, x) == InChunk(Source(src, first, off, o), base, n, j, x)
    {
      assert src[first + o - off] == src[first..first + 32 - off][o - off];
    }
  }

  /** A set bit is OR-ed in at its destination. */
  lemma OrEntry(w: bv32, x: bv8, base: nat, n: nat, j: nat, off: nat, src: seq<nat>, first: nat, d: nat)
    requires n <= 8 && j < n && off <= d < 32 && first + 32 - off <= |src|
    requires EntryOk(w, x, base, n, j, off, src, first)
    requires ByteBit(x, j + 8 - n)
    requires forall o :: off <= o < 32 ==> (Source(src, first, off, o) == base + j <==> o == d)
    ensures EntryOk(Or(w, Bits32(d)), x, base, n, j + 1, off, src, first)
  {
    hide Bit, ByteBit, Bits32, Or;
    forall o | 0 <= o < 32
      ensures Bit(Or(w, Bits32(d)), o) == (Bit(w, o) || o == d)
    {
      OrBit(w, Bits32(d), o);
      BitOfMask(d, o);
    }
  }

  /** The innermost loops of des_init: the pair of masks for one value of one chunk. */
  method MaskEntry(x: bv8, n: nat, base: nat, off: nat, dest: array<nat>, ghost src: seq<nat>) returns (il: bv32, ir: bv32)
    requires n <= 8 && off <= 32 && base + n <= dest.Length && |src| == 2 * (32 - off)
    requires Inverse(dest[..], src)
    ensures EntryOk(il, x, base, n, n, off, src, 0)
    ensures EntryOk(ir, x, base, n, n, off, src, 32 - off)
  {
    hide EntryOk, ByteBit, Bits32, Or, Inverse;
    il, ir := 0, 0;
    EmptyEntry(x, base, n, off, src, 0);
    EmptyEntry(x, base, n, off, src, 32 - off);
    for j := 0 to n
      invariant EntryOk(il, x, base, n, j, off, src, 0)
      invariant EntryOk(ir, x, base, n, j, off, src, 32 - off)
    {
      var inbit := base + j;
      var obit := dest[inbit];
      Destination(dest[..], src, inbit, 32 - off);
      if ByteBit(x, j + 8 - n) && obit != 255 {
        if obit < 32 - off {
          OrEntry(il, x, base, n, j, off, src, 0, off + obit);
          SameEntry(ir, x, base, n, j, off, src, 32 - off);
          il := Or(il, Bits32(off + obit));
        } else {
          OrEntry(ir, x, base, n, j, off, src, 32 - off, off + obit - (32 - off));
          SameEntry(il, x, base, n, j, off, src, 0);
          ir := Or(ir, Bits32(off + obit - (32 - off)));
        }
      } else {
        SameEntry(il, x, base, n, j, off, src, 0);
        SameEntry(ir, x, base, n, j, off, src, 32 - off);
      }
    }
  }

  lemma Destination(dest: seq<nat>, src: seq<nat>, b: nat, half: nat)
    requires Inverse(dest, src) && b < |dest| && |src| == 2 * half && half <= 32
    ensures forall o :: 0 <= o < |src| ==> (src[o] == b <==> dest[b] == o && dest[b] != 255)
    ensures dest[b] == 255 || dest[b] < 2 * half
    ensures dest[b] == 255 || dest[b] >= half ==> b !in src[0..half]
    ensures dest[b] < half || dest[b] == 255 ==> b !in src[half..2 * half]
  {
    forall o | 0 <= o < |src|
      ensures src[o] == b <==> dest[b] == o && dest[b] != 255
    {
    }
  }

  // ----- tables

  /** The first bit of chunk k: chunks are a byte apart, or for the compression permutation seven bits. */
  function Base(stride: nat, k: nat): nat {
    if stride == 7 then 7 * k else 8 * k
  }

  /** The same for an index given as a number. */
  ghost predicate ValueOk(e: bv32, i: nat, base: nat, n: nat, off: nat, src: seq<nat>, first: nat)
    requires i < 256 && n <= 8 && off <= 32 && first + 32 - off <= |src|
  {
    EntryOk(e, i as bv8, base, n, n, off, src, first)
  }

  /** Every entry of a table with a row for each of eight chunks. */
  ghost predicate TableOk(t: array2<bv32>, size: nat, n: nat, stride: nat, off: nat, src: seq<nat>, first: nat)
    requires n <= 8 && off <= 32 && first + 32 - off <= |src| && size <= 256
    reads t
  {
    && t.Length0 == 8 && t.Length1 == size
    && forall k, i :: 0 <= k < 8 && 0 <= i < size ==>
         ValueOk(t[k, i], i, Base(stride, k), n, off, src, first)
  }

  /** The loops of des_init over the chunks and their values, for one pair of tables. */
  method FillTables(l: array2<bv32>, r: array2<bv32>, size: nat, n: nat, stride: nat, off: nat,
                    dest: array<nat>, ghost src: seq<nat>)
    requires l != r && l.Length0 == r.Length0 == 8 && l.Length1 == r.Length1 == size <= 256
    requires n <= 8 && off <= 32 && dest.Length >= Base(stride, 7) + n && |src| == 2 * (32 - off)
    requires Inverse(dest[..], src)
    modifies l, r
    ensures TableOk(l, size, n, stride, off, src, 0) && TableOk(r, size, n, stride, off, src, 32 - off)
  {
    hide ValueOk, Inverse;
    ghost var ds := dest[..];
    for k := 0 to 8
      invariant dest[..] == ds
      invariant forall k', i :: 0 <= k' < k && 0 <= i < size ==>
        ValueOk(l[k', i], i, Base(stride, k'), n, off, src, 0)
      invariant forall k', i :: 0 <= k' < k && 0 <= i < size ==>
        ValueOk(r[k', i], i, Base(stride, k'), n, off, src, 32 - off)
    {
      FillChunk(l, r, size, k, n, Base(stride, k), off, dest, src);
    }
  }

  /** The entries of both tables for one value. */
  method MaskPair(i: nat, n: nat, base: nat, off: nat, dest: array<nat>, ghost src: seq<nat>) returns (ml: bv32, mr: bv32)
    requires i < 256 && n <= 8 && off <= 32 && dest.Length >= base + n && |src| == 2 * (32 - off)
    requires Inverse(dest[..], src)
    ensures ValueOk(ml, i, base, n, off, src, 0) && ValueOk(mr, i, base, n, off, src, 32 - off)
  {
    ml, mr := MaskEntry(i as bv8, n, base, off, dest, src);
  }

  /** The inner loop, over the values of one chunk. */
  method FillChunk(l: array2<bv32>, r: array2<bv32>, size: nat, k: nat, n: nat, base: nat, off: nat,
                   dest: array<nat>, ghost src: seq<nat>)
    requires l != r && l.Length0 == r.Length0 == 8 && l.Length1 == r.Length1 == size <= 256
    requires k < 8 && n <= 8 && off <= 32 && dest.Length >= base + n && |src| == 2 * (32 - off)
    requires Inverse(dest[..], src)
    modifies l, r
    ensures forall i :: 0 <= i < size ==> ValueOk(l[k, i], i, base, n, off, src, 0)
    ensures forall i :: 0 <= i < size ==> ValueOk(r[k, i], i, base, n, off, src, 32 - off)
    ensures forall k', i :: 0 <= k' < 8 && k' != k && 0 <= i < size ==>
      l[k', i] == old(l[k', i]) && r[k', i] == old(r[k', i])
  {
    hide ValueOk, Inverse;
    ghost var ds := dest[..];
    for i := 0 to size
      invariant dest[..] == ds
      invariant forall i' :: 0 <= i' < i ==> ValueOk(l[k, i'], i', base, n, off, src, 0)
      invariant forall i' :: 0 <= i' < i ==> ValueOk(r[k, i'], i', base, n, off, src, 32 - off)
      invariant forall k', i' :: 0 <= k' < 8 && k' != k && 0 <= i' < size ==>
        l[k', i'] == old(l[k', i']) && r[k', i'] == old(r[k', i'])
    {
      l[k, i], r[k, i] := MaskPair(i, n, base, off, dest, src);
    }
  }

  function Or8(a: bv32, b: bv32, c: bv32, d: bv32, e: bv32, f: bv32, g: bv32, h: bv32): bv32 {
    Or(Or(Or(Or(Or(Or(Or(a, b), c), d), e), f), g), h)
  }

  /** One entry from each row, OR-ed together. */
  function Lookup(t: array2<bv32>, x: seq<bv8>): bv32
    requires t.Length0 == 8 && |x| == 8 && t.Length1 <= 256
    requires forall k :: 0 <= k < 8 ==> (x[k] as nat) < t.Length1
    reads t
  {
    Or8(t[0, x[0] as nat], t[1, x[1] as nat], t[2, x[2] as nat], t[3, x[3] as nat],
        t[4, x[4] as nat], t[5, x[5] as nat], t[6, x[6] as nat], t[7, x[7] as nat])
  }

  lemma Or8Bit(a: bv32, b: bv32, c: bv32, d: bv32, e: bv32, f: bv32, g: bv32, h: bv32, o: nat)
    ensures Bit(Or8(a, b, c, d, e, f, g, h), o)
      == (Bit(a, o) || Bit(b, o) || Bit(c, o) || Bit(d, o) || Bit(e, o) || Bit(f, o) || Bit(g, o) || Bit(h, o))
  {
    hide Bit, Or;
    OrBit(a, b, o);
    OrBit(Or(a, b), c, o);
    OrBit(Or(Or(a, b), c), d, o);
    OrBit(Or(Or(Or(a, b), c), d), e, o);
    OrBit(Or(Or(Or(Or(a, b), c), d), e), f, o);
    OrBit(Or(Or(Or(Or(Or(a, b), c), d), e), f), g, o);
    OrBit(Or(Or(Or(Or(Or(Or(a, b), c), d), e), f), g), h, o);
  }

  /** The OR of the looked-up masks holds at position o the input bit that src names: the table
      lookup permutes the bits of the chunks. */
  lemma LookupBit(t: array2<bv32>, x: seq<bv8>, size: nat, n: nat, stride: nat, off: nat, src: seq<nat>, first: nat,
                  o: nat, k: nat, j: nat)
    requires n <= 8 && off <= o < 32 && first + 32 - off <= |src| && size <= 256
    requires TableOk(t, size, n, stride, off, src, first)
    requires |x| == 8 && forall i :: 0 <= i < 8 ==> (x[i] as nat) < size
    requires k < 8 && j < n <= stride <= 8 && stride >= 7 && Source(src, first, off, o) == Base(stride, k) + j
    ensures Bit(Lookup(t, x), o) == ByteBit(x[k], j + 8 - n)
  {
    hide Bit, ByteBit, Or8, TableOk, InChunk, Base, Source;
    TableShape(t, size, n, stride, off, src, first);
    forall i | 0 <= i < 8
      ensures Bit(t[i, x[i] as nat], o) == (i == k && ByteBit(x[k], j + 8 - n))
    {
      EntryBit(t, x[i], size, n, stride, off, src, first, o, i);
      ChunkHolds(x[i], n, stride, k, i, j);
    }
    Or8Bit(t[0, x[0] as nat], t[1, x[1] as nat], t[2, x[2] as nat], t[3, x[3] as nat],
           t[4, x[4] as nat], t[5, x[5] as nat], t[6, x[6] as nat], t[7, x[7] as nat], o);
  }

  /** One position of one entry. */
  lemma EntryBit(t: array2<bv32>, x: bv8, size: nat, n: nat, stride: nat, off: nat, src: seq<nat>, first: nat, o: nat, k: nat)
    requires n <= 8 && off <= o < 32 && first + 32 - off <= |src| && size <= 256 && k < 8 && (x as nat) < size
    requires TableOk(t, size, n, stride, off, src, first)
    ensures t.Length0 == 8 && t.Length1 == size
    ensures Bit(t[k, x as nat], o) == InChunk(Source(src, first, off, o), Base(stride, k), n, n, x)
  {
    hide Bit, InChunk, Base, Source;
    SmallIndex(x);
    assert EntryOk(t[k, x as nat], (x as nat) as bv8, Base(stride, k), n, n, off, src, first);
  }

  /** A bit of chunk k is in no other chunk. */
  lemma ChunkHolds(x: bv8, n: nat, stride: nat, k: nat, i: nat, j: nat)
    requires j < n <= stride <= 8 && stride >= 7 && k < 8 && i < 8
    ensures InChunk(Base(stride, k) + j, Base(stride, i), n, n, x) == (i == k && ByteBit(x, j + 8 - n))
  {
    hide ByteBit;
  }

  lemma TableShape(t: array2<bv32>, size: nat, n: nat, stride: nat, off: nat, src: seq<nat>, first: nat)
    requires n <= 8 && off <= 32 && first + 32 - off <= |src| && size <= 256 && TableOk(t, size, n, stride, off, src, first)
    ensures t.Length0 == 8 && t.Length1 == size
  {}

  /** Positions above off stay clear. */
  lemma LookupClear(t: array2<bv32>, x: seq<bv8>, size: nat, n: nat, stride: nat, off: nat, src: seq<nat>, first: nat, o: nat)
    requires n <= 8 && o < off <= 32 && first + 32 - off <= |src| && size <= 256
    requires TableOk(t, size, n, stride, off, src, first)
    requires |x| == 8 && forall i :: 0 <= i < 8 ==> (x[i] as nat) < size
    ensures !Bit(Lookup(t, x), o)
  {
    hide Bit, Or8, TableOk;
    TableShape(t, size, n, stride, off, src, first);
    forall i | 0 <= i < 8
      ensures !Bit(t[i, x[i] as nat], o)
    {
      EntryClear(t, x[i], size, n, stride, off, src, first, o, i);
    }
    Or8Bit(t[0, x[0] as nat], t[1, x[1] as nat], t[2, x[2] as nat], t[3, x[3] as nat],
           t[4, x[4] as nat], t[5, x[5] as nat], t[6, x[6] as nat], t[7, x[7] as nat], o);
  }

  lemma EntryClear(t: array2<bv32>, x: bv8, size: nat, n: nat, stride: nat, off: nat, src: seq<nat>, first: nat, o: nat, k: nat)
    requires n <= 8 && o < off <= 32 && first + 32 - off <= |src| && size <= 256 && k < 8 && (x as nat) < size
    requires TableOk(t, size, n, stride, off, src, first)
    ensures t.Length0 == 8 && t.Length1 == size && !Bit(t[k, x as nat], o)
  {
    hide Bit, InChunk, Base, Source;
    SmallIndex(x);
    assert EntryOk(t[k, x as nat], (x as nat) as bv8, Base(stride, k), n, n, off, src, first);
  }
}
