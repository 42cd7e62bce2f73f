/** The cpio "newc" archive format as mkbootfs.c writes it, and a plain reader for it. */
module Cpio {
  import opened Bytes
  import opened Ascii64

  // ----- hexadecimal

  function HexDigit(d: nat): bv8 {
    match d
    case 0 => 0x30 case 1 => 0x31 case 2 => 0x32 case 3 => 0x33 case 4 => 0x34 case 5 => 0x35 case 6 => 0x36 case 7 => 0x37
    case 8 => 0x38 case 9 => 0x39 case 10 => 0x61 case 11 => 0x62 case 12 => 0x63 case 13 => 0x64 case 14 => 0x65 case _ => 0x66
  }

  function HexValue(b: bv8): nat {
    match b
    case 0x30 => 0 case 0x31 => 1 case 0x32 => 2 case 0x33 => 3 case 0x34 => 4 case 0x35 => 5 case 0x36 => 6 case 0x37 => 7
    case 0x38 => 8 case 0x39 => 9 case 0x61 => 10 case 0x62 => 11 case 0x63 => 12 case 0x64 => 13 case 0x65 => 14 case _ => 15
  }

  lemma HexBack(d: nat)
    requires d < 16
    ensures HexValue(HexDigit(d)) == d && HexDigit(d) != 0
  {}

  /** n in k hexadecimal digits, as printf("%0kx") writes a number below 16^k. */
  function Hex(n: nat, k: nat): (s: seq<bv8>)
    ensures |s| == k
  {
    if k == 0 then [] else Hex(n / 16, k - 1) + [HexDigit(n % 16)]
  }

  function Unhex(s: seq<bv8>): nat {
    if s == [] then 0 else 16 * Unhex(s[..|s| - 1]) + HexValue(s[|s| - 1])
  }

  function Power16(k: nat): nat {
    if k == 0 then 1 else 16 * Power16(k - 1)
  }

  lemma {:induction false} UnhexHex(n: nat, k: nat)
    requires n < Power16(k)
    ensures Unhex(Hex(n, k)) == n
  {
    hide HexDigit, HexValue;
    if k > 0 {
      UnhexHex(n / 16, k - 1);
      HexBack(n % 16);
      assert Hex(n, k)[..k - 1] == Hex(n / 16, k - 1);
    }
  }

  lemma WordBack(n: Word32)
    ensures Unhex(Hex(n, 8)) == n
  {
    assert Power16(4) == 0x1_0000 && Power16(8) == 0x1_0000_0000 by {
      assert Power16(2) == 0x100;
      assert Power16(6) == 0x100 * Power16(4);
    }
    UnhexHex(n, 8);
  }

  // ----- the archive

  /** An entry to be written: its path, mode and contents. */
  datatype Item = Item(path: CString, mode: Word32, data: seq<bv8>)

  /** An entry read back. */
  datatype Entry = Entry(ino: nat, mode: nat, path: seq<bv8>, data: seq<bv8>)

  const MAGIC: seq<bv8> := [0x30, 0x37, 0x30, 0x37, 0x30, 0x31]  // "070701"
  const TRAILER: seq<bv8> := [0x54, 0x52, 0x41, 0x49, 0x4c, 0x45, 0x52, 0x21, 0x21, 0x21]  // "TRAILER!!!"

  /** The bytes missing to the next multiple of 4, and of 256. */
  function Gap(n: nat): (g: nat)
    ensures g < 4 && (n + g) % 4 == 0
  {
    if n % 4 == 0 then 0 else 4 - n % 4
  }

  function BigGap(n: nat): (g: nat)
    ensures g < 256 && (n + g) % 256 == 0
  {
    if n % 256 == 0 then 0 else 256 - n % 256
  }

  function HexWords(w: seq<nat>): (s: seq<bv8>)
    ensures |s| == 8 * |w|
  {
    if w == [] then [] else Hex(w[0], 8) + HexWords(w[1..])
  }

  lemma {:induction false} HexWordsAt(w: seq<nat>, k: nat)
    requires k < |w|
    ensures HexWords(w)[8 * k..8 * k + 8] == Hex(w[k], 8)
  {
    hide Hex;
    if k > 0 {
      HexWordsAt(w[1..], k - 1);
      assert HexWords(w)[8 * k..8 * k + 8] == HexWords(w[1..])[8 * (k - 1)..8 * (k - 1) + 8];
    }
  }

  /** The header: the magic number and thirteen fields, among them the inode, the mode, the link count
      1, the size of the contents and the length of the name with its NUL. */
  function Header(ino: nat, mode: nat, datasize: nat, namesize: nat): (h: seq<bv8>)
    ensures |h| == 110
  {
    MAGIC + HexWords([ino, mode, 0, 0, 1, 0, datasize, 0, 0, 0, 0, namesize, 0])
  }

  /** One entry written at position pos: up to three zeros, the header, the path with its NUL, up to three
      zeros, and the contents. */
  function Record(pos: nat, ino: nat, item: Item): (r: seq<bv8>) {
    var front := ZeroBytes(Gap(pos)) + Header(ino, item.mode, |item.data|, |item.path| + 1) + (item.path + [0]);
    front + ZeroBytes(Gap(pos + |front|)) + item.data
  }

  function Encode(pos: nat, ino: nat, items: seq<Item>): seq<bv8>
    decreases |items|
  {
    if items == [] then []
    else
      var r := Record(pos, ino, items[0]);
      r + Encode(pos + |r|, ino + 1, items[1..])
  }

  /** ZeroBytes up to a multiple of 256. */
  function Closed(s: seq<bv8>): (r: seq<bv8>)
    ensures |r| % 256 == 0
  {
    s + ZeroBytes(BigGap(|s|))
  }

  lemma {:induction false} EncodeAppend(pos: nat, ino: nat, a: seq<Item>, b: seq<Item>)
    ensures Encode(pos, ino, a + b) == Encode(pos, ino, a) + Encode(pos + |Encode(pos, ino, a)|, ino + |a|, b)
    decreases |a|
  {
    hide Record;
    if a == [] {
      assert a + b == b;
    } else {
      var r := Record(pos, ino, a[0]);
      assert (a + b)[1..] == a[1..] + b;
      EncodeAppend(pos + |r|, ino + 1, a[1..], b);
    }
  }

  lemma EncodeOne(pos: nat, ino: nat, item: Item)
    ensures Encode(pos, ino, [item]) == Record(pos, ino, item)
  {
    hide Record;
    var r := Record(pos, ino, item);
    assert Encode(pos + |r|, ino + 1, [item][1..]) == [];
  }

  // ----- the reader

  datatype Found = Bad | Found(entry: Entry, next: nat)

  /** The field of eight digits at p. */
  function Field(s: seq<bv8>, p: nat): nat
    requires p + 8 <= |s|
  {
    Unhex(s[p..p + 8])
  }

  /** The entry at the first multiple of four from pos on. */
  function ReadEntry(s: seq<bv8>, pos: nat): (f: Found)
    ensures f.Found? ==> pos < f.next <= |s|
  {
    var p := pos + Gap(pos);
    if p + 110 > |s| || s[p..p + 6] != MAGIC then Bad
    else
      var namesize, datasize := Field(s, p + 94), Field(s, p + 54);
      var n := p + 110 + namesize;
      var d := n + Gap(n);
      if namesize == 0 || d + datasize > |s| || s[n - 1] != 0 then Bad
      else Found(Entry(Field(s, p + 6), Field(s, p + 14), s[p + 110..n - 1], s[d..d + datasize]), d + datasize)
  }

  datatype Listing = Malformed | Entries(list: seq<Entry>)

  /** All entries up to the one named TRAILER!!!. */
  function ReadAll(s: seq<bv8>, pos: nat): Listing
    decreases |s| - pos
  {
    var f := ReadEntry(s, pos);
    if f.Bad? then Malformed
    else if f.entry.path == TRAILER then Entries([])
    else
      var rest := ReadAll(s, f.next);
      if rest.Malformed? then Malformed else Entries([f.entry] + rest.list)
  }

  /** The entries that items stand for: inode numbers count up from ino. */
  function EntriesOf(ino: nat, items: seq<Item>): (e: seq<Entry>)
    ensures |e| == |items|
    decreases |items|
  {
    if items == [] then [] else [Entry(ino, items[0].mode, items[0].path, items[0].data)] + EntriesOf(ino + 1, items[1..])
  }

  // ----- reading what was written

  lemma Fields(s: seq<bv8>, p: nat, ino: nat, mode: nat, datasize: nat, namesize: nat)
    requires p + 110 <= |s| && s[p..p + 110] == Header(ino, mode, datasize, namesize)
    ensures s[p..p + 6] == MAGIC
    ensures s[p + 6..p + 14] == Hex(ino, 8) && s[p + 14..p + 22] == Hex(mode, 8)
    ensures s[p + 54..p + 62] == Hex(datasize, 8) && s[p + 94..p + 102] == Hex(namesize, 8)
  {
    hide Hex, HexWords;
    var w := [ino, mode, 0, 0, 1, 0, datasize, 0, 0, 0, 0, namesize, 0];
    HexWordsAt(w, 0);
    HexWordsAt(w, 1);
    HexWordsAt(w, 6);
    HexWordsAt(w, 11);
    HeaderParts(s, p, HexWords(w));
  }

  lemma HeaderParts(s: seq<bv8>, p: nat, w: seq<bv8>)
    requires |w| == 104 && p + 110 <= |s| && s[p..p + 110] == MAGIC + w
    ensures s[p..p + 6] == MAGIC
    ensures s[p + 6..p + 14] == w[0..8] && s[p + 14..p + 22] == w[8..16]
    ensures s[p + 54..p + 62] == w[48..56] && s[p + 94..p + 102] == w[88..96]
  {
    SubSlice(s, p, p + 110, 0, 6);
    SubSlice(s, p, p + 110, 6, 14);
    SubSlice(s, p, p + 110, 14, 22);
    SubSlice(s, p, p + 110, 54, 62);
    SubSlice(s, p, p + 110, 94, 102);
    AfterMagic(w, 0);
    AfterMagic(w, 8);
    AfterMagic(w, 48);
    AfterMagic(w, 88);
  }

  lemma SubSlice(s: seq<bv8>, p: nat, q: nat, i: nat, j: nat)
    requires p <= q <= |s| && i <= j <= q - p
    ensures s[p..q][i..j] == s[p + i..p + j]
  {
    var a, b := s[p..q][i..j], s[p + i..p + j];
    assert |a| == |b| && forall k :: 0 <= k < |a| ==> a[k] == b[k];
  }

  lemma AfterMagic(w: seq<bv8>, i: nat)
    requires i + 8 <= |w|
    ensures (MAGIC + w)[..6] == MAGIC && (MAGIC + w)[6 + i..14 + i] == w[i..i + 8]
  {}

  /** The parts of an entry, wherever it is in a stream. */
  lemma RecordParts(s: seq<bv8>, pos: nat, ino: nat, item: Item)
    requires var r := Record(pos, ino, item); pos + |r| <= |s| && s[pos..pos + |r|] == r
    ensures var p := pos + Gap(pos);
      var n := p + 110 + |item.path| + 1;
      var d := n + Gap(n);
      && d + |item.data| == pos + |Record(pos, ino, item)| <= |s|
      && s[p..p + 110] == Header(ino, item.mode, |item.data|, |item.path| + 1)
      && s[p + 110..n - 1] == item.path && s[n - 1] == 0 && s[d..d + |item.data|] == item.data
  {
    hide Header, Gap, Record;
    RecordInside(pos, ino, item);
    var n := Gap(pos) + 110 + |item.path|;
    PartsAt(s, pos, Record(pos, ino, item), Gap(pos), n, Gap(pos + n + 1));
  }

  /** The parts of an entry inside its record. */
  lemma RecordInside(pos: nat, ino: nat, item: Item)
    ensures var r := Record(pos, ino, item);
      var g := Gap(pos);
      var n := g + 110 + |item.path|;
      var g' := Gap(pos + n + 1);
      && |r| == n + 1 + g' + |item.data|
      && r[g..g + 110] == Header(ino, item.mode, |item.data|, |item.path| + 1)
      && r[g + 110..n] == item.path && r[n] == 0 && r[n + 1 + g'..] == item.data
  {
    RecordShape(pos, ino, item);
    hide Header, ZeroBytes, Gap, Record;
    var n := Gap(pos) + 110 + |item.path|;
    RecordSlices(Gap(pos), Header(ino, item.mode, |item.data|, |item.path| + 1), item.path, Gap(pos + n + 1), item.data);
  }

  /** Header and contents start at multiples of 4. */
  lemma RecordAligned(s: seq<bv8>, pos: nat, ino: nat, item: Item)
    requires var r := Record(pos, ino, item); pos + |r| <= |s| && s[pos..pos + |r|] == r
    ensures exists p: nat, d: nat ::
      && HeaderAt(s, ino, item, p) && DataAt(s, item, d) && p % 4 == 0 && d % 4 == 0
      && pos <= p < d && d + |item.data| == pos + |Record(pos, ino, item)|
  {
    hide Header, Record;
    RecordParts(s, pos, ino, item);
    var p := pos + Gap(pos);
    var n := p + 110 + |item.path| + 1;
    var d := n + Gap(n);
    assert HeaderAt(s, ino, item, p) && DataAt(s, item, d);
  }

  ghost predicate HeaderAt(s: seq<bv8>, ino: nat, item: Item, p: nat) {
    p + 110 <= |s| && s[p..p + 110] == Header(ino, item.mode, |item.data|, |item.path| + 1)
  }

  ghost predicate DataAt(s: seq<bv8>, item: Item, d: nat) {
    d + |item.data| <= |s| && s[d..d + |item.data|] == item.data
  }

  /** The slices of a piece of a stream. */
  lemma PartsAt(s: seq<bv8>, pos: nat, r: seq<bv8>, g: nat, n: nat, g': nat)
    requires pos + |r| <= |s| && s[pos..pos + |r|] == r && g + 110 <= n && n + 1 + g' <= |r|
    ensures s[pos + g..pos + g + 110] == r[g..g + 110] && s[pos + g + 110..pos + n] == r[g + 110..n]
    ensures s[pos + n] == r[n] && s[pos + n + 1 + g'..pos + |r|] == r[n + 1 + g'..]
  {
    var q := pos + |r|;
    SubSlice(s, pos, q, g, g + 110);
    SubSlice(s, pos, q, g + 110, n);
    SubSlice(s, pos, q, n + 1 + g', |r|);
    assert s[pos + n] == s[pos..q][n];
  }

  lemma RecordShape(pos: nat, ino: nat, item: Item)
    ensures var g := Gap(pos);
      var n := g + 110 + |item.path| + 1;
      Record(pos, ino, item)
        == ZeroBytes(g) + Header(ino, item.mode, |item.data|, |item.path| + 1) + (item.path + [0]) + ZeroBytes(Gap(pos + n)) + item.data
  {
    hide Header, ZeroBytes, Gap;
  }

  lemma RecordSlices(g: nat, h: seq<bv8>, path: seq<bv8>, g': nat, data: seq<bv8>)
    requires |h| == 110
    ensures var r := ZeroBytes(g) + h + (path + [0]) + ZeroBytes(g') + data;
      var n := g + 110 + |path|;
      && |r| == n + 1 + g' + |data|
      && r[g..g + 110] == h && r[g + 110..n] == path && r[n] == 0 && r[n + 1 + g'..] == data
  {}

  /** The reader finds the entry that was written, and stops where it ends. */
  lemma ReadsRecord(s: seq<bv8>, pos: nat, ino: Word32, item: Item)
    requires |item.path| + 1 < 0x1_0000_0000 && |item.data| < 0x1_0000_0000
    requires var r := Record(pos, ino, item); pos + |r| <= |s| && s[pos..pos + |r|] == r
    ensures ReadEntry(s, pos) == Found(Entry(ino, item.mode, item.path, item.data), pos + |Record(pos, ino, item)|)
  {
    hide Header, Hex, Unhex, Record, Gap, ReadEntry;
    RecordParts(s, pos, ino, item);
    Fields(s, pos + Gap(pos), ino, item.mode, |item.data|, |item.path| + 1);
    WordBack(ino);
    WordBack(item.mode);
    WordBack(|item.data|);
    WordBack(|item.path| + 1);
    EntryFound(s, pos, pos + Gap(pos), |item.path| + 1, |item.data|);
  }

  lemma EntryFound(s: seq<bv8>, pos: nat, p: nat, namesize: nat, datasize: nat)
    requires p == pos + Gap(pos) && p + 110 <= |s| && s[p..p + 6] == MAGIC
    requires Field(s, p + 94) == namesize > 0 && Field(s, p + 54) == datasize
    requires var n := p + 110 + namesize; n + Gap(n) + datasize <= |s| && s[n - 1] == 0
    ensures var n := p + 110 + namesize;
      var d := n + Gap(n);
      ReadEntry(s, pos)
        == Found(Entry(Field(s, p + 6), Field(s, p + 14), s[p + 110..n - 1], s[d..d + datasize]), d + datasize)
  {
    hide Unhex, Gap;
  }

  lemma RecordLong(pos: nat, ino: nat, item: Item)
    ensures |Record(pos, ino, item)| >= 111 + |item.path| + |item.data|
  {
    hide Header;
  }

  lemma RecordShort(pos: nat, ino: nat, item: Item)
    ensures |Record(pos, ino, item)| <= 117 + |item.path| + |item.data|
  {
    hide Header;
  }

  /** Items, and then the trailer, from position pos of a stream of less than 2^31 bytes. */
  ghost predicate Holds(s: seq<bv8>, pos: nat, ino: nat, items: seq<Item>, mode: Word32)
  {
    var e := Encode(pos, ino, items);
    && |s| < 0x8000_0000 && ino <= pos + 0x4000_0000
    && pos + |e| <= |s| && s[pos..pos + |e|] == e
    && var t := Record(pos + |e|, ino + |items|, Item(TRAILER, mode, []));
       pos + |e| + |t| <= |s| && s[pos + |e|..pos + |e| + |t|] == t
  }

  lemma HoldsNext(s: seq<bv8>, pos: nat, ino: nat, items: seq<Item>, mode: Word32)
    requires Holds(s, pos, ino, items, mode) && items != []
    ensures var r := Record(pos, ino, items[0]);
      && pos + |r| <= |s| && s[pos..pos + |r|] == r && Holds(s, pos + |r|, ino + 1, items[1..], mode)
  {
    hide Record;
    var r := Record(pos, ino, items[0]);
    RecordLong(pos, ino, items[0]);
    var e := Encode(pos, ino, items);
    var e' := Encode(pos + |r|, ino + 1, items[1..]);
    assert s[pos..pos + |r|] == e[..|r|];
    assert s[pos + |r|..pos + |e|] == e[|r|..];
  }

  /** Reading an archive gives exactly the entries written into it, with consecutive inode numbers,
      if and only if none of them has the name of the trailer; otherwise those before the first such. */
  lemma {:induction false} ReadsArchive(s: seq<bv8>, pos: nat, ino: nat, items: seq<Item>, mode: Word32)
    requires Holds(s, pos, ino, items, mode)
    ensures var n := FirstTrailer(items); ReadAll(s, pos) == Entries(EntriesOf(ino, items[..n]))
    decreases |items|
  {
    hide Record, Holds, ReadEntry;
    if items == [] {
      HoldsEnd(s, pos, ino, mode);
      ReadsRecord(s, pos, ino, Item(TRAILER, mode, []));
    } else {
      HoldsNext(s, pos, ino, items, mode);
      HoldsSmall(s, pos, ino, items, mode);
      ReadsRecord(s, pos, ino, items[0]);
      if items[0].path != TRAILER {
        var r := Record(pos, ino, items[0]);
        ReadsArchive(s, pos + |r|, ino + 1, items[1..], mode);
        assert items[..FirstTrailer(items)][1..] == items[1..][..FirstTrailer(items[1..])];
      }
    }
  }

  /** The first item with the name of the trailer, or their number. */
  function FirstTrailer(items: seq<Item>): (n: nat)
    ensures n <= |items|
    ensures n == |items| <==> forall k :: 0 <= k < |items| ==> items[k].path != TRAILER
  {
    if items == [] || items[0].path == TRAILER then 0
    else
      var n := FirstTrailer(items[1..]);
      assert forall k :: 1 <= k < |items| ==> items[k] == items[1..][k - 1];
      n + 1
  }

  lemma HoldsEnd(s: seq<bv8>, pos: nat, ino: nat, mode: Word32)
    requires Holds(s, pos, ino, [], mode)
    ensures ino < 0x1_0000_0000
    ensures var r := Record(pos, ino, Item(TRAILER, mode, [])); pos + |r| <= |s| && s[pos..pos + |r|] == r
  {
    hide Record;
  }

  lemma HoldsSmall(s: seq<bv8>, pos: nat, ino: nat, items: seq<Item>, mode: Word32)
    requires Holds(s, pos, ino, items, mode) && items != []
    ensures ino < 0x1_0000_0000 && |items[0].path| + 1 < 0x1_0000_0000 && |items[0].data| < 0x1_0000_0000
  {
    hide Record;
    RecordLong(pos, ino, items[0]);
    var r := Record(pos, ino, items[0]);
    assert Encode(pos, ino, items) == r + Encode(pos + |r|, ino + 1, items[1..]);
  }
}
