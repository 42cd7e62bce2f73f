/** mkbootimg.c and unpackbootimg.c: packing a boot image and taking it apart again. */
module BootImage {
  import opened Bytes
  import opened Ascii64
  import opened Congruence
  import opened Cpio
  import opened VersionCompare
  import BlockHash
  import Fips180
  import Sha

  // ----- little-endian words

  function Nibble(d: nat): bv8 {
    match d
    case 0 => 0 case 1 => 1 case 2 => 2 case 3 => 3 case 4 => 4 case 5 => 5 case 6 => 6 case 7 => 7
    case 8 => 8 case 9 => 9 case 10 => 10 case 11 => 11 case 12 => 12 case 13 => 13 case 14 => 14 case _ => 15
  }

  function NibbleValue(b: bv8): (d: nat)
    ensures d < 16
  {
    match b
    case 0 => 0 case 1 => 1 case 2 => 2 case 3 => 3 case 4 => 4 case 5 => 5 case 6 => 6 case 7 => 7
    case 8 => 8 case 9 => 9 case 10 => 10 case 11 => 11 case 12 => 12 case 13 => 13 case 14 => 14 case _ => 15
  }

  /** A number below 256 as a byte, and the number a byte holds. */
  function Byte(n: nat): bv8 {
    (Nibble(n / 16) << 4) | Nibble(n % 16)
  }

  function ByteValue(b: bv8): (n: nat)
    ensures n < 256
  {
    16 * NibbleValue(b >> 4) + NibbleValue(b & 0xf)
  }

  lemma NibbleBack(d: nat)
    requires d < 16
    ensures Nibble(d) < 16 && NibbleValue(Nibble(d)) == d
  {}

  lemma RawNibbles(x: bv8, y: bv8)
    requires x < 16 && y < 16
    ensures ((x << 4) | y) >> 4 == x && ((x << 4) | y) & 0xf == y
  {}

  lemma ByteBack(n: nat)
    requires n < 256
    ensures ByteValue(Byte(n)) == n
  {
    hide Nibble, NibbleValue;
    NibbleBack(n / 16);
    NibbleBack(n % 16);
    RawNibbles(Nibble(n / 16), Nibble(n % 16));
  }

  /** The k bytes of a number in memory, least significant first. */
  function Le(n: nat, k: nat): (s: seq<bv8>)
    ensures |s| == k
  {
    if k == 0 then [] else [Byte(n % 256)] + Le(n / 256, k - 1)
  }

  function FromLe(s: seq<bv8>): nat {
    if s == [] then 0 else ByteValue(s[0]) + 256 * FromLe(s[1..])
  }

  function Power256(k: nat): nat {
    if k == 0 then 1 else 256 * Power256(k - 1)
  }

  lemma {:induction false} FromLeLe(n: nat, k: nat)
    requires n < Power256(k)
    ensures FromLe(Le(n, k)) == n
  {
    hide Byte, ByteValue;
    if k > 0 {
      ByteBack(n % 256);
      FromLeLe(n / 256, k - 1);
      assert Le(n, k)[1..] == Le(n / 256, k - 1);
    }
  }

  lemma LeWordBack(n: Word32)
    ensures FromLe(Le(n, 4)) == n
  {
    assert Power256(4) == 0x1_0000_0000 by {
      assert Power256(2) == 0x1_0000;
    }
    FromLeLe(n, 4);
  }

  // ----- padding

  /** The operator & on numbers. */
  function BitAnd(x: nat, y: nat): (r: nat)
    ensures r <= x && r <= y
  {
    if x == 0 || y == 0 then 0 else 2 * BitAnd(x / 2, y / 2) + (if x % 2 == 1 && y % 2 == 1 then 1 else 0)
  }

  function Pow2(k: nat): (p: nat)
    ensures p >= 1
  {
    if k == 0 then 1 else 2 * Pow2(k - 1)
  }

  /** Masking with one less than a power of two is the remainder. */
  lemma {:induction false} LowMask(x: nat, k: nat)
    ensures BitAnd(x, Pow2(k) - 1) == x % Pow2(k)
  {
    hide BitAnd;
    if k == 0 {
      BitAndNone(x);
      IsRemainder(x, 1, x, 0);
    } else {
      var p := Pow2(k - 1);
      LowMask(x / 2, k - 1);
      BitAndStep(x, p);
      DoubleMod(x, p);
    }
  }

  lemma BitAndNone(x: nat)
    ensures BitAnd(x, 0) == 0
  {}

  lemma BitAndStep(x: nat, p: nat)
    requires p > 0
    ensures BitAnd(x, 2 * p - 1) == 2 * BitAnd(x / 2, p - 1) + x % 2
  {
    assert (2 * p - 1) / 2 == p - 1 && (2 * p - 1) % 2 == 1;
  }

  lemma IsRemainder(x: nat, m: nat, q: int, r: nat)
    requires m > 0 && x == q * m + r && r < m
    ensures x % m == r && x / m == q
  {
    assert Diff(r, x, -q, m);
    IsMod(r, x, m);
    Divided(x, m);
    SameQuotient(q, x / m, m);
  }

  lemma SameQuotient(q: int, q': int, m: nat)
    requires m > 0 && q * m == q' * m
    ensures q == q'
  {
    MulNext(q, m);
    MulNext(q', m);
    if q < q' {
      MulAtLeast(q', q + 1, m);
    } else if q' < q {
      MulAtLeast(q, q' + 1, m);
    }
  }

  lemma MulNext(q: int, m: nat)
    ensures (q + 1) * m == q * m + m
  {}

  lemma Divided(x: nat, m: nat)
    requires m > 0
    ensures x == (x / m) * m + x % m
  {}

  lemma DoubleMod(x: nat, p: nat)
    requires p > 0
    ensures x % (2 * p) == 2 * ((x / 2) % p) + x % 2
  {
    var q, r := (x / 2) / p, (x / 2) % p;
    Divided(x / 2, p);
    assert q * (2 * p) == 2 * (q * p);
    IsRemainder(x, 2 * p, q, 2 * r + x % 2);
  }

  /** The number of padding bytes after an item, for any page size but 0. */
  function PadCount(pagesize: nat, itemsize: nat): nat
    requires pagesize > 0
  {
    var over := BitAnd(itemsize, pagesize - 1);
    if over == 0 then 0 else pagesize - over
  }

  /** For the two page sizes it is what is missing to the next page. */
  lemma PadFills(pagesize: nat, itemsize: nat)
    requires pagesize == 2048 || pagesize == 4096
    ensures (itemsize + PadCount(pagesize, itemsize)) % pagesize == 0 && PadCount(pagesize, itemsize) < pagesize
  {
    hide BitAnd;
    Pages11();
    LowMask(itemsize, if pagesize == 2048 then 11 else 12);
    var q, over := itemsize / pagesize, itemsize % pagesize;
    Divided(itemsize, pagesize);
    if over > 0 {
      assert (q + 1) * pagesize == q * pagesize + pagesize;
      IsRemainder(itemsize + pagesize - over, pagesize, q + 1, 0);
    }
  }

  lemma Pages11()
    ensures Pow2(11) == 2048 && Pow2(12) == 4096
  {
    assert Pow2(4) == 16;
    assert Pow2(8) == 256;
  }

  // ----- the header

  const BOOT_MAGIC: seq<bv8> := [0x41, 0x4e, 0x44, 0x52, 0x4f, 0x49, 0x44, 0x21]  // "ANDROID!"
  const BOOT_NAME_SIZE := 16
  const BOOT_ARGS_SIZE := 512
  const HEADER_SIZE := 608

  datatype BootHeader = BootHeader(
    kernel_size: Word32, kernel_addr: Word32, ramdisk_size: Word32, ramdisk_addr: Word32, second_size: Word32, second_addr: Word32,
    tags_addr: Word32, page_size: Word32, name: seq<bv8>, cmdline: seq<bv8>, id: seq<bv8>)
  {
    predicate Sized() {
      |name| == BOOT_NAME_SIZE && |cmdline| == BOOT_ARGS_SIZE && |id| == 32
    }

    function Words(): (w: seq<nat>)
      ensures |w| == 10
    {
      [kernel_size, kernel_addr, ramdisk_size, ramdisk_addr, second_size, second_addr, tags_addr, page_size, 0, 0]
    }

    /** The structure in memory. */
    function Bytes(): (s: seq<bv8>)
      requires Sized()
      ensures |s| == HEADER_SIZE
    {
      BOOT_MAGIC + LeWords(Words()) + (name + cmdline + id)
    }
  }

  function LeWords(w: seq<nat>): (s: seq<bv8>)
    ensures |s| == 4 * |w|
  {
    if w == [] then [] else Le(w[0], 4) + LeWords(w[1..])
  }

  lemma {:induction false} LeWordsAt(w: seq<nat>, k: nat)
    requires k < |w|
    ensures LeWords(w)[4 * k..4 * k + 4] == Le(w[k], 4)
  {
    hide Le;
    if k > 0 {
      LeWordsAt(w[1..], k - 1);
      assert LeWords(w)[4 * k..4 * k + 4] == LeWords(w[1..])[4 * (k - 1)..4 * (k - 1) + 4];
    }
  }

  // ----- packing

  /** A file that may be named by an option: load_file gives its contents or fails. */
  datatype InputFile = NotGiven | NotLoaded | Loaded(data: seq<bv8>)

  /** The files and settings of one run; the ramdisk NONE is an empty one. */
  datatype Options = Options(
    kernel: InputFile, ramdisk: InputFile, second: InputFile, cmdline: CString, board: CString,
    base: Option<Word32>, ramdiskaddr: Option<Word32>, pagesize: Word32)

  predicate Loadable(o: Options) {
    && (o.kernel.Loaded? ==> |o.kernel.data| < 0x8000_0000)
    && (o.ramdisk.Loaded? ==> |o.ramdisk.data| < 0x8000_0000)
    && (o.second.Loaded? ==> |o.second.data| < 0x8000_0000)
  }

  function Add32(x: Word32, y: Word32): Word32 {
    (x + y) % 0x1_0000_0000
  }

  function Base(o: Options): Word32 {
    if o.base.Some? then o.base.value else 0x10000000
  }

  /** What SHA_update is given: each part, then its size in memory. */
  function Hashed(kernel: seq<bv8>, ramdisk: seq<bv8>, second: seq<bv8>): seq<bv8> {
    kernel + Le(|kernel|, 4) + ramdisk + Le(|ramdisk|, 4) + second + Le(|second|, 4)
  }

  /** A string and zeros up to the size of its field. */
  function Field(s: seq<bv8>, size: nat): (f: seq<bv8>)
    requires |s| <= size
    ensures |f| == size
  {
    s + ZeroBytes(size - |s|)
  }

  function Refused(o: Options): Option<string> {
    if o.pagesize != 2048 && o.pagesize != 4096 then Some("unsupported page size")
    else if o.kernel.NotGiven? then Some("no kernel image specified")
    else if o.ramdisk.NotGiven? then Some("no ramdisk image specified")
    else if |o.board| >= BOOT_NAME_SIZE then Some("board name too large")
    else if |o.cmdline| > BOOT_ARGS_SIZE - 1 then Some("kernel commandline too large")
    else if o.kernel.NotLoaded? then Some("could not load kernel")
    else if o.ramdisk.NotLoaded? then Some("could not load ramdisk")
    else if o.second.NotLoaded? then Some("could not load secondstage")
    else None
  }

  function Second(o: Options): seq<bv8> {
    if o.second.Loaded? then o.second.data else []
  }

  lemma DigestSize(m: seq<bv8>)
    ensures |Fips180.Sha1(m)| == 20
  {
    hide Fips180.Pad, Fips180.Step, BlockHash.Chain;
  }

  function HeaderOf(o: Options): (h: BootHeader)
    requires Refused(o).None? && Loadable(o)
    ensures h.Sized()
  {
    var base := Base(o);
    DigestSize(Hashed(o.kernel.data, o.ramdisk.data, Second(o)));
    BootHeader(|o.kernel.data|, Add32(base, 0x00008000), |o.ramdisk.data|,
               if o.ramdiskaddr.Some? then o.ramdiskaddr.value else Add32(base, 0x01000000),
               |Second(o)|, Add32(base, 0x00F00000), Add32(base, 0x00000100), o.pagesize,
               Field(o.board, BOOT_NAME_SIZE), Field(o.cmdline, BOOT_ARGS_SIZE),
               Field(Fips180.Sha1(Hashed(o.kernel.data, o.ramdisk.data, Second(o))), 32))
  }

  function PaddedTo(pagesize: nat, s: seq<bv8>): seq<bv8>
    requires pagesize > 0
  {
    s + ZeroBytes(PadCount(pagesize, |s|))
  }

  /** The image. The padding after a second stage is counted from the size of the ramdisk. */
  function ImageOf(o: Options): seq<bv8>
    requires Refused(o).None? && Loadable(o)
  {
    var p := o.pagesize;
    PaddedTo(p, HeaderOf(o).Bytes()) + PaddedTo(p, o.kernel.data) + PaddedTo(p, o.ramdisk.data)
    + if o.second.Loaded? then o.second.data + ZeroBytes(PadCount(p, |o.ramdisk.data|)) else []
  }

  /** write_padding. */
  method WritePadding(file: seq<bv8>, pagesize: nat, itemsize: nat) returns (file': seq<bv8>)
    requires 0 < pagesize <= 4096
    ensures file' == file + ZeroBytes(PadCount(pagesize, itemsize))
  {
    var padding := ZeroBytes(4096);
    var pagemask := pagesize - 1;
    if BitAnd(itemsize, pagemask) == 0 {
      return file;
    }
    var count := pagesize - BitAnd(itemsize, pagemask);
    file' := file + padding[..count];
    assert padding[..count] == ZeroBytes(count);
  }

  /** The digest in the header. */
  method HashParts(build: Sha.Build, kernel: seq<bv8>, ramdisk: seq<bv8>, second: seq<bv8>) returns (sha: seq<bv8>)
    requires |kernel| < 0x8000_0000 && |ramdisk| < 0x8000_0000 && |second| < 0x8000_0000
    ensures |sha| == 20 && sha == Fips180.Sha1(Hashed(kernel, ramdisk, second))
  {
    hide Sha.ShaContext.Valid, Fips180.Sha1, Le;
    var ctx := new Sha.ShaContext.Init(build);
    ctx.Update(kernel);
    ctx.Update(Le(|kernel|, 4));
    ctx.Update(ramdisk);
    ctx.Update(Le(|ramdisk|, 4));
    ctx.Update(second);
    ctx.Update(Le(|second|, 4));
    assert ctx.message == Hashed(kernel, ramdisk, second);
    sha := ctx.Final();
    DigestSize(Hashed(kernel, ramdisk, second));
  }

  /** The layout, size and hash part of mkbootimg. */
  method Pack(o: Options, build: Sha.Build) returns (r: Result<seq<bv8>>)
    requires Loadable(o)
    ensures r == if Refused(o).Some? then Err(Refused(o).value) else Ok(ImageOf(o))
  {
    hide Fips180.Sha1, Le, LeWords, BitAnd, Hashed, ZeroBytes, PadCount;
    var kernel_addr, ramdisk_addr, second_addr, tags_addr := 0x10008000, 0x11000000, 0x10F00000, 0x10000100;
    if o.base.Some? {
      kernel_addr := Add32(o.base.value, 0x00008000);
      ramdisk_addr := Add32(o.base.value, 0x01000000);
      second_addr := Add32(o.base.value, 0x00F00000);
      tags_addr := Add32(o.base.value, 0x00000100);
    }
    if o.ramdiskaddr.Some? {
      ramdisk_addr := o.ramdiskaddr.value;
    }
    var pagesize := o.pagesize;
    if pagesize != 2048 && pagesize != 4096 {
      return Err("unsupported page size");
    }
    if o.kernel.NotGiven? {
      return Err("no kernel image specified");
    }
    if o.ramdisk.NotGiven? {
      return Err("no ramdisk image specified");
    }
    if |o.board| >= BOOT_NAME_SIZE {
      return Err("board name too large");
    }
    if |o.cmdline| > BOOT_ARGS_SIZE - 1 {
      return Err("kernel commandline too large");
    }
    if o.kernel.NotLoaded? {
      return Err("could not load kernel");
    }
    if o.ramdisk.NotLoaded? {
      return Err("could not load ramdisk");
    }
    if o.second.NotLoaded? {
      return Err("could not load secondstage");
    }
    var kernel, ramdisk, second := o.kernel.data, o.ramdisk.data, Second(o);
    var sha := HashParts(build, kernel, ramdisk, second);
    var hdr := BootHeader(|kernel|, kernel_addr, |ramdisk|, ramdisk_addr, |second|, second_addr, tags_addr, pagesize,
                          Field(o.board, BOOT_NAME_SIZE), Field(o.cmdline, BOOT_ARGS_SIZE), Field(sha, 32));
    assert hdr == HeaderOf(o);
    var file := hdr.Bytes();
    file := WritePadding(file, pagesize, HEADER_SIZE);
    file := file + kernel;
    file := WritePadding(file, pagesize, |kernel|);
    file := file + ramdisk;
    file := WritePadding(file, pagesize, |ramdisk|);
    if o.second.Loaded? {
      file := file + second;
      file := WritePadding(file, pagesize, |ramdisk|);
    }
    Assembled(o, hdr.Bytes(), file);
    return Ok(file);
  }

  lemma Assembled(o: Options, h: seq<bv8>, file: seq<bv8>)
    requires Refused(o).None? && Loadable(o) && h == HeaderOf(o).Bytes() && |h| == HEADER_SIZE
    requires var p, k, r := o.pagesize, o.kernel.data, o.ramdisk.data;
      var main := h + ZeroBytes(PadCount(p, HEADER_SIZE)) + k + ZeroBytes(PadCount(p, |k|)) + r + ZeroBytes(PadCount(p, |r|));
      file == if o.second.Loaded? then main + o.second.data + ZeroBytes(PadCount(p, |r|)) else main
    ensures file == ImageOf(o)
  {
    hide HeaderOf, ZeroBytes, PadCount, BootHeader.Bytes;
    var p, k, r := o.pagesize, o.kernel.data, o.ramdisk.data;
    var main := h + ZeroBytes(PadCount(p, HEADER_SIZE)) + k + ZeroBytes(PadCount(p, |k|)) + r + ZeroBytes(PadCount(p, |r|));
    assert main == PaddedTo(p, h) + PaddedTo(p, k) + PaddedTo(p, r);
  }

  // ----- unpacking

  datatype Unpacked = Unpacked(cmdline: CString, base: Word32, page_size: Word32, kernel: seq<bv8>, ramdisk: seq<bv8>)

  lemma {:induction false} FromLeBound(s: seq<bv8>)
    ensures FromLe(s) < Power256(|s|)
  {
    if s != [] {
      FromLeBound(s[1..]);
    }
  }

  /** Word k of the header. */
  function WordAt(s: seq<bv8>, k: nat): Word32
    requires |s| == HEADER_SIZE && k < 10
  {
    FromLeBound(s[8 + 4 * k..12 + 4 * k]);
    assert Power256(4) == 0x1_0000_0000 by { assert Power256(2) == 0x1_0000; }
    FromLe(s[8 + 4 * k..12 + 4 * k])
  }

  /** The header as it is read; the magic string is not looked at. */
  function ParseHeader(s: seq<bv8>): (h: BootHeader)
    requires |s| == HEADER_SIZE
    ensures h.Sized()
  {
    BootHeader(WordAt(s, 0), WordAt(s, 1), WordAt(s, 2), WordAt(s, 3), WordAt(s, 4), WordAt(s, 5), WordAt(s, 6), WordAt(s, 7),
               s[48..64], s[64..576], s[576..608])
  }

  /** What fread of one item of n bytes gives at a place. Where the file ends before the item does, the value
      of the item is indeterminate (section 7.21.8.1 of ISO/IEC 9899:2011): None. */
  function ReadAt(file: seq<bv8>, at: nat, n: nat): Option<seq<bv8>> {
    if n == 0 then Some([]) else if at + n <= |file| then Some(file[at..at + n]) else None
  }

  function Sub32(x: Word32, y: Word32): Word32 {
    (x + 0x1_0000_0000 - y) % 0x1_0000_0000
  }

  /** Where the kernel and the ramdisk start for a page size. */
  function KernelAt(pagesize: nat): nat
    requires pagesize > 0
  {
    HEADER_SIZE + PadCount(pagesize, HEADER_SIZE)
  }

  function RamdiskAt(pagesize: nat, kernel_size: nat): nat
    requires pagesize > 0
  {
    KernelAt(pagesize) + kernel_size + PadCount(pagesize, kernel_size)
  }

  lemma Int32Add(x: int, y: int)
    ensures Int32(Int32(x) + y) == Int32(x + y)
  {
    var q := (x + 0x8000_0000) / 0x1_0000_0000;
    assert Int32(x) == x - 0x1_0000_0000 * q;
    Wraps(x + y + 0x8000_0000, q);
  }

  lemma Wraps(x: int, q: int)
    ensures (x - 0x1_0000_0000 * q) % 0x1_0000_0000 == x % 0x1_0000_0000
  {}

  /** The outputs for an image. None where what the program does is not determined: when the file ends too
      early and memory is read that was never written, when neither the command line nor the id has a NUL
      and the string is read past the header, or when the page size is no positive int. */
  function UnpackedFrom(file: seq<bv8>, pagesize: Word32): Option<Unpacked> {
    if |file| < HEADER_SIZE then None
    else
      var h := ParseHeader(file[..HEADER_SIZE]);
      var p := if pagesize == 0 then h.page_size else pagesize;
      if p == 0 || p >= 0x8000_0000 || 0 !in h.cmdline + h.id then None
      else
        var kernel := ReadAt(file, KernelAt(p), h.kernel_size);
        var ramdisk := ReadAt(file, RamdiskAt(p, h.kernel_size), h.ramdisk_size);
        if kernel.None? || ramdisk.None? then None
        else Some(Unpacked(CText(h.cmdline + h.id), Sub32(h.kernel_addr, 0x00008000), h.page_size, kernel.value, ramdisk.value))
  }

  /** An open file. */
  class FileReader {
    const data: seq<bv8>
    var pos: nat

    constructor (data: seq<bv8>)
      ensures this.data == data && pos == 0
    {
      this.data, pos := data, 0;
    }

    /** fread of one item of n bytes. A short read goes to the end of the file. */
    method Fread(n: nat) returns (item: Option<seq<bv8>>)
      modifies this
      ensures item == ReadAt(data, old(pos), n)
      ensures pos == if item.Some? then old(pos) + n else if old(pos) > |data| then old(pos) else |data|
    {
      item := ReadAt(data, pos, n);
      if item.Some? {
        pos := pos + n;
      } else if pos < |data| {
        pos := |data|;
      }
    }

    /** read_padding. */
    method ReadPadding(itemsize: nat, pagesize: nat) returns (count: nat)
      requires pagesize > 0
      modifies this
      ensures count == PadCount(pagesize, itemsize)
      ensures pos == old(pos) + count || (old(pos) + count > |data| && pos >= |data|)
    {
      hide BitAnd;
      var pagemask := pagesize - 1;
      if BitAnd(itemsize, pagemask) == 0 {
        return 0;
      }
      count := pagesize - BitAnd(itemsize, pagemask);
      var buf := Fread(count);
    }
  }

  /** The reading part of unpackbootimg. */
  method Unpack(file: seq<bv8>, pagesize0: Word32) returns (r: Option<Unpacked>, total_read: int)
    ensures r == UnpackedFrom(file, pagesize0)
    ensures r.Some? ==>
      var p := if pagesize0 == 0 then r.value.page_size else pagesize0;
      p > 0 && total_read == Int32(RamdiskAt(p, |r.value.kernel|) + |r.value.ramdisk|)
  {
    hide KernelAt, RamdiskAt, ParseHeader, CText, Int32;
    var f := new FileReader(file);
    total_read := 0;
    var bytes := f.Fread(HEADER_SIZE);
    if bytes.None? {
      return None, total_read;
    }
    assert bytes.value == file[..HEADER_SIZE];
    var header := ParseHeader(bytes.value);
    var pagesize := pagesize0;
    if pagesize == 0 {
      pagesize := header.page_size;
    }
    if pagesize == 0 || pagesize >= 0x8000_0000 || 0 !in header.cmdline + header.id {
      return None, total_read;
    }
    var kernel, ramdisk;
    kernel, ramdisk, total_read := ReadParts(f, header.kernel_size, header.ramdisk_size, pagesize);
    if kernel.None? || ramdisk.None? {
      return None, total_read;
    }
    r := Some(Unpacked(CText(header.cmdline + header.id), Sub32(header.kernel_addr, 0x00008000), header.page_size,
                       kernel.value, ramdisk.value));
  }

  /** Everything after the header: padding, kernel, padding and ramdisk. */
  method ReadParts(f: FileReader, kernel_size: nat, ramdisk_size: nat, pagesize: nat)
    returns (kernel: Option<seq<bv8>>, ramdisk: Option<seq<bv8>>, total_read: int)
    requires f.pos == HEADER_SIZE <= |f.data| && pagesize > 0
    modifies f
    ensures kernel == ReadAt(f.data, KernelAt(pagesize), kernel_size)
    ensures kernel.Some? ==> ramdisk == ReadAt(f.data, RamdiskAt(pagesize, kernel_size), ramdisk_size)
    ensures kernel.Some? && ramdisk.Some? ==> total_read == Int32(RamdiskAt(pagesize, kernel_size) + ramdisk_size)
  {
    hide PadCount, Int32;
    ramdisk := None;
    total_read := Int32(HEADER_SIZE);
    var count := f.ReadPadding(HEADER_SIZE, pagesize);
    total_read := Int32(total_read + count);
    Int32Add(HEADER_SIZE, count);
    kernel := f.Fread(kernel_size);
    if kernel.None? {
      return;
    }
    total_read := Int32(total_read + kernel_size);
    Int32Add(KernelAt(pagesize), kernel_size);
    count := f.ReadPadding(kernel_size, pagesize);
    total_read := Int32(total_read + count);
    Int32Add(KernelAt(pagesize) + kernel_size, count);
    ramdisk := f.Fread(ramdisk_size);
    total_read := Int32(total_read + ramdisk_size);
    Int32Add(RamdiskAt(pagesize, kernel_size), ramdisk_size);
  }

  // ----- unpacking undoes packing

  lemma HeaderRoundTrip(h: BootHeader)
    requires h.Sized()
    ensures ParseHeader(h.Bytes()) == h
  {
    hide Le, FromLe, LeWords;
    var s, w := h.Bytes(), h.Words();
    forall k | 0 <= k < 8
      ensures WordAt(s, k) == w[k]
    {
      LeWordsAt(w, k);
      assert s[8 + 4 * k..12 + 4 * k] == LeWords(w)[4 * k..4 * k + 4];
      LeWordBack(w[k]);
    }
    assert s[48..64] == h.name && s[64..576] == h.cmdline && s[576..608] == h.id;
  }

  lemma AddSub(x: Word32, y: Word32)
    ensures Sub32(Add32(x, y), y) == x
  {}

  /** Where the second stage starts. */
  function SecondAt(pagesize: nat, kernel_size: nat, ramdisk_size: nat): nat
    requires pagesize > 0
  {
    RamdiskAt(pagesize, kernel_size) + ramdisk_size + PadCount(pagesize, ramdisk_size)
  }

  lemma PartsOf(o: Options)
    requires Refused(o).None? && Loadable(o)
    ensures var p, k, r := o.pagesize, o.kernel.data, o.ramdisk.data;
      var image := ImageOf(o);
      var a, b, c := KernelAt(p), RamdiskAt(p, |k|), SecondAt(p, |k|, |r|);
      && HEADER_SIZE <= a && a + |k| <= b && b + |r| <= c && c + |Second(o)| <= |image|
      && image[..HEADER_SIZE] == HeaderOf(o).Bytes()
      && image[a..a + |k|] == k && image[b..b + |r|] == r && image[c..c + |Second(o)|] == Second(o)
  {
    hide HeaderOf, ZeroBytes, PadCount, BootHeader.Bytes;
    var p, k, r := o.pagesize, o.kernel.data, o.ramdisk.data;
    var h := HeaderOf(o).Bytes();
    var end := if o.second.Loaded? then o.second.data + ZeroBytes(PadCount(p, |r|)) else [];
    Pieces(h, ZeroBytes(PadCount(p, |h|)), k, ZeroBytes(PadCount(p, |k|)), r, ZeroBytes(PadCount(p, |r|)), end, |Second(o)|);
  }

  /** The parts of an image are where the page counts say. */
  lemma Layout(o: Options)
    requires Refused(o).None? && Loadable(o)
    ensures var p, k, r := o.pagesize, o.kernel.data, o.ramdisk.data;
      var image := ImageOf(o);
      var n, m := Pages(p, |k|), Pages(p, |r|);
      var a, b, c := p * 1, p * (1 + n), p * (1 + n + m);
      && HEADER_SIZE <= a && a + |k| <= b && b + |r| <= c && c + |Second(o)| <= |image|
      && image[..HEADER_SIZE] == HeaderOf(o).Bytes()
      && image[a..a + |k|] == k && image[b..b + |r|] == r && image[c..c + |Second(o)|] == Second(o)
  {
    hide ImageOf, HeaderOf, BootHeader.Bytes, KernelAt, RamdiskAt, SecondAt, Pages;
    PartsOf(o);
    PageStarts(o.pagesize, |o.kernel.data|, |o.ramdisk.data|);
  }

  lemma PageStarts(p: nat, k: nat, r: nat)
    requires p == 2048 || p == 4096
    ensures KernelAt(p) == p * 1 && RamdiskAt(p, k) == p * (1 + Pages(p, k))
    ensures SecondAt(p, k, r) == p * (1 + Pages(p, k) + Pages(p, r))
  {
    OnePage(p);
    hide PadCount, Pages;
    PagesFill(p, HEADER_SIZE);
    PagesFill(p, k);
    PagesFill(p, r);
    Sum3(p, 1, Pages(p, k), Pages(p, r));
  }

  lemma Sum3(p: int, a: int, b: int, c: int)
    ensures p * (a + b) == p * a + p * b && p * (a + b + c) == p * a + p * b + p * c
  {}

  /** An image ends with a whole page if and only if it has no second stage, or one whose last page is filled
      as far as that of the ramdisk. */
  lemma EndsWithPage(o: Options)
    requires Refused(o).None? && Loadable(o)
    ensures |ImageOf(o)| % o.pagesize == 0
      <==> o.second.NotGiven? || |o.second.data| % o.pagesize == |o.ramdisk.data| % o.pagesize
  {
    hide ImageOf, PadCount, Pages;
    var p, k, r := o.pagesize, |o.kernel.data|, |o.ramdisk.data|;
    var n := Pages(p, HEADER_SIZE) + Pages(p, k) + Pages(p, r);
    ImageLength(o);
    PagesFill(p, HEADER_SIZE);
    PagesFill(p, k);
    PagesFill(p, r);
    assert p * Pages(p, HEADER_SIZE) + p * Pages(p, k) + p * Pages(p, r) == p * n;
    if o.second.Loaded? {
      LastPage(p, |ImageOf(o)|, n, |o.second.data|, r, PadCount(p, r), Pages(p, r));
    } else {
      IsRemainder(|ImageOf(o)|, p, n, 0);
    }
  }

  lemma ImageLength(o: Options)
    requires Refused(o).None? && Loadable(o)
    ensures var p, k, r := o.pagesize, |o.kernel.data|, |o.ramdisk.data|;
      |ImageOf(o)| == HEADER_SIZE + PadCount(p, HEADER_SIZE) + (k + PadCount(p, k)) + (r + PadCount(p, r))
        + if o.second.Loaded? then |o.second.data| + PadCount(p, r) else 0
  {
    hide HeaderOf, PadCount, BootHeader.Bytes;
  }

  lemma LastPage(p: nat, all: nat, n: nat, second: nat, ramdisk: nat, pad: nat, m: nat)
    requires p > 0
    requires all == p * n + second + pad && ramdisk + pad == p * m
    ensures all % p == 0 <==> second % p == ramdisk % p
  {
    var s, r := second % p, ramdisk % p;
    Divided(second, p);
    Divided(ramdisk, p);
    var k := n + m + second / p - ramdisk / p;
    Distribute(p, n, m, second / p, ramdisk / p);
    assert all == k * p + s - r;
    if s >= r {
      IsRemainder(all, p, k, s - r);
    } else {
      MulNext(k - 1, p);
      IsRemainder(all, p, k - 1, p + s - r);
    }
  }

  lemma Distribute(p: int, a: int, b: int, c: int, d: int)
    ensures p * a + p * b + c * p - d * p == (a + b + c - d) * p
  {}

  /** A second stage of one byte behind an empty ramdisk does not end with a page. */
  lemma EndsWithPageExample(o: Options)
    requires Refused(o).None? && Loadable(o) && o.ramdisk == Loaded([]) && o.second == Loaded([0])
    ensures |ImageOf(o)| % o.pagesize != 0
  {
    hide ImageOf;
    EndsWithPage(o);
    IsRemainder(1, o.pagesize, 0, 1);
    IsRemainder(0, o.pagesize, 0, 0);
  }

  lemma OnePage(p: nat)
    requires p == 2048 || p == 4096
    ensures Pages(p, HEADER_SIZE) == 1
  {}

  lemma Pieces(h: seq<bv8>, z0: seq<bv8>, k: seq<bv8>, z1: seq<bv8>, r: seq<bv8>, z2: seq<bv8>, end: seq<bv8>, n: nat)
    requires n <= |end|
    ensures var s := (h + z0) + (k + z1) + (r + z2) + end;
      var a := |h| + |z0|;
      var b := a + |k| + |z1|;
      var c := b + |r| + |z2|;
      c + n <= |s| && s[..|h|] == h && s[a..a + |k|] == k && s[b..b + |r|] == r && s[c..c + n] == end[..n]
  {}

  /** The pages an item takes. */
  function Pages(pagesize: nat, size: nat): nat
    requires pagesize > 0
  {
    (size + pagesize - 1) / pagesize
  }

  lemma PagesFill(p: nat, size: nat)
    requires p == 2048 || p == 4096
    ensures size + PadCount(p, size) == p * Pages(p, size)
  {
    hide PadCount;
    PadFills(p, size);
    var all := size + PadCount(p, size);
    var q := all / p;
    Divided(all, p);
    assert all == q * p;
    if PadCount(p, size) == 0 {
      IsRemainder(size + p - 1, p, q, p - 1);
    } else {
      IsRemainder(size + p - 1, p, q, p - 1 - PadCount(p, size));
    }
  }

  /** Unpacking a packed image returns the same kernel, ramdisk, command line, base and page size, with the
      page size left to the header or given as it is there. */
  lemma UnpackPack(o: Options, pagesize: Word32)
    requires Refused(o).None? && Loadable(o) && (pagesize == 0 || pagesize == o.pagesize)
    ensures UnpackedFrom(ImageOf(o), pagesize)
      == Some(Unpacked(o.cmdline, Base(o), o.pagesize, o.kernel.data, o.ramdisk.data))
  {
    hide ImageOf, BootHeader.Bytes, HeaderOf, KernelAt, RamdiskAt, SecondAt, CText, ParseHeader, Add32, Sub32;
    PartsOf(o);
    HeaderRoundTrip(HeaderOf(o));
    HeaderFields(o);
    AddSub(Base(o), 0x00008000);
    CmdlineBack(o);
  }

  lemma HeaderFields(o: Options)
    requires Refused(o).None? && Loadable(o)
    ensures var h := HeaderOf(o);
      && h.kernel_size == |o.kernel.data| && h.ramdisk_size == |o.ramdisk.data|
      && h.page_size == o.pagesize && h.kernel_addr == Add32(Base(o), 0x00008000)
  {
    hide Hashed, Add32, Base, Fips180.Sha1;
  }

  lemma CmdlineBack(o: Options)
    requires Refused(o).None? && Loadable(o)
    ensures var h := HeaderOf(o); CText(h.cmdline + h.id) == o.cmdline && 0 in h.cmdline + h.id
  {
    var h := HeaderOf(o);
    CTextIs(h.cmdline + h.id, o.cmdline);
    assert (h.cmdline + h.id)[|o.cmdline|] == 0;
  }
}
