/** mkbootfs.c: the writer of cpio archives with its shared path buffers. */
module Mkbootfs {
  import opened Bytes
  import opened Ascii64
  import opened Cpio
  import opened ArchiveWalk

  // ----- path buffers

  /** The buffer holds the string and its terminator. */
  ghost predicate Text(a: array<bv8>, p: CString)
    reads a
  {
    |p| < a.Length && a[..|p|] == p && a[|p|] == 0
  }

  // ----- streams

  /** Room for the bytes of items in a stream whose length an int can count. */
  ghost predicate Room(s: seq<bv8>, ino: int, items: seq<Item>) {
    ino >= 0 && |s| + |Encode(|s|, ino, items)| < 0x8000_0000
  }

  /** The stream s and the next inode number after writing items. */
  ghost predicate Wrote(s: seq<bv8>, ino: int, items: seq<Item>, s': seq<bv8>, ino': int) {
    ino >= 0 && s' == s + Encode(|s|, ino, items) && ino' == ino + |items|
  }

  lemma WroteNothing(s: seq<bv8>, ino: nat)
    ensures Wrote(s, ino, [], s, ino)
  {}

  lemma WroteMore(s: seq<bv8>, ino: nat, a: seq<Item>, s': seq<bv8>, ino': nat, b: seq<Item>, s'': seq<bv8>, ino'': nat)
    requires Wrote(s, ino, a, s', ino') && Wrote(s', ino', b, s'', ino'')
    ensures Wrote(s, ino, a + b, s'', ino'')
  {
    hide Encode;
    EncodeAppend(|s|, ino, a, b);
  }

  lemma RoomFirst(s: seq<bv8>, ino: int, a: seq<Item>, b: seq<Item>)
    requires Room(s, ino, a + b)
    ensures Room(s, ino, a)
  {
    hide Encode;
    EncodeAppend(|s|, ino, a, b);
  }

  lemma RoomThen(s: seq<bv8>, ino: nat, a: seq<Item>, s': seq<bv8>, ino': nat, b: seq<Item>)
    requires Room(s, ino, a + b) && Wrote(s, ino, a, s', ino')
    ensures Room(s', ino', b)
  {
    hide Encode;
    EncodeAppend(|s|, ino, a, b);
  }

  // ----- the whole program

  lemma NoArgsDone(fs: FileSystem, cfg: Config, args: seq<CString>)
    ensures WalkArgs(fs, cfg, args) == Then(Walked([], Complete), WalkArgs(fs, cfg, args[0..]))
    ensures WalkArgs(fs, cfg, args[|args|..]) == Walked([], Complete)
  {
    hide WalkArg;
    assert args[0..] == args;
  }

  lemma ArgsStep(fs: FileSystem, cfg: Config, args: seq<CString>, i: nat, done: seq<Item>) returns (rest: seq<Item>)
    requires i < |args|
    ensures var w := WalkArg(fs, cfg, args[i]);
      var all := Then(Walked(done, Complete), WalkArgs(fs, cfg, args[i..]));
      && all.items == done + w.items + rest
      && all == if w.ending.Complete? then Then(Walked(done + w.items, Complete), WalkArgs(fs, cfg, args[i + 1..])) else Walked(done + w.items, w.ending)
  {
    hide WalkArg;
    assert args[i..][1..] == args[i + 1..] && args[i..][0] == args[i];
    var w := WalkArg(fs, cfg, args[i]);
    rest := if w.ending.Complete? then WalkArgs(fs, cfg, args[i + 1..]).items else [];
  }

  lemma WroteIs(done: seq<Item>, s: seq<bv8>, ino: int)
    requires Wrote([], 300000, done, s, ino)
    ensures s == Encode(0, 300000, done) && ino == 300000 + |done|
  {
    hide Encode;
  }

  function TrailerItem(cfg: Config): Item {
    Item(TRAILER, cfg(TRAILER, false, 0), [])
  }

  function ArchiveOf(cfg: Config, items: seq<Item>): seq<bv8> {
    Closed(Encode(0, 300000, items + [TrailerItem(cfg)]))
  }

  lemma BigStep(s: seq<bv8>)
    ensures if |s| % 256 == 0 then s + ZeroBytes(BigGap(|s|)) == s
            else BigGap(|s| + 1) < BigGap(|s|) && s + [0] + ZeroBytes(BigGap(|s| + 1)) == s + ZeroBytes(BigGap(|s|))
  {
    if |s| % 256 != 0 {
      BigGapStep(|s|);
    }
    hide BigGap;
    OneMoreZero(s, BigGap(|s|));
  }

  lemma BigGapStep(n: nat)
    requires n % 256 != 0
    ensures BigGap(n) == BigGap(n + 1) + 1
  {
    var q, r := n / 256, n % 256;
    assert n == 256 * q + r;
    if r == 255 {
      assert n + 1 == 256 * (q + 1);
    } else {
      assert n + 1 == 256 * q + (r + 1);
    }
  }

  /** The first of some zeros. */
  lemma OneMoreZero(s: seq<bv8>, n: nat)
    ensures if n == 0 then s + ZeroBytes(n) == s else s + [0] + ZeroBytes(n - 1) == s + ZeroBytes(n)
  {}

  /** Reading an archive gives the written entries up to the first named like the trailer: all of them, if
      and only if there is none. Its length is a multiple of 256, and the inode numbers are distinct. */
  lemma ArchiveRoundTrip(cfg: Config, items: seq<Item>)
    requires |ArchiveOf(cfg, items)| < 0x8000_0000
    ensures ReadAll(ArchiveOf(cfg, items), 0) == Entries(EntriesOf(300000, items[..FirstTrailer(items)]))
    ensures ReadAll(ArchiveOf(cfg, items), 0) == Entries(EntriesOf(300000, items)) <==> forall k :: 0 <= k < |items| ==> items[k].path != TRAILER
    ensures |ArchiveOf(cfg, items)| % 256 == 0
    ensures forall i, j :: 0 <= i < j < |items| ==> EntriesOf(300000, items)[i].ino != EntriesOf(300000, items)[j].ino
  {
    hide Encode, ReadAll, Record;
    var s := ArchiveOf(cfg, items);
    var e := Encode(0, 300000, items);
    var t := Record(|e|, 300000 + |items|, TrailerItem(cfg));
    EncodeAppend(0, 300000, items, [TrailerItem(cfg)]);
    EncodeOne(|e|, 300000 + |items|, TrailerItem(cfg));
    assert s == e + t + ZeroBytes(BigGap(|e + t|));
    assert s[0..|e|] == e && s[|e|..|e| + |t|] == t;
    ReadsArchive(s, 0, 300000, items, cfg(TRAILER, false, 0));
    assert items[..|items|] == items;
    forall i | 0 <= i < |items|
      ensures EntriesOf(300000, items)[i].ino == 300000 + i
    {
      InodeAt(300000, items, i);
    }
  }

  lemma {:induction false} InodeAt(ino: nat, items: seq<Item>, i: nat)
    requires i < |items|
    ensures EntriesOf(ino, items)[i].ino == ino + i
    decreases i
  {
    if i > 0 {
      InodeAt(ino + 1, items[1..], i - 1);
    }
  }

  /** The archive of a complete run. Its items are those of the files that names which are not left out lead
      to below the start directories. When no directory lists a name twice, there is exactly one for each,
      in the order of the arguments and in each by directory and strcmp. The reader gives an entry for each
      of them, if and only if none is named like the trailer. */
  lemma RunHolds(fs: FileSystem, cfg: Config, args: seq<CString>)
    requires WalkArgs(fs, cfg, args).ending.Complete?
    requires |ArchiveOf(cfg, WalkArgs(fs, cfg, args).items)| < 0x8000_0000
    ensures var files, items := Files(fs, args, 0), WalkArgs(fs, cfg, args).items;
      && (forall f :: f in files <==> IsBelow(fs, args, f))
      && (ListsOnce(fs) ==> forall j, k :: 0 <= j < k < |files| ==> Earlier(files[j], files[k]) && files[j] != files[k])
      && FilesHave(fs, cfg, args, files, items)
      && (ReadAll(ArchiveOf(cfg, items), 0) == Entries(EntriesOf(300000, items))
          <==> forall k :: 0 <= k < |items| ==> items[k].path != TRAILER)
      && |EntriesOf(300000, items)| == |files|
      && forall k :: 0 <= k < |files| ==>
           EntriesOf(300000, items)[k] == Entry(300000 + k, items[k].mode, items[k].path, items[k].data)
  {
    hide WalkArgs, Files, ReadAll, ArchiveOf, ListsOnce, Earlier, IsBelow, IsItemOf;
    var items := WalkArgs(fs, cfg, args).items;
    assert args[0..] == args;
    FilesAre(fs, cfg, args, 0);
    if ListsOnce(fs) {
      FilesIncrease(fs, args, 0);
      forall j, k | 0 <= j < k < |Files(fs, args, 0)|
        ensures Files(fs, args, 0)[j] != Files(fs, args, 0)[k]
      {
        EarlierDiffers(Files(fs, args, 0)[j], Files(fs, args, 0)[k]);
      }
    }
    ArchiveRoundTrip(cfg, items);
    forall k | 0 <= k < |items|
      ensures EntriesOf(300000, items)[k] == Entry(300000 + k, items[k].mode, items[k].path, items[k].data)
    {
      EntryAt(300000, items, k);
    }
  }

  /** Two files below the same argument have different paths in the archive, so that a path that is read back
      identifies its file. */
  lemma PathsDiffer(fs: FileSystem, cfg: Config, args: seq<CString>, j: nat, k: nat)
    requires WalkArgs(fs, cfg, args).ending.Complete? && ListsOnce(fs) && ListsNames(fs)
    requires j < k < |Files(fs, args, 0)| && Files(fs, args, 0)[j].arg == Files(fs, args, 0)[k].arg
    ensures |WalkArgs(fs, cfg, args).items| == |Files(fs, args, 0)|
    ensures WalkArgs(fs, cfg, args).items[j].path != WalkArgs(fs, cfg, args).items[k].path
  {
    hide WalkArgs, Files, ListsOnce, ListsNames, AreNames, Earlier, Reaches, InFold, OutFold, Start, Prefix;
    var f := Files(fs, args, 0);
    assert args[0..] == args;
    FilesAre(fs, cfg, args, 0);
    FilesIncrease(fs, args, 0);
    EarlierDiffers(f[j], f[k]);
    assert f[j] in f && f[k] in f && f[j].names != f[k].names;
    ReachesNames(fs, Start(args[f[j].arg]), f[j].names);
    ReachesNames(fs, Start(args[f[j].arg]), f[k].names);
    if OutFold(Prefix(args[f[j].arg]), f[j].names) == OutFold(Prefix(args[f[j].arg]), f[k].names) {
      PathIdentifies(Prefix(args[f[j].arg]), f[j].names, f[k].names);
    }
  }

  lemma {:induction false} EntryAt(ino: nat, items: seq<Item>, i: nat)
    requires i < |items|
    ensures EntriesOf(ino, items)[i] == Entry(ino + i, items[i].mode, items[i].path, items[i].data)
    decreases i
  {
    if i > 0 {
      EntryAt(ino + 1, items[1..], i - 1);
    }
  }

  /** A directory "d" whose only file is named like the trailer: the archive of the complete run is read as empty. */
  lemma TrailerExample(cfg: Config)
    ensures var fs: FileSystem := map[[0x64] := Directory(0, [TRAILER]), [0x64, SLASH] + TRAILER := Regular(0, [])];
      var w := WalkArgs(fs, cfg, [[0x64]]);
      && w.ending.Complete? && |w.items| == 1 && ReadAll(ArchiveOf(cfg, w.items), 0) == Entries([])
  {
    var fs: FileSystem := map[[0x64] := Directory(0, [TRAILER]), [0x64, SLASH] + TRAILER := Regular(0, [])];
    var start: CString := [0x64];
    ExampleWalk(fs, cfg, start);
    var items := WalkArgs(fs, cfg, [start]).items;
    ExampleSize(cfg, items[0]);
    assert items == [items[0]];
    ArchiveRoundTrip(cfg, items);
    assert items[..FirstTrailer(items)] == [];
  }

  lemma ExampleWalk(fs: FileSystem, cfg: Config, start: CString)
    requires start == [0x64]
    requires fs == map[start := Directory(0, [TRAILER]), [0x64, SLASH] + TRAILER := Regular(0, [])]
    ensures WalkArgs(fs, cfg, [start]) == Walked([Item(TRAILER, cfg(TRAILER, false, 0), [])], Complete)
  {
    assert EqualsAt(start, 0) == 1 && start[..1] == start;
    assert InPath(start, TRAILER) == [0x64, SLASH] + TRAILER;
    assert Kept([TRAILER]) == [TRAILER] by { assert [TRAILER][1..] == []; }
    assert Listed([TRAILER]) == [TRAILER] by { assert [TRAILER][1..] == []; }
    var w := WalkName(fs, cfg, start, [], TRAILER);
    var p := InPath(start, TRAILER);
    assert |p| == 12 && p in fs && fs[p] == Regular(0, []);
    assert OutPath([], TRAILER) == TRAILER;
    assert Walk(fs, cfg, p, TRAILER) == Walked([ItemFor(fs, cfg, p, TRAILER)], Complete);
    assert w == Walked([Item(TRAILER, cfg(TRAILER, false, 0), [])], Complete);
    assert [TRAILER][1..] == [];
    assert WalkNames(fs, cfg, start, [], [TRAILER]) == w;
    assert [start][1..] == [];
  }

  lemma ExampleSize(cfg: Config, item: Item)
    requires |item.path| == 10 && item.data == []
    ensures |ArchiveOf(cfg, [item])| < 0x8000_0000
  {
    hide Encode, Record;
    EncodeAppend(0, 300000, [item], [TrailerItem(cfg)]);
    EncodeOne(0, 300000, item);
    EncodeOne(|Encode(0, 300000, [item])|, 300001, TrailerItem(cfg));
    RecordShort(0, 300000, item);
    RecordShort(|Encode(0, 300000, [item])|, 300001, TrailerItem(cfg));
  }

  // ----- the writer

  class Writer {
    const fs: FileSystem
    const cfg: Config
    var total_size: int
    var next_inode: int
    var stdout: seq<bv8>

    constructor (fs: FileSystem, cfg: Config)
      ensures this.fs == fs && this.cfg == cfg && Counted() && stdout == [] && next_inode == 300000
    {
      this.fs, this.cfg := fs, cfg;
      total_size, next_inode, stdout := 0, 300000, [];
    }

    /** total_size is the number of bytes written. */
    predicate Counted()
      reads this
    {
      total_size == |stdout| && next_inode >= 0
    }

    /** The loop before a header and before contents. */
    method Align()
      requires Counted()
      modifies this`total_size, this`stdout
      ensures Counted() && stdout == old(stdout) + ZeroBytes(Gap(|old(stdout)|))
    {
      hide ZeroBytes, Gap;
      ghost var s := stdout;
      AlignStep(stdout);
      while total_size % 4 != 0
        invariant Counted() && stdout + ZeroBytes(Gap(total_size)) == s + ZeroBytes(Gap(|s|))
        decreases Gap(total_size)
      {
        AlignStep(stdout);
        total_size := total_size + 1;
        stdout := stdout + [0];
      }
      AlignStep(stdout);
    }

    /** _eject. */
    method Eject(mode: Word32, isDir: bool, out: CString, olen: nat, data: seq<bv8>) returns (ok: bool)
      requires Counted() && Room(stdout, next_inode, [Item(out, cfg(out, isDir, mode), data)])
      modifies this
      ensures ok == (|out| == olen)
      ensures ok ==> Counted() && Wrote(old(stdout), old(next_inode), [Item(out, cfg(out, isDir, mode), data)], stdout, next_inode)
    {
      hide Record, Encode, HexWords, Hex;
      ghost var item := Item(out, cfg(out, isDir, mode), data);
      EncodeOne(|stdout|, next_inode, item);
      Align();
      var m := cfg(out, isDir, mode);
      MagicIs();
      stdout := stdout + (Hex(0x070701, 6) + HexWords([next_inode, m, 0, 0, 1, 0, |data|, 0, 0, 0, 0, olen + 1, 0])) + (out + [0]);
      next_inode := next_inode + 1;
      total_size := total_size + 6 + 8 * 13 + olen + 1;
      if |out| != olen {
        return false;
      }
      Align();
      if |data| != 0 {
        stdout := stdout + data;
        total_size := total_size + |data|;
      }
      RecordIs(old(stdout), old(next_inode), item);
      return true;
    }

    /** The buffers of archive: the path in the file system, and the path in the archive. */
    static ghost predicate Buffers(inb: array<bv8>, out: array<bv8>, inp: CString, outp: CString)
      reads inb, out
    {
      && inb != out && inb.Length == out.Length == PATH_SIZE && Text(inb, inp) && Text(out, outp)
    }

    /** _archive: the file or tree whose path is in the buffers. If the program does not end early, the
        buffers hold the same paths afterwards. */
    method Archive(inb: array<bv8>, out: array<bv8>, ilen: nat, olen: nat, ghost inp: CString, ghost outp: CString)
      returns (ok: bool)
      requires Buffers(inb, out, inp, outp) && ilen == |inp| && olen == |outp|
      requires Fits(inp, outp) && !Walk(fs, cfg, inp, outp).ending.Overflowed?
      requires Counted() && Room(stdout, next_inode, Walk(fs, cfg, inp, outp).items)
      modifies this, inb, out
      ensures var w := Walk(fs, cfg, inp, outp);
        ok == w.ending.Complete? && Counted() && Wrote(old(stdout), old(next_inode), w.items, stdout, next_inode)
      ensures ok ==> Buffers(inb, out, inp, outp)
      decreases PATH_SIZE - ilen, 3
    {
      hide WalkNames, CText, Listed, Room, Wrote;
      CTextIs(inb[..], inp);
      CTextIs(out[..], outp);
      var path, name := CText(inb[..]), CText(out[..]);
      if path !in fs {
        WroteNothing(stdout, next_inode);
        return false;
      }
      match fs[path]
      case Regular(mode, contents) =>
        ok := Eject(mode, false, name, olen, contents);
      case Directory(mode, _) =>
        ghost var head, rest := [ItemFor(fs, cfg, inp, outp)], WalkDir(fs, cfg, inp, outp);
        WalkParts(fs, cfg, inp, outp);
        RoomFirst(stdout, next_inode, head, rest.items);
        ok := Eject(mode, true, name, olen, []);
        ghost var s, ino := stdout, next_inode;
        RoomThen(old(stdout), old(next_inode), head, s, ino, rest.items);
        ok := ArchiveDir(inb, out, ilen, olen, inp, outp);
        WroteMore(old(stdout), old(next_inode), head, s, ino, rest.items, stdout, next_inode);
      case Symlink(mode, target) =>
        ok := Eject(mode, false, name, olen, Truncated(target));
      case Other(_) =>
        WroteNothing(stdout, next_inode);
        return false;
    }

    /** _archive_dir: everything in the directory whose path is in the buffers. */
    method ArchiveDir(inb: array<bv8>, out: array<bv8>, ilen: nat, olen: nat, ghost inp: CString, ghost outp: CString)
      returns (ok: bool)
      requires Buffers(inb, out, inp, outp) && ilen == |inp| && olen == |outp|
      requires !WalkDir(fs, cfg, inp, outp).ending.Overflowed?
      requires Counted() && Room(stdout, next_inode, WalkDir(fs, cfg, inp, outp).items)
      modifies this, inb, out
      ensures var w := WalkDir(fs, cfg, inp, outp);
        ok == w.ending.Complete? && Counted() && Wrote(old(stdout), old(next_inode), w.items, stdout, next_inode)
      ensures ok ==> Buffers(inb, out, inp, outp)
      decreases PATH_SIZE - ilen, 2
    {
      hide Walk, WalkNames, CText, Sort, Room, Wrote, Kept;
      CTextIs(inb[..], inp);
      WroteNothing(stdout, next_inode);
      var path := CText(inb[..]);
      if path !in fs || !fs[path].Directory? {
        return false;
      }
      var names := ReadNames(fs[path].names);
      names := Sort(names);
      ok := ArchiveNames(inb, out, ilen, olen, names, inp, outp);
    }

    /** The loop over the sorted names. */
    method ArchiveNames(inb: array<bv8>, out: array<bv8>, ilen: nat, olen: nat, names: seq<CString>, ghost inp: CString, ghost outp: CString)
      returns (ok: bool)
      requires Buffers(inb, out, inp, outp) && ilen == |inp| && olen == |outp|
      requires ilen < PATH_SIZE && !WalkNames(fs, cfg, inp, outp, names).ending.Overflowed?
      requires Counted() && Room(stdout, next_inode, WalkNames(fs, cfg, inp, outp, names).items)
      modifies this, inb, out
      ensures var w := WalkNames(fs, cfg, inp, outp, names);
        ok == w.ending.Complete? && Counted() && Wrote(old(stdout), old(next_inode), w.items, stdout, next_inode)
      ensures ok ==> Buffers(inb, out, inp, outp)
      decreases PATH_SIZE - ilen, 1
    {
      hide WalkName, WalkNames, Room, Wrote, Writer.Buffers;
      ghost var done: seq<Item> := [];
      WroteNothing(stdout, next_inode);
      NoneDone(fs, cfg, inp, outp, names);
      for i := 0 to |names|
        invariant Buffers(inb, out, inp, outp) && Counted()
        invariant Wrote(old(stdout), old(next_inode), done, stdout, next_inode)
        invariant WalkNames(fs, cfg, inp, outp, names) == Then(Walked(done, Complete), WalkNames(fs, cfg, inp, outp, names[i..]))
      {
        NamesStep(fs, cfg, inp, outp, names, i, done);
        ghost var w := WalkName(fs, cfg, inp, outp, names[i]);
        ghost var s, ino := stdout, next_inode;
        RoomFirst(old(stdout), old(next_inode), done + w.items, Remaining(fs, cfg, inp, outp, names, i));
        RoomThen(old(stdout), old(next_inode), done, s, ino, w.items);
        ok := ArchiveName(inb, out, ilen, olen, names[i], inp, outp);
        WroteMore(old(stdout), old(next_inode), done, s, ino, w.items, stdout, next_inode);
        done := done + w.items;
        if !ok {
          return false;
        }
      }
      assert done + [] == done;
      return true;
    }

    /** One turn of the loop of _archive_dir: the name is put behind both paths and taken off again. */
    method ArchiveName(inb: array<bv8>, out: array<bv8>, ilen: nat, olen: nat, name: CString, ghost inp: CString, ghost outp: CString)
      returns (ok: bool)
      requires Buffers(inb, out, inp, outp) && ilen == |inp| && olen == |outp|
      requires ilen < PATH_SIZE && !WalkName(fs, cfg, inp, outp, name).ending.Overflowed?
      requires Counted() && Room(stdout, next_inode, WalkName(fs, cfg, inp, outp, name).items)
      modifies this, inb, out
      ensures var w := WalkName(fs, cfg, inp, outp, name);
        ok == w.ending.Complete? && Counted() && Wrote(old(stdout), old(next_inode), w.items, stdout, next_inode)
      ensures ok ==> Buffers(inb, out, inp, outp)
      decreases PATH_SIZE - ilen, 0
    {
      hide Walk, Room, Wrote, Writer.Buffers;
      var t := |name|;
      PushName(inb, out, ilen, olen, name, inp, outp);
      ok := Archive(inb, out, ilen + t + 1, if olen > 0 then olen + t + 1 else t, InPath(inp, name), OutPath(outp, name));
      if ok {
        PopName(inb, out, ilen, olen, name, inp, outp);
      }
    }

    /** archive: the contents of a directory, under a prefix. */
    method ArchiveTree(start: CString, prefix: CString) returns (ok: bool)
      requires Fits(start, prefix) && !WalkDir(fs, cfg, start, prefix).ending.Overflowed?
      requires Counted() && Room(stdout, next_inode, WalkDir(fs, cfg, start, prefix).items)
      modifies this
      ensures var w := WalkDir(fs, cfg, start, prefix);
        ok == w.ending.Complete? && Counted() && Wrote(old(stdout), old(next_inode), w.items, stdout, next_inode)
    {
      hide WalkDir, Room, Wrote;
      var inb, out := new bv8[PATH_SIZE], new bv8[PATH_SIZE];
      PutNext(inb, 0, start + [0]);
      PutNext(out, 0, prefix + [0]);
      TextJoined(inb, [], start);
      TextJoined(out, [], prefix);
      assert [] + start == start && [] + prefix == prefix;
      ok := ArchiveDir(inb, out, |start|, |prefix|, start, prefix);
    }

    /** _eject_trailer: the trailer, and zeros up to a multiple of 256. */
    method EjectTrailer()
      requires Counted() && Room(stdout, next_inode, [TrailerItem(cfg)])
      modifies this
      ensures Counted() && stdout == Closed(old(stdout) + Encode(|old(stdout)|, old(next_inode), [TrailerItem(cfg)]))
    {
      hide Encode, BigGap, ZeroBytes;
      var ok := Eject(0, false, TRAILER, 10, []);
      ghost var s := stdout;
      BigStep(stdout);
      while total_size % 256 != 0
        invariant Counted() && stdout + ZeroBytes(BigGap(total_size)) == s + ZeroBytes(BigGap(|s|))
        decreases BigGap(total_size)
      {
        BigStep(stdout);
        total_size := total_size + 1;
        stdout := stdout + [0];
      }
      BigStep(stdout);
    }

    /** main: the archive of all arguments, or false when the program dies. The paths fit their buffers and
        the stream stays below 2^31 bytes as far as the program gets. */
    method Run(args: seq<CString>) returns (ok: bool)
      requires Counted() && stdout == [] && next_inode == 300000
      requires !WalkArgs(fs, cfg, args).ending.Overflowed?
      requires |Streamed(cfg, args, WalkArgs(fs, cfg, args))| < 0x8000_0000
      modifies this
      ensures Counted() && ok == (args != [] && WalkArgs(fs, cfg, args).ending.Complete?)
      ensures stdout == Streamed(cfg, args, WalkArgs(fs, cfg, args))
    {
      hide WalkArg, Room, Wrote, Encode, WalkArgs;
      ghost var done: seq<Item> := [];
      ghost var all := WalkArgs(fs, cfg, args);
      WroteNothing(stdout, next_inode);
      NoArgsDone(fs, cfg, args);
      RoomOfStream(cfg, args, all);
      for i := 0 to |args|
        invariant Counted() && Wrote([], 300000, done, stdout, next_inode)
        invariant all == Then(Walked(done, Complete), WalkArgs(fs, cfg, args[i..]))
      {
        ghost var w := WalkArg(fs, cfg, args[i]);
        ghost var s, ino := stdout, next_inode;
        ghost var rest := ArgsStep(fs, cfg, args, i, done);
        RoomFirst([], 300000, done + w.items, rest);
        RoomThen([], 300000, done, s, ino, w.items);
        WalkArgIs(fs, cfg, args[i]);
        ok := ArchiveTree(Start(args[i]), Prefix(args[i]));
        WroteMore([], 300000, done, s, ino, w.items, stdout, next_inode);
        done := done + w.items;
        if !ok {
          WroteIs(done, stdout, next_inode);
          return false;
        }
      }
      assert done + [] == done;
      WroteIs(done, stdout, next_inode);
      if args == [] {
        return false;
      }
      RoomThen([], 300000, done, stdout, next_inode, [TrailerItem(cfg)]);
      EncodeAppend(0, 300000, done, [TrailerItem(cfg)]);
      EjectTrailer();
      return true;
    }
  }

  /** What the program writes: the archive, or what comes before its death. */
  function Streamed(cfg: Config, args: seq<CString>, w: Walked): seq<bv8> {
    if args != [] && w.ending.Complete? then ArchiveOf(cfg, w.items) else Encode(0, 300000, w.items)
  }

  lemma RoomOfStream(cfg: Config, args: seq<CString>, w: Walked)
    requires |Streamed(cfg, args, w)| < 0x8000_0000
    ensures Room([], 300000, w.items)
    ensures args != [] && w.ending.Complete? ==> Room([], 300000, w.items + [TrailerItem(cfg)])
  {
    hide Encode;
    EncodeAppend(0, 300000, w.items, [TrailerItem(cfg)]);
  }

  lemma WalkArgIs(fs: FileSystem, cfg: Config, arg: CString)
    requires !WalkArg(fs, cfg, arg).ending.Overflowed?
    ensures Fits(Start(arg), Prefix(arg)) && WalkArg(fs, cfg, arg) == WalkDir(fs, cfg, Start(arg), Prefix(arg))
  {}

  method PushName(inb: array<bv8>, out: array<bv8>, ilen: nat, olen: nat, name: CString, ghost inp: CString, ghost outp: CString)
    requires Writer.Buffers(inb, out, inp, outp) && ilen == |inp| && olen == |outp|
    requires Fits(InPath(inp, name), OutPath(outp, name))
    modifies inb, out
    ensures Writer.Buffers(inb, out, InPath(inp, name), OutPath(outp, name))
  {
    inb[ilen] := SLASH;
    PutNext(inb, ilen + 1, name + [0]);
    TextJoined(inb, inp + [SLASH], name);
    if olen > 0 {
      out[olen] := SLASH;
      PutNext(out, olen + 1, name + [0]);
      TextJoined(out, outp + [SLASH], name);
    } else {
      PutNext(out, 0, name + [0]);
      TextJoined(out, [], name);
    }
  }

  method PopName(inb: array<bv8>, out: array<bv8>, ilen: nat, olen: nat, name: CString, ghost inp: CString, ghost outp: CString)
    requires Writer.Buffers(inb, out, InPath(inp, name), OutPath(outp, name)) && ilen == |inp| && olen == |outp|
    modifies inb, out
    ensures Writer.Buffers(inb, out, inp, outp)
  {
    TextStart(inb, inp, InPath(inp, name));
    TextStart(out, outp, OutPath(outp, name));
    inb[ilen] := 0;
    out[olen] := 0;
  }

  /** What is left of a directory after name i. */
  ghost function Remaining(fs: FileSystem, cfg: Config, inp: CString, outp: CString, names: seq<CString>, i: nat): seq<Item>
    requires |inp| < PATH_SIZE && i < |names|
  {
    if WalkName(fs, cfg, inp, outp, names[i]).ending.Complete? then WalkNames(fs, cfg, inp, outp, names[i + 1..]).items else []
  }

  lemma NamesStep(fs: FileSystem, cfg: Config, inp: CString, outp: CString, names: seq<CString>, i: nat, done: seq<Item>)
    requires |inp| < PATH_SIZE && i < |names|
    ensures var w := WalkName(fs, cfg, inp, outp, names[i]);
      var all := Then(Walked(done, Complete), WalkNames(fs, cfg, inp, outp, names[i..]));
      && all.items == done + w.items + Remaining(fs, cfg, inp, outp, names, i)
      && all == if w.ending.Complete? then Then(Walked(done + w.items, Complete), WalkNames(fs, cfg, inp, outp, names[i + 1..]))
                else Walked(done + w.items, w.ending)
  {
    NamesHead(fs, cfg, inp, outp, names, i);
    hide WalkName, WalkNames;
    var w, rest := WalkName(fs, cfg, inp, outp, names[i]), WalkNames(fs, cfg, inp, outp, names[i + 1..]);
    assert done + (w.items + rest.items) == (done + w.items) + rest.items;
    assert done + w.items + [] == done + w.items;
  }

  lemma NamesHead(fs: FileSystem, cfg: Config, inp: CString, outp: CString, names: seq<CString>, i: nat)
    requires |inp| < PATH_SIZE && i < |names|
    ensures WalkNames(fs, cfg, inp, outp, names[i..])
      == Then(WalkName(fs, cfg, inp, outp, names[i]), WalkNames(fs, cfg, inp, outp, names[i + 1..]))
  {
    hide WalkName;
    assert names[i..][1..] == names[i + 1..] && names[i..][0] == names[i];
  }

  lemma NoneDone(fs: FileSystem, cfg: Config, inp: CString, outp: CString, names: seq<CString>)
    requires |inp| < PATH_SIZE
    ensures WalkNames(fs, cfg, inp, outp, names) == Then(Walked([], Complete), WalkNames(fs, cfg, inp, outp, names[0..]))
    ensures WalkNames(fs, cfg, inp, outp, names[|names|..]) == Walked([], Complete)
  {
    hide WalkName;
    assert names[0..] == names;
  }

  lemma TextJoined(a: array<bv8>, p: CString, name: CString)
    requires |p| + |name| < a.Length && a[..|p| + |name| + 1] == p + (name + [0])
    ensures Text(a, p + name)
  {
    assert a[..|p| + |name|] == a[..|p| + |name| + 1][..|p| + |name|];
    assert a[|p| + |name|] == a[..|p| + |name| + 1][|p| + |name|];
  }

  lemma TextStart(a: array<bv8>, p: CString, q: CString)
    requires Text(a, q) && p <= q
    ensures |p| < a.Length && a[..|p|] == p
  {
    assert a[..|p|] == a[..|q|][..|p|];
  }

  /** The loop over readdir. */
  method ReadNames(entries: seq<CString>) returns (names: seq<CString>)
    ensures names == Kept(entries)
  {
    hide Keep, Kept;
    names := [];
    KeptEnds(entries);
    for k := 0 to |entries|
      invariant names + Kept(entries[k..]) == Kept(entries)
    {
      KeptStep(names, entries, k);
      if Keep(entries[k]) {
        names := names + [entries[k]];
      }
    }
  }

  lemma KeptStep(done: seq<CString>, entries: seq<CString>, k: nat)
    requires k < |entries|
    ensures done + Kept(entries[k..]) == (if Keep(entries[k]) then done + [entries[k]] else done) + Kept(entries[k + 1..])
  {
    hide Keep;
    assert entries[k..][1..] == entries[k + 1..];
  }

  lemma KeptEnds(entries: seq<CString>)
    ensures [] + Kept(entries[0..]) == Kept(entries) && Kept(entries[|entries|..]) == []
  {
    assert entries[0..] == entries;
  }

  lemma MagicIs()
    ensures Hex(0x070701, 6) == MAGIC
  {
    hide HexDigit;
    assert HexDigit(0) == 0x30 && HexDigit(1) == 0x31 && HexDigit(7) == 0x37 by { Digits017(); }
    assert Hex(7, 2) == [HexDigit(0), HexDigit(7)];
    assert Hex(0x707, 4) == Hex(7, 2) + [HexDigit(0), HexDigit(7)];
    assert Hex(0x070701, 6) == Hex(0x707, 4) + [HexDigit(0), HexDigit(1)];
  }

  lemma Digits017()
    ensures HexDigit(0) == 0x30 && HexDigit(1) == 0x31 && HexDigit(7) == 0x37
  {}

  lemma AlignStep(s: seq<bv8>)
    ensures if |s| % 4 == 0 then s + ZeroBytes(Gap(|s|)) == s
            else Gap(|s| + 1) < Gap(|s|) && s + [0] + ZeroBytes(Gap(|s| + 1)) == s + ZeroBytes(Gap(|s|))
  {
    if |s| % 4 != 0 {
      GapStep(|s|);
    }
    hide Gap;
    OneMoreZero(s, Gap(|s|));
  }

  lemma GapStep(n: nat)
    requires n % 4 != 0
    ensures Gap(n) == Gap(n + 1) + 1
  {}

  /** The pieces of a record in the order they are written. */
  lemma RecordIs(s: seq<bv8>, ino: nat, item: Item)
    ensures var a := s + ZeroBytes(Gap(|s|)) + Header(ino, item.mode, |item.data|, |item.path| + 1) + (item.path + [0]);
      a + ZeroBytes(Gap(|a|)) + item.data == s + Record(|s|, ino, item)
  {
    hide Header;
    var h := Header(ino, item.mode, |item.data|, |item.path| + 1);
    var front := ZeroBytes(Gap(|s|)) + h + (item.path + [0]);
    assert s + ZeroBytes(Gap(|s|)) + h + (item.path + [0]) == s + front;
  }
}
