/** What mkbootfs.c archives: the walk over a file system, and which files it visits in which order. */
module ArchiveWalk {
  import opened Bytes
  import opened Ascii64
  import opened Lexicographic
  import opened Cpio

  // ----- the file system

  datatype Node =
    | Regular(mode: Word32, contents: seq<bv8>)
    | Directory(mode: Word32, names: seq<CString>)
    | Symlink(mode: Word32, target: seq<bv8>)
    | Other(mode: Word32)

  /** What lstat and readdir find at each path. */
  type FileSystem = map<CString, Node>

  /** fs_config: the mode to be written, from the path, whether it is a directory, and its mode. */
  type Config = (CString, bool, Word32) -> Word32

  const SLASH: bv8 := 0x2f
  const ROOT: CString := [0x72, 0x6f, 0x6f, 0x74]  // "root"
  const PATH_SIZE := 8192

  // ----- sorted names

  function Codes(s: CString): seq<int> {
    seq(|s|, i requires 0 <= i < |s| => s[i] as int)
  }

  /** strcmp, up to the size of its result. */
  function Strcmp(a: CString, b: CString): int {
    Lex(Codes(a), Codes(b))
  }

  predicate Sorted(s: seq<CString>) {
    forall i, j :: 0 <= i < j < |s| ==> Strcmp(s[i], s[j]) <= 0
  }

  lemma StrcmpOrder(a: CString, b: CString, c: CString)
    ensures Strcmp(b, a) == -Strcmp(a, b)
    ensures Strcmp(a, b) == 0 ==> a == b
    ensures Strcmp(a, b) <= 0 && Strcmp(b, c) <= 0 ==> Strcmp(a, c) <= 0
  {
    hide Lex;
    LexFlip(Codes(a), Codes(b));
    LexEqual(Codes(a), Codes(b));
    if Strcmp(a, b) == 0 {
      forall i | 0 <= i < |a|
        ensures a[i] == b[i]
      {
        assert Codes(a)[i] == Codes(b)[i];
      }
      assert |Codes(a)| == |Codes(b)|;
    }
    if Strcmp(a, b) <= 0 && Strcmp(b, c) <= 0 {
      LexTransitive(Codes(a), Codes(b), Codes(c));
    }
  }

  function Insert(x: CString, s: seq<CString>): (r: seq<CString>)
    requires Sorted(s)
    ensures Sorted(r) && multiset(r) == multiset(s) + multiset{x}
  {
    if s == [] then [x]
    else if Strcmp(x, s[0]) <= 0 then
      InsertFront(x, s);
      assert multiset([x] + s) == multiset(s) + multiset{x};
      [x] + s
    else
      var rest := Insert(x, s[1..]);
      InsertBehind(x, s, rest);
      [s[0]] + rest
  }

  lemma InsertFront(x: CString, s: seq<CString>)
    requires Sorted(s) && s != [] && Strcmp(x, s[0]) <= 0
    ensures Sorted([x] + s)
  {
    hide Strcmp;
    forall i | 0 <= i < |s|
      ensures Strcmp(x, s[i]) <= 0
    {
      StrcmpOrder(x, s[0], s[i]);
    }
  }

  lemma InsertBehind(x: CString, s: seq<CString>, rest: seq<CString>)
    requires Sorted(s) && s != [] && Strcmp(x, s[0]) > 0 && Sorted(rest)
    requires multiset(rest) == multiset(s[1..]) + multiset{x}
    ensures Sorted([s[0]] + rest) && multiset([s[0]] + rest) == multiset(s) + multiset{x}
  {
    hide Strcmp;
    assert s == [s[0]] + s[1..];
    StrcmpOrder(x, s[0], x);
    forall i | 0 <= i < |rest|
      ensures Strcmp(s[0], rest[i]) <= 0
    {
      assert rest[i] in multiset(rest);
      if rest[i] != x {
        assert rest[i] in s[1..];
        var k :| 0 <= k < |s[1..]| && s[1..][k] == rest[i];
        assert s[1 + k] == rest[i];
      }
    }
  }

  /** qsort with strcmp. */
  function Sort(s: seq<CString>): (r: seq<CString>)
    ensures Sorted(r) && multiset(r) == multiset(s)
  {
    if s == [] then [] else
      assert s == [s[0]] + s[1..];
      Insert(s[0], Sort(s[1..]))
  }

  /** Names have only one sorted order, so any sorting algorithm gives this one. */
  lemma {:induction false} SortedUnique(a: seq<CString>, b: seq<CString>)
    requires Sorted(a) && Sorted(b) && multiset(a) == multiset(b)
    ensures a == b
  {
    hide Strcmp, Sorted;
    if a != [] {
      assert |multiset(a)| == |a| && |multiset(b)| == |b|;
      HeadLeast(a, b);
      HeadLeast(b, a);
      StrcmpOrder(a[0], b[0], a[0]);
      Behead(a);
      Behead(b);
      SortedUnique(a[1..], b[1..]);
      assert a == [a[0]] + a[1..] && b == [b[0]] + b[1..];
    } else {
      assert |multiset(a)| == 0 && |multiset(b)| == |b|;
    }
  }

  lemma HeadLeast(a: seq<CString>, b: seq<CString>)
    requires Sorted(a) && a != [] && b != [] && multiset(a) == multiset(b)
    ensures Strcmp(a[0], b[0]) <= 0
  {
    hide Strcmp;
    assert b[0] in multiset(a);
    var j :| 0 <= j < |a| && a[j] == b[0];
    StrcmpOrder(b[0], b[0], b[0]);
  }

  lemma Behead(a: seq<CString>)
    requires Sorted(a) && a != []
    ensures Sorted(a[1..]) && multiset(a[1..]) == multiset(a) - multiset{a[0]}
  {
    hide Strcmp;
    assert a == [a[0]] + a[1..];
  }

  // ----- what is archived

  /** Dotfiles and the name "root" are left out. */
  predicate Keep(name: CString) {
    !(name != [] && name[0] == 0x2e) && name != ROOT
  }

  function Kept(names: seq<CString>): (k: seq<CString>)
    ensures forall n :: n in k ==> n in names && Keep(n)
  {
    if names == [] then []
    else (if Keep(names[0]) then [names[0]] else []) + Kept(names[1..])
  }

  /** The names of a directory in the order they are archived. */
  function Listed(names: seq<CString>): (l: seq<CString>)
    ensures forall n :: n in l ==> n in names && Keep(n)
  {
    var l := Sort(Kept(names));
    assert forall n :: n in l ==> n in multiset(l);
    l
  }

  /** The paths of a directory entry in the file system and in the archive. */
  function InPath(inp: CString, name: CString): CString { inp + [SLASH] + name }
  function OutPath(outp: CString, name: CString): CString {
    if outp != [] then outp + [SLASH] + name else name
  }

  /** How a walk ends: it reaches the end, a file that cannot be archived ends the program, or a path does
      not fit its buffer. */
  datatype Ending = Complete | Died | Overflowed

  /** The entries that are written up to there. */
  datatype Walked = Walked(items: seq<Item>, ending: Ending)

  function Then(a: Walked, b: Walked): Walked {
    if a.ending.Complete? then Walked(a.items + b.items, b.ending) else a
  }

  predicate Fits(inp: CString, outp: CString) {
    |inp| < PATH_SIZE && |outp| < PATH_SIZE
  }

  /** The file or tree at a path, in the order of the archive: a directory before what is in it, the names
      in a directory in strcmp order. */
  function Walk(fs: FileSystem, cfg: Config, inp: CString, outp: CString): Walked
    requires Fits(inp, outp)
    decreases PATH_SIZE - |inp|, 1, 0
  {
    if inp !in fs || fs[inp].Other? then Walked([], Died)
    else
      var this_one := Walked([ItemFor(fs, cfg, inp, outp)], Complete);
      if fs[inp].Directory? then Then(this_one, WalkNames(fs, cfg, inp, outp, Listed(fs[inp].names))) else this_one
  }

  /** What is archived for the file found at path p. */
  function ItemFor(fs: FileSystem, cfg: Config, p: CString, outp: CString): Item
    requires p in fs && !fs[p].Other?
  {
    match fs[p]
    case Regular(mode, contents) => Item(outp, cfg(outp, false, mode), contents)
    case Symlink(mode, target) => Item(outp, cfg(outp, false, mode), Truncated(target))
    case Directory(mode, _) => Item(outp, cfg(outp, true, mode), [])
  }

  /** readlink with a buffer of 1024 bytes. */
  function Truncated(target: seq<bv8>): seq<bv8> {
    if |target| > 1024 then target[..1024] else target
  }

  /** The entry of a symbolic link holds its whole target if and only if that has at most 1024 bytes. */
  lemma TruncatedWhole(fs: FileSystem, cfg: Config, p: CString, outp: CString)
    requires p in fs && fs[p].Symlink?
    ensures ItemFor(fs, cfg, p, outp).data == fs[p].target <==> |fs[p].target| <= 1024
  {}

  function WalkNames(fs: FileSystem, cfg: Config, inp: CString, outp: CString, names: seq<CString>): Walked
    requires |inp| < PATH_SIZE
    decreases PATH_SIZE - |inp|, 0, |names|
  {
    if names == [] then Walked([], Complete)
    else Then(WalkName(fs, cfg, inp, outp, names[0]), WalkNames(fs, cfg, inp, outp, names[1..]))
  }

  /** What is below one name. */
  function WalkName(fs: FileSystem, cfg: Config, inp: CString, outp: CString, name: CString): Walked
    requires |inp| < PATH_SIZE
    decreases PATH_SIZE - |inp|, 0, 0
  {
    if !Fits(InPath(inp, name), OutPath(outp, name)) then Walked([], Overflowed)
    else Walk(fs, cfg, InPath(inp, name), OutPath(outp, name))
  }

  /** What _archive_dir writes. */
  function WalkDir(fs: FileSystem, cfg: Config, inp: CString, outp: CString): Walked
    requires |inp| < PATH_SIZE
  {
    if inp !in fs || !fs[inp].Directory? then Walked([], Died)
    else WalkNames(fs, cfg, inp, outp, Listed(fs[inp].names))
  }

  lemma WalkParts(fs: FileSystem, cfg: Config, inp: CString, outp: CString)
    requires Fits(inp, outp)
    ensures inp in fs && fs[inp].Directory? ==>
      Walk(fs, cfg, inp, outp) == Then(Walked([ItemFor(fs, cfg, inp, outp)], Complete), WalkDir(fs, cfg, inp, outp))
  {}

  // ----- the arguments of the program

  /** The two parts of an argument, before and after the first '='. */
  function EqualsAt(arg: CString, i: nat): (n: nat)
    requires i <= |arg|
    ensures i <= n <= |arg|
    decreases |arg| - i
  {
    if i == |arg| || arg[i] == 0x3d then i else EqualsAt(arg, i + 1)
  }

  function Start(arg: CString): CString { arg[..EqualsAt(arg, 0)] }
  function Prefix(arg: CString): CString {
    var n := EqualsAt(arg, 0);
    if n < |arg| then arg[n + 1..] else []
  }

  /** What archive writes for one argument. */
  function WalkArg(fs: FileSystem, cfg: Config, arg: CString): Walked {
    if !Fits(Start(arg), Prefix(arg)) then Walked([], Overflowed) else WalkDir(fs, cfg, Start(arg), Prefix(arg))
  }

  function WalkArgs(fs: FileSystem, cfg: Config, args: seq<CString>): Walked {
    if args == [] then Walked([], Complete) else Then(WalkArg(fs, cfg, args[0]), WalkArgs(fs, cfg, args[1..]))
  }

  /** The paths a list of names leads to. */
  function InFold(inp: CString, names: seq<CString>): CString
    decreases |names|
  {
    if names == [] then inp else InFold(InPath(inp, names[0]), names[1..])
  }

  function OutFold(outp: CString, names: seq<CString>): CString
    decreases |names|
  {
    if names == [] then outp else OutFold(OutPath(outp, names[0]), names[1..])
  }

  /** Each name is listed in the directory the names before it lead to, and not left out. */
  ghost predicate Reaches(fs: FileSystem, inp: CString, names: seq<CString>)
    decreases |names|
  {
    names != [] ==>
      && inp in fs && fs[inp].Directory? && names[0] in fs[inp].names && Keep(names[0])
      && Reaches(fs, InPath(inp, names[0]), names[1..])
  }

  // ----- the files in the order of the walk

  /** The lists of names that lead to the files at and below a path: a directory before what is in it. */
  function Visits(fs: FileSystem, inp: CString): (v: seq<seq<CString>>)
    requires |inp| < PATH_SIZE
    ensures |v| >= 1 && v[0] == []
    decreases PATH_SIZE - |inp|, 1, 0
  {
    [[]] + if inp in fs && fs[inp].Directory? then VisitsOf(fs, inp, Listed(fs[inp].names)) else []
  }

  function VisitsOf(fs: FileSystem, inp: CString, names: seq<CString>): seq<seq<CString>>
    requires |inp| < PATH_SIZE
    decreases PATH_SIZE - |inp|, 0, |names|
  {
    if names == [] then []
    else
      var p := InPath(inp, names[0]);
      (if |p| < PATH_SIZE then Under(names[0], Visits(fs, p)) else []) + VisitsOf(fs, inp, names[1..])
  }

  function Under(name: CString, v: seq<seq<CString>>): (u: seq<seq<CString>>)
    ensures |u| == |v|
  {
    seq(|v|, k requires 0 <= k < |v| => [name] + v[k])
  }

  /** The order of names lists: what is in a directory after the directory, names by strcmp. */
  predicate Before(a: seq<CString>, b: seq<CString>)
    decreases |a|
  {
    b != [] && (a == [] || Strcmp(a[0], b[0]) < 0 || (a[0] == b[0] && Before(a[1..], b[1..])))
  }

  predicate Increasing(v: seq<seq<CString>>) {
    forall i, j :: 0 <= i < j < |v| ==> Before(v[i], v[j])
  }

  /** readdir finds no name twice. */
  predicate ListsOnce(fs: FileSystem) {
    forall p :: p in fs && fs[p].Directory? ==> Distinct(fs[p].names)
  }

  predicate Distinct(names: seq<CString>) {
    forall i, j :: 0 <= i < j < |names| ==> names[i] != names[j]
  }

  /** The items of a walk are those of the visited files. */
  predicate ItemsAre(fs: FileSystem, cfg: Config, inp: CString, outp: CString, v: seq<seq<CString>>, items: seq<Item>) {
    && |items| == |v|
    && forall k :: 0 <= k < |v| ==> IsItem(fs, cfg, InFold(inp, v[k]), OutFold(outp, v[k]), items[k])
  }

  predicate IsItem(fs: FileSystem, cfg: Config, p: CString, outp: CString, item: Item) {
    p in fs && !fs[p].Other? && item == ItemFor(fs, cfg, p, outp)
  }

  /** A complete walk writes an item for each visit, in order. */
  lemma {:induction false} WalkVisits(fs: FileSystem, cfg: Config, inp: CString, outp: CString)
    requires Fits(inp, outp) && Walk(fs, cfg, inp, outp).ending.Complete?
    ensures ItemsAre(fs, cfg, inp, outp, Visits(fs, inp), Walk(fs, cfg, inp, outp).items)
    decreases PATH_SIZE - |inp|, 1, 0
  {
    hide WalkNames, VisitsOf, ItemFor, Listed;
    if fs[inp].Directory? {
      NamesVisits(fs, cfg, inp, outp, Listed(fs[inp].names));
      var v, items := VisitsOf(fs, inp, Listed(fs[inp].names)), WalkNames(fs, cfg, inp, outp, Listed(fs[inp].names)).items;
      ItemsJoin(fs, cfg, inp, outp, [[]], [ItemFor(fs, cfg, inp, outp)], v, items);
    }
  }

  lemma {:induction false} NamesVisits(fs: FileSystem, cfg: Config, inp: CString, outp: CString, names: seq<CString>)
    requires |inp| < PATH_SIZE && WalkNames(fs, cfg, inp, outp, names).ending.Complete?
    ensures ItemsAre(fs, cfg, inp, outp, VisitsOf(fs, inp, names), WalkNames(fs, cfg, inp, outp, names).items)
    decreases PATH_SIZE - |inp|, 0, |names|
  {
    hide Walk, Visits, IsItem;
    if names != [] {
      var p, q := InPath(inp, names[0]), OutPath(outp, names[0]);
      WalkVisits(fs, cfg, p, q);
      NamesVisits(fs, cfg, inp, outp, names[1..]);
      var items := Walk(fs, cfg, p, q).items;
      ItemsUnder(fs, cfg, inp, outp, names[0], Visits(fs, p), items);
      ItemsJoin(fs, cfg, inp, outp, Under(names[0], Visits(fs, p)), items,
                VisitsOf(fs, inp, names[1..]), WalkNames(fs, cfg, inp, outp, names[1..]).items);
    }
  }

  lemma ItemsJoin(fs: FileSystem, cfg: Config, inp: CString, outp: CString, v: seq<seq<CString>>, items: seq<Item>,
                  v': seq<seq<CString>>, items': seq<Item>)
    requires ItemsAre(fs, cfg, inp, outp, v, items) && ItemsAre(fs, cfg, inp, outp, v', items')
    ensures ItemsAre(fs, cfg, inp, outp, v + v', items + items')
  {
    hide IsItem, InFold, OutFold;
  }

  lemma ItemsUnder(fs: FileSystem, cfg: Config, inp: CString, outp: CString, name: CString, v: seq<seq<CString>>, items: seq<Item>)
    requires ItemsAre(fs, cfg, InPath(inp, name), OutPath(outp, name), v, items)
    ensures ItemsAre(fs, cfg, inp, outp, Under(name, v), items)
  {
    hide IsItem;
    var u := Under(name, v);
    forall k | 0 <= k < |v|
      ensures InFold(inp, u[k]) == InFold(InPath(inp, name), v[k]) && OutFold(outp, u[k]) == OutFold(OutPath(outp, name), v[k])
    {
      FoldUnder(inp, outp, name, v[k]);
    }
  }

  lemma FoldUnder(inp: CString, outp: CString, name: CString, names: seq<CString>)
    ensures InFold(inp, [name] + names) == InFold(InPath(inp, name), names)
    ensures OutFold(outp, [name] + names) == OutFold(OutPath(outp, name), names)
  {
    assert ([name] + names)[1..] == names;
  }

  /** Every visit is a list of names that leads somewhere. */
  lemma {:induction false} VisitsReach(fs: FileSystem, inp: CString, k: nat)
    requires |inp| < PATH_SIZE && k < |Visits(fs, inp)|
    ensures Reaches(fs, inp, Visits(fs, inp)[k])
    decreases PATH_SIZE - |inp|, 1, 0
  {
    hide VisitsOf, Listed;
    if k > 0 {
      var l := Listed(fs[inp].names);
      ListedKept(fs[inp].names);
      VisitsOfReach(fs, inp, l, k - 1);
    }
  }

  lemma ListedKept(names: seq<CString>)
    ensures forall n :: n in Listed(names) ==> n in names && Keep(n)
  {}

  lemma {:induction false} VisitsOfReach(fs: FileSystem, inp: CString, names: seq<CString>, k: nat)
    requires |inp| < PATH_SIZE && inp in fs && fs[inp].Directory? && k < |VisitsOf(fs, inp, names)|
    requires forall n :: n in names ==> n in fs[inp].names && Keep(n)
    ensures Reaches(fs, inp, VisitsOf(fs, inp, names)[k])
    decreases PATH_SIZE - |inp|, 0, |names|
  {
    hide Visits, Keep;
    var p := InPath(inp, names[0]);
    assert names[0] in names;
    var u := if |p| < PATH_SIZE then Under(names[0], Visits(fs, p)) else [];
    if k < |u| {
      VisitsReach(fs, p, k);
      assert ([names[0]] + Visits(fs, p)[k])[1..] == Visits(fs, p)[k];
    } else {
      VisitsOfReach(fs, inp, names[1..], k - |u|);
    }
  }

  /** And a walk that is complete visits every list of names that leads somewhere. */
  lemma {:induction false} ReachesVisited(fs: FileSystem, cfg: Config, inp: CString, outp: CString, names: seq<CString>)
    requires Fits(inp, outp) && Walk(fs, cfg, inp, outp).ending.Complete? && Reaches(fs, inp, names)
    ensures names in Visits(fs, inp)
    decreases |names|
  {
    hide WalkNames, VisitsOf, ItemFor, Listed, Keep;
    if names == [] {
      assert Visits(fs, inp)[0] == [];
    } else {
      var l, n := Listed(fs[inp].names), names[0];
      ListedHas(fs[inp].names, n);
      NameWalked(fs, cfg, inp, outp, l, n);
      ReachesVisited(fs, cfg, InPath(inp, n), OutPath(outp, n), names[1..]);
      VisitedUnder(fs, inp, l, n, names[1..]);
      assert names == [n] + names[1..];
    }
  }

  lemma {:induction false} NameWalked(fs: FileSystem, cfg: Config, inp: CString, outp: CString, names: seq<CString>, n: CString)
    requires |inp| < PATH_SIZE && n in names && WalkNames(fs, cfg, inp, outp, names).ending.Complete?
    ensures Fits(InPath(inp, n), OutPath(outp, n)) && Walk(fs, cfg, InPath(inp, n), OutPath(outp, n)).ending.Complete?
    decreases |names|
  {
    hide Walk;
    if names[0] != n {
      NameWalked(fs, cfg, inp, outp, names[1..], n);
    }
  }

  lemma {:induction false} VisitedUnder(fs: FileSystem, inp: CString, names: seq<CString>, n: CString, rest: seq<CString>)
    requires |inp| < PATH_SIZE && n in names && |InPath(inp, n)| < PATH_SIZE && rest in Visits(fs, InPath(inp, n))
    ensures [n] + rest in VisitsOf(fs, inp, names)
    decreases |names|
  {
    hide Visits;
    if names[0] == n {
      var v := Visits(fs, InPath(inp, n));
      var k :| 0 <= k < |v| && v[k] == rest;
      assert Under(n, v)[k] == [n] + rest;
    } else {
      VisitedUnder(fs, inp, names[1..], n, rest);
    }
  }

  lemma {:induction false} KeptHas(names: seq<CString>, n: CString)
    requires n in names && Keep(n)
    ensures n in Kept(names)
  {
    hide Keep;
    if names[0] != n {
      KeptHas(names[1..], n);
    }
  }

  lemma ListedHas(names: seq<CString>, n: CString)
    requires n in names && Keep(n)
    ensures n in Listed(names)
  {
    hide Keep;
    KeptHas(names, n);
    assert n in multiset(Kept(names));
    assert n in multiset(Sort(Kept(names)));
  }

  // ----- the order of the visits

  predicate Strictly(s: seq<CString>) {
    forall i, j :: 0 <= i < j < |s| ==> Strcmp(s[i], s[j]) < 0
  }

  /** The visits come in strictly increasing order, so no list of names twice. */
  lemma {:induction false} VisitsIncrease(fs: FileSystem, inp: CString)
    requires |inp| < PATH_SIZE && ListsOnce(fs)
    ensures Increasing(Visits(fs, inp))
    decreases PATH_SIZE - |inp|, 1, 0
  {
    hide VisitsOf, Listed, Strictly;
    if inp in fs && fs[inp].Directory? {
      var l := Listed(fs[inp].names);
      ListedStrictly(fs[inp].names);
      VisitsOfIncrease(fs, inp, l);
      var v := VisitsOf(fs, inp, l);
      forall k | 0 <= k < |v|
        ensures Before([], v[k])
      {
        VisitsOfNamed(fs, inp, l, k);
      }
    }
  }

  lemma {:induction false} VisitsOfIncrease(fs: FileSystem, inp: CString, names: seq<CString>)
    requires |inp| < PATH_SIZE && ListsOnce(fs) && Strictly(names)
    ensures Increasing(VisitsOf(fs, inp, names))
    decreases PATH_SIZE - |inp|, 0, |names|
  {
    hide Visits, Strcmp, ListsOnce;
    if names != [] {
      var p := InPath(inp, names[0]);
      var rest := VisitsOf(fs, inp, names[1..]);
      VisitsOfIncrease(fs, inp, names[1..]);
      if |p| < PATH_SIZE {
        VisitsIncrease(fs, p);
        UnderIncreases(names[0], Visits(fs, p));
        forall i, j | 0 <= i < |Visits(fs, p)| && 0 <= j < |rest|
          ensures Before(Under(names[0], Visits(fs, p))[i], rest[j])
        {
          VisitsOfNamed(fs, inp, names[1..], j);
          var n := rest[j][0];
          var k :| 0 <= k < |names[1..]| && names[1..][k] == n;
          assert names[k + 1] == n;
        }
        IncreasingJoin(Under(names[0], Visits(fs, p)), rest);
      } else {
        assert [] + rest == rest;
      }
    }
  }

  lemma IncreasingJoin(a: seq<seq<CString>>, b: seq<seq<CString>>)
    requires Increasing(a) && Increasing(b)
    requires forall i, j :: 0 <= i < |a| && 0 <= j < |b| ==> Before(a[i], b[j])
    ensures Increasing(a + b)
  {
    hide Before;
  }

  lemma UnderIncreases(name: CString, v: seq<seq<CString>>)
    requires Increasing(v)
    ensures Increasing(Under(name, v))
  {
    hide Strcmp;
    var u := Under(name, v);
    forall i, j | 0 <= i < j < |u|
      ensures Before(u[i], u[j])
    {
      assert Before(v[i], v[j]);
      assert u[i][1..] == v[i] && u[j][1..] == v[j];
    }
  }

  /** Visits below a directory start with one of its names. */
  lemma {:induction false} VisitsOfNamed(fs: FileSystem, inp: CString, names: seq<CString>, k: nat)
    requires |inp| < PATH_SIZE && k < |VisitsOf(fs, inp, names)|
    ensures var v := VisitsOf(fs, inp, names)[k]; v != [] && v[0] in names
    decreases |names|
  {
    hide Visits;
    var p := InPath(inp, names[0]);
    var u := if |p| < PATH_SIZE then Under(names[0], Visits(fs, p)) else [];
    if k >= |u| {
      VisitsOfNamed(fs, inp, names[1..], k - |u|);
    }
  }

  /** Names listed once are in strict order. */
  lemma ListedStrictly(names: seq<CString>)
    requires Distinct(names)
    ensures Strictly(Listed(names))
  {
    hide Strcmp, Keep, Sort, Kept;
    var k := Kept(names);
    KeptOnce(names);
    var l := Sort(k);
    forall i, j | 0 <= i < j < |l|
      ensures Strcmp(l[i], l[j]) < 0
    {
      if l[i] == l[j] {
        TwiceIn(l, i, j);
        OnceIn(k, l[i]);
        assert false;
      }
      StrcmpOrder(l[i], l[j], l[i]);
    }
  }

  lemma TwiceIn(s: seq<CString>, i: nat, j: nat)
    requires i < j < |s| && s[i] == s[j]
    ensures multiset(s)[s[i]] >= 2
  {
    assert s == s[..j] + [s[j]] + s[j + 1..];
    assert s[..j][i] == s[i] && s[i] in multiset(s[..j]);
  }

  lemma FirstOnce(s: seq<CString>)
    requires Distinct(s) && s != []
    ensures s[0] !in s[1..]
  {
    forall k | 0 <= k < |s[1..]|
      ensures s[1..][k] != s[0]
    {
      assert s[1..][k] == s[k + 1];
    }
  }

  lemma {:induction false} OnceIn(s: seq<CString>, x: CString)
    requires Distinct(s)
    ensures multiset(s)[x] <= 1
  {
    if s != [] {
      OnceIn(s[1..], x);
      assert s == [s[0]] + s[1..];
      if x == s[0] {
        FirstOnce(s);
        assert x !in multiset(s[1..]);
      }
    }
  }

  lemma {:induction false} KeptOnce(names: seq<CString>)
    requires Distinct(names)
    ensures Distinct(Kept(names))
  {
    hide Keep;
    if names != [] {
      KeptOnce(names[1..]);
      if Keep(names[0]) {
        FirstOnce(names);
      }
    }
  }

  // ----- the files of a whole run

  /** A file below an argument. */
  datatype File = File(arg: nat, names: seq<CString>)

  /** The file is below the start directory of its argument, and names that are not left out lead to it. */
  ghost predicate IsBelow(fs: FileSystem, args: seq<CString>, f: File) {
    f.arg < |args| && f.names != [] && Reaches(fs, Start(args[f.arg]), f.names)
  }

  predicate Earlier(a: File, b: File) {
    a.arg < b.arg || (a.arg == b.arg && Before(a.names, b.names))
  }

  function FilesFrom(arg: nat, v: seq<seq<CString>>): (f: seq<File>)
    ensures |f| == |v|
  {
    seq(|v|, k requires 0 <= k < |v| => File(arg, v[k]))
  }

  /** The files below arguments i and following, in the order of the walk. */
  function Files(fs: FileSystem, args: seq<CString>, i: nat): seq<File>
    requires i <= |args|
    decreases |args| - i
  {
    if i == |args| then []
    else (if |Start(args[i])| < PATH_SIZE then FilesFrom(i, Visits(fs, Start(args[i]))[1..]) else []) + Files(fs, args, i + 1)
  }

  /** The item of a file. */
  predicate IsItemOf(fs: FileSystem, cfg: Config, args: seq<CString>, f: File, item: Item) {
    f.arg < |args| && IsItem(fs, cfg, InFold(Start(args[f.arg]), f.names), OutFold(Prefix(args[f.arg]), f.names), item)
  }

  predicate FilesHave(fs: FileSystem, cfg: Config, args: seq<CString>, f: seq<File>, items: seq<Item>) {
    |items| == |f| && forall k :: 0 <= k < |f| ==> IsItemOf(fs, cfg, args, f[k], items[k])
  }

  /** A complete walk over a start directory visits all below it. */
  lemma DirVisits(fs: FileSystem, cfg: Config, inp: CString, outp: CString)
    requires |inp| < PATH_SIZE && WalkDir(fs, cfg, inp, outp).ending.Complete?
    ensures ItemsAre(fs, cfg, inp, outp, Visits(fs, inp)[1..], WalkDir(fs, cfg, inp, outp).items)
    ensures forall names :: names in Visits(fs, inp)[1..] <==> names != [] && Reaches(fs, inp, names)
  {
    hide WalkNames, VisitsOf, Listed, IsItem, Keep;
    var l := Listed(fs[inp].names);
    var v := VisitsOf(fs, inp, l);
    assert Visits(fs, inp)[1..] == v;
    NamesVisits(fs, cfg, inp, outp, l);
    forall names | names in v
      ensures names != [] && Reaches(fs, inp, names)
    {
      var k :| 0 <= k < |v| && v[k] == names;
      VisitsOfNamed(fs, inp, l, k);
      ListedKept(fs[inp].names);
      VisitsOfReach(fs, inp, l, k);
    }
    forall names | names != [] && Reaches(fs, inp, names)
      ensures names in v
    {
      var n := names[0];
      ListedHas(fs[inp].names, n);
      NameWalked(fs, cfg, inp, outp, l, n);
      ReachesVisited(fs, cfg, InPath(inp, n), OutPath(outp, n), names[1..]);
      VisitedUnder(fs, inp, l, n, names[1..]);
      assert names == [n] + names[1..];
    }
  }

  lemma {:induction false} FilesAre(fs: FileSystem, cfg: Config, args: seq<CString>, i: nat)
    requires i <= |args| && WalkArgs(fs, cfg, args[i..]).ending.Complete?
    ensures FilesHave(fs, cfg, args, Files(fs, args, i), WalkArgs(fs, cfg, args[i..]).items)
    ensures forall f :: f in Files(fs, args, i) <==> i <= f.arg && IsBelow(fs, args, f)
    decreases |args| - i
  {
    hide WalkDir, Visits, Start, Prefix, IsItem, Reaches, InFold, OutFold;
    if i < |args| {
      assert args[i..][1..] == args[i + 1..] && args[i..][0] == args[i];
      var inp, outp := Start(args[i]), Prefix(args[i]);
      DirVisits(fs, cfg, inp, outp);
      FilesAre(fs, cfg, args, i + 1);
      var v := Visits(fs, inp)[1..];
      FilesHaveJoin(fs, cfg, args, FilesFrom(i, v), WalkDir(fs, cfg, inp, outp).items, Files(fs, args, i + 1), WalkArgs(fs, cfg, args[i + 1..]).items);
      forall f: File
        ensures f in FilesFrom(i, v) <==> f.arg == i && f.names in v
      {
        FilesFromHas(i, v, f);
      }
    }
  }

  lemma FilesHaveJoin(fs: FileSystem, cfg: Config, args: seq<CString>, f: seq<File>, items: seq<Item>, f': seq<File>, items': seq<Item>)
    requires FilesHave(fs, cfg, args, f, items) && FilesHave(fs, cfg, args, f', items')
    ensures FilesHave(fs, cfg, args, f + f', items + items')
  {
    hide IsItemOf;
  }

  lemma FilesFromHas(arg: nat, v: seq<seq<CString>>, f: File)
    ensures f in FilesFrom(arg, v) <==> f.arg == arg && f.names in v
  {
    if f.arg == arg && f.names in v {
      var k :| 0 <= k < |v| && v[k] == f.names;
      assert FilesFrom(arg, v)[k] == f;
    }
  }

  /** The order is strict. */
  lemma EarlierDiffers(a: File, b: File)
    requires Earlier(a, b)
    ensures a != b
  {
    NotBefore(a.names);
  }

  lemma {:induction false} NotBefore(names: seq<CString>)
    ensures !Before(names, names)
  {
    if names != [] {
      hide Strcmp;
      StrcmpOrder(names[0], names[0], names[0]);
      NotBefore(names[1..]);
    }
  }

  lemma {:induction false} FilesIncrease(fs: FileSystem, args: seq<CString>, i: nat)
    requires i <= |args| && ListsOnce(fs)
    ensures forall j, k :: 0 <= j < k < |Files(fs, args, i)| ==> Earlier(Files(fs, args, i)[j], Files(fs, args, i)[k])
    ensures forall k :: 0 <= k < |Files(fs, args, i)| ==> Files(fs, args, i)[k].arg >= i
    decreases |args| - i
  {
    hide Visits, Start, ListsOnce, Before;
    if i < |args| {
      FilesIncrease(fs, args, i + 1);
      if |Start(args[i])| < PATH_SIZE {
        VisitsIncrease(fs, Start(args[i]));
        var v := Visits(fs, Start(args[i]));
        assert forall j, k :: 0 <= j < k < |v[1..]| ==> v[1..][j] == v[j + 1] && v[1..][k] == v[k + 1];
      }
    }
  }

  // ----- a path identifies its file

  /** Names as directories hold them: not empty, and without '/'. */
  predicate IsName(name: CString) {
    name != [] && SLASH !in name
  }

  predicate AreNames(names: seq<CString>) {
    forall k :: 0 <= k < |names| ==> IsName(names[k])
  }

  predicate ListsNames(fs: FileSystem) {
    forall p :: p in fs && fs[p].Directory? ==> AreNames(fs[p].names)
  }

  /** The names, each behind a '/'. */
  function Slashed(names: seq<CString>): CString {
    if names == [] then [] else [SLASH] + names[0] + Slashed(names[1..])
  }

  lemma {:induction false} OutFoldIs(outp: CString, names: seq<CString>)
    requires outp != []
    ensures OutFold(outp, names) == outp + Slashed(names)
    decreases |names|
  {
    if names == [] {
      assert outp + [] == outp;
    } else {
      OutFoldIs(OutPath(outp, names[0]), names[1..]);
      assert outp + [SLASH] + names[0] + Slashed(names[1..]) == outp + ([SLASH] + names[0] + Slashed(names[1..]));
    }
  }

  /** What stands before the first '/' is determined. */
  lemma FirstPart(x: seq<bv8>, p: seq<bv8>, y: seq<bv8>, q: seq<bv8>)
    requires x + p == y + q && SLASH !in x && SLASH !in y
    requires (p == [] || p[0] == SLASH) && (q == [] || q[0] == SLASH)
    ensures x == y && p == q
  {
    NotShorter(x, p, y, q);
    NotShorter(y, q, x, p);
    assert x == (x + p)[..|x|] && p == (x + p)[|x|..];
    assert y == (y + q)[..|y|] && q == (y + q)[|y|..];
  }

  lemma NotShorter(x: seq<bv8>, p: seq<bv8>, y: seq<bv8>, q: seq<bv8>)
    requires x + p == y + q && SLASH !in y && (p == [] || p[0] == SLASH)
    ensures |x| >= |y|
  {
    var z := x + p;
    assert forall i :: 0 <= i < |y| ==> z[i] == y[i];
    assert p != [] ==> z[|x|] == p[0];
    if |x| < |y| {
      assert false;
    }
  }

  lemma SlashedStarts(names: seq<CString>)
    ensures Slashed(names) == [] || Slashed(names)[0] == SLASH
  {}

  lemma {:induction false} SlashedDiffers(a: seq<CString>, b: seq<CString>)
    requires AreNames(a) && AreNames(b) && Slashed(a) == Slashed(b)
    ensures a == b
  {
    if a != [] && b != [] {
      assert Slashed(a)[1..] == a[0] + Slashed(a[1..]) && Slashed(b)[1..] == b[0] + Slashed(b[1..]);
      SlashedStarts(a[1..]);
      SlashedStarts(b[1..]);
      FirstPart(a[0], Slashed(a[1..]), b[0], Slashed(b[1..]));
      SlashedDiffers(a[1..], b[1..]);
      assert a == [a[0]] + a[1..] && b == [b[0]] + b[1..];
    }
  }

  /** The path in the archive gives the list of names back. */
  lemma PathIdentifies(outp: CString, a: seq<CString>, b: seq<CString>)
    requires AreNames(a) && AreNames(b) && OutFold(outp, a) == OutFold(outp, b)
    ensures a == b
  {
    if outp != [] {
      OutFoldIs(outp, a);
      OutFoldIs(outp, b);
      assert OutFold(outp, a)[|outp|..] == Slashed(a) && OutFold(outp, b)[|outp|..] == Slashed(b);
      SlashedDiffers(a, b);
    } else {
      WithoutPrefix(a);
      WithoutPrefix(b);
      if a != [] && b != [] {
        SlashedStarts(a[1..]);
        SlashedStarts(b[1..]);
        FirstPart(a[0], Slashed(a[1..]), b[0], Slashed(b[1..]));
        SlashedDiffers(a[1..], b[1..]);
        assert a == [a[0]] + a[1..] && b == [b[0]] + b[1..];
      }
    }
  }

  lemma WithoutPrefix(names: seq<CString>)
    requires AreNames(names)
    ensures OutFold([], names) == if names == [] then [] else names[0] + Slashed(names[1..])
    ensures names != [] ==> OutFold([], names) != []
  {
    if names != [] {
      OutFoldIs(names[0], names[1..]);
    }
  }

  lemma {:induction false} ReachesNames(fs: FileSystem, inp: CString, names: seq<CString>)
    requires ListsNames(fs) && Reaches(fs, inp, names)
    ensures AreNames(names)
    decreases |names|
  {
    if names != [] {
      hide Keep, IsName;
      ReachesNames(fs, InPath(inp, names[0]), names[1..]);
      var k :| 0 <= k < |fs[inp].names| && fs[inp].names[k] == names[0];
      assert IsName(fs[inp].names[k]);
      assert forall i :: 0 < i < |names| ==> names[i] == names[1..][i - 1];
    }
  }
}
