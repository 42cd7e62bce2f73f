/** Packages and the package index of opkg.py, which keeps the newest package of each name and architecture. */
module PackageIndex {
  import opened VersionCompare
  import opened OpkgVersion

  // ----- the newest of a sequence

  /** A package as it was when it was added. */
  datatype Entry = Entry(name: string, version: Version, pkg: Package)

  ghost predicate AllReadable(log: seq<Entry>) {
    forall j :: 0 <= j < |log| ==> Readable(log[j].version)
  }

  /** Entry i is the last added among those of greatest version under its name. */
  ghost predicate Newest(log: seq<Entry>, i: nat)
    requires AllReadable(log)
  {
    && i < |log|
    && forall j :: 0 <= j < |log| && log[j].name == log[i].name ==>
         OpkgVersion.Order(log[j].version, log[i].version) <= (if j > i then -1 else 0)
  }

  /** There is at most one newest entry of a name. */
  lemma NewestUnique(log: seq<Entry>, i: nat, j: nat)
    requires AllReadable(log) && Newest(log, i) && Newest(log, j) && log[i].name == log[j].name
    ensures i == j
  {
    hide OpkgVersion.Order;
    OpkgVersion.OrderFlip(log[i].version, log[j].version);
  }

  /** What an added entry does to the newest one of its name. */
  lemma NewestAfter(log: seq<Entry>, i: nat, e: Entry)
    requires AllReadable(log) && Newest(log, i) && Readable(e.version) && e.name == log[i].name
    ensures AllReadable(log + [e])
    ensures if OpkgVersion.Order(e.version, log[i].version) >= 0 then Newest(log + [e], |log|) else Newest(log + [e], i)
  {
    hide OpkgVersion.Order, Readable;
    var log' := log + [e];
    OrderSame(e.version);
    OpkgVersion.OrderFlip(log[i].version, e.version);
    if OpkgVersion.Order(e.version, log[i].version) >= 0 {
      forall j | 0 <= j < |log'| && log'[j].name == e.name
        ensures OpkgVersion.Order(log'[j].version, e.version) <= 0
      {
        if j < |log| {
          OpkgVersion.OrderTransitive(log[j].version, log[i].version, e.version);
        }
      }
    }
  }

  /** An entry of another name changes nothing, and the first of a name is the newest. */
  lemma NewestOther(log: seq<Entry>, i: nat, e: Entry)
    requires AllReadable(log) && Newest(log, i) && Readable(e.version) && e.name != log[i].name
    ensures AllReadable(log + [e]) && Newest(log + [e], i)
  {
    hide OpkgVersion.Order, Readable;
  }

  lemma NewestFirst(log: seq<Entry>, e: Entry)
    requires AllReadable(log) && Readable(e.version) && forall j :: 0 <= j < |log| ==> log[j].name != e.name
    ensures AllReadable(log + [e]) && Newest(log + [e], |log|)
  {
    hide OpkgVersion.Order, Readable;
    OrderSame(e.version);
  }

  lemma OrderSame(v: Version)
    requires Readable(v)
    ensures OpkgVersion.Order(v, v) == 0
  {
    hide OpkgVersion.Order;
    OpkgVersion.OrderFlip(v, v);
  }

  /** A version that cannot be compared is stored only for its greater epoch. */
  lemma RefusedIf(v: Result<Version>, w: Result<Version>)
    requires w.Ok? && !(v.Ok? && Readable(v.value))
    ensures Returned(ComparedOf(v, w)) == Ok(0) <==> !Refused(v, w)
  {
    hide Readable;
  }

  lemma ComparedIsOrder(v: Version, w: Version)
    requires Readable(v) && Readable(w)
    ensures Compared(v, w) == Ok(OpkgVersion.Order(v, w))
  {
    hide Readable;
  }

  // ----- the objects

  function Show(s: Option<string>): string {
    if s.Some? then s.value else "None"
  }

  class Package {
    var package: Option<string>
    var architecture: Option<string>
    var version: string
    var parsed_version: Option<Version>

    /** Package(): the version is 'none' until it is set. */
    constructor ()
      ensures package == None && architecture == None && version == "none" && parsed_version == None
    {
      package, architecture, version, parsed_version := None, None, "none", None;
    }

    /** The key in the index. */
    function Name(): string
      reads this
    {
      Show(package) + ":" + Show(architecture)
    }

    /** The version that comparisons use: the cached one, or else the parsed string. */
    function Effective(): Result<Version>
      reads this
    {
      if parsed_version.Some? then Ok(parsed_version.value) else ParseVersion(version)
    }

    /** Comparisons with packages of the same epoch do not raise an error. */
    predicate Good()
      reads this
    {
      Effective().Ok? && Readable(Effective().value)
    }

    /** set_version. */
    method SetVersion(version: string) returns (r: Result<()>)
      modifies this`version, this`parsed_version
      ensures this.version == version && r.Ok? == ParseVersion(version).Ok?
      ensures r.Ok? ==> Effective() == ParseVersion(version)
      ensures r.Err? ==> parsed_version == old(parsed_version)
    {
      this.version := version;
      var v := ParseVersion(version);
      if v.Err? {
        return Err(v.message);
      }
      parsed_version := Some(v.value);
      return Ok(());
    }

    /** compare_version. Filling the caches changes no comparison. */
    method CompareVersion(ref: Package) returns (r: Result<int>)
      modifies this`parsed_version, ref`parsed_version
      ensures Effective() == old(Effective()) && ref.Effective() == old(ref.Effective())
      ensures r == ComparedOf(old(Effective()), old(ref.Effective()))
    {
      if parsed_version.None? {
        var v := ParseVersion(version);
        if v.Err? {
          return Err(v.message);
        }
        parsed_version := Some(v.value);
      }
      if ref.parsed_version.None? {
        var v := ParseVersion(ref.version);
        if v.Err? {
          return Err(v.message);
        }
        ref.parsed_version := Some(v.value);
      }
      r := Compare(parsed_version.value, ref.parsed_version.value);
    }
  }

  /** The comparison of two parse results; the first error wins. */
  function ComparedOf(v: Result<Version>, w: Result<Version>): Result<int> {
    if v.Err? then Err(v.message) else if w.Err? then Err(w.message) else Compared(v.value, w.value)
  }

  /** What add_package returns for a comparison with the held package. */
  function Returned(c: Result<int>): Result<int> {
    if c.Err? then c else Ok(if c.value >= 0 then 0 else 1)
  }

  /** The parse result v cannot take the place of a held version w. */
  predicate Refused(v: Result<Version>, w: Result<Version>) {
    v.Err? || (w.Ok? && v.value.epoch <= w.value.epoch)
  }

  /** A new name with the empty version: add_package stores the package and then raises an error. */
  lemma NewNameFails()
    ensures var v := ParseVersion("");
      v.Ok? && !Readable(v.value) && Returned(ComparedOf(v, v)) == Err("AttributeError")
  {
    EmptyVersionFails();
  }

  /** A version with an epoch and nothing after it cannot be compared with its like, but takes the place of
      every held version of epoch 0, with the return value 0. */
  lemma EmptyVersionReplaces(held: Version)
    requires held.epoch == 0
    ensures var v := ParseVersion("1:");
      && v == Ok(Version(1, "")) && !Readable(v.value)
      && Returned(ComparedOf(v, Ok(held))) == Ok(0) && !Refused(v, Ok(held))
  {
    SplitIf("");
    var s := "1:";
    assert s[..1] == "1" && s[2..] == "" && s[..1][..0] == "";
    DigitsEndIs(s, 0, 1);
    assert Value("") == 0 && Value(s[..1]) == 1;
  }

  class Packages {
    var packages: map<string, Package>
    ghost var log: seq<Entry>  // what was added, in order

    /** Entry i of the log is what the index holds under its name. */
    ghost predicate Held(i: nat)
      requires AllReadable(log)
      reads this, packages.Values
    {
      && Newest(log, i)
      && log[i].name in packages && packages[log[i].name] == log[i].pkg
      && log[i].pkg.Effective() == Ok(log[i].version)
    }

    /** Every name holds the latest of the greatest packages added under it. */
    ghost predicate Valid()
      reads this, packages.Values
    {
      && AllReadable(log)
      && (forall j :: 0 <= j < |log| ==> log[j].name in packages)
      && (forall name :: name in packages ==> exists i :: 0 <= i < |log| && log[i].name == name && Held(i))
    }

    constructor ()
      ensures Valid() && packages == map[] && log == []
    {
      packages := map[];
      log := [];
    }

    /** add_package. With a package that can be compared the index stays valid. With one that cannot, it
        does if and only if the name is held and the version does not parse or has no greater epoch than
        the held one: a new name is stored before the error is raised, and a greater epoch replaces the
        held package without any error. */
    method AddPackage(pkg: Package) returns (r: Result<int>)
      requires Valid()
      modifies this, pkg`parsed_version, packages.Values`parsed_version
      ensures pkg.Effective() == old(pkg.Effective()) && pkg.Name() == old(pkg.Name())
      ensures var stored := if pkg.Name() in old(packages) then old(packages[pkg.Name()]) else pkg;
        && r == Returned(ComparedOf(old(pkg.Effective()), old(stored.Effective())))
        && packages == if pkg.Name() !in old(packages) || r == Ok(0) then old(packages)[pkg.Name() := pkg] else old(packages)
      ensures old(pkg.Good()) ==>
        && Valid() && log == old(log) + [Entry(pkg.Name(), pkg.Effective().value, pkg)]
        && r.Ok? && (r.value == 0 <==> packages[pkg.Name()] == pkg)
      ensures !old(pkg.Good()) ==>
        && log == old(log)
        && (Valid() <==> pkg.Name() in old(packages) && Refused(old(pkg.Effective()), old(packages[pkg.Name()].Effective())))
    {
      hide Readable, OpkgVersion.Order, ParseVersion, Newest, Compared, Packages.Valid;
      ghost var good, held := pkg.Good(), pkg.Name() in packages;
      if pkg.Name() in packages {
        HeldGood(pkg.Name());
        if good {
          ComparedIsOrder(pkg.Effective().value, packages[pkg.Name()].Effective().value);
        }
      }
      if good {
        OrderSame(pkg.Effective().value);
        ComparedIsOrder(pkg.Effective().value, pkg.Effective().value);
      }
      r := Store(pkg);
      if good {
        ghost var e := Entry(pkg.Name(), pkg.Effective().value, pkg);
        log := log + [e];
        StillValid(e);
      } else {
        if held {
          RefusedIf(old(pkg.Effective()), old(packages[pkg.Name()].Effective()));
        }
        if packages == old(packages) {
          SameIndex();
        } else if Valid() {
          HeldGood(pkg.Name());
        }
      }
    }

    /** Filling the caches keeps the index valid. */
    twostate lemma SameIndex()
      requires old(Valid()) && packages == old(packages) && log == old(log) && EffectiveKept(old(packages))
      ensures Valid()
    {
      hide Readable, OpkgVersion.Order, ParseVersion, Newest;
      forall name | name in packages
        ensures exists i :: 0 <= i < |log| && log[i].name == name && Held(i)
      {
        assert Held(old(Position(name)));
      }
    }

    method Store(pkg: Package) returns (r: Result<int>)
      modifies this`packages, pkg`parsed_version, packages.Values`parsed_version
      ensures pkg.Effective() == old(pkg.Effective())
      ensures EffectiveKept(old(packages))
      ensures var stored := if pkg.Name() in old(packages) then old(packages[pkg.Name()]) else pkg;
        && r == Returned(ComparedOf(old(pkg.Effective()), old(stored.Effective())))
        && packages == if pkg.Name() !in old(packages) || r == Ok(0) then old(packages)[pkg.Name() := pkg] else old(packages)
    {
      hide ParseVersion, Compared;
      var name := pkg.Name();
      if name !in packages {
        packages := packages[name := pkg];
      }
      var c := pkg.CompareVersion(packages[name]);
      if c.Err? {
        r := Err(c.message);
      } else if c.value >= 0 {
        packages := packages[name := pkg];
        r := Ok(0);
      } else {
        r := Ok(1);
      }
    }

    /** Filling the caches changes the version of no package that was held. */
    static twostate predicate EffectiveKept(was: map<string, Package>)
      reads was.Values
    {
      forall name :: name in was ==> old(was[name].Effective()) == was[name].Effective()
    }

    /** The index was was, and has now taken in e or kept what it held. */
    twostate predicate Stored(e: Entry, was: map<string, Package>)
      requires Readable(e.version)
      reads this, e.pkg, was.Values
    {
      && old(e.pkg.Effective()) == Ok(e.version) && e.pkg.Effective() == Ok(e.version) && EffectiveKept(was)
      && log == old(log) + [e]
      && if e.name !in was then packages == was[e.name := e.pkg]
         else
           && was[e.name].Effective().Ok? && Readable(was[e.name].Effective().value)
           && packages ==
                if OpkgVersion.Order(e.version, was[e.name].Effective().value) >= 0 then was[e.name := e.pkg] else was
    }

    /** The log grew by a package that can be compared, and the index holds it if it is not older than what
        was held. */
    twostate lemma StillValid(e: Entry)
      requires old(Valid()) && Readable(e.version) && Stored(e, old(packages))
      ensures Valid()
    {
      hide Readable, OpkgVersion.Order, ParseVersion, Newest;
      if e.name in old(packages) {
        NewestAfter(old(log), old(Position(e.name)), e);
      } else {
        NewestFirst(old(log), e);
      }
      forall name | name in packages
        ensures exists i :: 0 <= i < |log| && log[i].name == name && Held(i)
      {
        if name != e.name {
          var i := old(Position(name));
          NewestOther(old(log), i, e);
          assert Held(i);
        } else if e.name in old(packages) && OpkgVersion.Order(e.version, old(packages[e.name].Effective()).value) < 0 {
          assert Held(old(Position(name)));
        } else {
          assert Held(|old(log)|);
        }
      }
    }

    /** A package held in a valid index can be compared. */
    lemma HeldGood(name: string)
      requires Valid() && name in packages
      ensures packages[name].Effective().Ok? && Readable(packages[name].Effective().value)
    {
      hide Readable, ParseVersion, Newest;
      var i := Position(name);
    }

    /** Where the package held under a name is in the log. */
    ghost function Position(name: string): (i: nat)
      requires Valid() && name in packages
      reads this, packages.Values
      ensures i < |log| && log[i].name == name && Held(i)
    {
      var i :| 0 <= i < |log| && log[i].name == name && Held(i);
      i
    }
  }
}
