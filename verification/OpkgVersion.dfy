/** The version order of opkg.py. */
module OpkgVersion {
  import opened Lexicographic
  import opened VersionCompare

  // ----- strings as Python and its regular expressions see them

  /** What a dot repeated matches: everything up to the first newline. */
  function Line(s: string): (l: string)
    ensures l <= s && '\n' !in l && (|l| < |s| ==> s[|l|] == '\n')
  {
    if s == "" || s[0] == '\n' then "" else
      var l := [s[0]] + Line(s[1..]);
      assert s == [s[0]] + s[1..];
      l
  }

  function Ranks(s: string): seq<int> {
    if s == "" then [] else [s[0] as int + 1] + Ranks(s[1..])
  }

  /** The comparison of two strings. */
  function StrCmp(a: string, b: string): int {
    Lex(Ranks(a), Ranks(b))
  }

  // ----- the key of a version

  /** The run of non-digits at the start, the number after it (-1 for none), and the rest. */
  function Alpha(s: string): string { s[..RunEnd(s, 0)] }

  function AfterAlpha(s: string): string { Line(s[RunEnd(s, 0)..]) }

  function Number(s: string): (n: int)
    ensures n >= -1
  {
    var k := DigitsEnd(s, 0);
    if k == 0 then -1 else Value(s[..k])
  }

  function AfterNumber(s: string): string { Line(s[DigitsEnd(s, 0)..]) }

  lemma Shorter(s: string)
    requires s != ""
    ensures |AfterNumber(AfterAlpha(s))| < |s|
    ensures Alpha(s) == "" ==> Number(AfterAlpha(s)) >= 0
  {
    var j := RunEnd(s, 0);
    if j == 0 {
      var r := AfterAlpha(s);
      assert r[0] == s[0];
      assert DigitsEnd(r, 0) > 0;
    }
  }

  /** Non-digits closed by a 0, then the number plus 1, and so on to the end. */
  function PyKey(s: string): seq<int>
    decreases |s|
  {
    if s == "" then [] else
      Shorter(s);
      Ranks(Alpha(s)) + ([0] + ([Number(AfterAlpha(s)) + 1] + PyKey(AfterNumber(AfterAlpha(s)))))
  }

  lemma {:induction false} LexRanks(a: string, b: string, x: seq<int>, y: seq<int>)
    ensures Lex(Ranks(a) + ([0] + x), Ranks(b) + ([0] + y)) == if a == b then Lex(x, y) else StrCmp(a, b)
    ensures a == b <==> StrCmp(a, b) == 0
  {
    if a != "" && b != "" {
      LexRanks(a[1..], b[1..], x, y);
      LexHead(a[0] as int + 1, Ranks(a[1..]), b[0] as int + 1, Ranks(b[1..]));
      LexHead(a[0] as int + 1, Ranks(a[1..]) + ([0] + x), b[0] as int + 1, Ranks(b[1..]) + ([0] + y));
      Regroup([a[0] as int + 1], Ranks(a[1..]), [0] + x);
      Regroup([b[0] as int + 1], Ranks(b[1..]), [0] + y);
      assert a == [a[0]] + a[1..] && b == [b[0]] + b[1..];
    } else if a == "" && b == "" {
      LexHead(0, x, 0, y);
      assert [] + ([0] + x) == [0] + x && [] + ([0] + y) == [0] + y;
    } else if a == "" {
      assert (Ranks(a) + ([0] + x))[0] == 0;
    } else {
      assert (Ranks(b) + ([0] + y))[0] == 0;
    }
  }

  /** One turn of the loop: an exhausted side counts as an empty run and no number. */
  lemma Turn(s: string, f: string)
    ensures var c := Lex(PyKey(s), PyKey(f));
      var s1, f1 := AfterAlpha(s), AfterAlpha(f);
      c == if StrCmp(Alpha(s), Alpha(f)) != 0 then StrCmp(Alpha(s), Alpha(f))
           else if Number(s1) != Number(f1) then Sign(Number(s1) - Number(f1))
           else Lex(PyKey(AfterNumber(s1)), PyKey(AfterNumber(f1)))
  {
    hide Ranks, Alpha, AfterAlpha, Number, AfterNumber, StrCmp;
    LexRanks(Alpha(s), Alpha(f), [Number(AfterAlpha(s)) + 1] + PyKey(AfterNumber(AfterAlpha(s))),
             [Number(AfterAlpha(f)) + 1] + PyKey(AfterNumber(AfterAlpha(f))));
    LexHead(Number(AfterAlpha(s)) + 1, PyKey(AfterNumber(AfterAlpha(s))), Number(AfterAlpha(f)) + 1, PyKey(AfterNumber(AfterAlpha(f))));
    EmptyTurn();
    if s != "" { Shorter(s); KeyStarts(s); }
    if f != "" { Shorter(f); KeyStarts(f); }
    EmptyFirst(Alpha(s));
    EmptyFirst(Alpha(f));
  }

  lemma EmptyTurn()
    ensures Alpha("") == "" && AfterAlpha("") == "" && Number("") == -1 && AfterNumber("") == ""
  {}

  lemma KeyStarts(s: string)
    requires s != ""
    ensures PyKey(s) != []
  {}

  lemma EmptyFirst(a: string)
    ensures a != "" ==> StrCmp("", a) == -1 && StrCmp(a, "") == 1
  {}

  /** _versioncompare; None stands for a missing release part. */
  method Versioncompare(selfversion0: Option<string>, refversion0: Option<string>) returns (r: int)
    ensures r == Lex(PyKey(Part(selfversion0)), PyKey(Part(refversion0)))
  {
    hide PyKey, Lex, Alpha, AfterAlpha, Number, AfterNumber, StrCmp;
    var selfversion, refversion := Part(selfversion0), Part(refversion0);
    while true
      invariant Lex(PyKey(selfversion), PyKey(refversion)) == Lex(PyKey(Part(selfversion0)), PyKey(Part(refversion0)))
      decreases |selfversion| + |refversion|
    {
      Turn(selfversion, refversion);
      TurnShrinks(selfversion, refversion);
      var selfalpha, refalpha := Alpha(selfversion), Alpha(refversion);
      selfversion, refversion := AfterAlpha(selfversion), AfterAlpha(refversion);
      if StrCmp(selfalpha, refalpha) > 0 {
        return 1;
      } else if StrCmp(selfalpha, refalpha) < 0 {
        return -1;
      }
      var selfnum, refnum := Number(selfversion), Number(refversion);
      selfversion, refversion := AfterNumber(selfversion), AfterNumber(refversion);
      if selfnum > refnum {
        return 1;
      } else if selfnum < refnum {
        return -1;
      }
      if selfversion == "" && refversion == "" {
        NothingLeft();
        return 0;
      }
    }
  }

  function Part(s: Option<string>): string {
    if s.Some? then s.value else ""
  }

  lemma NothingLeft()
    ensures Lex(PyKey(""), PyKey("")) == 0
  {}

  lemma TurnShrinks(s: string, f: string)
    ensures -1 <= StrCmp(Alpha(s), Alpha(f)) <= 1
    ensures var s', f' := AfterNumber(AfterAlpha(s)), AfterNumber(AfterAlpha(f));
      (s' != "" || f' != "") ==> |s'| + |f'| < |s| + |f|
  {
    hide Alpha, AfterAlpha, AfterNumber, Number;
    EmptyTurn();
    if s != "" { Shorter(s); }
    if f != "" { Shorter(f); }
  }

  // ----- splitting off the release

  /** The place of the first "-r" at or after i with something after it, or n. */
  function ReleaseAt(s: string, n: nat, i: nat): (j: nat)
    requires i <= n <= |s|
    ensures i <= j <= n && (j < n ==> IsRelease(s[j..n]))
    ensures forall k :: i <= k < j ==> !IsRelease(s[k..n])
    decreases n - i
  {
    if i == n then n else if IsRelease(s[i..n]) then i else ReleaseAt(s, n, i + 1)
  }

  predicate IsRelease(s: string) {
    |s| >= 3 && s[0] == '-' && s[1] == 'r'
  }

  /** The two groups of the regular expression (.+?)(-r.+)?$, or None when it does not match. */
  function Split(s: string): Option<(string, Option<string>)> {
    var n := |Line(s)|;
    if n == 0 || n + 1 < |s| then None
    else
      var j := ReleaseAt(s, n, 1);
      Some((s[..j], if j < n then Some(s[j..n]) else None))
  }

  /** The expression as its parts say: a nonempty first group, perhaps a release, no newline in either,
      and the end of the string or a last newline after them. */
  ghost predicate Matches(s: string, g: string, release: Option<string>) {
    && g != "" && '\n' !in g && '\n' !in Part(release)
    && (release.Some? ==> IsRelease(release.value))
    && (s == g + Part(release) || s == g + Part(release) + "\n")
  }

  /** The groups are the match with the shortest first group, and there are none only if nothing matches. */
  lemma SplitIsShortest(s: string)
    ensures var m := Split(s);
      && (m.Some? ==> Matches(s, m.value.0, m.value.1))
      && forall g: string, release: Option<string> :: Matches(s, g, release) ==> m.Some? && |m.value.0| <= |g|
  {
    var m, n := Split(s), |Line(s)|;
    if m.Some? {
      var (g, release) := m.value;
      assert s[..n] == Line(s) && g + Part(release) == s[..n];
      NoNewline(s, n, |g|);
      assert n < |s| ==> s == s[..n] + "\n";
      assert n == |s| ==> s == s[..n];
    }
    forall g: string, release: Option<string> | Matches(s, g, release)
      ensures m.Some? && |m.value.0| <= |g|
    {
      var body := g + Part(release);
      LineIs(s, body);
      if release.Some? {
        assert s[|g|..n] == release.value;
      }
    }
  }

  lemma NoNewline(s: string, n: nat, j: nat)
    requires j <= n <= |s| && '\n' !in s[..n]
    ensures '\n' !in s[..j] && '\n' !in s[j..n]
  {
    forall k | 0 <= k < n
      ensures s[k] != '\n'
    {
      assert s[k] == s[..n][k];
    }
  }

  lemma {:induction false} LineIs(s: string, body: string)
    requires '\n' !in body && (s == body || s == body + "\n")
    ensures Line(s) == body
  {
    if body != "" {
      LineIs(s[1..], body[1..]);
      assert body == [body[0]] + body[1..];
    }
  }

  /** The versions the expression matches: a line with something in it, with or without its newline. */
  lemma SplitIf(s: string)
    ensures Split(s).Some? <==> Line(s) != "" && (s == Line(s) || s == Line(s) + "\n")
  {
    var l := Line(s);
    assert l == s[..|l|];
    if |l| + 1 == |s| {
      assert s == s[..|l|] + [s[|l|]];
    }
  }

  // ----- versions

  datatype Version = Version(epoch: nat, version: string)

  /** The regular expression of compare matches the version. */
  predicate Readable(v: Version) {
    Split(v.version).Some?
  }

  /** The order on readable versions: by epoch, then what comes before the release, then the release. */
  function Order(v: Version, w: Version): (c: int)
    requires Readable(v) && Readable(w)
    ensures -1 <= c <= 1
  {
    var (a, r) := Split(v.version).value;
    var (b, q) := Split(w.version).value;
    if v.epoch != w.epoch then Sign(v.epoch - w.epoch)
    else if Lex(PyKey(a), PyKey(b)) != 0 then Lex(PyKey(a), PyKey(b))
    else Lex(PyKey(Part(r)), PyKey(Part(q)))
  }

  /** The result of compare. Versions that do not match raise an error only if the epochs do not decide. */
  function Compared(v: Version, w: Version): Result<int> {
    if v.epoch != w.epoch then Ok(Sign(v.epoch - w.epoch))
    else if Readable(v) && Readable(w) then Ok(Order(v, w))
    else Err("AttributeError")
  }

  /** Version.compare. */
  method Compare(self: Version, ref: Version) returns (r: Result<int>)
    ensures r == Compared(self, ref)
  {
    hide PyKey, Lex, Split;
    if self.epoch > ref.epoch {
      return Ok(1);
    } else if self.epoch < ref.epoch {
      return Ok(-1);
    }
    var self_ver_comps := Split(self.version);
    var ref_ver_comps := Split(ref.version);
    if self_ver_comps.None? || ref_ver_comps.None? {
      return Err("AttributeError");
    }
    var c := Versioncompare(Some(self_ver_comps.value.0), Some(ref_ver_comps.value.0));
    if c == 0 {
      c := Versioncompare(self_ver_comps.value.1, ref_ver_comps.value.1);
    }
    return Ok(c);
  }

  lemma OrderFlip(v: Version, w: Version)
    requires Readable(v) && Readable(w)
    ensures Order(w, v) == -Order(v, w)
  {
    hide Lex, PyKey, Split;
    var (a, r) := Split(v.version).value;
    var (b, q) := Split(w.version).value;
    LexFlip(PyKey(a), PyKey(b));
    LexFlip(PyKey(Part(r)), PyKey(Part(q)));
  }

  lemma OrderTransitive(u: Version, v: Version, w: Version)
    requires Readable(u) && Readable(v) && Readable(w)
    requires Order(u, v) <= 0 && Order(v, w) <= 0
    ensures Order(u, w) <= 0
    ensures Order(u, w) == 0 ==> Order(u, v) == 0 && Order(v, w) == 0
  {
    hide Lex, PyKey, Split;
    if u.epoch == v.epoch == w.epoch {
      var (a, p) := Split(u.version).value;
      var (b, q) := Split(v.version).value;
      var (c, r) := Split(w.version).value;
      LexTransitive(PyKey(a), PyKey(b), PyKey(c));
      LexEqual(PyKey(a), PyKey(b));
      LexEqual(PyKey(b), PyKey(c));
      if Lex(PyKey(a), PyKey(b)) == 0 && Lex(PyKey(b), PyKey(c)) == 0 {
        LexTransitive(PyKey(Part(p)), PyKey(Part(q)), PyKey(Part(r)));
      }
    }
  }

  /** Readable versions that compare equal compare alike with every other. */
  lemma OrderEqual(u: Version, v: Version, w: Version)
    requires Readable(u) && Readable(v) && Readable(w) && Order(u, v) == 0
    ensures Order(u, w) == Order(v, w)
  {
    hide Lex, PyKey, Split;
    var (a, p) := Split(u.version).value;
    var (b, q) := Split(v.version).value;
    LexEqual(PyKey(a), PyKey(b));
    LexEqual(PyKey(Part(p)), PyKey(Part(q)));
  }

  /** parse_version. The error is that of int(''). */
  function ParseVersion(s: string): Result<Version> {
    var m := DigitsEnd(s, 0);
    if m < |s| && s[m] == ':' then
      if m == 0 then Err("ValueError") else Ok(Version(Value(s[..m]), Line(s[m + 1..])))
    else Ok(Version(0, s))
  }

  /** Version.__str__. */
  function Str(v: Version): string {
    Decimal(v.epoch) + ":" + v.version
  }

  /** What a version prints is parsed to the same version, if and only if no newline is in it. */
  lemma StrRoundTrip(v: Version)
    ensures ParseVersion(Str(v)) == Ok(v) <==> '\n' !in v.version
  {
    hide Decimal;
    var d := Decimal(v.epoch);
    var s := Str(v);
    assert IsDigit(s[0]) by { assert s[0] == d[0]; }
    forall k | 0 <= k < |d| ensures IsDigit(s[k]) { assert s[k] == d[k]; }
    DigitsEndIs(s, 0, |d|);
    ValueOfDecimal(v.epoch);
    assert s[..|d|] == d && s[|d| + 1..] == v.version;
    if '\n' !in v.version {
      LineIs(v.version, v.version);
    }
  }

  /** The empty version is parsed, but raises an error when it is compared, even with itself. */
  lemma EmptyVersionFails()
    ensures ParseVersion("") == Ok(Version(0, "")) && !Readable(Version(0, ""))
    ensures Compared(Version(0, ""), Version(0, "")) == Err("AttributeError")
  {
    SplitIf("");
  }
}
