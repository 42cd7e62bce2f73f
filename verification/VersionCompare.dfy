/** opkg-compare-versions.c: the order on Debian-style versions. */
module VersionCompare {
  import opened Bytes
  import opened Lexicographic

  datatype Option<+T> = None | Some(value: T)
  datatype Result<+T> = Ok(value: T) | Err(message: string)

  predicate IsCString(s: string) {
    forall i :: 0 <= i < |s| ==> 0 < s[i] as int < 256
  }

  /** A C string. Characters outside ASCII are positive, as where char is unsigned. */
  type VersionString = s: string | IsCString(s)

  predicate IsDigit(c: char) { '0' <= c <= '9' }
  predicate IsAlpha(c: char) { 'A' <= c <= 'Z' || 'a' <= c <= 'z' }

  /** The rank of a character outside digit runs: letters before everything else. */
  function Weight(c: char): int {
    if IsAlpha(c) then c as int else c as int + 256
  }

  // ----- the order: a version as a sequence of numbers

  /** The first digit at or after i. */
  function RunEnd(s: string, i: nat): (j: nat)
    requires i <= |s|
    ensures i <= j <= |s| && (j < |s| ==> IsDigit(s[j]))
    ensures forall k :: i <= k < j ==> !IsDigit(s[k])
    decreases |s| - i
  {
    if i < |s| && !IsDigit(s[i]) then RunEnd(s, i + 1) else i
  }

  /** The first character that is not a digit. */
  function DigitsEnd(s: string, i: nat): (j: nat)
    requires i <= |s|
    ensures i <= j <= |s| && (j < |s| ==> !IsDigit(s[j]))
    ensures forall k :: i <= k < j ==> IsDigit(s[k])
    decreases |s| - i
  {
    if i < |s| && IsDigit(s[i]) then DigitsEnd(s, i + 1) else i
  }

  function Digit(c: char): (d: nat)
    requires IsDigit(c)
    ensures d < 10
  {
    c as int - '0' as int
  }

  predicate Digits(d: string) {
    forall k :: 0 <= k < |d| ==> IsDigit(d[k])
  }

  /** The value of a run of decimal digits, 0 for none. */
  function Value(d: string): nat
    requires Digits(d)
  {
    if d == "" then 0 else 10 * Value(d[..|d| - 1]) + Digit(d[|d| - 1])
  }

  /** What follows a number: the end, before a separator, before anything else. */
  function ClassAt(s: string, i: nat): int
    requires i <= |s|
  {
    if i == |s| then 0 else if s[i] == '.' || s[i] == '-' then 1 else 2
  }

  function Weights(s: string, i: nat, j: nat): seq<int>
    requires i <= j <= |s|
    decreases j - i
  {
    if i == j then [] else [Weight(s[i])] + Weights(s, i + 1, j)
  }

  /** LONG_MAX, which section 5.2.4.2.1 of ISO/IEC 9899:2011 bounds from below. */
  type LongMax = n: nat | n >= 0x7FFF_FFFF witness 0x7FFF_FFFF

  /** A number cut off at a limit, as strtol does it at LONG_MAX; None stands for no limit. */
  function Capped(n: int, limit: Option<nat>): int {
    if limit.Some? && n > limit.value then limit.value else n
  }

  /** The key of the rest of a version: the ranks of a run of non-digits closed by a 0, the number after
      it, the class of what follows, and so on to the end. */
  function KeyFrom(s: string, i: nat, limit: Option<nat>): seq<int>
    requires i <= |s|
    decreases |s| - i
  {
    var j := RunEnd(s, i);
    var k := DigitsEnd(s, j);
    Weights(s, i, j)
      + ([0] + ([Capped(Value(s[j..k]), limit)] + ([ClassAt(s, k)] + if k == |s| then [] else KeyFrom(s, k, limit))))
  }

  function Key(s: string, limit: Option<nat>): seq<int> {
    KeyFrom(s, 0, limit)
  }

  /** The difference of two sequences at the first place where they differ. */
  function Difference(a: seq<int>, b: seq<int>): int {
    if a == [] && b == [] then 0
    else if a == [] then -1
    else if b == [] then 1
    else if a[0] != b[0] then a[0] - b[0]
    else Difference(a[1..], b[1..])
  }

  /** Its sign is the lexicographic order. */
  lemma {:induction false} DifferenceIsLex(a: seq<int>, b: seq<int>)
    ensures Sign(Difference(a, b)) == Lex(a, b)
  {
    if a != [] && b != [] && a[0] == b[0] {
      DifferenceIsLex(a[1..], b[1..]);
    }
  }

  lemma DifferenceHead(x: int, a: seq<int>, y: int, b: seq<int>)
    ensures Difference([x] + a, [y] + b) == if x == y then Difference(a, b) else x - y
  {
    assert ([x] + a)[1..] == a && ([y] + b)[1..] == b;
  }

  /** The part of the key from position i in a run that ends at j. */
  ghost function Rest(s: string, i: nat, j: nat, limit: Option<nat>): seq<int>
    requires i <= j <= |s| && j == RunEnd(s, j)
  {
    Weights(s, i, j) + ([0] + Number(s, j, limit))
  }

  ghost function Number(s: string, j: nat, limit: Option<nat>): seq<int>
    requires j <= |s| && j == RunEnd(s, j)
  {
    var k := DigitsEnd(s, j);
    [Capped(Value(s[j..k]), limit)] + Tail(s, k, limit)
  }

  ghost function Tail(s: string, k: nat, limit: Option<nat>): seq<int>
    requires k <= |s|
  {
    [ClassAt(s, k)] + if k == |s| then [] else KeyFrom(s, k, limit)
  }

  lemma {:induction false} RunEndAgain(s: string, i: nat)
    requires i <= |s|
    ensures RunEnd(s, RunEnd(s, i)) == RunEnd(s, i)
    decreases |s| - i
  {
    if i < |s| && !IsDigit(s[i]) {
      RunEndAgain(s, i + 1);
    }
  }

  lemma KeyIsRest(s: string, i: nat, limit: Option<nat>)
    requires i <= |s|
    ensures var j := RunEnd(s, i); RunEnd(s, j) == j && KeyFrom(s, i, limit) == Rest(s, i, j, limit)
  {
    RunEndAgain(s, i);
  }

  lemma WeightPositive(c: char)
    requires c as int > 0
    ensures Weight(c) > 0
  {}

  /** One step through the runs of non-digits. */
  lemma RestStep(s: string, i: nat, j: nat, limit: Option<nat>)
    requires i <= j <= |s| && j == RunEnd(s, j)
    ensures Rest(s, i, j, limit)
      == if i == j then [0] + Number(s, j, limit) else [Weight(s[i])] + Rest(s, i + 1, j, limit)
  {
    hide Number, Weight, RunEnd;
    if i < j {
      Regroup([Weight(s[i])], Weights(s, i + 1, j), [0] + Number(s, j, limit));
    } else {
      assert [] + ([0] + Number(s, j, limit)) == [0] + Number(s, j, limit);
    }
  }

  lemma Regroup(a: seq<int>, b: seq<int>, c: seq<int>)
    ensures (a + b) + c == a + (b + c)
  {}

  /** Positions val and ref of two versions, inside runs that end at vp and rp. */
  ghost function RestDifference(v: string, val: nat, vp: nat, f: string, ref: nat, rp: nat, limit: Option<nat>): int
    requires val <= vp <= |v| && vp == RunEnd(v, vp) && ref <= rp <= |f| && rp == RunEnd(f, rp)
  {
    Difference(Rest(v, val, vp, limit), Rest(f, ref, rp, limit))
  }

  lemma KeysAreRests(v: VersionString, val: nat, f: VersionString, ref: nat, limit: Option<nat>)
    requires val <= |v| && ref <= |f|
    ensures var vp, rp := RunEnd(v, val), RunEnd(f, ref);
      && RunEnd(v, vp) == vp && RunEnd(f, rp) == rp
      && Difference(KeyFrom(v, val, limit), KeyFrom(f, ref, limit)) == RestDifference(v, val, vp, f, ref, rp, limit)
  {
    KeyIsRest(v, val, limit);
    KeyIsRest(f, ref, limit);
  }

  lemma CharStep(v: VersionString, val: nat, vp: nat, f: VersionString, ref: nat, rp: nat, limit: Option<nat>)
    requires val <= vp <= |v| && vp == RunEnd(v, vp) && ref <= rp <= |f| && rp == RunEnd(f, rp)
    ensures var vc := if val == vp then 0 else Weight(v[val]);
      var rc := if ref == rp then 0 else Weight(f[ref]);
      && (val < vp ==> vc > 0) && (ref < rp ==> rc > 0)
      && (vc != rc ==> RestDifference(v, val, vp, f, ref, rp, limit) == vc - rc)
      && (vc == rc && val < vp ==> ref < rp && RestDifference(v, val, vp, f, ref, rp, limit) == RestDifference(v, val + 1, vp, f, ref + 1, rp, limit))
  {
    hide Weights, Number, KeyFrom, Rest, Weight;
    RestStep(v, val, vp, limit);
    RestStep(f, ref, rp, limit);
    if val < vp { WeightPositive(v[val]); }
    if ref < rp { WeightPositive(f[ref]); }
    var vc := if val == vp then 0 else Weight(v[val]);
    var rc := if ref == rp then 0 else Weight(f[ref]);
    var a := if val == vp then Number(v, vp, limit) else Rest(v, val + 1, vp, limit);
    var b := if ref == rp then Number(f, rp, limit) else Rest(f, ref + 1, rp, limit);
    DifferenceHead(vc, a, rc, b);
  }

  lemma NumberStep(v: VersionString, vp: nat, f: VersionString, rp: nat, limit: Option<nat>)
    requires vp <= |v| && vp == RunEnd(v, vp) && rp <= |f| && rp == RunEnd(f, rp)
    ensures var vk, rk := DigitsEnd(v, vp), DigitsEnd(f, rp);
      var vl, rl := Capped(Value(v[vp..vk]), limit), Capped(Value(f[rp..rk]), limit);
      && RestDifference(v, vp, vp, f, rp, rp, limit) == if vl != rl then vl - rl else Difference(Tail(v, vk, limit), Tail(f, rk, limit))
  {
    hide Tail, Number, Rest;
    RestStep(v, vp, vp, limit);
    RestStep(f, rp, rp, limit);
    DifferenceHead(0, Number(v, vp, limit), 0, Number(f, rp, limit));
    NumberIs(v, vp, limit);
    NumberIs(f, rp, limit);
    var vk, rk := DigitsEnd(v, vp), DigitsEnd(f, rp);
    DifferenceHead(Capped(Value(v[vp..vk]), limit), Tail(v, vk, limit), Capped(Value(f[rp..rk]), limit), Tail(f, rk, limit));
  }

  lemma NumberIs(s: string, j: nat, limit: Option<nat>)
    requires j <= |s| && j == RunEnd(s, j)
    ensures var k := DigitsEnd(s, j); Number(s, j, limit) == [Capped(Value(s[j..k]), limit)] + Tail(s, k, limit)
  {}

  lemma TailStep(v: VersionString, val: nat, f: VersionString, ref: nat, limit: Option<nat>)
    requires val <= |v| && ref <= |f|
    ensures var c := Difference(Tail(v, val, limit), Tail(f, ref, limit));
      && (ClassAt(v, val) != ClassAt(f, ref) ==> c == ClassAt(v, val) - ClassAt(f, ref))
      && (ClassAt(v, val) == ClassAt(f, ref) == 0 ==> c == 0)
      && (ClassAt(v, val) == ClassAt(f, ref) != 0 ==> c == Difference(KeyFrom(v, val, limit), KeyFrom(f, ref, limit)))
  {
    hide KeyFrom;
    DifferenceHead(ClassAt(v, val), if val == |v| then [] else KeyFrom(v, val, limit), ClassAt(f, ref), if ref == |f| then [] else KeyFrom(f, ref, limit));
  }

  /** strchr(".-", c) for the character at i: it also finds the terminating NUL. */
  predicate IsSeparator(s: string, i: nat)
    requires i <= |s|
  {
    i == |s| || s[i] == '.' || s[i] == '-'
  }

  /** A NULL argument stands for the empty string. */
  function Text(p: Option<VersionString>): VersionString {
    if p.Some? then p.value else ""
  }

  /** The search for the end of a run of non-digits. */
  method SkipRun(s: VersionString, start: nat) returns (p: nat)
    requires start <= |s|
    ensures p == RunEnd(s, start)
  {
    p := start;
    while p < |s| && !IsDigit(s[p])
      invariant start <= p <= |s| && RunEnd(s, start) == RunEnd(s, p)
    {
      p := p + 1;
    }
  }

  /** strtol on the digits at start: their value, at most LONG_MAX, and the place after them. */
  method Strtol(s: VersionString, start: nat, longMax: LongMax) returns (value: nat, end: nat)
    requires start <= |s|
    ensures end == DigitsEnd(s, start) && value == Capped(Value(s[start..end]), Some(longMax))
  {
    value, end := 0, start;
    while end < |s| && IsDigit(s[end])
      invariant start <= end <= |s| && DigitsEnd(s, start) == DigitsEnd(s, end)
      invariant Digits(s[start..end]) && value == Capped(Value(s[start..end]), Some(longMax))
    {
      assert s[start..end + 1][..end - start] == s[start..end];
      value := Capped(10 * value + Digit(s[end]), Some(longMax));
      end := end + 1;
    }
  }

  /** The comparison of two runs of non-digits. */
  method CompareRuns(v: VersionString, val0: nat, vp: nat, f: VersionString, ref0: nat, rp: nat, ghost limit: Option<nat>) returns (r: int)
    requires val0 <= vp <= |v| && vp == RunEnd(v, vp) && ref0 <= rp <= |f| && rp == RunEnd(f, rp)
    ensures -512 < r < 512
    ensures r != 0 ==> RestDifference(v, val0, vp, f, ref0, rp, limit) == r
    ensures r == 0 ==>
      RestDifference(v, val0, vp, f, ref0, rp, limit) == RestDifference(v, vp, vp, f, rp, rp, limit)
  {
    hide Rest, Difference;
    var val: nat, ref: nat := val0, ref0;
    while true
      invariant val <= vp && ref <= rp
      invariant RestDifference(v, val0, vp, f, ref0, rp, limit) == RestDifference(v, val, vp, f, ref, rp, limit)
      decreases vp - val
    {
      CharStep(v, val, vp, f, ref, rp, limit);
      var vc, rc := 0, 0;
      if val != vp {
        vc := v[val] as int;
      }
      if ref != rp {
        rc := f[ref] as int;
      }
      if rc == 0 && vc == 0 {
        return 0;
      }
      if vc != 0 && !IsAlpha(v[val]) {
        vc := vc + 256;
      }
      if rc != 0 && !IsAlpha(f[ref]) {
        rc := rc + 256;
      }
      if vc != rc {
        return vc - rc;
      }
      val, ref := val + 1, ref + 1;
    }
  }

  /** The comparison of two numbers, and the places after them. The difference of two longs is returned as
      an int, and can be 0 then although they differ. */
  method CompareNumbers(v: VersionString, val: nat, vp: nat, f: VersionString, ref: nat, rp: nat, longMax: LongMax)
    returns (differ: bool, r: int, vend: nat, rend: nat)
    requires val <= |v| && ref <= |f| && vp == RunEnd(v, val) && rp == RunEnd(f, ref)
    requires RunEnd(v, vp) == vp && RunEnd(f, rp) == rp
    ensures vp <= vend <= |v| && rp <= rend <= |f| && (val < |v| ==> val < vend)
    ensures differ ==> r == Int32(RestDifference(v, vp, vp, f, rp, rp, Some(longMax)))
    ensures !differ ==>
      RestDifference(v, vp, vp, f, rp, rp, Some(longMax)) == Difference(Tail(v, vend, Some(longMax)), Tail(f, rend, Some(longMax)))
  {
    hide RestDifference, Tail, Difference, Int32;
    NumberStep(v, vp, f, rp, Some(longMax));
    var vl: int, rl: int;
    vl, vend := Strtol(v, vp, longMax);
    rl, rend := Strtol(f, rp, longMax);
    Advances(v, val);
    differ, r := vl != rl, Int32(vl - rl);
  }

  lemma Advances(s: string, i: nat)
    requires i <= |s|
    ensures i < |s| ==> i < DigitsEnd(s, RunEnd(s, i))
  {}

  lemma ClassIs(s: string, i: nat)
    requires i <= |s|
    ensures IsSeparator(s, i) <==> ClassAt(s, i) <= 1
    ensures i == |s| <==> ClassAt(s, i) == 0
    ensures 0 <= ClassAt(s, i) <= 2
  {}

  /** verrevcmp: its sign is that of the first difference of the keys, stored in an int. */
  method Verrevcmp(val0: Option<VersionString>, ref0: Option<VersionString>, longMax: LongMax) returns (r: int)
    ensures -0x8000_0000 <= r < 0x8000_0000
    ensures Sign(r) == Sign(Int32(Difference(Key(Text(val0), Some(longMax)), Key(Text(ref0), Some(longMax)))))
  {
    hide Difference, KeyFrom, RestDifference, Tail, ClassAt, RunEnd, Int32;
    var v, f := Text(val0), Text(ref0);
    var val: nat, ref: nat := 0, 0;
    while true
      invariant val <= |v| && ref <= |f|
      invariant Difference(Key(v, Some(longMax)), Key(f, Some(longMax))) == Difference(KeyFrom(v, val, Some(longMax)), KeyFrom(f, ref, Some(longMax)))
      invariant val > 0 ==> val < |v|
      decreases |v| - val
    {
      KeysAreRests(v, val, f, ref, Some(longMax));
      var vp := SkipRun(v, val);
      var rp := SkipRun(f, ref);
      r := CompareRuns(v, val, vp, f, ref, rp, Some(longMax));
      if r != 0 {
        SmallInt(r);
        return r;
      }
      var differ;
      differ, r, val, ref := CompareNumbers(v, val, vp, f, ref, rp, longMax);
      if differ {
        IntRange(RestDifference(v, vp, vp, f, rp, rp, Some(longMax)));
        return r;
      }
      TailStep(v, val, f, ref, Some(longMax));
      ClassIs(v, val);
      ClassIs(f, ref);
      SmallInt(ClassAt(v, val) - ClassAt(f, ref));
      var vsep, rsep := IsSeparator(v, val), IsSeparator(f, ref);
      if vsep && !rsep {
        return -1;
      }
      if !vsep && rsep {
        return 1;
      }
      if val == |v| && ref == |f| {
        return 0;
      }
      if val == |v| {
        return -1;
      }
      if ref == |f| {
        return 1;
      }
    }
  }

  lemma SmallInt(d: int)
    requires -0x8000_0000 <= d < 0x8000_0000
    ensures Int32(d) == d
  {}

  lemma IntRange(d: int)
    ensures -0x8000_0000 <= Int32(d) < 0x8000_0000
  {}

  // ----- whole versions

  datatype VersionRevision = VersionRevision(epoch: nat, version: Option<VersionString>, revision: Option<VersionString>)

  /** The order on versions: by epoch, then version, then revision, with numbers cut off at a limit if there
      is one. */
  function Order(v: VersionRevision, w: VersionRevision, limit: Option<nat>): (c: int)
    ensures -1 <= c <= 1
  {
    var c := Lex(Key(Text(v.version), limit), Key(Text(w.version), limit));
    if v.epoch != w.epoch then Sign(v.epoch - w.epoch)
    else if c != 0 then c
    else Lex(Key(Text(v.revision), limit), Key(Text(w.revision), limit))
  }

  /** What the program computes: numbers cut off at LONG_MAX, and differences stored in an int. */
  function Computed(v: VersionRevision, w: VersionRevision, longMax: LongMax): (c: int)
    ensures -1 <= c <= 1
  {
    var c := Sign(Int32(Difference(Key(Text(v.version), Some(longMax)), Key(Text(w.version), Some(longMax)))));
    if v.epoch != w.epoch then Sign(v.epoch - w.epoch)
    else if c != 0 then c
    else Sign(Int32(Difference(Key(Text(v.revision), Some(longMax)), Key(Text(w.revision), Some(longMax)))))
  }

  // ----- when the two are the same

  /** The numbers of a key cut off. */
  function Cut(key: seq<int>, longMax: nat): (c: seq<int>)
    ensures |c| == |key|
  {
    seq(|key|, k requires 0 <= k < |key| => Capped(key[k], Some(longMax)))
  }

  lemma CutJoin(a: seq<int>, b: seq<int>, longMax: nat)
    ensures Cut(a + b, longMax) == Cut(a, longMax) + Cut(b, longMax)
  {}

  /** Only numbers are ever cut off: every rank and class is far below LONG_MAX. */
  lemma {:induction false} KeyCut(s: VersionString, i: nat, longMax: LongMax)
    requires i <= |s|
    ensures KeyFrom(s, i, Some(longMax)) == Cut(KeyFrom(s, i, None), longMax)
    decreases |s| - i
  {
    hide Cut, Capped, Value, Weights, ClassAt, InRange;
    var j := RunEnd(s, i);
    var k := DigitsEnd(s, j);
    WeightsSmall(s, i, j);
    ClassIs(s, k);
    if k < |s| {
      Advances(s, i);
      KeyCut(s, k, longMax);
    }
    var more := if k == |s| then [] else KeyFrom(s, k, None);
    var more' := if k == |s| then [] else KeyFrom(s, k, Some(longMax));
    assert more' == Cut(more, longMax) by { CutNone(longMax); }
    CutParts(Weights(s, i, j), Value(s[j..k]), ClassAt(s, k), more, longMax);
    NoLimit(Value(s[j..k]));
  }

  lemma CutNone(longMax: nat)
    ensures Cut([], longMax) == []
  {}

  lemma NoLimit(n: nat)
    ensures Capped(n, None) == n
  {}

  lemma CutParts(w: seq<int>, n: int, c: int, more: seq<int>, longMax: LongMax)
    requires InRange(w) && 0 <= c <= 2
    ensures Cut(w + ([0] + ([n] + ([c] + more))), longMax) == w + ([0] + ([Capped(n, Some(longMax))] + ([c] + Cut(more, longMax))))
  {
    CutJoin(w, [0] + ([n] + ([c] + more)), longMax);
    CutJoin([0], [n] + ([c] + more), longMax);
    CutJoin([n], [c] + more, longMax);
    CutJoin([c], more, longMax);
    assert Cut(w, longMax) == w && Cut([0], longMax) == [0] && Cut([c], longMax) == [c];
    assert Cut([n], longMax) == [Capped(n, Some(longMax))];
  }

  /** The signed value of d modulo 2^32 has the sign of d. */
  predicate KeepsSign(d: int) {
    if d > 0 then 0 < d % 0x1_0000_0000 < 0x8000_0000 else d < 0 ==> 0 < -d % 0x1_0000_0000 <= 0x8000_0000
  }

  lemma KeepsSignIf(d: int)
    ensures Sign(Int32(d)) == Sign(d) <==> KeepsSign(d)
  {
    var q, m := (d + 0x8000_0000) / 0x1_0000_0000, (d + 0x8000_0000) % 0x1_0000_0000 - 0x8000_0000;
    assert d == 0x1_0000_0000 * q + m;
    if d > 0 {
      ModIs(d, q, m);
    } else {
      ModIs(-d, -q, -m);
    }
  }

  lemma ModIs(d: int, q: int, m: int)
    requires d == 0x1_0000_0000 * q + m && -0x8000_0000 <= m <= 0x8000_0000
    ensures d % 0x1_0000_0000 == if m >= 0 then m else m + 0x1_0000_0000
  {
    if m < 0 {
      assert d == 0x1_0000_0000 * (q - 1) + (m + 0x1_0000_0000);
    }
  }

  /** The first place where two keys differ decides alike in what is computed: their numbers are still
      different when they are cut off, and the difference keeps its sign; or they are not, and what follows
      is computed to be in the order of the two. */
  predicate Kept(a: seq<int>, b: seq<int>, longMax: nat) {
    if a == [] || b == [] then true
    else if a[0] == b[0] then Kept(a[1..], b[1..], longMax)
    else
      var d := Capped(a[0], Some(longMax)) - Capped(b[0], Some(longMax));
      if d != 0 then KeepsSign(d)
      else Sign(Int32(Difference(Cut(a[1..], longMax), Cut(b[1..], longMax)))) == Sign(a[0] - b[0])
  }

  lemma {:induction false} KeptIf(a: seq<int>, b: seq<int>, longMax: nat)
    ensures Sign(Int32(Difference(Cut(a, longMax), Cut(b, longMax)))) == Lex(a, b) <==> Kept(a, b, longMax)
  {
    hide Int32, KeepsSign;
    SmallInt(0);
    SmallInt(1);
    SmallInt(-1);
    if a != [] && b != [] {
      var x, y := Capped(a[0], Some(longMax)), Capped(b[0], Some(longMax));
      assert Cut(a, longMax) == [x] + Cut(a[1..], longMax) && Cut(b, longMax) == [y] + Cut(b[1..], longMax);
      DifferenceHead(x, Cut(a[1..], longMax), y, Cut(b[1..], longMax));
      KeepsSignIf(x - y);
      if a[0] == b[0] {
        KeptIf(a[1..], b[1..], longMax);
      }
    }
  }

  /** The computed result for versions that parseversion returns, which have the same revision, is the order
      if and only if the epochs differ or the first difference of the keys is kept. */
  lemma ComputedIf(v: VersionRevision, w: VersionRevision, longMax: LongMax)
    requires v.revision == w.revision
    ensures Computed(v, w, longMax) == Order(v, w, None)
      <==> v.epoch != w.epoch || Kept(Key(Text(v.version), None), Key(Text(w.version), None), longMax)
  {
    hide KeyFrom, Int32, Kept, Difference, Lex, Cut;
    var a, b := Text(v.version), Text(w.version);
    var r, c := Key(Text(v.revision), None), Key(Text(v.revision), Some(longMax));
    KeyCut(a, 0, longMax);
    KeyCut(b, 0, longMax);
    KeptIf(Key(a, None), Key(b, None), longMax);
    DifferenceIsLex(c, c);
    LexEqual(r, r);
    LexEqual(c, c);
    SmallInt(0);
  }

  // ----- where all numbers fit

  predicate InRange(key: seq<int>) {
    forall k :: 0 <= k < |key| ==> 0 <= key[k] < 0x8000_0000
  }

  /** Every number from i on is below 2^31. */
  predicate SmallFrom(s: string, i: nat)
    requires i <= |s|
    decreases |s| - i
  {
    var j := RunEnd(s, i);
    var k := DigitsEnd(s, j);
    Value(s[j..k]) < 0x8000_0000 && (k < |s| ==> SmallFrom(s, k))
  }

  /** Every number of the version and the revision is below 2^31. */
  predicate Small(v: VersionRevision) {
    SmallFrom(Text(v.version), 0) && SmallFrom(Text(v.revision), 0)
  }

  lemma {:induction false} KeyInRange(s: VersionString, i: nat, limit: Option<nat>)
    requires i <= |s| && (SmallFrom(s, i) || (limit.Some? && limit.value < 0x8000_0000))
    ensures InRange(KeyFrom(s, i, limit))
    decreases |s| - i
  {
    var j := RunEnd(s, i);
    var k := DigitsEnd(s, j);
    WeightsSmall(s, i, j);
    if k < |s| {
      Advances(s, i);
      KeyInRange(s, k, limit);
    }
  }

  lemma {:induction false} WeightsSmall(s: VersionString, i: nat, j: nat)
    requires i <= j <= |s|
    ensures InRange(Weights(s, i, j))
    decreases j - i
  {
    if i < j {
      WeightsSmall(s, i + 1, j);
    }
  }

  lemma {:induction false} SmallDifference(a: seq<int>, b: seq<int>)
    requires InRange(a) && InRange(b)
    ensures -0x8000_0000 < Difference(a, b) < 0x8000_0000
  {
    if a != [] && b != [] && a[0] == b[0] {
      SmallDifference(a[1..], b[1..]);
    }
  }

  /** For versions with numbers below 2^31 the program computes the order, whatever a long holds. */
  lemma ComputedIsOrder(v: VersionRevision, w: VersionRevision, longMax: LongMax)
    requires Small(v) && Small(w)
    ensures Computed(v, w, longMax) == Order(v, w, None)
  {
    hide KeyFrom, Int32, Difference, Lex, InRange, SmallFrom;
    NothingCut(Text(v.version), longMax);
    NothingCut(Text(w.version), longMax);
    NothingCut(Text(v.revision), longMax);
    NothingCut(Text(w.revision), longMax);
    KeysInOrder(Text(v.version), Text(w.version), None);
    KeysInOrder(Text(v.revision), Text(w.revision), None);
  }

  lemma NothingCut(s: VersionString, longMax: LongMax)
    requires SmallFrom(s, 0)
    ensures Key(s, Some(longMax)) == Key(s, None)
  {
    hide KeyFrom, SmallFrom;
    KeyCut(s, 0, longMax);
    KeyInRange(s, 0, None);
  }

  /** Where long has 32 bits it computes the order with numbers cut off at 2^31 - 1, for all versions. That is
      a total preorder, but not always the order of the numbers. */
  lemma ComputedIsCut(v: VersionRevision, w: VersionRevision, longMax: LongMax)
    requires longMax < 0x8000_0000
    ensures Computed(v, w, longMax) == Order(v, w, Some(longMax))
  {
    hide KeyFrom, Int32, Difference, Lex, InRange;
    KeysInOrder(Text(v.version), Text(w.version), Some(longMax));
    KeysInOrder(Text(v.revision), Text(w.revision), Some(longMax));
  }

  lemma KeysInOrder(v: VersionString, w: VersionString, limit: Option<nat>)
    requires (SmallFrom(v, 0) && SmallFrom(w, 0)) || (limit.Some? && limit.value < 0x8000_0000)
    ensures Sign(Int32(Difference(Key(v, limit), Key(w, limit)))) == Lex(Key(v, limit), Key(w, limit))
  {
    hide KeyFrom, Int32, Difference, Lex, InRange, SmallFrom;
    KeyInRange(v, 0, limit);
    KeyInRange(w, 0, limit);
    SmallDifference(Key(v, limit), Key(w, limit));
    SmallInt(Difference(Key(v, limit), Key(w, limit)));
    DifferenceIsLex(Key(v, limit), Key(w, limit));
  }

  /** versioncompare. */
  method Versioncompare(version: VersionRevision, refversion: VersionRevision, longMax: LongMax) returns (r: int)
    ensures Sign(r) == Computed(version, refversion, longMax)
  {
    hide Key, Int32, Difference;
    if version.epoch > refversion.epoch {
      return 1;
    }
    if version.epoch < refversion.epoch {
      return -1;
    }
    r := Verrevcmp(version.version, refversion.version, longMax);
    if r != 0 {
      return r;
    }
    r := Verrevcmp(version.revision, refversion.revision, longMax);
  }

  /** The order is a total preorder. */
  lemma OrderFlip(v: VersionRevision, w: VersionRevision, limit: Option<nat>)
    ensures Order(w, v, limit) == -Order(v, w, limit)
  {
    hide Lex, Key;
    LexFlip(Key(Text(v.version), limit), Key(Text(w.version), limit));
    LexFlip(Key(Text(v.revision), limit), Key(Text(w.revision), limit));
  }

  lemma OrderTransitive(u: VersionRevision, v: VersionRevision, w: VersionRevision, limit: Option<nat>)
    requires Order(u, v, limit) <= 0 && Order(v, w, limit) <= 0
    ensures Order(u, w, limit) <= 0
    ensures Order(u, w, limit) == 0 ==> Order(u, v, limit) == 0 && Order(v, w, limit) == 0
  {
    hide Lex, Key;
    if u.epoch == v.epoch == w.epoch {
      var a, b, c := Key(Text(u.version), limit), Key(Text(v.version), limit), Key(Text(w.version), limit);
      LexTransitive(a, b, c);
      LexEqual(a, b);
      LexEqual(b, c);
      if Lex(a, b) == 0 && Lex(b, c) == 0 {
        LexTransitive(Key(Text(u.revision), limit), Key(Text(v.revision), limit), Key(Text(w.revision), limit));
      }
    }
  }

  /** Versions that compare equal compare alike with every other one. */
  lemma OrderEqual(u: VersionRevision, v: VersionRevision, w: VersionRevision, limit: Option<nat>)
    requires Order(u, v, limit) == 0
    ensures Order(u, w, limit) == Order(v, w, limit)
  {
    hide Lex, Key;
    LexEqual(Key(Text(u.version), limit), Key(Text(v.version), limit));
    LexEqual(Key(Text(u.revision), limit), Key(Text(v.revision), limit));
  }

  /** What an operator asks of the order; None where the program prints a message and exits with 1. */
  function Satisfied(order: int, op: string): Option<bool> {
    if op == "<=" || op == "<" then Some(order <= 0)
    else if op == ">=" || op == ">" then Some(order >= 0)
    else if op == "<<" then Some(order < 0)
    else if op == ">>" then Some(order > 0)
    else if op == "=" then Some(order == 0)
    else None
  }

  method Versionsatisfied3(it: VersionRevision, ref: VersionRevision, op: string, longMax: LongMax) returns (r: Option<bool>)
    ensures r == Satisfied(Computed(it, ref, longMax), op)
  {
    hide Computed;
    var c := Versioncompare(it, ref, longMax);
    if op == "<=" || op == "<" {
      return Some(c <= 0);
    }
    if op == ">=" || op == ">" {
      return Some(c >= 0);
    }
    if op == "<<" {
      return Some(c < 0);
    }
    if op == ">>" {
      return Some(c > 0);
    }
    if op == "=" {
      return Some(c == 0);
    }
    return None;
  }

  /** Exactly one of <<, = and >> holds of two versions, << is >> with the sides exchanged, and <= and >=
      are their negations; < and > stand for <= and >=. */
  lemma Trichotomy(v: VersionRevision, w: VersionRevision, limit: Option<nat>)
    ensures var c := Order(v, w, limit);
      && [Satisfied(c, "<<"), Satisfied(c, "="), Satisfied(c, ">>")]
         in {[Some(true), Some(false), Some(false)], [Some(false), Some(true), Some(false)], [Some(false), Some(false), Some(true)]}
      && (Satisfied(c, "<<") == Some(true) <==> Satisfied(Order(w, v, limit), ">>") == Some(true))
      && (Satisfied(c, "=") == Satisfied(Order(w, v, limit), "="))
      && (Satisfied(c, "<=") == Some(true) <==> Satisfied(c, ">>") == Some(false))
      && (Satisfied(c, ">=") == Some(true) <==> Satisfied(c, "<<") == Some(false))
      && Satisfied(c, "<") == Satisfied(c, "<=") && Satisfied(c, ">") == Satisfied(c, ">=")
  {
    hide Order;
    OrderFlip(v, w, limit);
  }

  // ----- reading a version

  predicate IsSpace(c: char) {
    c == ' ' || 9 <= c as int <= 13
  }

  function SkipSpace(s: string, i: nat): (j: nat)
    requires i <= |s|
    ensures i <= j <= |s|
    decreases |s| - i
  {
    if i < |s| && IsSpace(s[i]) then SkipSpace(s, i + 1) else i
  }

  /** strtoul in base 10: the value, cut off at the largest one or negated modulo one more, and the place
      after the digits, or 0 when there are none. */
  function Strtoul(s: string, ulongMax: nat): (r: (nat, nat))
    ensures r.0 <= ulongMax && r.1 <= |s|
  {
    var i := SkipSpace(s, 0);
    var signed := i < |s| && (s[i] == '+' || s[i] == '-');
    var j := if signed then i + 1 else i;
    var k := DigitsEnd(s, j);
    if j == k then (0, 0)
    else if Value(s[j..k]) > ulongMax then (ulongMax, k)
    else if signed && s[i] == '-' then ((ulongMax + 1 - Value(s[j..k])) % (ulongMax + 1), k)
    else (Value(s[j..k]), k)
  }

  /** strchr: the first place of a character, or the length. */
  function Find(s: string, c: char, i: nat): (j: nat)
    requires i <= |s|
    ensures i <= j <= |s| && (j < |s| ==> s[j] == c) && forall k :: i <= k < j ==> s[k] != c
    decreases |s| - i
  {
    if i == |s| || s[i] == c then i else Find(s, c, i + 1)
  }

  lemma CStringPart(s: VersionString, i: nat)
    requires i <= |s|
    ensures IsCString(s[i..])
  {}

  /** parseversion. */
  function Parseversion(s: VersionString, ulongMax: nat): (r: Result<VersionRevision>)
    ensures r.Ok? ==> r.value.version.Some? && r.value.version.value != "" && r.value.revision == Some("")
  {
    var colon := Find(s, ':', 0);
    if s == "" then Err("version string is empty")
    else if colon < |s| then
      var (epoch, end) := Strtoul(s, ulongMax);
      if colon != end then Err("epoch in version is not number")
      else if colon + 1 == |s| then Err("nothing after colon in version number")
      else CStringPart(s, colon + 1); Ok(VersionRevision(epoch, Some(s[colon + 1..]), Some("")))
    else Ok(VersionRevision(0, Some(s), Some("")))
  }

  /** A number in decimal. */
  function Decimal(n: nat): (d: string)
    ensures d != "" && Digits(d) && IsCString(d)
  {
    if n < 10 then [(n + '0' as int) as char] else Decimal(n / 10) + [(n % 10 + '0' as int) as char]
  }

  lemma {:induction false} ValueOfDecimal(n: nat)
    ensures Value(Decimal(n)) == n
  {
    if n >= 10 {
      ValueOfDecimal(n / 10);
      var d := Decimal(n);
      assert d[..|d| - 1] == Decimal(n / 10);
    } else {
      assert Decimal(n)[..0] == "";
    }
  }

  lemma {:induction false} DigitsEndIs(s: string, i: nat, k: nat)
    requires i <= k <= |s| && (k < |s| ==> !IsDigit(s[k])) && forall n :: i <= n < k ==> IsDigit(s[n])
    ensures DigitsEnd(s, i) == k
    decreases k - i
  {
    if i < k {
      DigitsEndIs(s, i + 1, k);
    }
  }

  /** The key of a version that is only a number. */
  lemma DecimalKey(n: nat, limit: Option<nat>)
    ensures Key(Decimal(n), limit) == [0, Capped(n, limit), 0]
  {
    hide Decimal;
    var d := Decimal(n);
    DigitsEndIs(d, 0, |d|);
    ValueOfDecimal(n);
    assert IsDigit(d[0]) && d[0..|d|] == d;
  }

  function Plain(n: nat): VersionRevision {
    VersionRevision(0, Some(Decimal(n)), Some(""))
  }

  /** Where long has 32 bits, two timestamps of different years are computed to be equal, and so are 2^31 - 1
      and 2^31. */
  lemma CutExample()
    ensures var earlier, later := Plain(20110521123000), Plain(20120101000000);
      && Order(earlier, later, None) == -1 && Satisfied(Computed(earlier, later, 0x7FFF_FFFF), "=") == Some(true)
    ensures var v, w := Plain(0x7FFF_FFFF), Plain(0x8000_0000);
      Order(v, w, None) == -1 && Computed(v, w, 0x7FFF_FFFF) == 0
  {
    hide Computed, Order, Plain;
    PlainOrder(20110521123000, 20120101000000);
    PlainComputed(20110521123000, 20120101000000, 0x7FFF_FFFF);
    PlainOrder(0x7FFF_FFFF, 0x8000_0000);
    PlainComputed(0x7FFF_FFFF, 0x8000_0000, 0x7FFF_FFFF);
  }

  /** With a long of 64 bits version 2^32 is computed to equal version 0, and 2^31 to be less than 0, which is less
      than 2^31 - 1, which is less than 2^31. */
  lemma LongExample()
    ensures var longMax := 0x7FFF_FFFF_FFFF_FFFF;
      && Computed(Plain(0x1_0000_0000), Plain(0), longMax) == 0
      && Computed(Plain(0x8000_0000), Plain(0), longMax) == -1
      && Computed(Plain(0), Plain(0x7FFF_FFFF), longMax) == -1
      && Computed(Plain(0x7FFF_FFFF), Plain(0x8000_0000), longMax) == -1
  {
    hide Computed, Plain;
    PlainComputed(0x1_0000_0000, 0, 0x7FFF_FFFF_FFFF_FFFF);
    PlainComputed(0x8000_0000, 0, 0x7FFF_FFFF_FFFF_FFFF);
    PlainComputed(0, 0x7FFF_FFFF, 0x7FFF_FFFF_FFFF_FFFF);
    PlainComputed(0x7FFF_FFFF, 0x8000_0000, 0x7FFF_FFFF_FFFF_FFFF);
  }

  lemma PlainDifference(n: nat, k: nat, limit: Option<nat>)
    ensures Difference(Key(Decimal(n), limit), Key(Decimal(k), limit)) == Capped(n, limit) - Capped(k, limit)
  {
    hide Decimal, Key;
    var x, y := Capped(n, limit), Capped(k, limit);
    DecimalKey(n, limit);
    DecimalKey(k, limit);
    DifferenceHead(0, [x, 0], 0, [y, 0]);
    DifferenceHead(x, [0], y, [0]);
    DifferenceHead(0, [], 0, []);
    assert [0] + [x, 0] == [0, x, 0] && [0] + [y, 0] == [0, y, 0];
    assert [x] + [0] == [x, 0] && [y] + [0] == [y, 0] && [0] + [] == [0];
  }

  lemma PlainComputed(n: nat, k: nat, longMax: LongMax)
    ensures Computed(Plain(n), Plain(k), longMax) == Sign(Int32(Capped(n, Some(longMax)) - Capped(k, Some(longMax))))
  {
    hide Decimal, Int32, Key, Difference;
    PlainDifference(n, k, Some(longMax));
    SmallInt(0);
    var e := Key("", Some(longMax));
    DifferenceIsLex(e, e);
    LexEqual(e, e);
  }

  lemma PlainOrder(n: nat, k: nat)
    ensures Order(Plain(n), Plain(k), None) == Sign(n - k)
  {
    hide Decimal, Key, Difference, Lex;
    PlainDifference(n, k, None);
    DifferenceIsLex(Key(Decimal(n), None), Key(Decimal(k), None));
    var e := Key("", None);
    LexEqual(e, e);
  }

  lemma {:induction false} FindIs(s: string, c: char, i: nat, k: nat)
    requires i <= k < |s| && s[k] == c && forall n :: i <= n < k ==> s[n] != c
    ensures Find(s, c, i) == k
    decreases k - i
  {
    if i < k {
      FindIs(s, c, i + 1, k);
    }
  }

  /** A version written with its epoch is read back, and so is one without a colon, with epoch 0. */
  lemma ParseRoundTrip(epoch: nat, version: VersionString, ulongMax: nat)
    requires version != "" && epoch <= ulongMax
    ensures IsCString(Decimal(epoch) + ":" + version)
    ensures Parseversion(Decimal(epoch) + ":" + version, ulongMax) == Ok(VersionRevision(epoch, Some(version), Some("")))
    ensures ':' !in version ==> Parseversion(version, ulongMax) == Ok(VersionRevision(0, Some(version), Some("")))
  {
    hide Decimal;
    var d := Decimal(epoch);
    var s := d + ":" + version;
    assert IsDigit(s[0]) by { assert s[0] == d[0]; }
    forall k | 0 <= k < |d|
      ensures IsDigit(s[k]) && s[k] != ':'
    {
      assert s[k] == d[k];
    }
    DigitsEndIs(s, 0, |d|);
    FindIs(s, ':', 0, |d|);
    ValueOfDecimal(epoch);
    assert s[0..|d|] == d && s[|d| + 1..] == version;
  }

  /** A colon in front is no error: strtoul then stops where it started, and the epoch is 0. */
  lemma ColonInFront(version: VersionString, ulongMax: nat)
    requires version != ""
    ensures IsCString(":" + version)
    ensures Parseversion(":" + version, ulongMax) == Ok(VersionRevision(0, Some(version), Some("")))
  {
    hide Value;
    var s := ":" + version;
    assert s[0] == ':' && s[1..] == version;
    assert SkipSpace(s, 0) == 0 && DigitsEnd(s, 0) == 0 && Strtoul(s, ulongMax) == (0, 0);
    assert Find(s, ':', 0) == 0;
  }

  /** Which strings are versions: those whose part before the first colon, if there is one, is empty or
      a number with space and a sign before it, and that have something after it. */
  lemma ParsesIf(s: VersionString, ulongMax: nat)
    ensures var colon := Find(s, ':', 0);
      var i := SkipSpace(s, 0);
      var j := if i < |s| && (s[i] == '+' || s[i] == '-') then i + 1 else i;
      Parseversion(s, ulongMax).Ok? <==>
        && s != ""
        && (colon < |s| ==> colon + 1 < |s| && (colon == 0 || (j < colon && forall n :: j <= n < colon ==> IsDigit(s[n]))))
  {
    hide Find, SkipSpace, Strtoul;
    var colon := Find(s, ':', 0);
    StrtoulStops(s, ulongMax, colon);
  }

  /** strtoul stops at a colon just when there is a number before it, or it is the first. */
  lemma StrtoulStops(s: VersionString, ulongMax: nat, colon: nat)
    requires colon < |s| ==> s[colon] == ':'
    ensures var i := SkipSpace(s, 0);
      var j := if i < |s| && (s[i] == '+' || s[i] == '-') then i + 1 else i;
      colon < |s| ==> (Strtoul(s, ulongMax).1 == colon <==> colon == 0 || (j < colon && forall n :: j <= n < colon ==> IsDigit(s[n])))
  {
    hide Value;
    var i := SkipSpace(s, 0);
    var j := if i < |s| && (s[i] == '+' || s[i] == '-') then i + 1 else i;
    if colon < |s| && j < colon && forall n :: j <= n < colon ==> IsDigit(s[n]) {
      DigitsEndIs(s, j, colon);
    }
  }
}
