/** Little-endian multi-word naturals over 32-bit limbs, big-endian byte strings,
    and congruence: the arithmetic that the Montgomery code is specified with. */
module Limbs {
  import opened Bytes

  type Byte = x: nat | x < 256

  /** 2^32 to the power i. */
  function Pow(i: nat): (p: nat)
    ensures p >= 1
  {
    if i == 0 then 1 else 0x1_0000_0000 * Pow(i - 1)
  }

  /** The number a limb sequence stands for, least significant limb first. */
  function Val(s: seq<Word32>): nat {
    if s == [] then 0 else Val(s[..|s| - 1]) + s[|s| - 1] * Pow(|s| - 1)
  }

  /** OS2IP of section 4.2 of RFC 8017: the number a big-endian byte string stands for. */
  function BigEndian(s: seq<Byte>): nat {
    if s == [] then 0 else BigEndian(s[..|s| - 1]) * 256 + s[|s| - 1]
  }

  /** The 32-bit number four big-endian bytes stand for. */
  function Quad(b0: nat, b1: nat, b2: nat, b3: nat): nat {
    0x100_0000 * b0 + 0x1_0000 * b1 + 0x100 * b2 + b3
  }

  lemma ValStep(s: seq<Word32>, i: nat)
    requires i < |s|
    ensures Val(s[..i + 1]) == Val(s[..i]) + s[i] * Pow(i)
  {
    assert s[..i + 1][..i] == s[..i];
  }

  lemma {:induction false} ValBound(s: seq<Word32>)
    ensures Val(s) < Pow(|s|)
  {
    if s != [] {
      var k := |s| - 1;
      ValBound(s[..k]);
      Mono(s[k], 0xFFFF_FFFF, Pow(k));
    }
  }

  lemma {:induction false} ValZero(s: seq<Word32>)
    requires forall i :: 0 <= i < |s| ==> s[i] == 0
    ensures Val(s) == 0
  {
    if s != [] { ValZero(s[..|s| - 1]); }
  }

  /** Values with equal upper limbs compare as their lower parts do. */
  lemma {:induction false} ValTail(s: seq<Word32>, t: seq<Word32>, i: nat)
    requires |s| == |t| && i <= |s|
    requires s[i..] == t[i..]
    ensures Val(s) - Val(t) == Val(s[..i]) - Val(t[..i])
    decreases |s| - i
  {
    if i == |s| {
      assert s[..i] == s && t[..i] == t;
    } else {
      assert s[i] == s[i..][0] == t[i..][0] == t[i];
      assert s[i + 1..] == s[i..][1..] && t[i + 1..] == t[i..][1..];
      ValTail(s, t, i + 1);
      ValStep(s, i);
      ValStep(t, i);
    }
  }

  /** The first difference from the top decides the order. */
  lemma ValLess(s: seq<Word32>, t: seq<Word32>, i: nat)
    requires |s| == |t| && i < |s|
    requires s[i + 1..] == t[i + 1..] && s[i] < t[i]
    ensures Val(s) < Val(t)
  {
    assert Val(s[..i + 1]) < Val(t[..i + 1]) by {
      ValStep(s, i);
      ValStep(t, i);
      ValBound(s[..i]);
      LeadingGap(s[i], t[i], Val(s[..i]), Val(t[..i]), Pow(i));
    }
    ValTail(s, t, i + 1);
  }

  lemma LeadingGap(a: nat, b: nat, x: nat, y: nat, p: nat)
    requires a < b && x < p
    ensures x + a * p < y + b * p
  {
    Mono(a + 1, b, p);
    assert (a + 1) * p == a * p + p;
  }

  /** Splitting off the lowest limb instead of the highest. */
  lemma {:induction false} ValFront(s: seq<Word32>)
    requires s != []
    ensures Val(s) == s[0] + 0x1_0000_0000 * Val(s[1..])
  {
    var k := |s| - 1;
    if k == 0 {
      assert s[..0] == [] && s[1..] == [];
    } else {
      assert s[..k][0] == s[0];
      assert s[..k][1..] == s[1..][..k - 1];
      ValFront(s[..k]);
      Shuffle(s[k], 0x1_0000_0000, Pow(k - 1));
    }
  }

  /** The limbs of a number. */
  function LimbsOf(x: nat, len: nat): (s: seq<Word32>)
    ensures |s| == len
  {
    if len == 0 then [] else [x % 0x1_0000_0000] + LimbsOf(x / 0x1_0000_0000, len - 1)
  }

  /** A limb sequence is determined by its length and its number. */
  lemma {:induction false} LimbsOfVal(s: seq<Word32>)
    ensures LimbsOf(Val(s), |s|) == s
  {
    if s != [] {
      hide Val;
      ValFront(s);
      LimbsOfVal(s[1..]);
      LimbsStep(Val(s), |s| - 1, s[0], Val(s[1..]));
      assert s == [s[0]] + s[1..];
    }
  }

  lemma LimbsStep(x: nat, len: nat, lo: Word32, hi: nat)
    requires x == lo + 0x1_0000_0000 * hi
    ensures LimbsOf(x, len + 1) == [lo] + LimbsOf(hi, len)
  {
    TwoParts(x, lo, hi);
  }

  lemma TwoParts(x: nat, lo: Word32, hi: nat)
    requires x == lo + 0x1_0000_0000 * hi
    ensures x % 0x1_0000_0000 == lo && x / 0x1_0000_0000 == hi
  {}

  lemma {:induction false} ValOfLimbs(x: nat, len: nat)
    requires x < Pow(len)
    ensures Val(LimbsOf(x, len)) == x
  {
    if len > 0 {
      ValOfLimbs(x / 0x1_0000_0000, len - 1);
      var s := LimbsOf(x, len);
      ValFront(s);
      assert s[1..] == LimbsOf(x / 0x1_0000_0000, len - 1);
    }
  }

  /** The limb stored big-endian at byte k. */
  function WordAt(s: seq<Byte>, k: nat): nat
    requires k + 4 <= |s|
  {
    Quad(s[k], s[k + 1], s[k + 2], s[k + 3])
  }

  /** a holds the limbs of the big-endian string s, last four bytes first. */
  ghost predicate Loaded(a: seq<Word32>, s: seq<Byte>) {
    && |s| == 4 * |a|
    && forall i :: 0 <= i < |a| ==> a[i] == WordAt(s, 4 * (|a| - 1 - i))
  }

  lemma {:induction false} LoadedValue(a: seq<Word32>, s: seq<Byte>)
    requires Loaded(a, s)
    ensures Val(a) == BigEndian(s)
  {
    if a == [] {
    } else {
      hide Val, BigEndian;
      var k := |s| - 4;
      LoadedTail(a, s);
      LoadedValue(a[1..], s[..k]);
      ValFront(a);
      BigEndianQuad(s);
    }
  }

  lemma LoadedTail(a: seq<Word32>, s: seq<Byte>)
    requires Loaded(a, s) && a != []
    ensures Loaded(a[1..], s[..|s| - 4])
  {
    hide Quad;
    forall i | 0 <= i < |a| - 1
      ensures a[1..][i] == WordAt(s[..|s| - 4], 4 * (|a| - 1 - 1 - i))
    {
      assert a[i + 1] == WordAt(s, 4 * (|a| - 1 - (i + 1)));
    }
  }

  /** Four bytes of a big-endian string are one more limb below what stands before them. */
  lemma BigEndianQuad(s: seq<Byte>)
    requires |s| >= 4
    ensures var k := |s| - 4;
      BigEndian(s) == BigEndian(s[..k]) * 0x1_0000_0000
        + Quad(s[k], s[k + 1], s[k + 2], s[k + 3])
  {
    hide BigEndian;
    var k := |s| - 4;
    ByteStep(s, k);
    ByteStep(s, k + 1);
    ByteStep(s, k + 2);
    ByteStep(s, k + 3);
    assert s[..k + 4] == s;
  }

  lemma ByteStep(s: seq<Byte>, i: nat)
    requires i < |s|
    ensures BigEndian(s[..i + 1]) == BigEndian(s[..i]) * 256 + s[i]
  {
    assert s[..i + 1][..i] == s[..i];
  }

  lemma {:induction false} BigEndianBound(s: seq<Byte>, k: nat)
    requires |s| == 4 * k
    ensures BigEndian(s) < Pow(k)
  {
    hide BigEndian;
    if k > 0 {
      var n := |s| - 4;
      BigEndianBound(s[..n], k - 1);
      BigEndianQuad(s);
    } else {
      NoBytes(s);
    }
  }

  lemma NoBytes(s: seq<Byte>)
    requires |s| == 0
    ensures BigEndian(s) == 0
  {}

  /** A big-endian string of known length is determined by its number. */
  lemma {:induction false} BigEndianInjective(s: seq<Byte>, t: seq<Byte>)
    requires |s| == |t| && BigEndian(s) == BigEndian(t)
    ensures s == t
  {
    if s != [] {
      var k := |s| - 1;
      BigEndianInjective(s[..k], t[..k]);
      assert s == s[..k] + [s[k]] && t == t[..k] + [t[k]];
    }
  }

  lemma Mono(x: nat, y: nat, p: nat)
    requires x <= y
    ensures x * p <= y * p
  {
  }

  lemma Shuffle(x: int, y: int, z: int)
    ensures x * (y * z) == y * (x * z)
  {
  }
}

/** Congruence modulo m, with the facts used to move Montgomery factors around. */
module Congruence {

  ghost predicate Cong(x: int, y: int, m: nat)
    requires m > 0
  {
    exists q: int :: Diff(x, y, q, m)
  }

  /** x and y differ by q multiples of m. */
  ghost predicate Diff(x: int, y: int, q: int, m: nat) {
    x == y + q * m
  }

  lemma Refl(x: int, m: nat)
    requires m > 0
    ensures Cong(x, x, m)
  {
    assert Diff(x, x, 0, m);
  }

  lemma Sym(x: int, y: int, m: nat)
    requires m > 0 && Cong(x, y, m)
    ensures Cong(y, x, m)
  {
    var q :| Diff(x, y, q, m);
    assert y == x + (-q) * m;
    assert Diff(y, x, -q, m);
  }

  lemma Trans(x: int, y: int, z: int, m: nat)
    requires m > 0 && Cong(x, y, m) && Cong(y, z, m)
    ensures Cong(x, z, m)
  {
    var p :| Diff(x, y, p, m);
    var q :| Diff(y, z, q, m);
    assert x == z + (p + q) * m;
    assert Diff(x, z, p + q, m);
  }

  lemma Scale(x: int, y: int, k: int, m: nat)
    requires m > 0 && Cong(x, y, m)
    ensures Cong(x * k, y * k, m)
  {
    var q :| Diff(x, y, q, m);
    assert x * k == y * k + (q * k) * m;
    assert Diff(x * k, y * k, q * k, m);
  }

  lemma Add(x: int, y: int, k: int, m: nat)
    requires m > 0 && Cong(x, y, m)
    ensures Cong(x + k, y + k, m)
  {
    var q :| Diff(x, y, q, m);
    assert Diff(x + k, y + k, q, m);
  }

  lemma Mul(x: int, y: int, x': int, y': int, m: nat)
    requires m > 0 && Cong(x, y, m) && Cong(x', y', m)
    ensures Cong(x * x', y * y', m)
  {
    Scale(x, y, x', m);
    Scale(x', y', y, m);
    assert x' * y == y * x' && y' * y == y * y';
    Trans(x * x', y * x', y * y', m);
  }

  lemma {:induction false} Mod(x: nat, m: nat)
    requires m > 0
    ensures Cong(x, x % m, m)
  {
    assert x == x % m + (x / m) * m;
    assert Diff(x, x % m, x / m, m);
  }

  /** Congruent numbers both below m are equal. */
  lemma Unique(x: nat, y: nat, m: nat)
    requires 0 < m && x < m && y < m && Cong(x, y, m)
    ensures x == y
  {
    var q :| Diff(x, y, q, m);
    if q >= 1 {
      MulAtLeast(q, 1, m);
      assert false;
    } else if q <= -1 {
      MulAtLeast(-1, q, m);
      assert false;
    }
  }

  lemma MulAtLeast(q: int, k: int, m: nat)
    requires q >= k
    ensures q * m >= k * m
  {
  }

  /** The residue is the only representative below m. */
  lemma IsMod(x: nat, y: nat, m: nat)
    requires 0 < m && x < m && Cong(x, y, m)
    ensures x == y % m
  {
    Mod(y, m);
    Trans(x, y, y % m, m);
    Unique(x, y % m, m);
  }

  /** A factor b can be cancelled when some multiple of m is one less than a multiple of b. */
  lemma Cancel(x: int, y: int, b: nat, m: nat, u: int, v: int)
    requires m > 0 && m * u + 1 == b * v
    requires Cong(x * b, y * b, m)
    ensures Cong(x, y, m)
  {
    var q :| Diff(x * b, y * b, q, m);
    var d := x - y;
    assert d * b == q * m;
    assert d == d * (b * v) - d * (m * u);
    assert d * (b * v) == (d * b) * v == (q * m) * v == (q * v) * m;
    assert d * (m * u) == (d * u) * m;
    assert d == (q * v - d * u) * m;
    assert Diff(x, y, q * v - d * u, m);
  }
}
