/** Montgomery RSA verification with public exponent 3 over 32-bit limbs. */
module Rsa {
  import opened Bytes
  import opened Limbs
  import opened Congruence
  import Montgomery

  const RSANUMBYTES: nat := 256
  const RSANUMWORDS: nat := 64
  const SHA_DIGEST_SIZE: nat := 20

  /** The key structure. Only the first len limbs of n and rr are meaningful. */
  datatype RsaPublicKey = RsaPublicKey(len: int, n0inv: Word32, n: seq<Word32>, rr: seq<Word32>) {

    predicate Sized() {
      1 <= len <= |n| && len <= |rr|
    }

    /** The modulus. */
    function N(): nat
      requires Sized()
    {
      Val(n[..len])
    }

    /** The Montgomery factor, 2^(32 * len). */
    function R(): nat
      requires Sized()
    {
      Pow(len)
    }

    /** What the comments of the key structure say of its fields. */
    predicate Valid() {
      && Sized()
      && (n[0] * n0inv + 1) % 0x1_0000_0000 == 0
      && N() > 0
      && Val(rr[..len]) == (R() * R()) % N()
    }
  }

  /** A valid key has a modulus that is one less than a multiple of the base, up to a factor. */
  lemma ModulusInverse(key: RsaPublicKey)
    requires key.Valid()
    ensures Montgomery.Inverse(key.N(), key.n0inv)
  {
    hide Val;
    ValFront(key.n[..key.len]);
    InverseOf(key.N(), key.n[0], Val(key.n[..key.len][1..]), key.n0inv);
  }

  lemma InverseOf(m: nat, a: nat, h: nat, u: nat)
    requires m == a + 0x1_0000_0000 * h
    requires (a * u + 1) % 0x1_0000_0000 == 0
    ensures Montgomery.Inverse(m, u)
  {
    var w := Quotient(a * u + 1, 0);
    Spread(m, a, h, u);
    assert Montgomery.InverseBy(m, u, w + h * u);
  }

  lemma Spread(m: int, a: int, h: int, u: int)
    requires m == a + 0x1_0000_0000 * h
    ensures m * u == a * u + 0x1_0000_0000 * (h * u)
  {
  }

  lemma ModulusBelow(key: RsaPublicKey)
    requires key.Sized()
    ensures key.N() < key.R()
  {
    hide Val;
    ValBound(key.n[..key.len]);
  }

  lemma ModulusFacts(key: RsaPublicKey)
    requires key.Sized() && key.Valid()
    ensures 0 < key.N() < key.R() && Montgomery.Inverse(key.N(), key.n0inv)
  {
    ModulusBelow(key);
    ModulusInverse(key);
  }

  /** R can be cancelled modulo the modulus of a valid key. */
  lemma {:induction false} CancelPow(key: RsaPublicKey, x: int, y: int, i: nat)
    requires key.Sized() && key.Valid() && key.N() > 0
    requires Cong(x * Pow(i), y * Pow(i), key.N())
    ensures Cong(x, y, key.N())
  {
    hide Cong, RsaPublicKey.Valid, RsaPublicKey.N, Montgomery.InverseBy;
    if i > 0 {
      ModulusFacts(key);
      var v: int :| Montgomery.InverseBy(key.N(), key.n0inv, v);
      CancelBase(x, y, Pow(i - 1), key.N(), key.n0inv, v);
      CancelPow(key, x, y, i - 1);
    }
  }

  lemma CancelBase(x: int, y: int, p: int, n: nat, u: nat, v: int)
    requires n > 0 && Montgomery.InverseBy(n, u, v)
    requires Cong(x * (0x1_0000_0000 * p), y * (0x1_0000_0000 * p), n)
    ensures Cong(x * p, y * p, n)
  {
    hide Cong;
    assert x * (0x1_0000_0000 * p) == (x * p) * 0x1_0000_0000;
    assert y * (0x1_0000_0000 * p) == (y * p) * 0x1_0000_0000;
    Cancel(x * p, y * p, 0x1_0000_0000, n, u, v);
  }

  /** Subtracts the modulus from a, dropping the final borrow. */
  method SubM(key: RsaPublicKey, a: array<Word32>)
    requires key.Sized() && a.Length == key.len
    modifies a
    ensures Val(a[..]) == Val(old(a[..])) - key.N() + if Val(old(a[..])) < key.N() then key.R() else 0
  {
    ghost var a0 := a[..];
    var A: int := 0;
    var i := 0;
    while i < key.len
      invariant 0 <= i <= key.len
      invariant -1 <= A <= 0
      invariant a[i..] == a0[i..]
      invariant Val(a[..i]) + A * Pow(i) == Val(a0[..i]) - Val(key.n[..i])
    {
      ghost var A0, p, low := A, Pow(i), Val(a[..i]);
      assert a[i] == a0[i] by { assert a[i..][0] == a0[i..][0]; }
      A := A + (a[i] as int - key.n[i] as int);
      a[i] := A % 0x1_0000_0000;
      ghost var full := A;
      A := A / 0x1_0000_0000;
      assert a[..i + 1][..i] == a[..i];
      assert a[i + 1..] == a0[i + 1..] by { assert a0[i..][1..] == a0[i + 1..]; }
      ValStep(a0, i);
      ValStep(key.n, i);
      ValStep(a[..i + 1], i);
      assert full == 0x1_0000_0000 * A + a[i];
      BorrowStep(low, A0, a0[i], key.n[i], a[i], A, p);
      i := i + 1;
    }
    assert a[..key.len] == a[..] && a0[..key.len] == a0;
    ValBound(a[..]);
    ValBound(key.n[..key.len]);
    ValBound(a0);
  }

  lemma BorrowStep(low: int, A0: int, x: int, n: int, digit: int, A: int, p: int)
    requires A0 + x - n == 0x1_0000_0000 * A + digit
    ensures low + digit * p + A * (0x1_0000_0000 * p) == (low + A0 * p) + x * p - n * p
  {
    assert (A0 + x - n) * p == (0x1_0000_0000 * A + digit) * p;
  }

  /** Whether a is at least the modulus. */
  method GeM(key: RsaPublicKey, a: array<Word32>) returns (r: bool)
    requires key.Sized() && a.Length == key.len
    ensures r <==> Val(a[..]) >= key.N()
  {
    var i := key.len;
    var n := key.n[..key.len];
    while i != 0
      invariant 0 <= i <= key.len
      invariant a[..][i..] == n[i..]
    {
      i := i - 1;
      if a[i] < key.n[i] {
        ValLess(a[..], n, i);
        return false;
      }
      if a[i] > key.n[i] {
        ValLess(n, a[..], i);
        return true;
      }
    }
    assert a[..] == n;
    return true;
  }

  /** c += a * b, divided by the base modulo the modulus.
      c + a * b can exceed the array by one bit; SubM then absorbs that bit exactly. */
  method MontMulAdd(key: RsaPublicKey, c: array<Word32>, a: Word32, b: array<Word32>)
    requires key.Valid() && c.Length == b.Length == key.len && c != b
    requires Val(c[..]) < Val(b[..]) + key.N()
    modifies c
    ensures key.N() <= key.R()
      && Val(c[..]) == Montgomery.Step(key.N(), key.n0inv, key.R(), Val(old(c[..])), a, Val(b[..]))
    ensures Cong(Val(c[..]) * 0x1_0000_0000, Val(old(c[..])) + a * Val(b[..]), key.N())
    ensures Val(c[..]) < Val(b[..]) + key.N()
  {
    hide Columns, Val, Pow, Cong, SumIs, Carries, Montgomery.Inverse, Montgomery.StepSum, Montgomery.ClearingDigit, Montgomery.Step;
    ghost var c0, bs, n := c[..], b[..], key.n[..key.len];
    AccumulatorFits(0, a, b[0], c[0]);
    var A: nat := a * b[0] + c[0];
    var d0: Word32 := ((A % 0x1_0000_0000) * key.n0inv) % 0x1_0000_0000;
    AccumulatorFits(0, d0, key.n[0], A % 0x1_0000_0000);
    var B: nat := d0 * key.n[0] + A % 0x1_0000_0000;
    assert A < 0x1_0000_0000_0000_0000 && B < 0x1_0000_0000_0000_0000;  // no 64-bit overflow
    LowDigitVanishes(A % 0x1_0000_0000, key.n0inv, d0, key.n[0]);
    FirstColumn(key, c0, bs, a, d0, A, B);
    A, B := AddColumns(key, c, a, b, d0, A, B);
    ghost var cs := c[..key.len - 1];
    A := A / 0x1_0000_0000 + B / 0x1_0000_0000;
    ghost var carry := A;
    c[key.len - 1] := A % 0x1_0000_0000;
    assert c[..] == cs + [c[key.len - 1]];
    ghost var whole := c[..];
    if A / 0x1_0000_0000 != 0 {
      SubM(key, c);
    }
    ghost var t := Total(key, c0, a, bs, d0, cs, carry, whole);
    DigitOfLimbs(key, c0, a, bs);
    StepDone(key, c0, a, bs, d0, t, carry / 0x1_0000_0000, whole, c[..]);
  }

  /** The loop of montMulAdd over the columns after the first. */
  method AddColumns(key: RsaPublicKey, c: array<Word32>, a: Word32, b: array<Word32>, d0: Word32, A0: nat, B0: nat) returns (A: nat, B: nat)
    requires key.Sized() && c.Length == b.Length == key.len && c != b
    requires A0 < 0x1_0000_0000_0000_0000 && B0 < 0x1_0000_0000_0000_0000
    requires Columns(c[..], a, b[..], d0, key.n[..key.len], 1)
      == 0x1_0000_0000 * Val([]) + (A0 / 0x1_0000_0000 + B0 / 0x1_0000_0000) * Pow(1)
    modifies c
    ensures A < 0x1_0000_0000_0000_0000 && B < 0x1_0000_0000_0000_0000
    ensures Columns(old(c[..]), a, b[..], d0, key.n[..key.len], key.len)
      == 0x1_0000_0000 * Val(c[..key.len - 1]) + (A / 0x1_0000_0000 + B / 0x1_0000_0000) * Pow(key.len)
  {
    hide Columns, Val, Pow;
    ghost var c0, bs, n := c[..], b[..], key.n[..key.len];
    A, B := A0, B0;
    var i := 1;
    assert c[..0] == [];
    while i < key.len
      invariant 1 <= i <= key.len
      invariant A < 0x1_0000_0000_0000_0000 && B < 0x1_0000_0000_0000_0000
      invariant c[i..] == c0[i..]
      invariant Columns(c0, a, bs, d0, n, i) == 0x1_0000_0000 * Val(c[..i - 1]) + (A / 0x1_0000_0000 + B / 0x1_0000_0000) * Pow(i)
    {
      ghost var A', B', cs := A, B, c[..i - 1];
      assert c[i] == c0[i] by { assert c[i..][0] == c0[i..][0]; }
      AccumulatorFits(A, a, b[i], c[i]);
      A := A / 0x1_0000_0000 + a * b[i] + c[i];
      AccumulatorFits(B, d0, key.n[i], A % 0x1_0000_0000);
      B := B / 0x1_0000_0000 + d0 * key.n[i] + A % 0x1_0000_0000;
      c[i - 1] := B % 0x1_0000_0000;
      assert c[..i] == cs + [c[i - 1]];
      assert c[i + 1..] == c0[i + 1..] by { assert c0[i..][1..] == c0[i + 1..]; }
      NextColumn(c0, a, bs, d0, n, i, cs, A', B', A, B, c[i - 1]);
      i := i + 1;
    }
  }

  /** The whole sum t, and the subtraction after it, are one step on numbers. */
  lemma StepDone(key: RsaPublicKey, c: seq<Word32>, a: Word32, b: seq<Word32>, d: Word32, t: nat, h: nat, whole: seq<Word32>, r: seq<Word32>)
    requires key.Sized() && key.Valid() && |c| == |b| == |whole| == key.len && Val(c) < Val(b) + key.N()
    requires d == Montgomery.ClearingDigit(key.n0inv, Val(c), a, Val(b))
    requires SumIs(Val(c), a, Val(b), d, key.N(), t) && Carries(t, Val(whole), h, key.R())
    requires Val(r) == if h == 0 then Val(whole) else Val(whole) - key.N() + if Val(whole) < key.N() then key.R() else 0
    ensures key.N() <= key.R() && Val(r) == Montgomery.Step(key.N(), key.n0inv, key.R(), Val(c), a, Val(b))
    ensures Cong(Val(r) * 0x1_0000_0000, Val(c) + a * Val(b), key.N()) && Val(r) < Val(b) + key.N()
  {
    hide RsaPublicKey.Valid, RsaPublicKey.N, Val, Cong, SumIs, Carries, Montgomery.Inverse, Montgomery.ClearingDigit, Montgomery.Step;
    ValBound(b);
    ValBound(whole);
    ModulusFacts(key);
    NumbersDone(key.N(), key.n0inv, key.R(), Val(c), a, Val(b), d, t, h, Val(whole), Val(r));
  }

  ghost predicate SumIs(c: nat, a: nat, b: nat, d: nat, n: nat, t: nat) {
    c + a * b + d * n == 0x1_0000_0000 * t
  }

  /** t is x with h carries above it. */
  ghost predicate Carries(t: nat, x: nat, h: nat, R: nat) {
    t == x + h * R
  }

  lemma NumbersDone(n: nat, u: nat, R: nat, c: nat, a: Word32, b: nat, d: nat, t: nat, h: nat, x: nat, r: nat)
    requires 0 < n < R && b < R && x < R && c < b + n && Montgomery.Inverse(n, u)
    requires d == Montgomery.ClearingDigit(u, c, a, b) && SumIs(c, a, b, d, n, t) && Carries(t, x, h, R)
    requires r == if h == 0 then x else x - n + if x < n then R else 0
    ensures r == Montgomery.Step(n, u, R, c, a, b) && Cong(r * 0x1_0000_0000, c + a * b, n) && r < b + n
  {
    hide Cong, SumIs, Carries, Montgomery.Inverse, Montgomery.StepSum, Montgomery.ClearingDigit, Montgomery.Step;
    SumOfColumns(n, u, c, a, b, d, t);
    Montgomery.StepKeeps(n, u, R, c, a, b);
    Settled(n, u, R, c, a, b, t, h, x, r);
  }

  /** The first i limbs of c + a * b + d * n, as one number. */
  ghost function Columns(c: seq<Word32>, a: Word32, b: seq<Word32>, d: Word32, n: seq<Word32>, i: nat): nat
    requires i <= |c| && i <= |b| && i <= |n|
  {
    Val(c[..i]) + a * Val(b[..i]) + d * Val(n[..i])
  }

  lemma Product(x: nat, y: nat)
    requires x < 0x1_0000_0000 && y < 0x1_0000_0000
    ensures 0 <= x * y <= 0xFFFF_FFFE_0000_0001
  {
    ProductBelow(x, y);
    Mono(0, x, y);
  }

  lemma ProductBelow(x: nat, y: nat)
    requires x < 0x1_0000_0000
    ensures x * y <= 0xFFFF_FFFF * y
  {
    Mono(x, 0xFFFF_FFFF, y);
  }

  /** The high half of a 64-bit accumulator plus a product of words plus a word fit 64 bits again. */
  lemma AccumulatorFits(acc: nat, x: Word32, y: Word32, z: Word32)
    requires acc < 0x1_0000_0000_0000_0000
    ensures 0 <= acc / 0x1_0000_0000 + x * y + z < 0x1_0000_0000_0000_0000
    ensures x * y >= 0
  {
    Product(x, y);
  }

  /** d0 is chosen so that adding d0 times the modulus clears the lowest limb. */
  lemma LowDigitVanishes(x: Word32, u: Word32, d: Word32, n: Word32)
    requires d == (x * u) % 0x1_0000_0000
    requires (n * u + 1) % 0x1_0000_0000 == 0
    ensures (d * n + x) % 0x1_0000_0000 == 0
  {
    var v := Quotient(n * u + 1, 0);
    var q := Quotient(x * u, d);
    Cleared(x, u, d, n, q, v);
    Montgomery.IsMultiple(d * n + x, x * v - q * n);
  }

  lemma Quotient(x: nat, r: nat) returns (q: nat)
    requires x % 0x1_0000_0000 == r
    ensures x == 0x1_0000_0000 * q + r
  {
    q := x / 0x1_0000_0000;
  }

  lemma Cleared(x: int, u: int, d: int, n: int, q: int, v: int)
    requires x * u == 0x1_0000_0000 * q + d && n * u + 1 == 0x1_0000_0000 * v
    ensures d * n + x == 0x1_0000_0000 * (x * v - q * n)
  {
    calc {
      d * n + x;
    ==
      (x * u - 0x1_0000_0000 * q) * n + x;
    ==
      x * (n * u + 1) - 0x1_0000_0000 * (q * n);
    ==
      x * (0x1_0000_0000 * v) - 0x1_0000_0000 * (q * n);
    ==
      0x1_0000_0000 * (x * v - q * n);
    }
  }

  lemma FirstColumn(key: RsaPublicKey, c: seq<Word32>, b: seq<Word32>, a: Word32, d: Word32, A: nat, B: nat)
    requires key.Sized() && |c| == |b| == key.len
    requires A == a * b[0] + c[0] && B == d * key.n[0] + A % 0x1_0000_0000 && B % 0x1_0000_0000 == 0
    ensures Columns(c, a, b, d, key.n[..key.len], 1) == 0x1_0000_0000 * Val([]) + (A / 0x1_0000_0000 + B / 0x1_0000_0000) * Pow(1)
  {
    var n := key.n[..key.len];
    assert Pow(1) == 0x1_0000_0000 && Pow(0) == 1;
    assert Val(c[..1]) == c[0] by { ValStep(c, 0); }
    assert Val(b[..1]) == b[0] by { ValStep(b, 0); }
    assert Val(n[..1]) == n[0] by { ValStep(n, 0); }
  }

  lemma NextColumn(c: seq<Word32>, a: Word32, b: seq<Word32>, d: Word32, n: seq<Word32>, i: nat,
                   cs: seq<Word32>, A0: nat, B0: nat, A: nat, B: nat, digit: Word32)
    requires 1 <= i < |c| && i < |b| && i < |n| && |cs| == i - 1
    requires Columns(c, a, b, d, n, i) == 0x1_0000_0000 * Val(cs) + (A0 / 0x1_0000_0000 + B0 / 0x1_0000_0000) * Pow(i)
    requires A == A0 / 0x1_0000_0000 + a * b[i] + c[i]
    requires B == B0 / 0x1_0000_0000 + d * n[i] + A % 0x1_0000_0000
    requires digit == B % 0x1_0000_0000
    ensures Columns(c, a, b, d, n, i + 1)
      == 0x1_0000_0000 * Val(cs + [digit]) + (A / 0x1_0000_0000 + B / 0x1_0000_0000) * Pow(i + 1)
  {
    var p, p' := Pow(i), Pow(i - 1);
    ValStep(c, i);
    ValStep(b, i);
    ValStep(n, i);
    assert Val(cs + [digit]) == Val(cs) + digit * p' by { assert (cs + [digit])[..i - 1] == cs; }
    ColumnAlgebra(Val(c[..i]), Val(b[..i]), Val(n[..i]), Val(cs), a, d, c[i], b[i], n[i],
                  A0 / 0x1_0000_0000 + B0 / 0x1_0000_0000, A / 0x1_0000_0000 + B / 0x1_0000_0000, digit, p');
  }

  lemma ColumnAlgebra(vc: int, vb: int, vn: int, vs: int, a: int, d: int, c: int, b: int, n: int,
                      carry: int, carry': int, digit: int, p: int)
    requires vc + a * vb + d * vn == 0x1_0000_0000 * vs + carry * (0x1_0000_0000 * p)
    requires carry + a * b + d * n + c == 0x1_0000_0000 * carry' + digit
    ensures var q := 0x1_0000_0000 * p;
      (vc + c * q) + a * (vb + b * q) + d * (vn + n * q) == 0x1_0000_0000 * (vs + digit * p) + carry' * (0x1_0000_0000 * q)
  {
    var q := 0x1_0000_0000 * p;
    assert a * (vb + b * q) == a * vb + (a * b) * q;
    assert d * (vn + n * q) == d * vn + (d * n) * q;
    assert (carry + a * b + d * n + c) * q == (0x1_0000_0000 * carry' + digit) * q;
    assert (0x1_0000_0000 * carry' + digit) * q == carry' * (0x1_0000_0000 * q) + 0x1_0000_0000 * (digit * p);
    assert (carry + a * b + d * n + c) * q == carry * q + (a * b) * q + (d * n) * q + c * q;
  }

  /** After the last column: the array and its lost carry bit hold the whole sum over the base. */
  lemma Total(key: RsaPublicKey, c: seq<Word32>, a: Word32, b: seq<Word32>, d: Word32, cs: seq<Word32>, carry: nat, whole: seq<Word32>)
    returns (t: nat)
    requires key.Sized() && |c| == |b| == key.len && |cs| == key.len - 1
    requires whole == cs + [carry % 0x1_0000_0000]
    requires Columns(c, a, b, d, key.n[..key.len], key.len) == 0x1_0000_0000 * Val(cs) + carry * Pow(key.len)
    ensures SumIs(Val(c), a, Val(b), d, key.N(), t) && Carries(t, Val(whole), carry / 0x1_0000_0000, key.R())
  {
    hide Val;
    t := Val(whole) + carry / 0x1_0000_0000 * key.R();
    var k := key.len - 1;
    var p := Pow(k);
    assert c[..key.len] == c && b[..key.len] == b;
    assert key.n[..key.len][..key.len] == key.n[..key.len];
    assert whole[..k] == cs && whole[..k + 1] == whole;
    ValStep(whole, k);
    CarryAlgebra(carry, p);
  }

  lemma CarryAlgebra(carry: nat, p: int)
    ensures carry * (0x1_0000_0000 * p)
      == 0x1_0000_0000 * ((carry % 0x1_0000_0000) * p + carry / 0x1_0000_0000 * (0x1_0000_0000 * p))
  {
    var h, l := carry / 0x1_0000_0000, carry % 0x1_0000_0000;
    assert carry == 0x1_0000_0000 * h + l;
    assert (0x1_0000_0000 * h + l) * p == h * (0x1_0000_0000 * p) + l * p;
    assert carry * (0x1_0000_0000 * p) == 0x1_0000_0000 * (carry * p);
  }

  /** The digit computed from the lowest limbs is that of the whole numbers. */
  lemma DigitOfLimbs(key: RsaPublicKey, c: seq<Word32>, a: Word32, b: seq<Word32>)
    requires key.Sized() && |c| == |b| == key.len
    ensures (a * b[0] + c[0]) % 0x1_0000_0000 * key.n0inv % 0x1_0000_0000
      == Montgomery.ClearingDigit(key.n0inv, Val(c), a, Val(b))
  {
    hide Val;
    ValFront(c);
    ValFront(b);
    LowLimb(a, b[0], Val(b[1..]), c[0], Val(c[1..]));
  }

  lemma LowLimb(a: int, b: int, b': int, c: int, c': int)
    ensures ((c + 0x1_0000_0000 * c') + a * (b + 0x1_0000_0000 * b')) % 0x1_0000_0000 == (a * b + c) % 0x1_0000_0000
  {
    assert a * (b + 0x1_0000_0000 * b') == a * b + 0x1_0000_0000 * (a * b');
    AddMultiple(a * b + c, c' + a * b');
  }

  lemma AddMultiple(x: int, q: int)
    ensures (x + 0x1_0000_0000 * q) % 0x1_0000_0000 == x % 0x1_0000_0000
  {}

  lemma SumOfColumns(n: nat, u: nat, c: nat, a: nat, b: nat, d: nat, t: nat)
    requires d == Montgomery.ClearingDigit(u, c, a, b) && SumIs(c, a, b, d, n, t)
    ensures t == Montgomery.StepSum(n, u, c, a, b)
  {
    hide Montgomery.ClearingDigit;
  }

  /** The subtraction when a carry is lost cancels that carry exactly. */
  lemma Settled(n: nat, u: nat, R: nat, c: nat, a: nat, b: nat, t: nat, h: nat, x: nat, r: nat)
    requires n < R && b < R && x < R && t == Montgomery.StepSum(n, u, c, a, b) < b + n && Carries(t, x, h, R)
    requires r == if h == 0 then x else x - n + if x < n then R else 0
    ensures r == Montgomery.Step(n, u, R, c, a, b)
  {
    hide Montgomery.StepSum, Carries;
    OneCarry(t, h, x, R);
  }

  lemma OneCarry(t: nat, h: nat, x: nat, R: nat)
    requires Carries(t, x, h, R) && t < 2 * R && x < R
    ensures t == x + if h == 0 then 0 else R
  {
    if h >= 2 {
      Mono(2, h, R);
      assert false;
    }
  }

  /** c = a * b / R modulo the modulus, up to one surplus that keeps c below b + n. */
  method MontMul(key: RsaPublicKey, c: array<Word32>, a: array<Word32>, b: array<Word32>)
    requires key.Valid() && c.Length == a.Length == b.Length == key.len && c != a && c != b
    modifies c
    ensures Val(c[..]) == ProductOf(key, Val(a[..]), Val(b[..]))
    ensures Cong(Val(c[..]) * key.R(), Val(a[..]) * Val(b[..]), key.N())
    ensures Val(c[..]) < Val(b[..]) + key.N()
  {
    hide Val, Cong, Montgomery.Step, Montgomery.Product;
    for i := 0 to key.len
      invariant forall k :: 0 <= k < i ==> c[k] == 0
    {
      c[i] := 0;
    }
    ghost var a0, bs := a[..], b[..];
    ghost var n, u, R := key.N(), key.n0inv, key.R();
    assert Val(c[..]) == 0 by { ValZero(c[..]); }
    ModulusBelow(key);
    ModulusInverse(key);
    ValBound(bs);
    NoProduct(n, u, R, a0, Val(bs));
    for i := 0 to key.len
      invariant Val(c[..]) == Montgomery.Product(n, u, R, a0[..i], Val(bs))
    {
      Montgomery.ProductKeeps(n, u, R, a0[..i], Val(bs));
      MontMulAdd(key, c, a[i], b);
      NextProduct(n, u, R, a0, i, Val(bs));
    }
    assert a0[..key.len] == a0;
    LimbsOfVal(a0);
    Montgomery.ProductKeeps(n, u, R, a0, Val(bs));
  }

  lemma NoProduct(n: nat, u: nat, R: nat, a: seq<Word32>, b: nat)
    requires n <= R
    ensures Montgomery.Product(n, u, R, a[..0], b) == 0
  {}

  lemma NextProduct(n: nat, u: nat, R: nat, a: seq<Word32>, i: nat, b: nat)
    requires n <= R && i < |a|
    ensures Montgomery.Product(n, u, R, a[..i + 1], b)
      == Montgomery.Step(n, u, R, Montgomery.Product(n, u, R, a[..i], b), a[i], b)
  {
    assert a[..i + 1][..i] == a[..i];
  }

  /** What montMul computes from two numbers. */
  function ProductOf(key: RsaPublicKey, a: nat, b: nat): nat
    requires key.Sized()
  {
    ModulusBelow(key);
    Montgomery.Product(key.N(), key.n0inv, key.R(), LimbsOf(a, key.len), b)
  }

  lemma ProductOfKeeps(key: RsaPublicKey, a: nat, b: nat)
    requires key.Valid() && a < key.R() && b < key.R()
    ensures key.N() < key.R()
    ensures var r := ProductOf(key, a, b);
      Cong(r * key.R(), a * b, key.N()) && r < b + key.N() && r < key.R()
  {
    hide Val, Cong, Montgomery.Product;
    ModulusBelow(key);
    ModulusInverse(key);
    ValOfLimbs(a, key.len);
    Montgomery.ProductKeeps(key.N(), key.n0inv, key.R(), LimbsOf(a, key.len), b);
  }

  /** Three Montgomery products starting from R * R leave the cube, without any factor R. */
  lemma CubeCongruence(key: RsaPublicKey, a: nat, rr: nat, aR: nat, aaR: nat, aaa: nat)
    requires key.Valid() && rr == Val(key.rr[..key.len])
    requires Cong(aR * key.R(), a * rr, key.N())
    requires Cong(aaR * key.R(), aR * aR, key.N())
    requires Cong(aaa * key.R(), aaR * a, key.N())
    ensures Cong(aaa, Cube(a), key.N())
  {
    hide Cong, Val, Pow;
    var m, R := key.N(), key.R();
    Mod(R * R, m);
    Sym(R * R, rr, m);
    Scale(rr, R * R, a, m);
    assert a * rr == rr * a && (R * R) * a == (a * R) * R;
    Trans(aR * R, a * rr, (a * R) * R, m);
    CancelPow(key, aR, a * R, key.len);
    Mul(aR, a * R, aR, a * R, m);
    assert (a * R) * (a * R) == ((a * a) * R) * R;
    Trans(aaR * R, aR * aR, ((a * a) * R) * R, m);
    CancelPow(key, aaR, (a * a) * R, key.len);
    Scale(aaR, (a * a) * R, a, m);
    assert ((a * a) * R) * a == (a * a * a) * R;
    Trans(aaa * R, aaR * a, (a * a * a) * R, m);
    CancelPow(key, aaa, a * a * a, key.len);
  }

  /** What modpow3 computes from a number. */
  function CubedOf(key: RsaPublicKey, s: nat): nat
    requires key.Sized()
  {
    var aR := ProductOf(key, s, Val(key.rr[..key.len]));
    var aaR := ProductOf(key, aR, aR);
    var aaa := ProductOf(key, aaR, s);
    if aaa >= key.N() then aaa - key.N() else aaa
  }

  /** It is congruent to the cube for every input below R, and the residue itself when the input is
      below the modulus, or when the modulus is at least half of R. */
  lemma CubedOfIs(key: RsaPublicKey, s: nat)
    requires key.Valid() && s < key.R()
    ensures key.N() < key.R() && Cong(CubedOf(key, s), Cube(s), key.N())
    ensures s < key.N() || key.R() <= 2 * key.N() ==> CubedOf(key, s) == Cube(s) % key.N()
  {
    hide Val, Cong, Cube, Pow, ProductOf;
    var rr := Val(key.rr[..key.len]);
    ValBound(key.rr[..key.len]);
    ProductOfKeeps(key, s, rr);
    var aR := ProductOf(key, s, rr);
    ProductOfKeeps(key, aR, aR);
    var aaR := ProductOf(key, aR, aR);
    ProductOfKeeps(key, aaR, s);
    var aaa := ProductOf(key, aaR, s);
    CubeCongruence(key, s, rr, aR, aaR, aaa);
    Reduce(key.N(), key.R(), s, aaa, CubedOf(key, s));
  }

  /** For a key of one limb and an input at or above its modulus the result is not the residue. */
  lemma OutOfRangeExample()
    ensures var key := RsaPublicKey(1, 2690237953, [859162111], [558675284]);
      var s := 3517157369;
      && key.Valid() && key.N() <= s < key.R() && 2 * key.N() < key.R()
      && CubedOf(key, s) == 889074991 == Cube(s) % key.N() + key.N()
  {
    var key := RsaPublicKey(1, 2690237953, [859162111], [558675284]);
    hide Val, Cube, ProductOf;
    ExampleKey(key);
    ExampleProducts(key);
    ExampleCube();
  }

  lemma ExampleKey(key: RsaPublicKey)
    requires key == RsaPublicKey(1, 2690237953, [859162111], [558675284])
    ensures key.Valid() && key.N() == 859162111 && key.R() == 0x1_0000_0000 && Val(key.rr[..1]) == 558675284
  {
    OneLimb(859162111);
    OneLimb(558675284);
    assert key.n[..1] == key.n && key.rr[..1] == key.rr && Pow(0) == 1;
  }

  lemma ExampleProducts(key: RsaPublicKey)
    requires key == RsaPublicKey(1, 2690237953, [859162111], [558675284])
    requires key.Sized() && key.N() == 859162111 && key.R() == 0x1_0000_0000
    ensures ProductOf(key, 3517157369, 558675284) == 1114424645
    ensures ProductOf(key, 1114424645, 1114424645) == 1089521807
    ensures ProductOf(key, 1089521807, 3517157369) == 1748237102
  {
    hide ProductOf, Montgomery.Step, Val;
    OneStep(key, 859162111, 3517157369, 558675284);
    StepIs(859162111, 2690237953, 3517157369, 558675284, 457500315, 1164069556, 729138054, 3283976884, 1114424645);
    OneStep(key, 859162111, 1114424645, 1114424645);
    StepIs(859162111, 2690237953, 1114424645, 1114424645, 289162222, 2654684313, 1662814172, 4001012377, 1089521807);
    OneStep(key, 859162111, 1089521807, 3517157369);
    StepIs(859162111, 2690237953, 1089521807, 3517157369, 892211602, 474477591, 297198449, 4279287319, 1748237102);
  }

  lemma ExampleCube()
    ensures Cube(3517157369) % 859162111 == 29912880
  {}

  lemma StepIs(n: nat, u: nat, a: nat, b: nat, q1: nat, low: nat, q2: nat, d: nat, t: nat)
    requires n <= 0x1_0000_0000 && a * b == 0x1_0000_0000 * q1 + low && low < 0x1_0000_0000
    requires low * u == 0x1_0000_0000 * q2 + d && d < 0x1_0000_0000
    requires a * b + d * n == 0x1_0000_0000 * t && t < 0x1_0000_0000
    ensures Montgomery.Step(n, u, 0x1_0000_0000, 0, a, b) == t
  {
    Remains(a * b, q1, low);
    Remains(low * u, q2, d);
  }

  lemma Remains(x: nat, q: nat, r: nat)
    requires x == 0x1_0000_0000 * q + r && r < 0x1_0000_0000
    ensures x % 0x1_0000_0000 == r
  {}

  lemma OneLimb(x: Word32)
    ensures Val([x]) == x && LimbsOf(x, 1) == [x]
  {
    assert [x][..0] == [] && Pow(0) == 1;
    assert LimbsOf(x / 0x1_0000_0000, 0) == [];
  }

  lemma OneStep(key: RsaPublicKey, n: nat, a: Word32, b: nat)
    requires key.Sized() && key.len == 1 && key.N() == n < key.R() == 0x1_0000_0000
    ensures ProductOf(key, a, b) == Montgomery.Step(n, key.n0inv, 0x1_0000_0000, 0, a, b)
  {
    hide Montgomery.Step, Val;
    OneLimb(a);
    assert LimbsOf(a, key.len) == [a];
    assert [a][..|[a]| - 1] == [];
    assert Montgomery.Product(n, key.n0inv, 0x1_0000_0000, [], b) == 0;
  }

  /** In-place cubing modulo the modulus of a big-endian byte array. */
  method ModPow3(key: RsaPublicKey, inout: array<Byte>)
    requires key.Valid() && inout.Length == 4 * key.len
    modifies inout
    ensures BigEndian(inout[..]) == CubedOf(key, BigEndian(old(inout[..])))
    ensures Cong(BigEndian(inout[..]), Cube(BigEndian(old(inout[..]))), key.N())
    ensures BigEndian(old(inout[..])) < key.N() || key.R() <= 2 * key.N()
      ==> BigEndian(inout[..]) == Cube(BigEndian(old(inout[..]))) % key.N()
  {
    hide Val, BigEndian, Cong, Cube, Pow, ProductOf;
    ghost var s := BigEndian(inout[..]);
    var a := new Word32[key.len];
    var aR := new Word32[key.len];
    var aaR := new Word32[key.len];
    var aaa := aR;  // re-used storage
    FromBytes(a, inout);
    var rr := new Word32[key.len](i requires 0 <= i < key.len => key.rr[i]);
    assert rr[..] == key.rr[..key.len];

    MontMul(key, aR, a, rr);
    MontMul(key, aaR, aR, aR);
    MontMul(key, aaa, aaR, a);
    ValBound(a[..]);
    CubedOfIs(key, s);

    var big := GeM(key, aaa);
    if big {
      SubM(key, aaa);
    }
    ToBytes(aaa, inout);
  }

  /** Converts from a big-endian byte array to a little-endian word array. */
  method FromBytes(a: array<Word32>, inout: array<Byte>)
    requires inout.Length == 4 * a.Length
    modifies a
    ensures Val(a[..]) == BigEndian(inout[..])
  {
    hide Val, BigEndian;
    for i := 0 to a.Length
      invariant forall j :: 0 <= j < i ==> a[j] == WordAt(inout[..], 4 * (a.Length - 1 - j))
    {
      var k := (a.Length - 1 - i) * 4;
      a[i] := Quad(inout[k], inout[k + 1], inout[k + 2], inout[k + 3]);
    }
    LoadedValue(a[..], inout[..]);
  }

  /** Converts back to a big-endian byte array. */
  method ToBytes(a: array<Word32>, inout: array<Byte>)
    requires inout.Length == 4 * a.Length
    modifies inout
    ensures BigEndian(inout[..]) == Val(a[..])
  {
    hide Val, BigEndian, Quad;
    var p := 0;
    var i := a.Length - 1;
    while i >= 0
      invariant -1 <= i < a.Length && p == 4 * (a.Length - 1 - i)
      invariant forall j :: i < j < a.Length ==> a[j] == WordAt(inout[..], 4 * (a.Length - 1 - j))
    {
      var tmp := a[i];
      ghost var before := inout[..];
      inout[p] := (tmp / 0x100_0000) % 0x100;
      inout[p + 1] := (tmp / 0x1_0000) % 0x100;
      inout[p + 2] := (tmp / 0x100) % 0x100;
      inout[p + 3] := tmp % 0x100;
      QuadSplit(tmp);
      forall j | i < j < a.Length
        ensures a[j] == WordAt(inout[..], 4 * (a.Length - 1 - j))
      {
        assert a[j] == WordAt(before, 4 * (a.Length - 1 - j));
      }
      assert a[i] == WordAt(inout[..], p);
      p := p + 4;
      i := i - 1;
    }
    LoadedValue(a[..], inout[..]);
  }

  lemma QuadSplit(w: Word32)
    ensures w == Quad((w / 0x100_0000) % 0x100, (w / 0x1_0000) % 0x100, (w / 0x100) % 0x100, w % 0x100)
  {
    TwoBytes(w);
    ThreeBytes(w);
    var c := w / 0x100;
    var b := c / 0x100;
    var a := b / 0x100;
    OneByte(a);
    FourBytes(w, a, b, c, b % 0x100, c % 0x100, w % 0x100);
  }

  lemma OneByte(a: nat)
    requires a < 0x100
    ensures a % 0x100 == a
  {}

  lemma FourBytes(w: nat, a: nat, b: nat, c: nat, b1: nat, b2: nat, b3: nat)
    requires w == 0x100 * c + b3 && c == 0x100 * b + b2 && b == 0x100 * a + b1
    ensures w == Quad(a, b1, b2, b3)
  {}

  lemma TwoBytes(w: nat)
    ensures w / 0x1_0000 == (w / 0x100) / 0x100
  {}

  lemma ThreeBytes(w: nat)
    ensures w / 0x100_0000 == (w / 0x1_0000) / 0x100
  {}

  function Cube(x: nat): nat { x * x * x }

  lemma Reduce(m: nat, R: nat, s: nat, x: nat, r: nat)
    requires m > 0 && x < s + m && x < R
    requires Cong(x, Cube(s), m)
    requires r == if x >= m then x - m else x
    ensures Cong(r, Cube(s), m)
    ensures s < m || R <= 2 * m ==> r == Cube(s) % m
  {
    if x >= m {
      assert Diff(r, x, -1, m);
      Trans(r, x, Cube(s), m);
    }
    if s < m || R <= 2 * m {
      IsMod(r, Cube(s), m);
    }
  }

  /** The expected bytes before the digest: the source's 236-byte table, whose middle is 218 times 0xff. */
  const PADDING: seq<Byte> :=
    [0x00, 0x01] + seq(218, _ => 0xff)
    + [0x00, 0x30, 0x21, 0x30, 0x09, 0x06, 0x05, 0x2b, 0x0e, 0x03, 0x02, 0x1a, 0x05, 0x00, 0x04, 0x14]

  /** The DER prefix of a SHA-1 DigestInfo with explicit NULL parameters (section 9.2 note 1 of RFC 8017). */
  const DIGEST_INFO: seq<Byte> :=
    [0x30, 0x21, 0x30, 0x09, 0x06, 0x05, 0x2b, 0x0e, 0x03, 0x02, 0x1a, 0x05, 0x00, 0x04, 0x14]

  /** EMSA-PKCS1-v1_5 of section 9.2 of RFC 8017, for a digest already computed. */
  function Emsa(digest: seq<Byte>, emLen: nat): seq<Byte>
    requires emLen >= |DIGEST_INFO| + |digest| + 11
  {
    var t := DIGEST_INFO + digest;
    [0x00, 0x01] + seq(emLen - |t| - 3, _ => 0xff) + [0x00] + t
  }

  /** The table is exactly what EMSA-PKCS1-v1_5 puts before a SHA-1 digest in 256 bytes. */
  lemma PaddingIsEmsa(digest: seq<Byte>)
    requires |digest| == SHA_DIGEST_SIZE
    ensures Emsa(digest, RSANUMBYTES) == PADDING + digest
  {
    assert |PADDING| == RSANUMBYTES - SHA_DIGEST_SIZE;
  }

  /** What RSA_verify accepts. */
  predicate Accepts(key: RsaPublicKey, signature: seq<Byte>, sha: seq<Byte>)
    requires key.len == RSANUMWORDS ==> key.Sized()
    requires |sha| == SHA_DIGEST_SIZE
  {
    && key.len == RSANUMWORDS && |signature| == RSANUMBYTES
    && CubedOf(key, BigEndian(signature)) == BigEndian(Emsa(sha, RSANUMBYTES))
  }

  /** RSASSA-PKCS1-v1_5 of section 8.2.2 of RFC 8017 with exponent 3, for a digest already computed and a
      modulus of 256 octets: RSAVP1 rejects a representative that is not below the modulus. */
  predicate RfcAccepts(key: RsaPublicKey, signature: seq<Byte>, sha: seq<Byte>)
    requires key.Sized() && key.N() > 0 && |sha| == SHA_DIGEST_SIZE
  {
    && |signature| == RSANUMBYTES && BigEndian(signature) < key.N()
    && Cube(BigEndian(signature)) % key.N() == BigEndian(Emsa(sha, RSANUMBYTES))
  }

  /** Checks a PKCS#1 v1.5 signature against an expected SHA-1 digest: 1 on success, 0 on failure. */
  method RSA_verify(key: RsaPublicKey, signature: seq<Byte>, sha: seq<Byte>) returns (r: int)
    requires key.len == RSANUMWORDS ==> key.Valid()
    requires |sha| == SHA_DIGEST_SIZE
    ensures r == if Accepts(key, signature, sha) then 1 else 0
    ensures r == 1 ==>
      && key.len == RSANUMWORDS && |signature| == RSANUMBYTES
      && Cong(BigEndian(Emsa(sha, RSANUMBYTES)), Cube(BigEndian(signature)), key.N())
    ensures key.len == RSANUMWORDS && (BigEndian(signature) < key.N() || key.R() <= 2 * key.N()) ==>
      (r == 1 <==>
        && |signature| == RSANUMBYTES
        && Cube(BigEndian(signature)) % key.N() == BigEndian(Emsa(sha, RSANUMBYTES)))
  {
    hide BigEndian, CubedOf, Cube, Cong, Val, Emsa, RsaPublicKey.N, RsaPublicKey.R;
    var len := |signature|;
    if key.len != RSANUMWORDS {
      return 0;  // wrong key passed in
    }
    if len != RSANUMBYTES {
      return 0;  // wrong input length
    }
    var buf := new Byte[RSANUMBYTES];
    for i := 0 to len
      invariant buf[..i] == signature[..i]
    {
      buf[i] := signature[i];
    }
    assert buf[..] == signature;
    ModPow3(key, buf);
    PaddingIsEmsa(sha);
    var same := Matches(buf, sha);
    if !same {
      Differ(buf[..], PADDING + sha);
      return 0;
    }
    return 1;
  }

  /** For every signature below the modulus RSA_verify decides as RFC 8017 does. */
  lemma AgreesInRange(key: RsaPublicKey, signature: seq<Byte>, sha: seq<Byte>)
    requires key.len == RSANUMWORDS && key.Valid() && |sha| == SHA_DIGEST_SIZE && BigEndian(signature) < key.N()
    ensures Accepts(key, signature, sha) <==> RfcAccepts(key, signature, sha)
  {
    hide BigEndian, CubedOf, Cube, Cong, Val, Emsa, Pow;
    ModulusBelow(key);
    CubedOfIs(key, BigEndian(signature));
  }

  /** With a modulus of at least half of R the two differ exactly on the signatures that are out of range
      and have the encoding as their cube. */
  lemma DiffersOutOfRange(key: RsaPublicKey, signature: seq<Byte>, sha: seq<Byte>)
    requires key.len == RSANUMWORDS && key.Valid() && |sha| == SHA_DIGEST_SIZE && key.R() <= 2 * key.N()
    ensures Accepts(key, signature, sha) != RfcAccepts(key, signature, sha)
      <==> |signature| == RSANUMBYTES && BigEndian(signature) >= key.N()
           && Cube(BigEndian(signature)) % key.N() == BigEndian(Emsa(sha, RSANUMBYTES))
  {
    hide BigEndian, CubedOf, Cube, Cong, Val, Emsa, Pow;
    if |signature| == RSANUMBYTES {
      BigEndianBound(signature, RSANUMWORDS);
      CubedOfIs(key, BigEndian(signature));
    }
  }

  /** I2OSP of section 4.1 of RFC 8017, for lengths of k words. */
  function Octets(x: nat, k: nat): (s: seq<Byte>)
    ensures |s| == 4 * k
  {
    if k == 0 then [] else
      var w := x % 0x1_0000_0000;
      Octets(x / 0x1_0000_0000, k - 1) + [(w / 0x100_0000) % 0x100, (w / 0x1_0000) % 0x100, (w / 0x100) % 0x100, w % 0x100]
  }

  lemma {:induction false} OctetsBack(x: nat, k: nat)
    requires x < Pow(k)
    ensures BigEndian(Octets(x, k)) == x
  {
    hide BigEndian, Quad;
    var s := Octets(x, k);
    if k == 0 {
      NoBytes(s);
    } else {
      OctetsBack(x / 0x1_0000_0000, k - 1);
      BigEndianQuad(s);
      assert s[..4 * (k - 1)] == Octets(x / 0x1_0000_0000, k - 1);
      QuadSplit(x % 0x1_0000_0000);
    }
  }

  /** Such a signature exists beside every accepted one that has room for it: the same number plus the
      modulus is accepted too. */
  lemma AcceptsShifted(key: RsaPublicKey, signature: seq<Byte>, sha: seq<Byte>)
    requires key.len == RSANUMWORDS && key.Valid() && |sha| == SHA_DIGEST_SIZE && key.R() <= 2 * key.N()
    requires Accepts(key, signature, sha) && BigEndian(signature) + key.N() < key.R()
    ensures var shifted := Octets(BigEndian(signature) + key.N(), RSANUMWORDS);
      Accepts(key, shifted, sha) && !RfcAccepts(key, shifted, sha)
  {
    hide BigEndian, CubedOf, Cube, Cong, Val, Emsa, Pow, Octets;
    var s, n := BigEndian(signature), key.N();
    OctetsBack(s + n, RSANUMWORDS);
    CubedOfIs(key, s);
    CubedOfIs(key, s + n);
    CubeShifted(s, n);
  }

  lemma CubeShifted(s: nat, n: nat)
    requires n > 0
    ensures Cube(s + n) % n == Cube(s) % n
  {
    hide Cong;
    Montgomery.Differs(s + n, s, 1, n);
    Mul(s + n, s, s + n, s, n);
    Mul((s + n) * (s + n), s * s, s + n, s, n);
    Mod(Cube(s), n);
    Trans(Cube(s + n), Cube(s), Cube(s) % n, n);
    Sym(Cube(s + n), Cube(s) % n, n);
    IsMod(Cube(s) % n, Cube(s + n), n);
  }

  /** The two comparison loops at the end of RSA_verify: padding bytes, then digest. */
  method Matches(buf: array<Byte>, sha: seq<Byte>) returns (same: bool)
    requires buf.Length == RSANUMBYTES && |sha| == SHA_DIGEST_SIZE
    ensures same <==> buf[..] == PADDING + sha
  {
    ghost var em := PADDING + sha;
    assert |PADDING| == RSANUMBYTES - SHA_DIGEST_SIZE;
    var i := 0;
    while i < |PADDING|
      invariant 0 <= i <= |PADDING|
      invariant forall k :: 0 <= k < i ==> buf[k] == em[k]
    {
      if buf[i] != PADDING[i] {
        assert buf[..][i] != em[i];
        return false;
      }
      i := i + 1;
    }
    while i < buf.Length
      invariant |PADDING| <= i <= buf.Length
      invariant forall k :: 0 <= k < i ==> buf[k] == em[k]
    {
      if buf[i] != sha[i - |PADDING|] {
        assert buf[..][i] != em[i];
        return false;
      }
      i := i + 1;
    }
    return true;
  }

  lemma Differ(s: seq<Byte>, t: seq<Byte>)
    requires |s| == |t| && s != t
    ensures BigEndian(s) != BigEndian(t)
  {
    if BigEndian(s) == BigEndian(t) {
      BigEndianInjective(s, t);
      assert false;
    }
  }
}
