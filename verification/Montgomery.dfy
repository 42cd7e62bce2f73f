/** Montgomery multiplication on numbers: exactly what the limb code computes, and what that means. */
module Montgomery {
  import opened Bytes
  import opened Limbs
  import opened Congruence

  /** The digit that clears the lowest limb of c + a * b, when u is minus the inverse of the modulus. */
  function ClearingDigit(u: nat, c: nat, a: nat, b: nat): (d: Word32) {
    ((c + a * b) % 0x1_0000_0000 * u) % 0x1_0000_0000
  }

  /** The sum of one step, divided by 2^32, before any subtraction. */
  function StepSum(n: nat, u: nat, c: nat, a: nat, b: nat): nat {
    (c + a * b + ClearingDigit(u, c, a, b) * n) / 0x1_0000_0000
  }

  /** One step: the modulus is subtracted only when the sum does not fit below R. */
  function Step(n: nat, u: nat, R: nat, c: nat, a: nat, b: nat): nat
    requires n <= R
  {
    var t := StepSum(n, u, c, a, b);
    if t < R then t else t - n
  }

  /** A step for each limb of a, lowest first. */
  function Product(n: nat, u: nat, R: nat, a: seq<Word32>, b: nat): nat
    requires n <= R
  {
    if a == [] then 0 else Step(n, u, R, Product(n, u, R, a[..|a| - 1], b), a[|a| - 1], b)
  }

  /** n * u is one less than a multiple of 2^32. */
  ghost predicate Inverse(n: nat, u: nat) {
    exists v: int :: InverseBy(n, u, v)
  }

  ghost predicate InverseBy(n: nat, u: nat, v: int) {
    n * u + 1 == 0x1_0000_0000 * v
  }

  /** The digit makes the sum a multiple of 2^32. */
  lemma StepDivides(n: nat, u: nat, c: nat, a: nat, b: nat)
    requires Inverse(n, u)
    ensures 0x1_0000_0000 * StepSum(n, u, c, a, b) == c + a * b + ClearingDigit(u, c, a, b) * n
  {
    var v :| InverseBy(n, u, v);
    Divisible(c + a * b, u, n, v);
  }

  lemma Divisible(x: nat, u: nat, n: nat, v: int)
    requires InverseBy(n, u, v)
    ensures (x + (x % 0x1_0000_0000 * u) % 0x1_0000_0000 * n) % 0x1_0000_0000 == 0
  {
    var low := x % 0x1_0000_0000;
    var q1, q2 := x / 0x1_0000_0000, (low * u) / 0x1_0000_0000;
    var d := (low * u) % 0x1_0000_0000;
    assert d == low * u - 0x1_0000_0000 * q2;
    ClearLow(low, u, n, q2);
    TimesInverse(low, v);
    IsMultiple(x + d * n, q1 + low * v - q2 * n);
  }

  lemma IsMultiple(x: nat, q: int)
    requires x == 0x1_0000_0000 * q
    ensures x % 0x1_0000_0000 == 0
  {}

  lemma ClearLow(low: int, u: int, n: int, q: int)
    ensures (low * u - 0x1_0000_0000 * q) * n == low * (n * u) - 0x1_0000_0000 * (q * n)
  {}

  lemma TimesInverse(low: int, v: int)
    ensures low * (0x1_0000_0000 * v - 1) == 0x1_0000_0000 * (low * v) - low
  {}

  /** A step divides by 2^32 modulo n, and keeps its result below b + n and below R. */
  lemma StepKeeps(n: nat, u: nat, R: nat, c: nat, a: Word32, b: nat)
    requires 0 < n < R && b < R && c < b + n && Inverse(n, u)
    ensures var r := Step(n, u, R, c, a, b);
      && Cong(r * 0x1_0000_0000, c + a * b, n) && r < b + n && r < R
    ensures StepSum(n, u, c, a, b) < b + n
  {
    hide Cong;
    StepDivides(n, u, c, a, b);
    StepBound(n, c, a, b, ClearingDigit(u, c, a, b), StepSum(n, u, c, a, b));
    StepCongruent(n, c, a, b, ClearingDigit(u, c, a, b), StepSum(n, u, c, a, b), R);
  }

  lemma StepBound(n: nat, c: nat, a: Word32, b: nat, d: Word32, t: nat)
    requires c < b + n && 0x1_0000_0000 * t == c + a * b + d * n
    ensures t < b + n
  {
    Mono(a, 0xFFFF_FFFF, b);
    Mono(d, 0xFFFF_FFFF, n);
  }

  lemma StepCongruent(n: nat, c: nat, a: nat, b: nat, d: nat, t: nat, R: nat)
    requires 0 < n < R && 0x1_0000_0000 * t == c + a * b + d * n
    ensures Cong((if t < R then t else t - n) * 0x1_0000_0000, c + a * b, n)
  {
    if t < R {
      Differs(t * 0x1_0000_0000, c + a * b, d, n);
    } else {
      assert (d - 0x1_0000_0000) * n == d * n - 0x1_0000_0000 * n;
      Differs((t - n) * 0x1_0000_0000, c + a * b, d - 0x1_0000_0000, n);
    }
  }

  lemma Differs(x: int, y: int, q: int, m: nat)
    requires m > 0 && x == y + q * m
    ensures Cong(x, y, m)
  {
    assert Diff(x, y, q, m);
  }

  /** The product of a and b over R, modulo n, below b + n. */
  lemma {:induction false} ProductKeeps(n: nat, u: nat, R: nat, a: seq<Word32>, b: nat)
    requires 0 < n < R && b < R && Inverse(n, u)
    ensures var r := Product(n, u, R, a, b);
      && Cong(r * Pow(|a|), Val(a) * b, n) && r < b + n && r < R
  {
    hide Cong, Step;
    if a == [] {
      Refl(0, n);
    } else {
      var k := |a| - 1;
      var c := Product(n, u, R, a[..k], b);
      ProductKeeps(n, u, R, a[..k], b);
      StepKeeps(n, u, R, c, a[k], b);
      NextFactor(n, c, Step(n, u, R, c, a[k], b), a[k], b, Val(a[..k]), Pow(k));
    }
  }

  lemma NextFactor(m: nat, c0: nat, c: nat, a: nat, b: nat, done: nat, p: nat)
    requires m > 0
    requires Cong(c0 * p, done * b, m)
    requires Cong(c * 0x1_0000_0000, c0 + a * b, m)
    ensures Cong(c * (0x1_0000_0000 * p), (done + a * p) * b, m)
  {
    hide Cong;
    Scale(c * 0x1_0000_0000, c0 + a * b, p, m);
    assert (c * 0x1_0000_0000) * p == c * (0x1_0000_0000 * p);
    assert (c0 + a * b) * p == c0 * p + (a * b) * p;
    Add(c0 * p, done * b, (a * b) * p, m);
    assert done * b + (a * b) * p == (done + a * p) * b;
    Trans(c * (0x1_0000_0000 * p), (c0 + a * b) * p, (done + a * p) * b, m);
  }
}
