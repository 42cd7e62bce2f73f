/** DES at bit level, as FIPS 46-3 describes it, with the salt of crypt(3). */
module Fips46 {
  import opened WordBits
  import opened DesTables
  import opened Feistel

  function Initial(b: BitString): (r: BitString)
    requires |b| == 64
    ensures |r| == 64
  {
    seq(64, i requires 0 <= i < 64 => b[IP(i) - 1])
  }

  function Final(b: BitString): (r: BitString)
    requires |b| == 64
    ensures |r| == 64
  {
    seq(64, i requires 0 <= i < 64 => b[FP(i) - 1])
  }

  function Expand(r: BitString): (e: BitString)
    requires |r| == 32
    ensures |e| == 48
  {
    seq(48, i requires 0 <= i < 48 => r[E(i) - 1])
  }

  /** If bit i of the salt is set, bits i and i + 24 of the E output change places. */
  function SaltSwap(e: BitString, salt: BitString): (r: BitString)
    requires |e| == 48 && |salt| == 24
    ensures |r| == 48
  {
    seq(48, i requires 0 <= i < 48 => if salt[i % 24] then e[(i + 24) % 48] else e[i])
  }

  /** row * 16 + column, the row from the outer bits and the column from the inner four. */
  function RowColumn(b0: bool, b1: bool, b2: bool, b3: bool, b4: bool, b5: bool): bv8 {
    (if b0 then 0x20 else 0) | (if b5 then 0x10 else 0)
    | (if b1 then 8 else 0) | (if b2 then 4 else 0) | (if b3 then 2 else 0) | (if b4 then 1 else 0)
  }

  function NibbleBit(v: bv4, i: nat): bool {
    if i == 0 then v & 8 != 0 else if i == 1 then v & 4 != 0 else if i == 2 then v & 2 != 0 else v & 1 != 0
  }

  /** The output of box n for its six input bits, as a number. */
  function BoxValue(x: BitString, n: nat): bv4
    requires |x| == 48 && n < 8
  {
    Sbox(n, RowColumn(x[6 * n], x[6 * n + 1], x[6 * n + 2], x[6 * n + 3], x[6 * n + 4], x[6 * n + 5]))
  }

  function Substitute(x: BitString): (r: BitString)
    requires |x| == 48
    ensures |r| == 32
  {
    seq(32, i requires 0 <= i < 32 => NibbleBit(BoxValue(x, i / 4), i % 4))
  }

  function Permute(x: BitString): (r: BitString)
    requires |x| == 32
    ensures |r| == 32
  {
    seq(32, i requires 0 <= i < 32 => x[P(i) - 1])
  }

  /** The cipher function f(R, K), with salt; K and salt travel together as the round key. */
  datatype RoundKey = RoundKey(k: BitString, salt: BitString)

  function F(r: BitString, key: RoundKey): BitString {
    if |r| == 32 && |key.k| == 48 && |key.salt| == 24
    then Permute(Substitute(Xor(SaltSwap(Expand(r), key.salt), key.k)))
    else r
  }

  // ----- the key schedule

  function Choose1(key: BitString): (cd: BitString)
    requires |key| == 64
    ensures |cd| == 56
  {
    seq(56, i requires 0 <= i < 56 => key[PC1(i) - 1])
  }

  /** Both 28-bit halves rotated left by n. */
  function RotateHalves(cd: BitString, n: nat): (r: BitString)
    requires |cd| == 56
    ensures |r| == 56
  {
    seq(56, i requires 0 <= i < 56 => if i < 28 then cd[(i + n) % 28] else cd[28 + (i - 28 + n) % 28])
  }

  /** C and D after n rounds of shifts. */
  function Halves(key: BitString, n: nat): (cd: BitString)
    requires |key| == 64
    ensures |cd| == 56
  {
    if n == 0 then Choose1(key) else RotateHalves(Halves(key, n - 1), KeyShifts(n - 1))
  }

  function Choose2(cd: BitString): (k: BitString)
    requires |cd| == 56
    ensures |k| == 48
  {
    seq(48, i requires 0 <= i < 48 => cd[PC2(i) - 1])
  }

  /** The key of round n, counted from 0. */
  function Key(key: BitString, n: nat): (k: BitString)
    requires |key| == 64
    ensures |k| == 48
  {
    Choose2(Halves(key, n + 1))
  }

  function Schedule(key: BitString, salt: BitString): (s: seq<RoundKey>)
    requires |key| == 64
    ensures |s| == 16
  {
    seq(16, n requires 0 <= n < 16 => RoundKey(Key(key, n), salt))
  }

  // ----- the cipher

  function Join(p: (BitString, BitString)): BitString { p.0 + p.1 }

  function Halve(b: BitString): (BitString, BitString)
    requires |b| == 64
  {
    (b[..32], b[32..])
  }

  ghost predicate Halved(p: (BitString, BitString)) {
    |p.0| == 32 && |p.1| == 32
  }

  /** Sixteen rounds and the swap before the final permutation. */
  function Core(keys: seq<RoundKey>, p: (BitString, BitString)): (BitString, BitString) {
    Swap(Run(F, Xor, keys, p))
  }

  lemma {:induction false} RunHalved(keys: seq<RoundKey>, p: (BitString, BitString))
    requires Halved(p)
    ensures Halved(Run(F, Xor, keys, p))
  {
    if keys != [] {
      RunHalved(keys[1..], (p.1, Xor(p.0, F(p.1, keys[0]))));
    }
  }

  /** One DES encryption, or with the schedule reversed one decryption. */
  function Cipher(keys: seq<RoundKey>, b: BitString): (r: BitString)
    requires |b| == 64
    ensures |r| == 64
  {
    RunHalved(keys, Halve(Initial(b)));
    Final(Join(Core(keys, Halve(Initial(b)))))
  }

  /** n encryptions, one after the other. */
  function CipherN(keys: seq<RoundKey>, n: nat, b: BitString): (r: BitString)
    requires |b| == 64
    ensures |r| == 64
  {
    if n == 0 then b else CipherN(keys, n - 1, Cipher(keys, b))
  }

  function CoreN(keys: seq<RoundKey>, n: nat, p: (BitString, BitString)): (r: (BitString, BitString))
    requires Halved(p)
    ensures Halved(r)
  {
    if n == 0 then p else
      RunHalved(keys, p);
      CoreN(keys, n - 1, Core(keys, p))
  }

  /** n encryptions with one initial and one final permutation in all. */
  function Iterated(keys: seq<RoundKey>, n: nat, b: BitString): (r: BitString)
    requires |b| == 64
    ensures |r| == 64
  {
    Final(Join(CoreN(keys, n, Halve(Initial(b)))))
  }

  /** What do_des computes for a count other than 0: a negative count uses the reversed schedule. */
  function DoDes(key: BitString, salt: BitString, count: int, b: BitString): (r: BitString)
    requires |key| == 64 && |b| == 64
    ensures |r| == 64
  {
    if count > 0 then Iterated(Schedule(key, salt), count, b)
    else Iterated(Reverse(Schedule(key, salt)), -count, b)
  }

  // ----- the permutations cancel

  lemma FinalInitial(b: BitString)
    requires |b| == 64
    ensures Final(Initial(b)) == b
  {
    forall i | 0 <= i < 64
      ensures Final(Initial(b))[i] == b[i]
    {
      FpThenIp(i);
    }
  }

  lemma InitialFinal(b: BitString)
    requires |b| == 64
    ensures Initial(Final(b)) == b
  {
    forall i | 0 <= i < 64
      ensures Initial(Final(b))[i] == b[i]
    {
      IpThenFp(i);
    }
  }

  lemma HalveJoin(p: (BitString, BitString))
    requires Halved(p)
    ensures |Join(p)| == 64 && Halve(Join(p)) == p
  {}

  lemma JoinHalve(b: BitString)
    requires |b| == 64
    ensures Join(Halve(b)) == b && Halved(Halve(b))
  {}

  /** Leaving out FP and IP between iterations is sound. */
  lemma {:induction false} SkipPermutations(keys: seq<RoundKey>, n: nat, b: BitString)
    requires |b| == 64
    ensures Iterated(keys, n, b) == CipherN(keys, n, b)
  {
    hide Initial, Final, Core, Halve, Join;
    var p := Halve(Initial(b));
    JoinHalve(Initial(b));
    if n == 0 {
      FinalInitial(b);
    } else {
      CoreHalved(keys, p);
      var q := Core(keys, p);
      HalveJoin(q);
      InitialFinal(Join(q));
      SkipPermutations(keys, n - 1, Cipher(keys, b));
    }
  }

  lemma CoreHalved(keys: seq<RoundKey>, p: (BitString, BitString))
    requires Halved(p)
    ensures Halved(Core(keys, p))
  {
    RunHalved(keys, p);
  }

  /** Counts add. */
  lemma {:induction false} CipherNAdd(keys: seq<RoundKey>, m: nat, n: nat, b: BitString)
    requires |b| == 64
    ensures CipherN(keys, m + n, b) == CipherN(keys, n, CipherN(keys, m, b))
  {
    if m > 0 {
      hide Cipher;
      CipherNAdd(keys, m - 1, n, Cipher(keys, b));
    }
  }

  // ----- decryption

  lemma XorCancels()
    ensures forall a: BitString, b: BitString :: Xor(Xor(a, b), b) == a
  {
    forall a: BitString, b: BitString
      ensures Xor(Xor(a, b), b) == a
    {
      XorTwice(a, b);
    }
  }

  lemma ReverseTwice<K>(s: seq<K>)
    ensures Reverse(Reverse(s)) == s
  {}

  lemma CoreUndo(keys: seq<RoundKey>, p: (BitString, BitString))
    ensures Core(Reverse(keys), Core(keys, p)) == p
  {
    hide Xor, F;
    XorCancels();
    Invert(F, Xor, keys, p);
  }

  /** One decryption undoes one encryption, for any key schedule and any salt in it. */
  lemma CipherUndo(keys: seq<RoundKey>, b: BitString)
    requires |b| == 64
    ensures Cipher(Reverse(keys), Cipher(keys, b)) == b
  {
    hide Initial, Final, Core, Halve, Join, Reverse;
    var p := Halve(Initial(b));
    JoinHalve(Initial(b));
    CoreHalved(keys, p);
    HalveJoin(Core(keys, p));
    InitialFinal(Join(Core(keys, p)));
    CoreUndo(keys, p);
    FinalInitial(b);
  }

  lemma {:induction false} CipherNUndo(keys: seq<RoundKey>, n: nat, b: BitString)
    requires |b| == 64
    ensures CipherN(Reverse(keys), n, CipherN(keys, n, b)) == b
  {
    if n > 0 {
      hide Cipher, Reverse;
      var c := Cipher(keys, b);
      CipherNUndo(keys, n - 1, c);
      CipherNAdd(Reverse(keys), n - 1, 1, CipherN(keys, n - 1, c));
      CipherUndo(keys, b);
      OneCipher(Reverse(keys), c);
    }
  }

  lemma OneCipher(keys: seq<RoundKey>, b: BitString)
    requires |b| == 64
    ensures CipherN(keys, 1, b) == Cipher(keys, b)
  {
    hide Cipher;
    assert CipherN(keys, 0, Cipher(keys, b)) == Cipher(keys, b);
  }

  /** do_des with the negated count undoes do_des, for every key, salt, block and count but 0. */
  lemma DoDesUndo(key: BitString, salt: BitString, count: int, b: BitString)
    requires |key| == 64 && |b| == 64 && count != 0
    ensures DoDes(key, salt, -count, DoDes(key, salt, count, b)) == b
  {
    hide Iterated, CipherN, Reverse, Schedule;
    var s := Schedule(key, salt);
    var n := if count > 0 then count else -count;
    var keys := if count > 0 then s else Reverse(s);
    SkipPermutations(keys, n, b);
    SkipPermutations(Reverse(keys), n, CipherN(keys, n, b));
    CipherNUndo(keys, n, b);
    ReverseTwice(s);
  }

  /** Counts of the same sign add. */
  lemma DoDesAdd(key: BitString, salt: BitString, m: int, n: int, b: BitString)
    requires |key| == 64 && |b| == 64 && ((m > 0 && n > 0) || (m < 0 && n < 0))
    ensures DoDes(key, salt, m + n, b) == DoDes(key, salt, n, DoDes(key, salt, m, b))
  {
    hide Iterated, CipherN, Reverse, Schedule;
    var s := Schedule(key, salt);
    var keys := if m > 0 then s else Reverse(s);
    var m', n' := if m > 0 then m else -m, if n > 0 then n else -n;
    SkipPermutations(keys, m' + n', b);
    SkipPermutations(keys, m', b);
    SkipPermutations(keys, n', CipherN(keys, m', b));
    CipherNAdd(keys, m', n', b);
  }
}
