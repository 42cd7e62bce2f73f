/** The MD5-based crypt(3) form: what __md5_crypt computes, and what its strings give back. */
module Md5CryptSpec {
  import opened Ascii64
  import opened Rfc1321

  const MAGIC: seq<bv8> := [0x24, 0x31, 0x24]  // "$1$"

  /** The salt after an optional magic prefix. */
  function SkipMagic(salt: CString): CString {
    if MAGIC <= salt then salt[3..] else salt
  }

  /** The length of the true salt: it stops at the first '$', at 8 characters or at the end. */
  function SaltLen(s: CString, i: nat): (n: nat)
    requires i <= |s| && i <= 8
    ensures i <= n <= |s| && n <= 8
    decreases 8 - i
  {
    if i == |s| || s[i] == DOLLAR || i == 8 then i else SaltLen(s, i + 1)
  }

  function TrueSalt(salt: CString): CString {
    var s := SkipMagic(salt);
    s[..SaltLen(s, 0)]
  }

  /** n bytes of a 16-byte digest, repeated. */
  function Cycle(digest: seq<bv8>, n: nat): seq<bv8>
    requires |digest| == 16
  {
    if n == 0 then [] else if n > 16 then digest + Cycle(digest, n - 16) else digest[..n]
  }

  /** One byte for each binary digit of i: NUL for a one, the first password byte for a zero. */
  function Digits(i: nat, pw: CString): seq<bv8>
    requires i > 0 ==> pw != []
  {
    if i == 0 then [] else [if i % 2 == 1 then 0 else pw[0]] + Digits(i / 2, pw)
  }

  /** The digest before the thousand rounds. */
  function FirstDigest(pw: CString, sp: CString): (digest: seq<bv8>)
    ensures |digest| == 16
  {
    Md5(pw + MAGIC + sp + Cycle(Md5(pw + sp + pw), |pw|) + Digits(|pw|, pw))
  }

  /** What round i hashes. */
  function RoundInput(i: nat, digest: seq<bv8>, pw: seq<bv8>, sp: seq<bv8>): seq<bv8> {
    (if i % 2 == 1 then pw else digest)
    + (if i % 3 != 0 then sp else [])
    + (if i % 7 != 0 then pw else [])
    + (if i % 2 == 1 then digest else pw)
  }

  /** The digest after n rounds with the bytes found at password and salt. */
  function Rounds(n: nat, first: seq<bv8>, pw: seq<bv8>, sp: seq<bv8>): (digest: seq<bv8>)
    requires |first| == 16
    ensures |digest| == 16
  {
    if n == 0 then first else Md5(RoundInput(n - 1, Rounds(n - 1, first, pw, sp), pw, sp))
  }

  /** The low six bits of a number, what is left of it, and how the two are put together again. */
  function Sextet(v: bv32): bv8 { (v & 0x3f) as bv8 }
  function Rest(v: bv32): bv32 { v >> 6 }
  function Join(c: bv8, v: bv32): bv32 { c as bv32 | (v << 6) }

  /** __md5_to64: n letters for n groups of six bits, lowest first. */
  function To64(v: bv32, n: nat): (s: seq<bv8>)
    ensures |s| == n
  {
    if n == 0 then [] else [Letter(Sextet(v))] + To64(Rest(v), n - 1)
  }

  function Group(x: bv8, y: bv8, z: bv8): bv32 {
    (x as bv32 << 16) | (y as bv32 << 8) | z as bv32
  }

  /** The 22 letters of a digest: bytes i, i + 6 and i + 12 for i below 5 with byte 5 in the
      place of byte 16, then byte 11. */
  function Encode(f: seq<bv8>): (s: seq<bv8>)
    requires |f| == 16
    ensures |s| == 22
  {
    To64(Group(f[0], f[6], f[12]), 4) + To64(Group(f[1], f[7], f[13]), 4) + To64(Group(f[2], f[8], f[14]), 4)
    + To64(Group(f[3], f[9], f[15]), 4) + To64(Group(f[4], f[10], f[5]), 4) + To64(f[11] as bv32, 2)
  }

  function Md5Crypt(pw: CString, salt: CString): seq<bv8> {
    var sp := TrueSalt(salt);
    MAGIC + sp + [DOLLAR] + Encode(Rounds(1000, FirstDigest(pw, sp), pw, sp))
  }

  // ----- nothing of the digest is lost

  function From64(s: seq<bv8>): bv32 {
    if s == [] then 0 else Join(AsciiToBin(s[0]), From64(s[1..]))
  }

  /** v needs at most n groups of six bits. */
  ghost predicate Fits(v: bv32, n: nat) {
    if n == 0 then v == 0 else Fits(Rest(v), n - 1)
  }

  lemma {:induction false} From64To64(v: bv32, n: nat)
    requires Fits(v, n)
    ensures From64(To64(v, n)) == v
  {
    if n > 0 {
      hide Letter, AsciiToBin, Sextet, Rest, Join;
      From64To64(Rest(v), n - 1);
      SextetRange(v);
      LetterRoundTrip(Sextet(v));
      assert To64(v, n)[1..] == To64(Rest(v), n - 1);
      Rejoin(v);
    }
  }

  lemma SextetRange(v: bv32)
    ensures Sextet(v) < 64
  {}

  lemma RawRejoin(v: bv32)
    ensures ((v & 0x3f) as bv8) as bv32 | ((v >> 6) << 6) == v
  {}

  lemma Rejoin(v: bv32)
    ensures Join(Sextet(v), Rest(v)) == v
  {
    RawRejoin(v);
  }

  function High(g: bv32): bv8 { ((g >> 16) & 0xff) as bv8 }
  function Mid(g: bv32): bv8 { ((g >> 8) & 0xff) as bv8 }
  function Low(g: bv32): bv8 { (g & 0xff) as bv8 }

  /** The inverse of Encode. */
  function Decode(s: seq<bv8>): seq<bv8>
    requires |s| == 22
  {
    Unshuffle(From64(s[0..4]), From64(s[4..8]), From64(s[8..12]), From64(s[12..16]), From64(s[16..20]), From64(s[20..22]))
  }

  function Unshuffle(g0: bv32, g1: bv32, g2: bv32, g3: bv32, g4: bv32, t: bv32): seq<bv8> {
    [High(g0), High(g1), High(g2), High(g3), High(g4), Low(g4)]
    + [Mid(g0), Mid(g1), Mid(g2), Mid(g3), Mid(g4), Low(t)]
    + [Low(g0), Low(g1), Low(g2), Low(g3)]
  }

  lemma RawParts(x: bv8, y: bv8, z: bv8)
    ensures (((((x as bv32 << 16) | (y as bv32 << 8) | z as bv32)) >> 16) & 0xff) as bv8 == x
    ensures (((((x as bv32 << 16) | (y as bv32 << 8) | z as bv32)) >> 8) & 0xff) as bv8 == y
    ensures ((((x as bv32 << 16) | (y as bv32 << 8) | z as bv32)) & 0xff) as bv8 == z
  {}

  lemma RawShort(x: bv8, y: bv8, z: bv8)
    ensures (((((x as bv32 << 16) | (y as bv32 << 8) | z as bv32) >> 6) >> 6) >> 6) >> 6 == 0
    ensures ((x as bv32) >> 6) >> 6 == 0 && ((x as bv32) & 0xff) as bv8 == x
  {}

  lemma Parts(x: bv8, y: bv8, z: bv8)
    ensures var g := Group(x, y, z); High(g) == x && Mid(g) == y && Low(g) == z
  {
    RawParts(x, y, z);
  }

  lemma Short(x: bv8, y: bv8, z: bv8)
    ensures Rest(Rest(Rest(Rest(Group(x, y, z))))) == 0
    ensures Rest(Rest(x as bv32)) == 0 && Low(x as bv32) == x
  {
    RawShort(x, y, z);
  }

  lemma FitsTwo(v: bv32)
    ensures Fits(v, 2) == (Rest(Rest(v)) == 0)
  {
    hide Rest;
    assert Fits(v, 2) == Fits(Rest(v), 1) && Fits(Rest(v), 1) == Fits(Rest(Rest(v)), 0);
  }

  lemma ShortFits(v: bv32)
    ensures Rest(Rest(Rest(Rest(v)))) == 0 ==> Fits(v, 4)
    ensures Rest(Rest(v)) == 0 ==> Fits(v, 2)
  {
    hide Rest;
    FitsTwo(Rest(Rest(v)));
    FitsTwo(v);
    assert Fits(v, 4) == Fits(Rest(v), 3) && Fits(Rest(v), 3) == Fits(Rest(Rest(v)), 2);
  }

  lemma ThreeBytes(x: bv8, y: bv8, z: bv8)
    ensures var g := From64(To64(Group(x, y, z), 4)); High(g) == x && Mid(g) == y && Low(g) == z
  {
    hide Fits, Group, High, Mid, Low, To64, From64, Rest;
    Parts(x, y, z);
    Short(x, y, z);
    ShortFits(Group(x, y, z));
    From64To64(Group(x, y, z), 4);
  }

  lemma LastByte(x: bv8)
    ensures Low(From64(To64(x as bv32, 2))) == x
  {
    hide Fits, Group, High, Mid, Low, To64, From64, Rest;
    Short(x, 0, 0);
    ShortFits(x as bv32);
    From64To64(x as bv32, 2);
  }

  lemma Slices(f: seq<bv8>)
    requires |f| == 16
    ensures var s := Encode(f);
      && s[0..4] == To64(Group(f[0], f[6], f[12]), 4)
      && s[4..8] == To64(Group(f[1], f[7], f[13]), 4)
      && s[8..12] == To64(Group(f[2], f[8], f[14]), 4)
      && s[12..16] == To64(Group(f[3], f[9], f[15]), 4)
      && s[16..20] == To64(Group(f[4], f[10], f[5]), 4)
      && s[20..22] == To64(f[11] as bv32, 2)
  {
    hide To64, Group;
  }

  /** The shuffle hits every byte once, so the 22 letters determine the 16 bytes. */
  lemma EncodeRoundTrip(f: seq<bv8>)
    requires |f| == 16
    ensures Decode(Encode(f)) == f
  {
    hide Group, High, Mid, Low, To64, From64, Encode;
    Slices(f);
    ThreeBytes(f[0], f[6], f[12]);
    ThreeBytes(f[1], f[7], f[13]);
    ThreeBytes(f[2], f[8], f[14]);
    ThreeBytes(f[3], f[9], f[15]);
    ThreeBytes(f[4], f[10], f[5]);
    LastByte(f[11]);
    Gather(f);
  }

  lemma Gather(f: seq<bv8>)
    requires |f| == 16
    ensures [f[0], f[1], f[2], f[3], f[4], f[5]] + [f[6], f[7], f[8], f[9], f[10], f[11]] + [f[12], f[13], f[14], f[15]] == f
  {}

  // ----- a hash carries its salt

  /** What SaltLen finds. */
  lemma {:induction false} SaltLenFinds(s: CString, i: nat)
    requires i <= |s| && i <= 8
    ensures var n := SaltLen(s, i);
      && (forall k :: i <= k < n ==> s[k] != DOLLAR)
      && (n == |s| || n == 8 || s[n] == DOLLAR)
    decreases 8 - i
  {
    if i < |s| && i < 8 && s[i] != DOLLAR {
      SaltLenFinds(s, i + 1);
    }
  }

  /** A short prefix without '$', followed by '$', is what SaltLen stops after. */
  lemma {:induction false} SaltLenIs(s: CString, n: nat, i: nat)
    requires i <= n < |s| && n <= 8 && s[n] == DOLLAR
    requires forall k :: i <= k < n ==> s[k] != DOLLAR
    ensures SaltLen(s, i) == n
    decreases n - i
  {
    if i < n {
      SaltLenIs(s, n, i + 1);
    }
  }

  lemma {:induction false} LettersOnly(v: bv32, n: nat)
    ensures 0 !in To64(v, n) && DOLLAR !in To64(v, n)
  {
    if n > 0 {
      hide Letter, Sextet;
      LettersOnly(Rest(v), n - 1);
      SextetRange(v);
      LetterRoundTrip(Sextet(v));
    }
  }

  lemma EncodeLetters(f: seq<bv8>)
    requires |f| == 16
    ensures 0 !in Encode(f)
  {
    hide To64, Group;
    LettersOnly(Group(f[0], f[6], f[12]), 4);
    LettersOnly(Group(f[1], f[7], f[13]), 4);
    LettersOnly(Group(f[2], f[8], f[14]), 4);
    LettersOnly(Group(f[3], f[9], f[15]), 4);
    LettersOnly(Group(f[4], f[10], f[5]), 4);
    LettersOnly(f[11] as bv32, 2);
  }

  /** A short salt without '$' is read back from between the magic string and the next '$'. */
  lemma ReadBack(sp: CString, e: seq<bv8>)
    requires |sp| <= 8 && DOLLAR !in sp && 0 !in e
    ensures var r := MAGIC + sp + [DOLLAR] + e;
      0 !in r && MAGIC <= r && TrueSalt(r) == sp
  {
    var r := MAGIC + sp + [DOLLAR] + e;
    var rest := r[3..];
    assert rest == sp + [DOLLAR] + e;
    assert rest[|sp|] == DOLLAR;
    forall k | 0 <= k < |sp|
      ensures rest[k] != DOLLAR
    {
      assert rest[k] == sp[k] && sp[k] in sp;
    }
    SaltLenIs(rest, |sp|, 0);
    assert rest[..|sp|] == sp;
  }

  /** The output is a C string that fits the 35-byte buffer, starts with the magic string, and
      gives the same salt back. */
  lemma OwnSalt(pw: CString, salt: CString)
    ensures var r := Md5Crypt(pw, salt);
      0 !in r && |r| <= 34 && MAGIC <= r && TrueSalt(r) == TrueSalt(salt)
  {
    hide Rounds, Encode, TrueSalt;
    var sp := TrueSalt(salt);
    TrueSaltClean(salt);
    var final := Rounds(1000, FirstDigest(pw, sp), pw, sp);
    EncodeLetters(final);
    ReadBack(sp, Encode(final));
  }

  lemma TrueSaltClean(salt: CString)
    ensures |TrueSalt(salt)| <= 8 && DOLLAR !in TrueSalt(salt)
  {
    SaltLenFinds(SkipMagic(salt), 0);
  }

  /** A hash used as its own salt gives the same hash. */
  lemma HashAsOwnSalt(pw: CString, salt: CString)
    ensures 0 !in Md5Crypt(pw, salt) && Md5Crypt(pw, Md5Crypt(pw, salt)) == Md5Crypt(pw, salt)
  {
    OwnSalt(pw, salt);
  }
}
