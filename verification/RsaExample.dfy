/** A key of 2048 bits and a digest for which RSA_verify accepts a signature that RFC 8017 rejects. The power of
    2^32 in it is a variable m, fixed by 3 * m + 1 == 64, so that no proof has to multiply literals of that size. */
module RsaExample {
  import opened Limbs
  import opened Congruence
  import opened Rsa
  import Montgomery

  /** The digest is all zeros, so that its encoding is a multiple of 2^160. */
  function ZeroDigest(): (d: seq<Byte>)
    ensures |d| == SHA_DIGEST_SIZE && forall i :: 0 <= i < |d| ==> d[i] == 0
  {
    seq(SHA_DIGEST_SIZE, _ => 0)
  }

  function Encoding(): nat {
    BigEndian(Emsa(ZeroDigest(), RSANUMBYTES))
  }

  /** 3 * 2^681 + 1, for m = 21. */
  function Root(m: nat): nat {
    1536 * Pow(m) + 1
  }

  /** Its cube less the encoding: the cube is then the encoding modulo this modulus. */
  function Modulus(m: nat): int {
    3623878656 * Pow(3 * m) + 7077888 * Pow(2 * m) + 4608 * Pow(m) + 1 - Encoding()
  }

  /** The key of a modulus that is 1 modulo 2^32. */
  function KeyOf(n: nat): RsaPublicKey
    requires n > 0
  {
    RsaPublicKey(RSANUMWORDS, 0xFFFF_FFFF, LimbsOf(n, RSANUMWORDS),
                 LimbsOf(Pow(RSANUMWORDS) * Pow(RSANUMWORDS) % n, RSANUMWORDS))
  }

  /** The key is valid and its modulus at least half of R. The root is an accepted signature, and the root
      plus the modulus another, which RFC 8017 rejects. */
  lemma AcceptedExample(m: nat)
    requires 3 * m + 1 == RSANUMWORDS
    ensures Modulus(m) > 0 && KeyOf(Modulus(m)).Valid() && KeyOf(Modulus(m)).R() <= 2 * KeyOf(Modulus(m)).N()
    ensures var key, sha, n := KeyOf(Modulus(m)), ZeroDigest(), Modulus(m);
      && Root(m) < n == key.N() && Root(m) + n < key.R()
      && Accepts(key, Octets(Root(m), RSANUMWORDS), sha) && RfcAccepts(key, Octets(Root(m), RSANUMWORDS), sha)
      && Accepts(key, Octets(Root(m) + n, RSANUMWORDS), sha) && !RfcAccepts(key, Octets(Root(m) + n, RSANUMWORDS), sha)
  {
    hide Pow, Val, LimbsOf, BigEndian, Emsa, Cube, CubedOf, Octets, ZeroDigest, Encoding, Root, Modulus;
    Sizes(m);
    KeyValid(Modulus(m), m);
    var key, t := KeyOf(Modulus(m)), Root(m);
    RootIsCubeRoot(m);
    OctetsBack(t, RSANUMWORDS);
    CubedOfIs(key, t);
    EncodingIs();
    AgreesInRange(key, Octets(t, RSANUMWORDS), ZeroDigest());
    AcceptsShifted(key, Octets(t, RSANUMWORDS), ZeroDigest());
  }

  lemma EncodingIs()
    ensures Encoding() == BigEndian(Emsa(ZeroDigest(), RSANUMBYTES))
  {}

  // ----- powers

  lemma {:induction false} PowAdd(i: nat, j: nat)
    ensures Pow(i + j) == Pow(i) * Pow(j)
  {
    if i > 0 {
      PowAdd(i - 1, j);
      Regroup(Pow(i - 1), Pow(j));
    }
  }

  lemma Regroup(x: nat, y: nat)
    ensures 0x1_0000_0000 * (x * y) == (0x1_0000_0000 * x) * y
  {}

  lemma Powers(m: nat)
    requires m > 0
    ensures var p := Pow(m);
      && Pow(2 * m) == p * p && Pow(3 * m) == p * p * p
      && Pow(3 * m + 1) == 0x1_0000_0000 * Pow(3 * m) && p == 0x1_0000_0000 * Pow(m - 1)
  {
    PowAdd(m, m);
    PowAdd(2 * m, m);
  }

  // ----- the encoding

  /** A big-endian string is below the next number with its first four bytes. */
  lemma {:induction false} FrontBound(s: seq<Byte>, k: nat)
    requires |s| == 4 * k + 4
    ensures BigEndian(s) < (BigEndian(s[..4]) + 1) * Pow(k)
  {
    hide BigEndian, Quad;
    if k == 0 {
      assert s[..4] == s && Pow(0) == 1;
    } else {
      var n := |s| - 4;
      FrontBound(s[..n], k - 1);
      assert s[..n][..4] == s[..4];
      BigEndianQuad(s);
      QuadBound(s[n], s[n + 1], s[n + 2], s[n + 3]);
      OneMoreWord(BigEndian(s[..n]), BigEndian(s[..4]) + 1, Pow(k - 1));
    }
  }

  lemma QuadBound(a: Byte, b: Byte, c: Byte, d: Byte)
    ensures Quad(a, b, c, d) < 0x1_0000_0000
  {}

  lemma OneMoreWord(x: nat, f: nat, p: nat)
    requires x < f * p
    ensures (x + 1) * 0x1_0000_0000 <= f * (0x1_0000_0000 * p)
  {
    assert f * (0x1_0000_0000 * p) == (f * p) * 0x1_0000_0000;
  }

  lemma EncodingBound(k: nat)
    requires k + 1 == RSANUMWORDS
    ensures Encoding() < 0x2_0000 * Pow(k)
    ensures Encoding() % 0x1_0000_0000 == 0
  {
    hide BigEndian, Pow, Emsa;
    EmsaEnds();
    var s := Emsa(ZeroDigest(), RSANUMBYTES);
    FrontBound(s, k);
    FourBytes(s[..4]);
    var q := LastZero(s, 252);
    Montgomery.IsMultiple(BigEndian(s), q);
  }

  lemma LastZero(s: seq<Byte>, n: nat) returns (q: nat)
    requires |s| == n + 4 && s[n] == 0 && s[n + 1] == 0 && s[n + 2] == 0 && s[n + 3] == 0
    ensures BigEndian(s) == 0x1_0000_0000 * q
  {
    hide BigEndian, Quad;
    BigEndianQuad(s);
    NoQuad();
    q := BigEndian(s[..n]);
  }

  lemma NoQuad()
    ensures Quad(0, 0, 0, 0) == 0
  {}

  lemma EmsaEnds()
    ensures var s := Emsa(ZeroDigest(), RSANUMBYTES);
      && |s| == 256 && s[0] == 0 && s[1] == 1 && s[2] == 0xff && s[3] == 0xff
      && s[252] == 0 && s[253] == 0 && s[254] == 0 && s[255] == 0
  {
    var d := ZeroDigest();
    PaddingIsEmsa(d);
    assert |PADDING| == 236;
  }

  lemma FourBytes(s: seq<Byte>)
    requires |s| == 4 && s[0] == 0 && s[1] == 1 && s[2] == 0xff && s[3] == 0xff
    ensures BigEndian(s) == 0x1_ffff
  {
    hide BigEndian;
    BigEndianQuad(s);
    NoBytes(s[..0]);
  }

  // ----- the modulus

  lemma CubeOfRoot(p: nat)
    ensures Cube(1536 * p + 1) == 3623878656 * (p * p * p) + 7077888 * (p * p) + 4608 * p + 1
  {
    var x := 1536 * p;
    assert (x + 1) * (x + 1) == x * x + 2 * x + 1;
    assert x * x == 2359296 * (p * p);
    assert (x * x + 2 * x + 1) * (x + 1) == x * x * x + 3 * (x * x) + 3 * x + 1;
    assert x * x * x == 3623878656 * (p * p * p);
  }

  lemma Sizes(m: nat)
    requires 3 * m + 1 == RSANUMWORDS
    ensures Root(m) < Modulus(m) && Root(m) + Modulus(m) < Pow(3 * m + 1) <= 2 * Modulus(m)
    ensures Modulus(m) % 0x1_0000_0000 == 1
  {
    hide Encoding, Pow;
    var p := Pow(m);
    Powers(m);
    EncodingBound(3 * m);
    Ordered(p, Pow(m - 1));
    LowestIsOne(p, Pow(m - 1), Encoding());
  }

  lemma Ordered(p: nat, q: nat)
    requires p == 0x1_0000_0000 * q && q >= 1
    ensures p * p <= p * p * p && 7077888 * (p * p) + 4608 * p + 1 <= p * p * p && 1536 * p + 1 <= p * p * p
  {
    Mono(0x1_0000_0000, p, p * p);
    Mono(0x1_0000_0000, p, p);
    assert p * (p * p) == p * p * p;
  }

  lemma LowestIsOne(p: nat, q: nat, e: nat)
    requires p == 0x1_0000_0000 * q && e % 0x1_0000_0000 == 0
    ensures (3623878656 * (p * p * p) + 7077888 * (p * p) + 4608 * p + 1 - e) % 0x1_0000_0000 == 1
  {
    var h := e / 0x1_0000_0000;
    var r := 3623878656 * (q * p * p) + 7077888 * (q * p) + 4608 * q - h;
    assert p * p == 0x1_0000_0000 * (q * p);
    assert p * p * p == 0x1_0000_0000 * (q * p * p);
    OneAbove(3623878656 * (p * p * p) + 7077888 * (p * p) + 4608 * p + 1 - e, r);
  }

  lemma OneAbove(x: int, r: int)
    requires x == 0x1_0000_0000 * r + 1
    ensures x % 0x1_0000_0000 == 1
  {}

  lemma KeyValid(n: nat, m: nat)
    requires 3 * m + 1 == RSANUMWORDS && 0 < n < Pow(3 * m + 1) && n % 0x1_0000_0000 == 1
    ensures KeyOf(n).Valid() && KeyOf(n).N() == n && KeyOf(n).R() == Pow(3 * m + 1)
  {
    hide Pow, Val;
    var rr := Pow(RSANUMWORDS) * Pow(RSANUMWORDS) % n;
    ValOfLimbs(n, RSANUMWORDS);
    ValOfLimbs(rr, RSANUMWORDS);
    var key := KeyOf(n);
    assert key.n[..64] == key.n && key.rr[..64] == key.rr;
    assert key.n[0] == 1;
  }

  lemma RootIsCubeRoot(m: nat)
    requires 3 * m + 1 == RSANUMWORDS && Root(m) < Modulus(m) && Pow(3 * m + 1) <= 2 * Modulus(m)
    ensures Cube(Root(m)) % Modulus(m) == Encoding()
  {
    hide Cube, Pow, Encoding;
    Powers(m);
    EncodingBound(3 * m);
    CubeOfRoot(Pow(m));
    var t, n := Root(m), Modulus(m);
    Montgomery.Differs(Cube(t), Encoding(), 1, n);
    Sym(Cube(t), Encoding(), n);
    IsMod(Encoding(), Cube(t), n);
  }
}
