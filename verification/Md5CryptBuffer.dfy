/** What __md5_crypt leaves in its static buffer, when its arguments may lie in that buffer themselves. */
module Md5CryptBuffer {
  import opened Bytes
  import opened Ascii64
  import opened Places
  import opened Md5CryptSpec

  /** Where an argument lies: in other memory, of which the bytes from there on are given, or in the buffer. */
  datatype Argument = Elsewhere(bytes: seq<bv8>) | Inside(at: nat)

  /** The bytes from an argument on. */
  function From(a: Argument, buf: seq<bv8>): seq<bv8>
    requires a.Inside? ==> a.at <= |buf|
  {
    match a
    case Elsewhere(bytes) => bytes
    case Inside(at) => buf[at..]
  }

  predicate IsString(a: Argument, buf: seq<bv8>) {
    (a.Inside? ==> a.at <= |buf|) && 0 in From(a, buf)
  }

  function Text(a: Argument, buf: seq<bv8>): CString
    requires IsString(a, buf)
  {
    CText(From(a, buf))
  }

  /** k bytes further on. */
  function Behind(a: Argument, k: nat): Argument
    requires a.Elsewhere? ==> k <= |a.bytes|
  {
    match a
    case Elsewhere(bytes) => Elsewhere(bytes[k..])
    case Inside(at) => Inside(at + k)
  }

  /** n bytes can be read at an argument, whatever they are. */
  predicate Readable(a: Argument, n: nat, buf: seq<bv8>) {
    (a.Inside? ==> a.at <= |buf|) && n <= |From(a, buf)|
  }

  /** strncpy to a place in the buffer, byte by byte from i on. */
  function Strncpy(buf: seq<bv8>, to: nat, src: Argument, i: nat, n: nat): (b: seq<bv8>)
    requires i <= n && to + n <= |buf| && Readable(src, n, buf)
    ensures |b| == |buf|
    decreases n - i
  {
    if i == n then buf
    else if From(src, buf)[i] == 0 then buf[..to + i] + ZeroBytes(n - i) + buf[to + n..]
    else Strncpy(buf[to + i := From(src, buf)[i]], to, src, i + 1, n)
  }

  /** The buffer before the rounds: magic, salt and '$' over what was there. */
  function Header(buf: seq<bv8>, sp: Argument, sl: nat): (b: seq<bv8>)
    requires |buf| == 35 && sl <= 8 && Readable(sp, sl, buf)
    ensures |b| == 35
  {
    Strncpy(MAGIC + [0] + buf[4..], 3, sp, 0, sl)[3 + sl := DOLLAR]
  }

  /** The place of the true salt. */
  function SaltPlace(buf: seq<bv8>, salt: Argument): (sp: Argument)
    requires IsString(salt, buf)
    ensures var s := TrueSalt(Text(salt, buf));
      Readable(sp, |s|, buf) && From(sp, buf)[..|s|] == s && |s| <= 8
  {
    SaltIsThere(buf, salt);
    if MAGIC <= Text(salt, buf) then Behind(salt, 3) else salt
  }

  lemma SaltIsThere(buf: seq<bv8>, salt: Argument)
    requires IsString(salt, buf)
    ensures var t := Text(salt, buf);
      var k, s := if MAGIC <= t then 3 else 0, TrueSalt(t);
      && k <= |From(salt, buf)| && Readable(Behind(salt, k), |s|, buf)
      && From(Behind(salt, k), buf)[..|s|] == s && |s| <= 8
  {
    var f, t := From(salt, buf), Text(salt, buf);
    CTextEnds(f);
    var k, s := if MAGIC <= t then 3 else 0, TrueSalt(t);
    assert From(Behind(salt, k), buf) == f[k..];
    Prefixes(f, t, k, |s|);
  }

  lemma Prefixes(f: seq<bv8>, t: seq<bv8>, k: nat, m: nat)
    requires |t| <= |f| && f[..|t|] == t && k + m <= |t|
    ensures f[k..][..m] == t[k..][..m]
  {
    assert forall i :: 0 <= i < m ==> f[k..][i] == f[..|t|][k + i];
  }

  /** The whole buffer after the call. The rounds read password and salt where they lie. */
  function Left(buf: seq<bv8>, pw: Argument, salt: Argument): (b: seq<bv8>)
    requires |buf| == 35 && IsString(pw, buf) && IsString(salt, buf)
    ensures |b| == 35
  {
    var k, s, sp := Text(pw, buf), TrueSalt(Text(salt, buf)), SaltPlace(buf, salt);
    CTextEnds(From(pw, buf));
    var head := Header(buf, sp, |s|);
    var final := Rounds(1000, FirstDigest(k, s), From(pw, head)[..|k|], From(sp, head)[..|s|]);
    head[..4 + |s|] + Encode(final) + [0] + head[27 + |s|..]
  }

  // ----- arguments outside the buffer

  lemma {:induction false} CopiedFromElsewhere(buf: seq<bv8>, to: nat, src: Argument, i: nat, n: nat)
    requires src.Elsewhere? && i <= n && to + n <= |buf| && Readable(src, n, buf) && 0 !in src.bytes[..n]
    ensures Strncpy(buf, to, src, i, n) == buf[..to + i] + src.bytes[i..n] + buf[to + n..]
    decreases n - i
  {
    if i < n {
      var c := src.bytes[i];
      assert c in src.bytes[..n];
      var b := buf[to + i := c];
      CopiedFromElsewhere(b, to, src, i + 1, n);
      assert src.bytes[i..n] == [c] + src.bytes[i + 1..n];
      assert b[..to + i + 1] == buf[..to + i] + [c] && b[to + n..] == buf[to + n..];
    }
  }

  /** A salt outside is written behind the magic string. */
  lemma HeaderIs(buf: seq<bv8>, sp: Argument, sl: nat)
    requires |buf| == 35 && sp.Elsewhere? && sl <= 8 && Readable(sp, sl, buf) && 0 !in sp.bytes[..sl]
    ensures Header(buf, sp, sl)[..4 + sl] == MAGIC + sp.bytes[..sl] + [DOLLAR]
    ensures Header(buf, sp, sl)[4 + sl..] == buf[4 + sl..]
  {
    var b := MAGIC + [0] + buf[4..];
    CopiedFromElsewhere(b, 3, sp, 0, sl);
    assert b[..3] == MAGIC && b[3 + sl..][1..] == buf[4 + sl..];
    assert Strncpy(b, 3, sp, 0, sl) == MAGIC + sp.bytes[..sl] + b[3 + sl..];
  }

  /** What the buffer holds after the letters and the terminator are written. */
  lemma LeftText(head: seq<bv8>, n: nat, e: seq<bv8>, h: seq<bv8>)
    requires |head| == 35 && n <= 12 && |e| == 22 && head[..n] == h && 0 !in h + e
    ensures CText(head[..n] + e + [0] + head[n + 23..]) == h + e
  {
    var b := head[..n] + e + [0] + head[n + 23..];
    assert b[..n + 22] == h + e;
    CTextIs(b, h + e);
  }

  /** With both arguments outside, the buffer holds the hash of the two strings. */
  lemma LeftElsewhere(buf: seq<bv8>, pw: Argument, salt: Argument)
    requires |buf| == 35 && pw.Elsewhere? && salt.Elsewhere? && IsString(pw, buf) && IsString(salt, buf)
    ensures CText(Left(buf, pw, salt)) == Md5Crypt(Text(pw, buf), Text(salt, buf)) && 0 in Left(buf, pw, salt)
  {
    SaltOutside(buf, pw, salt);
    CTextEnds(From(pw, buf));
    OwnSalt(Text(pw, buf), Text(salt, buf));
    HasNul(Left(buf, pw, salt));
  }

  /** With the salt outside, what is hashed in the rounds for the password is what then lies at its place. */
  lemma SaltOutside(buf: seq<bv8>, pw: Argument, salt: Argument)
    requires |buf| == 35 && salt.Elsewhere? && IsString(pw, buf) && IsString(salt, buf)
    ensures var k, s, sp := Text(pw, buf), TrueSalt(Text(salt, buf)), SaltPlace(buf, salt);
      var head := Header(buf, sp, |s|);
      && head[..4 + |s|] == MAGIC + s + [DOLLAR] && head[4 + |s|..] == buf[4 + |s|..]
      && Readable(pw, |k|, head)
      && CText(Left(buf, pw, salt))
         == MAGIC + s + [DOLLAR] + Encode(Rounds(1000, FirstDigest(k, s), From(pw, head)[..|k|], s))
  {
    hide Encode, Rounds, FirstDigest, Header, TrueSalt;
    var k, s, sp := Text(pw, buf), TrueSalt(Text(salt, buf)), SaltPlace(buf, salt);
    CTextEnds(From(pw, buf));
    TrueSaltClean(Text(salt, buf));
    HeaderIs(buf, sp, |s|);
    var head := Header(buf, sp, |s|);
    var final := Rounds(1000, FirstDigest(k, s), From(pw, head)[..|k|], s);
    EncodeLetters(final);
    LeftText(head, 4 + |s|, Encode(final), MAGIC + s + [DOLLAR]);
  }

  // ----- the string in the buffer as salt

  /** A salt that is the string in the buffer: the buffer then holds its hash if and only if there is no true
      salt. Otherwise the NUL of the copied magic string ends the salt before it is copied, and the string
      left is the magic string alone, wherever the password lies. */
  lemma SaltInBuffer(buf: seq<bv8>, pw: Argument)
    requires |buf| == 35 && IsString(pw, buf) && IsString(Inside(0), buf) && MAGIC <= CText(buf)
    ensures TrueSalt(CText(buf)) != [] ==> CText(Left(buf, pw, Inside(0))) == MAGIC
    ensures pw.Elsewhere? ==>
      (CText(Left(buf, pw, Inside(0))) == Md5Crypt(Text(pw, buf), CText(buf)) <==> TrueSalt(CText(buf)) == [])
  {
    hide Encode, Rounds, FirstDigest, TrueSalt, Left;
    var s := TrueSalt(CText(buf));
    if s != [] {
      SaltLost(buf, pw);
    } else if pw.Elsewhere? {
      NoSaltNeeded(buf, pw);
      assert MAGIC + s + [DOLLAR] == MAGIC + [DOLLAR];
    }
  }

  lemma SaltLost(buf: seq<bv8>, pw: Argument)
    requires |buf| == 35 && IsString(pw, buf) && IsString(Inside(0), buf) && MAGIC <= CText(buf)
    requires TrueSalt(CText(buf)) != []
    ensures CText(Left(buf, pw, Inside(0))) == MAGIC
  {
    hide Encode, Rounds, FirstDigest, TrueSalt, Header;
    assert buf[0..] == buf;
    var n := |TrueSalt(CText(buf))|;
    assert SaltPlace(buf, Inside(0)) == Inside(3);
    Overwritten(buf, n);
    var head := Header(buf, Inside(3), n);
    var b := Left(buf, pw, Inside(0));
    assert b[..4 + n] == head[..4 + n];
    assert b[..3] == b[..4 + n][..3] == head[..3] && b[3] == head[..4 + n][3];
    CTextIs(b, MAGIC);
  }

  lemma NoSaltNeeded(buf: seq<bv8>, pw: Argument)
    requires |buf| == 35 && IsString(pw, buf) && IsString(Inside(0), buf) && MAGIC <= CText(buf)
    requires TrueSalt(CText(buf)) == [] && pw.Elsewhere?
    ensures var k := Text(pw, buf);
      CText(Left(buf, pw, Inside(0))) == MAGIC + [DOLLAR] + Encode(Rounds(1000, FirstDigest(k, []), k, []))
  {
    hide Encode, Rounds, FirstDigest, TrueSalt, Header;
    assert buf[0..] == buf;
    CTextEnds(From(pw, buf));
    assert SaltPlace(buf, Inside(0)) == Inside(3);
    NoSalt(buf);
    var k, head := Text(pw, buf), Header(buf, Inside(3), 0);
    var final := Rounds(1000, FirstDigest(k, []), k, []);
    assert From(pw, head)[..|k|] == k && From(Inside(3), head)[..0] == [];
    EncodeLetters(final);
    LeftText(head, 4, Encode(final), MAGIC + [DOLLAR]);
  }

  lemma Overwritten(buf: seq<bv8>, sl: nat)
    requires |buf| == 35 && 1 <= sl <= 8
    ensures Header(buf, Inside(3), sl)[..3] == MAGIC && Header(buf, Inside(3), sl)[3] == 0
  {
    var b := MAGIC + [0] + buf[4..];
    assert b[3..][0] == 0;
    assert Strncpy(b, 3, Inside(3), 0, sl) == b[..3] + ZeroBytes(sl) + b[3 + sl..];
  }

  lemma NoSalt(buf: seq<bv8>)
    requires |buf| == 35
    ensures Header(buf, Inside(3), 0)[..4] == MAGIC + [DOLLAR]
  {}

  /** The nested call crypt(k, crypt(k, s)): it returns what it is given if and only if there is no true salt. */
  lemma NestedCall(buf: seq<bv8>, pw: Argument, salt: Argument)
    requires |buf| == 35 && pw.Elsewhere? && salt.Elsewhere? && IsString(pw, buf) && IsString(salt, buf)
    ensures var b := Left(buf, pw, salt);
      && CText(b) == Md5Crypt(Text(pw, buf), Text(salt, buf)) && IsString(Inside(0), b)
      && (CText(Left(b, pw, Inside(0))) == CText(b) <==> TrueSalt(Text(salt, buf)) == [])
      && (TrueSalt(Text(salt, buf)) != [] ==> CText(Left(b, pw, Inside(0))) == MAGIC)
  {
    hide Md5Crypt, Left, TrueSalt;
    var b := Left(buf, pw, salt);
    LeftElsewhere(buf, pw, salt);
    OwnSalt(Text(pw, buf), Text(salt, buf));
    HashAsOwnSalt(Text(pw, buf), Text(salt, buf));
    assert b[0..] == b;
    SaltInBuffer(b, pw);
  }

  lemma {:induction false} HasNul(s: seq<bv8>)
    requires |CText(s)| < |s|
    ensures 0 in s
  {
    if s[0] != 0 {
      HasNul(s[1..]);
    }
  }

  /** A string constant of a program. */
  function Literal(s: CString): (a: Argument)
    ensures a.Elsewhere? && forall buf :: IsString(a, buf) && Text(a, buf) == s
  {
    CTextIs(s + [0], s);
    assert (s + [0])[|s|] == 0;
    Elsewhere(s + [0])
  }

  const SECRET: CString := [0x73, 0x65, 0x63, 0x72, 0x65, 0x74]  // "secret"
  const SALTSALT: CString := [0x24, 0x31, 0x24, 0x73, 0x61, 0x6c, 0x74, 0x73, 0x61, 0x6c, 0x74, 0x24]  // "$1$saltsalt$"

  /** For the key "secret" and the salt "$1$saltsalt$" the second call returns "$1$" instead of the hash. */
  lemma NestedExample(buf: seq<bv8>)
    requires |buf| == 35
    ensures var b := Left(buf, Literal(SECRET), Literal(SALTSALT));
      && CText(b) == Md5Crypt(SECRET, SALTSALT) && IsString(Inside(0), b)
      && CText(Left(b, Literal(SECRET), Inside(0))) == MAGIC != CText(b)
  {
    hide Md5Crypt, Left, CText, TrueSalt, Literal;
    NestedCall(buf, Literal(SECRET), Literal(SALTSALT));
    ExampleSalt();
  }

  lemma ExampleSalt()
    ensures TrueSalt(SALTSALT) != []
  {
    var s := SALTSALT[3..];
    assert MAGIC <= SALTSALT && s[0] == 0x73;
    assert SaltLen(s, 0) == SaltLen(s, 1);
  }

  // ----- the string in the buffer as password

  /** A password that is a hash in the buffer, with a salt outside: what the rounds read in its place is the
      password if and only if the true salts are the same. The buffer then holds the hash of the two. */
  lemma PasswordInBuffer(buf: seq<bv8>, t: CString, e: seq<bv8>, salt: Argument)
    requires |buf| == 35 && |t| <= 8 && DOLLAR !in t && |e| == 22 && 0 !in e && CText(buf) == MAGIC + t + [DOLLAR] + e
    requires IsString(Inside(0), buf) && salt.Elsewhere? && IsString(salt, buf)
    ensures var k, s := CText(buf), TrueSalt(Text(salt, buf));
      && (Header(buf, SaltPlace(buf, salt), |s|)[..|k|] == k <==> s == t)
      && (s == t ==> CText(Left(buf, Inside(0), salt)) == Md5Crypt(k, Text(salt, buf)))
  {
    hide Encode, Rounds, FirstDigest, TrueSalt, Header, SaltPlace, Left;
    var k, s := CText(buf), TrueSalt(Text(salt, buf));
    var head := Header(buf, SaltPlace(buf, salt), |s|);
    assert buf[0..] == buf && head[0..] == head;
    CTextEnds(buf);
    SaltOutside(buf, Inside(0), salt);
    TrueSaltClean(Text(salt, buf));
    SameHeader(buf, head, s, t, e);
  }

  lemma SameHeader(buf: seq<bv8>, head: seq<bv8>, s: CString, t: CString, e: seq<bv8>)
    requires |buf| == |head| == 35 && |s| <= 8 && DOLLAR !in s && |t| <= 8 && DOLLAR !in t && |e| == 22 && 0 !in e
    requires head[..4 + |s|] == MAGIC + s + [DOLLAR] && head[4 + |s|..] == buf[4 + |s|..]
    requires buf[..|t| + 26] == MAGIC + t + [DOLLAR] + e
    ensures head[..|t| + 26] == MAGIC + t + [DOLLAR] + e <==> s == t
  {
    var n, k := 4 + |s|, MAGIC + t + [DOLLAR] + e;
    if s == t {
      assert head == head[..n] + head[n..] && buf == buf[..n] + buf[n..];
      assert buf[..n] == k[..n] == MAGIC + t + [DOLLAR];
      assert head == buf;
    } else if head[..|k|] == k {
      assert k == head[..n] + k[n..];
      ReadBack(s, k[n..]);
      ReadBack(t, e);
    }
  }
}
