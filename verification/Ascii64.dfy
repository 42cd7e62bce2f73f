/** C strings, and the 64-character alphabet of crypt(3) hashes that both the DES and the MD5 form use. */
module Ascii64 {

  /** A C string: bytes before the terminating NUL. */
  type CString = s: seq<bv8> | 0 !in s

  const DOLLAR: bv8 := 0x24

  /** The byte a C program reads at index i of a string, the terminator included. */
  function At(s: CString, i: nat): bv8 {
    if i < |s| then s[i] else 0
  }

  /** The string "./0123456789A..Za..z", by index. */
  function Letter(x: bv8): bv8 {
    if x < 16 then Letters0(x) else if x < 32 then Letters1(x) else if x < 48 then Letters2(x) else Letters3(x)
  }

  function Letters0(x: bv8): bv8 {
    match x
    case 0 => 0x2e case 1 => 0x2f case 2 => 0x30 case 3 => 0x31 case 4 => 0x32 case 5 => 0x33 case 6 => 0x34 case 7 => 0x35
    case 8 => 0x36 case 9 => 0x37 case 10 => 0x38 case 11 => 0x39 case 12 => 0x41 case 13 => 0x42 case 14 => 0x43 case _ => 0x44
  }

  function Letters1(x: bv8): bv8 {
    match x
    case 16 => 0x45 case 17 => 0x46 case 18 => 0x47 case 19 => 0x48 case 20 => 0x49 case 21 => 0x4a case 22 => 0x4b case 23 => 0x4c
    case 24 => 0x4d case 25 => 0x4e case 26 => 0x4f case 27 => 0x50 case 28 => 0x51 case 29 => 0x52 case 30 => 0x53 case _ => 0x54
  }

  function Letters2(x: bv8): bv8 {
    match x
    case 32 => 0x55 case 33 => 0x56 case 34 => 0x57 case 35 => 0x58 case 36 => 0x59 case 37 => 0x5a case 38 => 0x61 case 39 => 0x62
    case 40 => 0x63 case 41 => 0x64 case 42 => 0x65 case 43 => 0x66 case 44 => 0x67 case 45 => 0x68 case 46 => 0x69 case _ => 0x6a
  }

  function Letters3(x: bv8): bv8 {
    match x
    case 48 => 0x6b case 49 => 0x6c case 50 => 0x6d case 51 => 0x6e case 52 => 0x6f case 53 => 0x70 case 54 => 0x71 case 55 => 0x72
    case 56 => 0x73 case 57 => 0x74 case 58 => 0x75 case 59 => 0x76 case 60 => 0x77 case 61 => 0x78 case 62 => 0x79 case _ => 0x7a
  }

  /** ascii_to_bin: the index of a letter, and 0 for every other byte. */
  function AsciiToBin(ch: bv8): bv8 {
    if ch > 0x7a then 0          // 'z'
    else if ch >= 0x61 then ch - 0x61 + 38
    else if ch > 0x5a then 0     // 'Z'
    else if ch >= 0x41 then ch - 0x41 + 12
    else if ch > 0x39 then 0     // '9'
    else if ch >= 0x2e then ch - 0x2e
    else 0
  }

  /** The string is three runs of consecutive characters. */
  lemma LetterRuns(x: bv8)
    requires x < 64
    ensures Letter(x) == if x < 12 then x + 46 else if x < 38 then x + 53 else x + 59
  {}

  /** ascii_to_bin inverts the alphabet, whose letters are neither '$' nor NUL. */
  lemma LetterRoundTrip(x: bv8)
    requires x < 64
    ensures AsciiToBin(Letter(x)) == x
    ensures Letter(x) != DOLLAR && Letter(x) != 0
  {
    hide Letter;
    LetterRuns(x);
  }

  /** Every byte maps to a six-bit index, and the letters are exactly the bytes that map back. */
  lemma BinRange(ch: bv8)
    ensures AsciiToBin(ch) < 64
    ensures AsciiToBin(ch) != 0 ==> Letter(AsciiToBin(ch)) == ch
  {
    hide Letter;
    if AsciiToBin(ch) != 0 {
      LetterRuns(AsciiToBin(ch));
    }
  }

  /** The C string a buffer starts with. */
  function CText(s: seq<bv8>): (t: CString) {
    if s == [] || s[0] == 0 then [] else
      var t := CText(s[1..]);
      assert 0 !in [s[0]] + t;
      [s[0]] + t
  }

  lemma {:induction false} CTextIs(s: seq<bv8>, p: CString)
    requires |p| < |s| && s[..|p|] == p && s[|p|] == 0
    ensures CText(s) == p
  {
    if p != [] {
      assert p[0] == s[0] && p[0] in p;
      assert s[1..][..|p| - 1] == p[1..];
      CTextIs(s[1..], p[1..]);
      assert p == [p[0]] + p[1..];
    }
  }
}
