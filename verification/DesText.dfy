/** How keys, salts, blocks and hashes are written for the DES part: bytes and letters as bits. */
module DesText {
  import opened WordBits
  import opened Ascii64
  import opened Fips46

  // ----- bytes and salts as bits

  /** The 64 bits of eight bytes. */
  function ByteBits64(b: seq<bv8>): (r: BitString)
    requires |b| == 8
    ensures |r| == 64
  {
    seq(64, i requires 0 <= i < 64 => ByteBit(b[i / 8], i % 8))
  }

  /** The salt of crypt(3): bit i, least significant first, is for bits i and i + 24 of the E output. */
  function SaltBits(salt: bv32): (s: BitString)
    ensures |s| == 24
  {
    seq(24, i requires 0 <= i < 24 => Bit(salt, 31 - i))
  }

  /** With salt 0 nothing changes places: the cipher function is the one of FIPS 46-3. */
  lemma NoSalt(r: BitString, k: BitString)
    requires |r| == 32 && |k| == 48
    ensures F(r, RoundKey(k, SaltBits(0))) == Permute(Substitute(Xor(Expand(r), k)))
  {
    hide Bit, Permute, Substitute, Xor, Expand;
    forall i | 0 <= i < 32 ensures !Bit(0, i) { BitZero(i); }
    assert SaltSwap(Expand(r), SaltBits(0)) == Expand(r);
  }

  // ----- blocks with a byte for each bit

  predicate LowBit(x: bv8) { x & 1 != 0 }

  function LowBits(block: seq<bv8>): (b: BitString)
    ensures |b| == |block|
  {
    seq(|block|, i requires 0 <= i < |block| => LowBit(block[i]))
  }

  function BitBytes(b: BitString): (block: seq<bv8>)
    ensures |block| == |b| && forall i :: 0 <= i < |b| ==> block[i] == if b[i] then 1 else 0
  {
    seq(|b|, i requires 0 <= i < |b| => if b[i] then 1 else 0)
  }

  lemma LowBitsOfBitBytes(b: BitString)
    ensures LowBits(BitBytes(b)) == b
  {}

  lemma BitBytesOfLowBits(block: seq<bv8>)
    requires forall i :: 0 <= i < |block| ==> block[i] == 0 || block[i] == 1
    ensures BitBytes(LowBits(block)) == block
  {}

  /** What encrypt leaves in the block. */
  function Encrypted(key: BitString, flag: int, block: seq<bv8>): (r: seq<bv8>)
    requires |key| == 64 && |block| == 64
    ensures |r| == 64
  {
    BitBytes(Fips46.DoDes(key, SaltBits(0), if flag != 0 then -1 else 1, LowBits(block)))
  }

  /** Decrypting what was encrypted restores every block of zeros and ones, and the other way round. */
  lemma EncryptedTwice(key: BitString, flag: int, flag': int, block: seq<bv8>)
    requires |key| == 64 && |block| == 64 && (flag == 0) != (flag' == 0)
    requires forall i :: 0 <= i < 64 ==> block[i] == 0 || block[i] == 1
    ensures Encrypted(key, flag', Encrypted(key, flag, block)) == block
  {
    hide Fips46.DoDes, SaltBits, LowBits, BitBytes;
    var count := if flag != 0 then -1 else 1;
    LowBitsOfBitBytes(Fips46.DoDes(key, SaltBits(0), count, LowBits(block)));
    DoDesUndo(key, SaltBits(0), count, LowBits(block));
    BitBytesOfLowBits(block);
  }

  // ----- the key of a password

  /** n key bytes: each character shifted up by one bit, moving on only past a nonzero result. */
  function KeyBytes(key: CString, n: nat): (b: seq<bv8>)
    ensures |b| == n
  {
    if n == 0 then []
    else if At(key, 0) << 1 != 0 then [key[0] << 1] + KeyBytes(key[1..], n - 1)
    else [0] + KeyBytes(key, n - 1)
  }

  /** The first character that is lost in the shift: the end of the key, or a character 0x80. */
  function Lost(key: CString): (n: nat)
    ensures n <= |key|
  {
    if key == [] || key[0] << 1 == 0 then 0 else 1 + Lost(key[1..])
  }

  /** The key bytes are the characters shifted up, padded with zeros, but a character 0x80 ends
      the key as a NUL does. */
  lemma {:induction false} KeyBytesAre(key: CString, n: nat, i: nat)
    requires i < n
    ensures KeyBytes(key, n)[i] == if i < Lost(key) then key[i] << 1 else 0
  {
    if At(key, 0) << 1 != 0 {
      if i > 0 {
        KeyBytesAre(key[1..], n - 1, i - 1);
      }
    } else {
      ShiftedNul();
      if i > 0 {
        KeyBytesAre(key, n - 1, i - 1);
      }
    }
  }

  lemma ShiftedNul()
    ensures (0 as bv8) << 1 == 0
  {}

  lemma {:induction false} LostIs(key: CString, i: nat)
    requires i < |key|
    ensures i < Lost(key) ==> key[i] << 1 != 0
    ensures Lost(key) < |key| ==> key[Lost(key)] << 1 == 0
  {
    if key[0] << 1 != 0 && |key| > 1 {
      LostIs(key[1..], if i > 0 then i - 1 else 0);
    }
  }

  /** Every character of the key is used, shifted up and padded with zeros to eight bytes, if and only
      if no character 0x80 comes before one, among the first eight, that the shift does not lose. */
  lemma KeyIsPadded(key: CString)
    ensures (forall i :: 0 <= i < 8 ==> KeyBytes(key, 8)[i] == At(key, i) << 1)
      <==> (forall i, j :: 0 <= i < j < 8 && j < |key| && key[i] << 1 == 0 ==> key[j] << 1 == 0)
  {
    ShiftedNul();
    forall i | 0 <= i < 8
      ensures KeyBytes(key, 8)[i] == if i < Lost(key) then key[i] << 1 else 0
    {
      KeyBytesAre(key, 8, i);
    }
    forall i | 0 <= i < |key|
      ensures i < Lost(key) ==> key[i] << 1 != 0
      ensures Lost(key) < |key| ==> key[Lost(key)] << 1 == 0
    {
      LostIs(key, i);
    }
    if forall i :: 0 <= i < 8 ==> KeyBytes(key, 8)[i] == At(key, i) << 1 {
      forall i, j | 0 <= i < j < 8 && j < |key| && key[i] << 1 == 0
        ensures key[j] << 1 == 0
      {
        assert KeyBytes(key, 8)[j] == At(key, j) << 1;
      }
    }
    if forall i, j :: 0 <= i < j < 8 && j < |key| && key[i] << 1 == 0 ==> key[j] << 1 == 0 {
      forall i | 0 <= i < 8
        ensures KeyBytes(key, 8)[i] == At(key, i) << 1
      {
        assert i > Lost(key) && i < |key| ==> key[i] << 1 == 0;
      }
    }
  }

  /** A key with a character 0x80 in front: the letter A behind it is not used. */
  lemma KeyIsPaddedExample()
    ensures KeyBytes([0x80, 0x41], 8)[1] == 0 && At([0x80, 0x41], 1) << 1 == 0x82
  {
    KeyBytesAre([0x80, 0x41], 8, 1);
    assert Lost([0x80, 0x41]) == 0;
  }

  // ----- the eleven letters of a hash

  /** Six bits as a number, the first one most significant. */
  function Six(b0: bool, b1: bool, b2: bool, b3: bool, b4: bool, b5: bool): bv8 {
    (if b0 then 0x20 else 0) | (if b1 then 0x10 else 0) | (if b2 then 8 else 0)
    | (if b3 then 4 else 0) | (if b4 then 2 else 0) | (if b5 then 1 else 0)
  }

  function SixMask(i: nat): bv8 {
    match i
    case 0 => 0x20 case 1 => 0x10 case 2 => 8 case 3 => 4 case 4 => 2 case _ => 1
  }

  lemma SixBack(b0: bool, b1: bool, b2: bool, b3: bool, b4: bool, b5: bool, i: nat)
    requires i < 6
    ensures var v := Six(b0, b1, b2, b3, b4, b5);
      v < 64 && (v & SixMask(i) != 0) == if i < 3 then (if i == 0 then b0 else if i == 1 then b1 else b2) else if i == 3 then b3 else if i == 4 then b4 else b5
  {
    RawSix(b0, b1, b2, b3, b4, b5);
  }

  lemma RawSix(b0: bool, b1: bool, b2: bool, b3: bool, b4: bool, b5: bool)
    ensures var v := (if b0 then 0x20 else 0) | (if b1 then 0x10 else 0) | (if b2 then 8 else 0)
                   | (if b3 then 4 else 0) | (if b4 then 2 else 0) | (if b5 then 1 else 0 as bv8);
      v < 64 && (v & 0x20 != 0) == b0 && (v & 0x10 != 0) == b1 && (v & 8 != 0) == b2
      && (v & 4 != 0) == b3 && (v & 2 != 0) == b4 && (v & 1 != 0) == b5
  {}

  /** Bits 6k to 6k + 5 of a block followed by two zero bits. */
  function SixBits(b: BitString, k: nat): bv8
    requires |b| == 64 && k < 11
  {
    var p := b + [false, false];
    Six(p[6 * k], p[6 * k + 1], p[6 * k + 2], p[6 * k + 3], p[6 * k + 4], p[6 * k + 5])
  }

  function BlockLetters(b: BitString): (s: seq<bv8>)
    requires |b| == 64
    ensures |s| == 11
  {
    seq(11, k requires 0 <= k < 11 => Letter(SixBits(b, k)))
  }

  /** The block that eleven letters stand for. */
  function LettersBlock(s: seq<bv8>): (b: BitString)
    requires |s| == 11
    ensures |b| == 64
  {
    seq(64, i requires 0 <= i < 64 => AsciiToBin(s[i / 6]) & SixMask(i % 6) != 0)
  }

  /** The letters determine both halves of the block. */
  lemma LettersRoundTrip(b: BitString)
    requires |b| == 64
    ensures LettersBlock(BlockLetters(b)) == b
  {
    hide Letter, AsciiToBin, SixBits, SixMask;
    forall i | 0 <= i < 64
      ensures LettersBlock(BlockLetters(b))[i] == b[i]
    {
      LetterBit(b, i / 6, i % 6);
    }
  }

  lemma LetterBit(b: BitString, k: nat, j: nat)
    requires |b| == 64 && k < 11 && j < 6 && 6 * k + j < 64
    ensures (AsciiToBin(Letter(SixBits(b, k))) & SixMask(j) != 0) == b[6 * k + j]
  {
    hide Letter, AsciiToBin, SixBits, SixMask;
    SixBitsBack(b + [false, false], b, k, j);
    LetterRoundTrip(SixBits(b, k));
  }

  lemma SixBitsBack(p: BitString, b: BitString, k: nat, j: nat)
    requires |b| == 64 && k < 11 && j < 6 && p == b + [false, false]
    ensures SixBits(b, k) < 64 && (SixBits(b, k) & SixMask(j) != 0) == p[6 * k + j]
  {
    hide Six, SixMask;
    SixBack(p[6 * k], p[6 * k + 1], p[6 * k + 2], p[6 * k + 3], p[6 * k + 4], p[6 * k + 5], j);
  }

  /** No letter is '$' or NUL. */
  lemma LettersClean(b: BitString)
    requires |b| == 64
    ensures DOLLAR !in BlockLetters(b) && 0 !in BlockLetters(b)
  {
    hide Letter, AsciiToBin, SixBits, SixMask;
    forall k | 0 <= k < 11
      ensures BlockLetters(b)[k] != DOLLAR && BlockLetters(b)[k] != 0
    {
      SixBitsBack(b + [false, false], b, k, 0);
      LetterRoundTrip(SixBits(b, k));
    }
  }

  // ----- the DES form of crypt

  /** The salt word of a setting. */
  function SaltWord(setting: CString): bv32 {
    (AsciiToBin(At(setting, 1)) as bv32 << 6) | AsciiToBin(At(setting, 0)) as bv32
  }

  function ZeroBlock(): (b: BitString)
    ensures |b| == 64
  {
    seq(64, i => false)
  }

  /** The block that is turned into letters: 25 salted encryptions of the zero block. */
  function HashBlock(key: CString, setting: CString): (b: BitString)
    ensures |b| == 64
  {
    Fips46.DoDes(ByteBits64(KeyBytes(key, 8)), SaltBits(SaltWord(setting)), 25, ZeroBlock())
  }

  /** The two salt characters of a hash. */
  function SaltLetters(setting: CString): (c: seq<bv8>)
    requires setting != []
    ensures |c| == 2
  {
    [setting[0], if At(setting, 1) != 0 then At(setting, 1) else setting[0]]
  }

  /** What __des_crypt returns: two salt characters and eleven letters. */
  function DesCrypt(key: CString, setting: CString): (r: seq<bv8>)
    requires setting != []
    ensures |r| == 13
  {
    SaltLetters(setting) + BlockLetters(HashBlock(key, setting))
  }

  /** The output is a C string that cannot be taken for an MD5 hash. */
  lemma DesCryptClean(key: CString, setting: CString)
    requires setting != []
    ensures 0 !in DesCrypt(key, setting) && DesCrypt(key, setting)[2] != DOLLAR
  {
    hide HashBlock, BlockLetters;
    var b := HashBlock(key, setting);
    LettersClean(b);
    assert BlockLetters(b)[0] in BlockLetters(b);
  }

  /** Used as a setting, a hash has the salt of the setting it was made with, if and only if that
      setting has two characters or its single character stands for 0. */
  lemma SaltKept(key: CString, setting: CString)
    requires setting != []
    ensures 0 !in DesCrypt(key, setting)
    ensures SaltWord(DesCrypt(key, setting)) == SaltWord(setting)
      <==> (|setting| >= 2 || AsciiToBin(setting[0]) == 0)
  {
    hide HashBlock, BlockLetters, AsciiToBin;
    DesCryptClean(key, setting);
    if |setting| >= 2 {
      assert setting[1] in setting;
    } else {
      SaltParts(AsciiToBin(setting[0]));
    }
  }

  lemma SaltParts(x: bv8)
    ensures AsciiToBin(0) == 0
    ensures (((x as bv32) << 6) | x as bv32) == (((0 as bv8) as bv32 << 6) | x as bv32) <==> x == 0
  {
    RawSalt(x);
  }

  lemma RawSalt(x: bv8)
    ensures (((x as bv32) << 6) | x as bv32) == x as bv32 <==> x == 0
  {}

  /** The setting "a" is one character that stands for 38: its hash has another salt. */
  lemma SaltKeptExample(key: CString)
    ensures 0 !in DesCrypt(key, [0x61]) && SaltWord(DesCrypt(key, [0x61])) != SaltWord([0x61])
  {
    hide HashBlock, BlockLetters, SaltWord;
    SaltKept(key, [0x61]);
    assert AsciiToBin(0x61) == 38;
  }

  /** So the hash is its own setting. */
  lemma DesHashIsItsOwnSalt(key: CString, setting: CString)
    requires setting != [] && (|setting| >= 2 || AsciiToBin(setting[0]) == 0)
    ensures 0 !in DesCrypt(key, setting) && DesCrypt(key, DesCrypt(key, setting)) == DesCrypt(key, setting)
  {
    hide BlockLetters, AsciiToBin, SaltWord, Fips46.DoDes;
    SaltKept(key, setting);
    DesCryptClean(key, setting);
    var r := DesCrypt(key, setting);
    assert r[0] in r && r[1] in r;
  }

  // ----- the letters as the source takes them from two words

  /** The six bits above the lowest n. */
  function Take(l: bv32, n: nat): bv8
    requires n <= 32
  {
    ((l >> n) & 0x3f) as bv8
  }

  function Top24(r0: bv32): bv32 { r0 >> 8 }
  function Middle(r0: bv32, r1: bv32): bv32 { (r0 << 16) | ((r1 >> 16) & 0xffff) }
  function Bottom(r1: bv32): bv32 { r1 << 2 }

  /** The letters in the order they are written. */
  function WordLetters(r0: bv32, r1: bv32): (s: seq<bv8>)
    ensures |s| == 11
  {
    var t, m, u := Top24(r0), Middle(r0, r1), Bottom(r1);
    [Letter(Take(t, 18)), Letter(Take(t, 12)), Letter(Take(t, 6)), Letter(Take(t, 0))]
    + [Letter(Take(m, 18)), Letter(Take(m, 12)), Letter(Take(m, 6)), Letter(Take(m, 0))]
    + [Letter(Take(u, 12)), Letter(Take(u, 6)), Letter(Take(u, 0))]
  }

  lemma Raw0(r0: bv32, r1: bv32)
    ensures (((r0 >> 8) >> 18) & 0x3f) as bv8
      == (if r0 & 0x80000000 != 0 then 32 else 0) | (if r0 & 0x40000000 != 0 then 16 else 0) | (if r0 & 0x20000000 != 0 then 8 else 0)
      | (if r0 & 0x10000000 != 0 then 4 else 0) | (if r0 & 0x08000000 != 0 then 2 else 0) | (if r0 & 0x04000000 != 0 then 1 else 0)
  {}

  lemma Letter0(r0: bv32, r1: bv32)
    ensures Take(Top24(r0), 18) == SixBits(Bits(r0) + Bits(r1), 0)
  {
    Raw0(r0, r1);
    hide Bits32;
    HighConstants();
    assert SixBits(Bits(r0) + Bits(r1), 0) == Six(Bit(r0, 0), Bit(r0, 1), Bit(r0, 2), Bit(r0, 3), Bit(r0, 4), Bit(r0, 5));
  }

  lemma Raw1(r0: bv32, r1: bv32)
    ensures (((r0 >> 8) >> 12) & 0x3f) as bv8
      == (if r0 & 0x02000000 != 0 then 32 else 0) | (if r0 & 0x01000000 != 0 then 16 else 0) | (if r0 & 0x00800000 != 0 then 8 else 0)
      | (if r0 & 0x00400000 != 0 then 4 else 0) | (if r0 & 0x00200000 != 0 then 2 else 0) | (if r0 & 0x00100000 != 0 then 1 else 0)
  {}

  lemma Letter1(r0: bv32, r1: bv32)
    ensures Take(Top24(r0), 12) == SixBits(Bits(r0) + Bits(r1), 1)
  {
    Raw1(r0, r1);
    hide Bits32;
    HighConstants();
    assert SixBits(Bits(r0) + Bits(r1), 1) == Six(Bit(r0, 6), Bit(r0, 7), Bit(r0, 8), Bit(r0, 9), Bit(r0, 10), Bit(r0, 11));
  }

  lemma Raw2(r0: bv32, r1: bv32)
    ensures (((r0 >> 8) >> 6) & 0x3f) as bv8
      == (if r0 & 0x00080000 != 0 then 32 else 0) | (if r0 & 0x00040000 != 0 then 16 else 0) | (if r0 & 0x00020000 != 0 then 8 else 0)
      | (if r0 & 0x00010000 != 0 then 4 else 0) | (if r0 & 0x00008000 != 0 then 2 else 0) | (if r0 & 0x00004000 != 0 then 1 else 0)
  {}

  lemma Letter2(r0: bv32, r1: bv32)
    ensures Take(Top24(r0), 6) == SixBits(Bits(r0) + Bits(r1), 2)
  {
    Raw2(r0, r1);
    hide Bits32;
    HighConstants();
    LowConstants();
    assert SixBits(Bits(r0) + Bits(r1), 2) == Six(Bit(r0, 12), Bit(r0, 13), Bit(r0, 14), Bit(r0, 15), Bit(r0, 16), Bit(r0, 17));
  }

  lemma Raw3(r0: bv32, r1: bv32)
    ensures (((r0 >> 8) >> 0) & 0x3f) as bv8
      == (if r0 & 0x00002000 != 0 then 32 else 0) | (if r0 & 0x00001000 != 0 then 16 else 0) | (if r0 & 0x00000800 != 0 then 8 else 0)
      | (if r0 & 0x00000400 != 0 then 4 else 0) | (if r0 & 0x00000200 != 0 then 2 else 0) | (if r0 & 0x00000100 != 0 then 1 else 0)
  {}

  lemma Letter3(r0: bv32, r1: bv32)
    ensures Take(Top24(r0), 0) == SixBits(Bits(r0) + Bits(r1), 3)
  {
    Raw3(r0, r1);
    hide Bits32;
    LowConstants();
    assert SixBits(Bits(r0) + Bits(r1), 3) == Six(Bit(r0, 18), Bit(r0, 19), Bit(r0, 20), Bit(r0, 21), Bit(r0, 22), Bit(r0, 23));
  }

  lemma Raw4(r0: bv32, r1: bv32)
    ensures ((((r0 << 16) | ((r1 >> 16) & 0xffff)) >> 18) & 0x3f) as bv8
      == (if r0 & 0x00000080 != 0 then 32 else 0) | (if r0 & 0x00000040 != 0 then 16 else 0) | (if r0 & 0x00000020 != 0 then 8 else 0)
      | (if r0 & 0x00000010 != 0 then 4 else 0) | (if r0 & 0x00000008 != 0 then 2 else 0) | (if r0 & 0x00000004 != 0 then 1 else 0)
  {}

  lemma Letter4(r0: bv32, r1: bv32)
    ensures Take(Middle(r0, r1), 18) == SixBits(Bits(r0) + Bits(r1), 4)
  {
    Raw4(r0, r1);
    hide Bits32;
    LowConstants();
    assert SixBits(Bits(r0) + Bits(r1), 4) == Six(Bit(r0, 24), Bit(r0, 25), Bit(r0, 26), Bit(r0, 27), Bit(r0, 28), Bit(r0, 29));
  }

  lemma Raw5(r0: bv32, r1: bv32)
    ensures ((((r0 << 16) | ((r1 >> 16) & 0xffff)) >> 12) & 0x3f) as bv8
      == (if r0 & 0x00000002 != 0 then 32 else 0) | (if r0 & 0x00000001 != 0 then 16 else 0) | (if r1 & 0x80000000 != 0 then 8 else 0)
      | (if r1 & 0x40000000 != 0 then 4 else 0) | (if r1 & 0x20000000 != 0 then 2 else 0) | (if r1 & 0x10000000 != 0 then 1 else 0)
  {}

  lemma Letter5(r0: bv32, r1: bv32)
    ensures Take(Middle(r0, r1), 12) == SixBits(Bits(r0) + Bits(r1), 5)
  {
    Raw5(r0, r1);
    hide Bits32;
    HighConstants();
    LowConstants();
    assert SixBits(Bits(r0) + Bits(r1), 5) == Six(Bit(r0, 30), Bit(r0, 31), Bit(r1, 0), Bit(r1, 1), Bit(r1, 2), Bit(r1, 3));
  }

  lemma Raw6(r0: bv32, r1: bv32)
    ensures ((((r0 << 16) | ((r1 >> 16) & 0xffff)) >> 6) & 0x3f) as bv8
      == (if r1 & 0x08000000 != 0 then 32 else 0) | (if r1 & 0x04000000 != 0 then 16 else 0) | (if r1 & 0x02000000 != 0 then 8 else 0)
      | (if r1 & 0x01000000 != 0 then 4 else 0) | (if r1 & 0x00800000 != 0 then 2 else 0) | (if r1 & 0x00400000 != 0 then 1 else 0)
  {}

  lemma Letter6(r0: bv32, r1: bv32)
    ensures Take(Middle(r0, r1), 6) == SixBits(Bits(r0) + Bits(r1), 6)
  {
    Raw6(r0, r1);
    hide Bits32;
    HighConstants();
    assert SixBits(Bits(r0) + Bits(r1), 6) == Six(Bit(r1, 4), Bit(r1, 5), Bit(r1, 6), Bit(r1, 7), Bit(r1, 8), Bit(r1, 9));
  }

  lemma Raw7(r0: bv32, r1: bv32)
    ensures ((((r0 << 16) | ((r1 >> 16) & 0xffff)) >> 0) & 0x3f) as bv8
      == (if r1 & 0x00200000 != 0 then 32 else 0) | (if r1 & 0x00100000 != 0 then 16 else 0) | (if r1 & 0x00080000 != 0 then 8 else 0)
      | (if r1 & 0x00040000 != 0 then 4 else 0) | (if r1 & 0x00020000 != 0 then 2 else 0) | (if r1 & 0x00010000 != 0 then 1 else 0)
  {}

  lemma Letter7(r0: bv32, r1: bv32)
    ensures Take(Middle(r0, r1), 0) == SixBits(Bits(r0) + Bits(r1), 7)
  {
    Raw7(r0, r1);
    hide Bits32;
    HighConstants();
    assert SixBits(Bits(r0) + Bits(r1), 7) == Six(Bit(r1, 10), Bit(r1, 11), Bit(r1, 12), Bit(r1, 13), Bit(r1, 14), Bit(r1, 15));
  }

  lemma Raw8(r0: bv32, r1: bv32)
    ensures (((r1 << 2) >> 12) & 0x3f) as bv8
      == (if r1 & 0x00008000 != 0 then 32 else 0) | (if r1 & 0x00004000 != 0 then 16 else 0) | (if r1 & 0x00002000 != 0 then 8 else 0)
      | (if r1 & 0x00001000 != 0 then 4 else 0) | (if r1 & 0x00000800 != 0 then 2 else 0) | (if r1 & 0x00000400 != 0 then 1 else 0)
  {}

  lemma Letter8(r0: bv32, r1: bv32)
    ensures Take(Bottom(r1), 12) == SixBits(Bits(r0) + Bits(r1), 8)
  {
    Raw8(r0, r1);
    hide Bits32;
    LowConstants();
    assert SixBits(Bits(r0) + Bits(r1), 8) == Six(Bit(r1, 16), Bit(r1, 17), Bit(r1, 18), Bit(r1, 19), Bit(r1, 20), Bit(r1, 21));
  }

  lemma Raw9(r0: bv32, r1: bv32)
    ensures (((r1 << 2) >> 6) & 0x3f) as bv8
      == (if r1 & 0x00000200 != 0 then 32 else 0) | (if r1 & 0x00000100 != 0 then 16 else 0) | (if r1 & 0x00000080 != 0 then 8 else 0)
      | (if r1 & 0x00000040 != 0 then 4 else 0) | (if r1 & 0x00000020 != 0 then 2 else 0) | (if r1 & 0x00000010 != 0 then 1 else 0)
  {}

  lemma Letter9(r0: bv32, r1: bv32)
    ensures Take(Bottom(r1), 6) == SixBits(Bits(r0) + Bits(r1), 9)
  {
    Raw9(r0, r1);
    hide Bits32;
    LowConstants();
    assert SixBits(Bits(r0) + Bits(r1), 9) == Six(Bit(r1, 22), Bit(r1, 23), Bit(r1, 24), Bit(r1, 25), Bit(r1, 26), Bit(r1, 27));
  }

  lemma Raw10(r0: bv32, r1: bv32)
    ensures (((r1 << 2) >> 0) & 0x3f) as bv8
      == (if r1 & 0x00000008 != 0 then 32 else 0) | (if r1 & 0x00000004 != 0 then 16 else 0) | (if r1 & 0x00000002 != 0 then 8 else 0)
      | (if r1 & 0x00000001 != 0 then 4 else 0)
  {}

  lemma Letter10(r0: bv32, r1: bv32)
    ensures Take(Bottom(r1), 0) == SixBits(Bits(r0) + Bits(r1), 10)
  {
    Raw10(r0, r1);
    hide Bits32;
    LowConstants();
    assert SixBits(Bits(r0) + Bits(r1), 10) == Six(Bit(r1, 28), Bit(r1, 29), Bit(r1, 30), Bit(r1, 31), false, false);
  }

  lemma HighConstants()
    ensures Bits32(0) == 0x80000000 && Bits32(1) == 0x40000000 && Bits32(2) == 0x20000000 && Bits32(3) == 0x10000000
    ensures Bits32(4) == 0x08000000 && Bits32(5) == 0x04000000 && Bits32(6) == 0x02000000 && Bits32(7) == 0x01000000
    ensures Bits32(8) == 0x00800000 && Bits32(9) == 0x00400000 && Bits32(10) == 0x00200000 && Bits32(11) == 0x00100000
    ensures Bits32(12) == 0x00080000 && Bits32(13) == 0x00040000 && Bits32(14) == 0x00020000 && Bits32(15) == 0x00010000
  {}

  lemma LowConstants()
    ensures Bits32(16) == 0x00008000 && Bits32(17) == 0x00004000 && Bits32(18) == 0x00002000 && Bits32(19) == 0x00001000
    ensures Bits32(20) == 0x00000800 && Bits32(21) == 0x00000400 && Bits32(22) == 0x00000200 && Bits32(23) == 0x00000100
    ensures Bits32(24) == 0x00000080 && Bits32(25) == 0x00000040 && Bits32(26) == 0x00000020 && Bits32(27) == 0x00000010
    ensures Bits32(28) == 0x00000008 && Bits32(29) == 0x00000004 && Bits32(30) == 0x00000002 && Bits32(31) == 0x00000001
  {}

  lemma TopLetters(r0: bv32, r1: bv32)
    ensures var t, s := Top24(r0), BlockLetters(Bits(r0) + Bits(r1));
      [Letter(Take(t, 18)), Letter(Take(t, 12)), Letter(Take(t, 6)), Letter(Take(t, 0))] == s[..4]
  {
    hide Letter, Take, SixBits, Top24, Bits;
    Letter0(r0, r1);
    Letter1(r0, r1);
    Letter2(r0, r1);
    Letter3(r0, r1);
  }

  lemma MiddleLetters(r0: bv32, r1: bv32)
    ensures var m, s := Middle(r0, r1), BlockLetters(Bits(r0) + Bits(r1));
      [Letter(Take(m, 18)), Letter(Take(m, 12)), Letter(Take(m, 6)), Letter(Take(m, 0))] == s[4..8]
  {
    hide Letter, Take, SixBits, Middle, Bits;
    Letter4(r0, r1);
    Letter5(r0, r1);
    Letter6(r0, r1);
    Letter7(r0, r1);
  }

  lemma BottomLetters(r0: bv32, r1: bv32)
    ensures var u, s := Bottom(r1), BlockLetters(Bits(r0) + Bits(r1));
      [Letter(Take(u, 12)), Letter(Take(u, 6)), Letter(Take(u, 0))] == s[8..]
  {
    hide Letter, Take, SixBits, Bottom, Bits;
    Letter8(r0, r1);
    Letter9(r0, r1);
    Letter10(r0, r1);
  }

  /** They are the letters of the block. */
  lemma WordLettersAre(r0: bv32, r1: bv32)
    ensures WordLetters(r0, r1) == BlockLetters(Bits(r0) + Bits(r1))
  {
    hide Letter, Take, Top24, Middle, Bottom, Bits, BlockLetters;
    var s := BlockLetters(Bits(r0) + Bits(r1));
    TopLetters(r0, r1);
    MiddleLetters(r0, r1);
    BottomLetters(r0, r1);
    assert s[..4] + s[4..8] + s[8..] == s;
  }
}
