/** The static state of des.c: key schedules, and the caches of key and salt. */
module Des {
  import opened Bytes
  import opened WordBits
  import opened DesTables
  import opened Feistel
  import opened Fips46
  import opened DesMasks
  import opened DesRound
  import opened DesBoxes
  import opened DesKeys
  import opened DesMachine
  import opened Ascii64
  import opened Places
  import opened DesText

  // ----- loading keys and salts

  lemma LoadBytes(b0: bv8, b1: bv8, b2: bv8, b3: bv8)
    ensures var w := LoadBe(b0, b1, b2, b3);
      Byte0(w) == b0 && Byte1(w) == b1 && Byte2(w) == b2 && Byte3(w) == b3
  {}

  lemma LoadBits(b: seq<bv8>)
    requires |b| == 8
    ensures Bits(LoadBe(b[0], b[1], b[2], b[3])) + Bits(LoadBe(b[4], b[5], b[6], b[7])) == ByteBits64(b)
  {
    hide LoadBe, Byte0, Byte1, Byte2, Byte3, Bit, ByteBit;
    var w, w' := LoadBe(b[0], b[1], b[2], b[3]), LoadBe(b[4], b[5], b[6], b[7]);
    LoadBytes(b[0], b[1], b[2], b[3]);
    LoadBytes(b[4], b[5], b[6], b[7]);
    forall i | 0 <= i < 64
      ensures (Bits(w) + Bits(w'))[i] == ByteBit(b[i / 8], i % 8)
    {
      if i < 32 {
        DesMasks.ByteBits(w, i / 8, i % 8);
      } else {
        DesMasks.ByteBits(w', i / 8 - 4, i % 8);
      }
    }
  }

  lemma SaltMasks(i: nat)
    requires i < 24
    ensures Left(Bits32(31 - i)) == Bits32(30 - i)
    ensures i < 23 ==> Right(Bits32(8 + i)) == Bits32(9 + i)
  {
    hide Bits32;
    MaskShift(31 - i);
    MaskShift(8 + i);
  }

  // ----- the zero key

  lemma ZeroSchedule(n: nat)
    requires n < 16
    ensures HoldsKey(0, 0, Fips46.Key(Bits(0) + Bits(0), n))
  {
    hide Bit;
    var key := Bits(0) + Bits(0);
    forall o | 0 <= o < 32 ensures !Bit(0, o) { BitZero(o); }
    AllFalse(key, n + 1);
  }

  lemma ZeroSalt()
    ensures Bits24(0) == SaltBits(0)
  {
    hide Bit;
    forall i | 0 <= i < 32 ensures !Bit(0, i) { BitZero(i); }
  }

  lemma {:induction false} AllFalse(key: BitString, n: nat)
    requires |key| == 64 && forall i :: 0 <= i < 64 ==> !key[i]
    ensures forall i :: 0 <= i < 56 ==> !Fips46.Halves(key, n)[i]
  {
    if n > 0 {
      AllFalse(key, n - 1);
    }
  }

  /** The loop of setup_salt. */
  method ReverseSalt(salt: bv32) returns (saltbits: bv32)
    ensures Bits24(saltbits) == SaltBits(salt)
  {
    hide Bit, Bits32, Left, Right, Or;
    saltbits := 0;
    var saltbit, obit: bv32 := 1, 0x800000;
    FirstMasks();
    forall k | 0 <= k < 32 ensures !Bit(0, k) { BitZero(k); }
    for i := 0 to 24
      invariant i < 24 ==> saltbit == Bits32(31 - i) && obit == Bits32(8 + i)
      invariant forall k :: 8 <= k < 32 ==> Bit(saltbits, k) == (k - 8 < i && Bit(salt, 39 - k))
    {
      SaltMasks(i);
      SaltTest(salt, i);
      if Test(salt, saltbit) {
        forall k | 8 <= k < 32
          ensures Bit(Or(saltbits, obit), k) == (Bit(saltbits, k) || k == 8 + i)
        {
          OrBit(saltbits, obit, k);
          BitOfMask(8 + i, k);
        }
        saltbits := Or(saltbits, obit);
      }
      saltbit := Left(saltbit);
      obit := Right(obit);
    }
    forall i | 0 <= i < 24
      ensures Bits24(saltbits)[i] == SaltBits(salt)[i]
    {
      assert Bit(saltbits, 8 + i) == Bit(salt, 39 - (8 + i));
    }
  }

  class DesState {
    var tables: Tables       // NotBuilt until des_init has run
    var saltbits: bv32
    var old_salt: bv32
    var old_rawkey0: bv32
    var old_rawkey1: bv32
    const en_keysl: array<bv32>
    const en_keysr: array<bv32>
    const de_keysl: array<bv32>
    const de_keysr: array<bv32>
    const output: array<bv8>  // what __des_crypt returns

    ghost predicate Shape() {
      && output.Length == 21
      && en_keysl.Length == en_keysr.Length == de_keysl.Length == de_keysr.Length == 16
      && en_keysl != en_keysr && en_keysl != de_keysl && en_keysl != de_keysr
      && en_keysr != de_keysl && en_keysr != de_keysr && de_keysl != de_keysr
    }

    /** The key the schedules are set up for. */
    function CurrentKey(): (k: BitString)
      reads this
      ensures |k| == 64
    {
      Bits(old_rawkey0) + Bits(old_rawkey1)
    }

    /** The salt saltbits is set up for. */
    function CurrentSalt(): (s: BitString)
      reads this
      ensures |s| == 24
    {
      SaltBits(old_salt)
    }

    /** Row n of the schedules is the round key of FIPS 46-3, forward and in reverse. */
    ghost predicate RoundOk(key: BitString, n: nat)
      requires Shape() && |key| == 64 && n < 16
      reads en_keysl, en_keysr, de_keysl, de_keysr
    {
      && HoldsKey(en_keysl[n], en_keysr[n], Fips46.Key(key, n))
      && de_keysl[15 - n] == en_keysl[n] && de_keysr[15 - n] == en_keysr[n]
    }

    ghost predicate BuiltOk()
      reads this, Objects(tables)
    {
      && (tables.NotBuilt? ==> old_rawkey0 == 0 && old_rawkey1 == 0 && old_salt == 0 && saltbits == 0)
      && (tables.Tables? ==> TablesOk(tables))
      && Objects(tables) !! Mutable()
    }

    /** What the functions below overwrite. */
    ghost function Mutable(): set<object> {
      {this as object, en_keysl, en_keysr, de_keysl, de_keysr, output}
    }

    /** The caches agree with recomputation. */
    ghost predicate Valid()
      reads this, en_keysl, en_keysr, de_keysl, de_keysr, Objects(tables)
    {
      && Shape()
      && BuiltOk()
      && (forall n :: 0 <= n < 16 ==> RoundOk(CurrentKey(), n))
      && Bits24(saltbits) == CurrentSalt()
    }

    /** The tables are built at most once. */
    twostate predicate TablesKept()
      reads this
    {
      if old(tables.Tables?) then tables == old(tables) else fresh(Objects(tables))
    }

    /** Program start: zeroed static memory. */
    constructor ()
      ensures Valid() && tables == NotBuilt
      ensures fresh(Mutable())
    {
      tables := NotBuilt;
      saltbits, old_salt, old_rawkey0, old_rawkey1 := 0, 0, 0, 0;
      en_keysl := new bv32[16](_ => 0);
      en_keysr := new bv32[16](_ => 0);
      de_keysl := new bv32[16](_ => 0);
      de_keysr := new bv32[16](_ => 0);
      output := new bv8[21](_ => 0);
      new;
      hide HoldsKey, Fips46.Key, Bit, TablesOk, SaltBits;
      forall n | 0 <= n < 16
        ensures RoundOk(CurrentKey(), n)
      {
        ZeroSchedule(n);
      }
      hide RoundOk, Bits24, Bits;
      ZeroSalt();
      assert Shape() && BuiltOk();
    }

    /** des_init: builds the tables on the first call only. */
    method Init()
      requires Valid()
      modifies this
      ensures Valid() && tables.Tables?
      ensures unchanged(`saltbits) && unchanged(`old_salt) && unchanged(`old_rawkey0) && unchanged(`old_rawkey1)
      ensures TablesKept()
    {
      hide RoundOk, TablesOk, Bits24, SaltBits, Bits;
      if tables.Tables? {
        return;
      }
      old_rawkey0, old_rawkey1 := 0, 0;
      saltbits := 0;
      old_salt := 0;
      var t := BuildTables();
      tables := t;
      assert TablesOk(tables);
      assert CurrentKey() == old(CurrentKey());
      forall n | 0 <= n < 16 ensures RoundOk(CurrentKey(), n) { assert old(RoundOk(CurrentKey(), n)); }
    }

    /** setup_salt: reverses the low 24 bits of the salt, unless they are already set up. */
    method SetupSalt(salt: bv32)
      requires Valid() && tables.Tables?
      modifies this`saltbits, this`old_salt
      ensures Valid() && CurrentSalt() == SaltBits(salt)
    {
      hide RoundOk, TablesOk, Bits24, SaltBits;
      if salt == old_salt {
        return;
      }
      var b := ReverseSalt(salt);
      assert TablesOk(tables);
      old_salt := salt;
      saltbits := b;
      assert TablesOk(tables);
      assert CurrentKey() == old(CurrentKey());
      forall n | 0 <= n < 16 ensures RoundOk(CurrentKey(), n) { assert old(RoundOk(CurrentKey(), n)); }
    }

    /** do_des: |count| encryptions or decryptions with one initial and one final permutation in all.
        Returns 1 and no block for a count of 0. */
    method DoDes(l_in: bv32, r_in: bv32, count: int) returns (ret: int, l_out: bv32, r_out: bv32)
      requires Valid() && tables.Tables? && -0x8000_0000 < count < 0x8000_0000
      ensures Valid() && ret == if count == 0 then 1 else 0
      ensures count != 0 ==> Bits(l_out) + Bits(r_out) == Fips46.DoDes(CurrentKey(), CurrentSalt(), count, Bits(l_in) + Bits(r_in))
    {
      hide RoundOk, TablesOk, Initial, Final, Bits, Bits24, SaltBits, CoreN, HoldsRounds, Schedule, Reverse;
      l_out, r_out := 0, 0;
      if count == 0 {
        return 1, 0, 0;
      }
      var kl1, kr1 := en_keysl, en_keysr;
      var n := count;
      ghost var keys := Schedule(CurrentKey(), CurrentSalt());
      ForwardRounds();
      if count < 0 {
        n := -count;
        kl1, kr1 := de_keysl, de_keysr;
        keys := Reverse(keys);
      }
      var l, r := PermuteBlock(tables.ip_maskl, tables.ip_maskr, l_in, r_in, true);
      BlockHalves(l_in, r_in, l, r);
      l, r := Iterations(n, kl1, kr1, l, r, keys);
      l_out, r_out := PermuteBlock(tables.fp_maskl, tables.fp_maskr, l, r, false);
      return 0, l_out, r_out;
    }

    /** The loop of do_des. */
    method Iterations(count: nat, kl1: array<bv32>, kr1: array<bv32>, l0: bv32, r0: bv32, ghost keys: seq<RoundKey>) returns (l: bv32, r: bv32)
      requires tables.Tables? && TablesOk(tables) && HoldsRounds(kl1, kr1, keys)
      ensures (Bits(l), Bits(r)) == CoreN(keys, count, (Bits(l0), Bits(r0)))
    {
      hide TablesOk, Bits, CoreN, HoldsRounds;
      l, r := l0, r0;
      var left := count;
      ghost var n, p := left, (Bits(l), Bits(r));
      while left > 0
        invariant 0 <= left <= n
        invariant CoreN(keys, left, (Bits(l), Bits(r))) == CoreN(keys, n, p)
      {
        CoreStep(keys, left, (Bits(l), Bits(r)));
        l, r := SixteenRounds(kl1, kr1, l, r, keys);
        left := left - 1;
      }
      CoreDone(keys, (Bits(l), Bits(r)));
    }

    /** The initial or final permutation by table lookup. */
    method PermuteBlock(tl: array2<bv32>, tr: array2<bv32>, l: bv32, r: bv32, initial: bool) returns (l': bv32, r': bv32)
      requires tables.Tables? && TablesOk(tables)
      requires if initial then tl == tables.ip_maskl && tr == tables.ip_maskr else tl == tables.fp_maskl && tr == tables.fp_maskr
      ensures Bits(l') + Bits(r') == if initial then Initial(Bits(l) + Bits(r)) else Final(Bits(l) + Bits(r))
    {
      hide TableOk, Bits, Lookup, Chunks, BoxesOk, POk, IP, FP;
      ghost var src := if initial then IpSource() else FpSource();
      TableShape(tl, 256, 8, 8, 0, src, 0);
      TableShape(tr, 256, 8, 8, 0, src, 32);
      var x := Chunks(l, r);
      l', r' := Lookup(tl, x), Lookup(tr, x);
      forall o | 0 <= o < 64
        ensures (Bits(l') + Bits(r'))[o] == (Bits(l) + Bits(r))[src[o]]
      {
        PermutedByLookup(tl, tr, src, l, r, o);
      }
    }

    /** Key words kl[n], kr[n] hold the key of round n, and saltbits its salt. */
    ghost predicate HoldsRounds(kl: array<bv32>, kr: array<bv32>, keys: seq<RoundKey>)
      reads this, kl, kr
    {
      && kl.Length == kr.Length == 16 && |keys| == 16
      && forall n :: 0 <= n < 16 ==>
           |keys[n].k| == 48 && HoldsKey(kl[n], kr[n], keys[n].k) && keys[n].salt == Bits24(saltbits)
    }

    /** de_keys is en_keys reversed. */
    lemma ForwardRounds()
      requires Valid()
      ensures HoldsRounds(en_keysl, en_keysr, Schedule(CurrentKey(), CurrentSalt()))
      ensures HoldsRounds(de_keysl, de_keysr, Reverse(Schedule(CurrentKey(), CurrentSalt())))
    {
      hide TablesOk, HoldsKey, Fips46.Key, Bits24, SaltBits, Bits;
      var s := Schedule(CurrentKey(), CurrentSalt());
      forall n | 0 <= n < 16
        ensures HoldsKey(en_keysl[n], en_keysr[n], s[n].k) && HoldsKey(de_keysl[n], de_keysr[n], Reverse(s)[n].k)
      {
        assert RoundOk(CurrentKey(), n) && RoundOk(CurrentKey(), 15 - n);
      }
    }

    /** The sixteen rounds of one iteration and the exchange after them. */
    method SixteenRounds(kl: array<bv32>, kr: array<bv32>, l0: bv32, r0: bv32, ghost keys: seq<RoundKey>) returns (l: bv32, r: bv32)
      requires tables.Tables? && TablesOk(tables) && HoldsRounds(kl, kr, keys)
      ensures (Bits(l), Bits(r)) == Core(keys, (Bits(l0), Bits(r0)))
    {
      hide TablesOk, Bits, F, Xor, HoldsKey, Bits24, Boxes, ExpandLeft, ExpandRight, And, Xor32, BoxesOk, POk, Run;
      BoxTables(tables);
      l, r := l0, r0;
      var f: bv32 := r;
      assert keys[0..] == keys;
      for round := 0 to 16
        invariant round > 0 ==> f == r
        invariant Run(F, Xor, keys[round..], (Bits(l), Bits(r))) == Run(F, Xor, keys, (Bits(l0), Bits(r0)))
      {
        var r48l, r48r := ExpandLeft(r), ExpandRight(r);
        RoundWord(tables.m_sbox, tables.psbox, r, kl[round], kr[round], saltbits, keys[round]);
        f := And(Xor32(r48l, r48r), saltbits);
        r48l := Xor32(r48l, Xor32(f, kl[round]));
        r48r := Xor32(r48r, Xor32(f, kr[round]));
        f := Boxes(tables.m_sbox, tables.psbox, r48l, r48r);
        RunStep(keys, round, (Bits(l), Bits(r)));
        XorWords(l, f);
        f := Xor32(l, f);
        l := r;
        r := f;
      }
      RunEnd(keys, (Bits(l), Bits(r)));
      r := l;
      l := f;
    }

    /** des_setkey. */
    method DesSetKey(key: seq<bv8>)
      requires Valid() && |key| == 8
      modifies this, en_keysl, en_keysr, de_keysl, de_keysr
      ensures Valid() && tables.Tables? && CurrentKey() == ByteBits64(key)
      ensures unchanged(`saltbits) && unchanged(`old_salt) && TablesKept()
    {
      hide DesState.Valid, LoadBe, Bit, ByteBit;
      Init();
      var rawkey0 := LoadBe(key[0], key[1], key[2], key[3]);
      var rawkey1 := LoadBe(key[4], key[5], key[6], key[7]);
      LoadBits(key);
      if rawkey0 | rawkey1 != 0 && rawkey0 == old_rawkey0 && rawkey1 == old_rawkey1 {
        return;  // already set up for this key
      }
      StoreKey(rawkey0, rawkey1);
    }

    /** The key cache and both schedules. */
    method StoreKey(rawkey0: bv32, rawkey1: bv32)
      requires Valid() && tables.Tables?
      modifies this`old_rawkey0, this`old_rawkey1, en_keysl, en_keysr, de_keysl, de_keysr
      ensures Valid() && CurrentKey() == Bits(rawkey0) + Bits(rawkey1)
    {
      hide RoundOk, TablesOk, Bits24, SaltBits, Bits;
      old_rawkey0 := rawkey0;
      old_rawkey1 := rawkey1;
      assert TablesOk(tables);
      FillSchedule();
    }

    /** The rest of des_setkey: both schedules, from the raw key just stored. */
    method FillSchedule()
      requires Shape() && tables.Tables? && TablesOk(tables) && Objects(tables) !! Mutable()
      modifies en_keysl, en_keysr, de_keysl, de_keysr
      ensures TablesOk(tables) && forall n :: 0 <= n < 16 ==> RoundOk(CurrentKey(), n)
    {
      hide TablesOk, TableOk, Lookup, HoldsHalves, HoldsKey, LowHalves, Fips46.Key, KeyChunks, Choose1, Bits, RoundOk;
      KeyTables(tables);
      var x := KeyChunks(old_rawkey0, old_rawkey1);
      var k0, k1 := Lookup(tables.key_perm_maskl, x), Lookup(tables.key_perm_maskr, x);
      Choose1ByLookup(tables.key_perm_maskl, tables.key_perm_maskr, old_rawkey0, old_rawkey1);
      FillRounds(k0, k1, CurrentKey());
    }

    /** The loop of des_setkey. */
    method FillRounds(k0: bv32, k1: bv32, ghost key: BitString)
      requires Shape() && tables.Tables? && TablesOk(tables) && Objects(tables) !! Mutable()
      requires |key| == 64 && HoldsHalves(k0, k1, Choose1(key))
      modifies en_keysl, en_keysr, de_keysl, de_keysr
      ensures TablesOk(tables) && forall n :: 0 <= n < 16 ==> RoundOk(key, n)
    {
      hide TablesOk, HoldsHalves, RoundOk, HoldsKey, Fips46.Key, Choose1;
      var shifts := 0;
      for round := 0 to 16
        invariant shifts == Total(round) && TablesOk(tables)
        invariant forall n :: 0 <= n < round ==> RoundOk(key, n)
      {
        shifts := shifts + KeyShifts(round);
        var kl, kr := RoundKeyWords(k0, k1, shifts, round, key);
        StoreRound(round, kl, kr, key);
      }
    }

    /** The rotated and compressed key words of one round. */
    method RoundKeyWords(k0: bv32, k1: bv32, shifts: nat, ghost round: nat, ghost key: BitString) returns (kl: bv32, kr: bv32)
      requires tables.Tables? && TablesOk(tables) && round < 16 && shifts == Total(round + 1)
      requires |key| == 64 && HoldsHalves(k0, k1, Choose1(key))
      ensures HoldsKey(kl, kr, Fips46.Key(key, round))
    {
      hide TablesOk, TableOk, Lookup, HoldsHalves, HoldsKey, LowHalves, Fips46.Key, Fips46.Halves, CompChunks, Rotated, Choose1;
      KeyTables(tables);
      TotalBound(round + 1);
      var t0, t1 := Rotated(k0, shifts), Rotated(k1, shifts);
      RotatedHalves(k0, k1, key, round + 1);
      var y := CompChunks(t0, t1);
      Choose2ByLookup(tables.comp_maskl, tables.comp_maskr, t0, t1, Fips46.Halves(key, round + 1));
      RoundKeyIs(key, round);
      kl, kr := Lookup(tables.comp_maskl, y), Lookup(tables.comp_maskr, y);
    }

    /** The chained assignments of one round. */
    method StoreRound(round: nat, kl: bv32, kr: bv32, ghost key: BitString)
      requires Shape() && round < 16 && |key| == 64 && HoldsKey(kl, kr, Fips46.Key(key, round))
      requires forall n :: 0 <= n < round ==> RoundOk(key, n)
      modifies en_keysl, en_keysr, de_keysl, de_keysr
      ensures forall n :: 0 <= n < round + 1 ==> RoundOk(key, n)
    {
      hide HoldsKey, Fips46.Key;
      en_keysl[round] := kl;
      de_keysl[15 - round] := kl;
      en_keysr[round] := kr;
      de_keysr[15 - round] := kr;
      forall n | 0 <= n < round ensures RoundOk(key, n) { assert old(RoundOk(key, n)); }
    }

    /** setkey: the low bits of 64 bytes are the key. */
    method SetKey(key: seq<bv8>)
      requires Valid() && |key| == 64
      modifies this, en_keysl, en_keysr, de_keysl, de_keysr
      ensures Valid() && tables.Tables? && CurrentKey() == LowBits(key)
      ensures unchanged(`saltbits) && unchanged(`old_salt) && TablesKept()
    {
      var p := PackBytes(key);
      DesSetKey(p);
    }

    /** encrypt: one encryption, or with a flag one decryption, of a block with a byte for each bit. */
    method Encrypt(block: array<bv8>, flag: int)
      requires Valid() && block.Length == 64 && block !in Mutable() + Objects(tables)
      modifies this, block
      ensures Valid() && tables.Tables? && TablesKept()
      ensures CurrentKey() == old(CurrentKey()) && CurrentSalt() == SaltBits(0)
      ensures block[..] == Encrypted(CurrentKey(), flag, old(block[..]))
    {
      hide DesState.Valid, SaltBits, Bits, LowBits, BitBytes, Fips46.DoDes;
      Init();
      SetupSalt(0);
      var io0, io1 := PackBlock(block);
      var _, l, r := DoDes(io0, io1, if flag != 0 then -1 else 1);
      StoreBlock(block, l, r);
    }

    /** The first loop of encrypt. */
    method PackBlock(block: array<bv8>) returns (io0: bv32, io1: bv32)
      requires Valid() && tables.Tables? && block.Length == 64
      ensures Valid() && Bits(io0) + Bits(io1) == LowBits(block[..])
    {
      hide RoundOk, TablesOk, Bits24, SaltBits, Bits, LowBits;
      io0 := PackWord(block, 0);
      io1 := PackWord(block, 32);
      PackedBlock(block[..], io0, io1);
      assert TablesOk(tables);
    }

    /** The last loop of encrypt. */
    method StoreBlock(block: array<bv8>, l: bv32, r: bv32)
      requires Valid() && tables.Tables? && block.Length == 64 && block !in Mutable() + Objects(tables)
      modifies block
      ensures Valid() && block[..] == BitBytes(Bits(l) + Bits(r))
    {
      hide RoundOk, TablesOk, Bits24, SaltBits, Bits, BitBytes;
      StoreWords(block, l, r);
      assert TablesOk(tables);
      forall n | 0 <= n < 16 ensures RoundOk(CurrentKey(), n) { assert old(RoundOk(CurrentKey(), n)); }
    }

    /** __des_crypt: the C string left in the static output buffer. Key and setting may lie in it too. */
    method DesCrypt(key: Place, setting: Place)
      requires Valid() && key.IsString() && setting.IsString() && setting.Text() != []
      modifies this, en_keysl, en_keysr, de_keysl, de_keysr, output
      ensures Valid() && TablesKept()
      ensures var k, s := old(key.Text()), old(setting.Text());
        && CurrentKey() == ByteBits64(KeyBytes(k, 8)) && CurrentSalt() == SaltBits(SaltWord(s))
        && output[..13] == DesText.DesCrypt(k, s) && output[13] == 0
    {
      hide DesState.Valid, HashBlock, Bits, SaltBits, Fips46.DoDes, ByteBits64, AsciiToBin, BlockLetters, WordLetters;
      ghost var k, s := key.Text(), setting.Text();
      Init();
      CryptKey(key);
      var count := 25;
      ByteAt(setting, 0);
      ByteAt(setting, 1);
      var salt := (AsciiToBin(setting.mem[setting.at + 1]) as bv32 << 6) | AsciiToBin(setting.mem[setting.at]) as bv32;
      SetupSalt(salt);
      var ret, r0, r1 := DoDes(0, 0, count);
      ZeroBits();
      HashBlockIs(k, s);
      WordLettersAre(r0, r1);
      StoreHash(setting, r0, r1);
    }

    /** The copied key becomes the current one. */
    method CryptKey(key: Place)
      requires Valid() && key.IsString()
      modifies this, en_keysl, en_keysr, de_keysl, de_keysr
      ensures Valid() && tables.Tables? && CurrentKey() == ByteBits64(KeyBytes(old(key.Text()), 8))
      ensures unchanged(`saltbits) && unchanged(`old_salt) && TablesKept()
    {
      var keybuf := PackKey(key);
      DesSetKey(keybuf);
    }

    method StoreHash(setting: Place, r0: bv32, r1: bv32)
      requires Valid() && tables.Tables? && setting.IsString() && setting.Text() != []
      modifies output
      ensures Valid() && output[..13] == SaltLetters(old(setting.Text())) + WordLetters(r0, r1) && output[13] == 0
    {
      hide RoundOk, TablesOk, Bits24, SaltBits, Bits, WordLetters;
      WriteHash(output, setting, r0, r1);
      assert TablesOk(tables);
      forall n | 0 <= n < 16 ensures RoundOk(CurrentKey(), n) { assert old(RoundOk(CurrentKey(), n)); }
    }
  }

  /** The salt characters of the output string, which may be those of the setting themselves. */
  method WriteSalt(output: array<bv8>, setting: Place)
    requires output.Length == 21 && setting.IsString() && setting.Text() != []
    modifies output
    ensures output[..2] == SaltLetters(old(setting.Text()))
  {
    hide CText;
    ByteAt(setting, 0);
    ByteAt(setting, 1);
    output[0] := setting.mem[setting.at];
    output[1] := if setting.mem[setting.at + 1] != 0 then setting.mem[setting.at + 1] else output[0];
  }

  /** The output string: two salt characters, the letters and the terminator. */
  method WriteHash(output: array<bv8>, setting: Place, r0: bv32, r1: bv32)
    requires output.Length == 21 && setting.IsString() && setting.Text() != []
    modifies output
    ensures output[..13] == SaltLetters(old(setting.Text())) + WordLetters(r0, r1) && output[13] == 0
  {
    hide Letter, Take, Top24, Middle, Bottom, Coded, CText, SaltLetters;
    ghost var s := setting.Text();
    WriteSalt(output, setting);
    var t := Top24(r0);
    PutLetters(output, 2, [Take(t, 18), Take(t, 12), Take(t, 6), Take(t, 0)]);
    var m := Middle(r0, r1);
    PutLetters(output, 6, [Take(m, 18), Take(m, 12), Take(m, 6), Take(m, 0)]);
    var u := Bottom(r1);
    PutLetters(output, 10, [Take(u, 12), Take(u, 6), Take(u, 0)]);
    LettersInOrder(r0, r1);
    Joined(SaltLetters(s), Coded([Take(t, 18), Take(t, 12), Take(t, 6), Take(t, 0)]),
           Coded([Take(m, 18), Take(m, 12), Take(m, 6), Take(m, 0)]), Coded([Take(u, 12), Take(u, 6), Take(u, 0)]));
    output[13] := 0;
  }

  lemma Joined(a: seq<bv8>, b: seq<bv8>, c: seq<bv8>, d: seq<bv8>)
    ensures a + b + c + d == a + (b + c + d)
  {}

  lemma LettersInOrder(r0: bv32, r1: bv32)
    ensures var t, m, u := Top24(r0), Middle(r0, r1), Bottom(r1);
      WordLetters(r0, r1) == Coded([Take(t, 18), Take(t, 12), Take(t, 6), Take(t, 0)])
           + Coded([Take(m, 18), Take(m, 12), Take(m, 6), Take(m, 0)]) + Coded([Take(u, 12), Take(u, 6), Take(u, 0)])
  {
    hide Letter, Take, Top24, Middle, Bottom, Coded;
    var t, m, u := Top24(r0), Middle(r0, r1), Bottom(r1);
    CodedFour(Take(t, 18), Take(t, 12), Take(t, 6), Take(t, 0));
    CodedFour(Take(m, 18), Take(m, 12), Take(m, 6), Take(m, 0));
    CodedThree(Take(u, 12), Take(u, 6), Take(u, 0));
  }

  lemma CodedFour(a: bv8, b: bv8, c: bv8, d: bv8)
    ensures Coded([a, b, c, d]) == [Letter(a), Letter(b), Letter(c), Letter(d)]
  {
    hide Letter;
  }

  lemma CodedThree(a: bv8, b: bv8, c: bv8)
    ensures Coded([a, b, c]) == [Letter(a), Letter(b), Letter(c)]
  {
    hide Letter;
  }

  function Coded(x: seq<bv8>): (s: seq<bv8>)
    ensures |s| == |x|
  {
    seq(|x|, k requires 0 <= k < |x| => Letter(x[k]))
  }

  /** A group of statements *p++ = ascii64[...]. */
  method PutLetters(output: array<bv8>, p: nat, x: seq<bv8>)
    requires p + |x| <= output.Length
    modifies output
    ensures output[..p + |x|] == old(output[..p]) + Coded(x)
  {
    hide Letter;
    for k := 0 to |x|
      invariant output[..p] == old(output[..p])
      invariant forall n :: 0 <= n < k ==> output[p + n] == Coded(x)[n]
    {
      output[p + k] := Letter(x[k]);
    }
    assert forall n :: 0 <= n < p ==> output[n] == output[..p][n];
    assert forall n :: p <= n < p + |x| ==> output[n] == output[p + (n - p)];
  }

  /** The loops of setkey: bit j of byte i is the low bit of byte 8i + j. */
  method PackBytes(key: seq<bv8>) returns (p: seq<bv8>)
    requires |key| == 64
    ensures |p| == 8 && ByteBits64(p) == LowBits(key)
  {
    hide ByteBit, LowBit, Bits8, ByteOr;
    p := [0, 0, 0, 0, 0, 0, 0, 0];
    for i := 0 to 8
      invariant |p| == 8
      invariant forall n, k :: 0 <= n < i && 0 <= k < 8 ==> ByteBit(p[n], k) == LowBit(key[8 * n + k])
    {
      var byte := PackByte(key, i);
      p := p[i := byte];
    }
    PackedBits(p, key);
  }

  method PackByte(key: seq<bv8>, i: nat) returns (p: bv8)
    requires |key| == 64 && i < 8
    ensures forall k :: 0 <= k < 8 ==> ByteBit(p, k) == LowBit(key[8 * i + k])
  {
    hide ByteBit, LowBit, Bits8, ByteOr;
    p := 0;
    ByteZero();
    for j := 0 to 8
      invariant forall k :: 0 <= k < 8 ==> ByteBit(p, k) == (k < j && LowBit(key[8 * i + k]))
    {
      if LowBit(key[8 * i + j]) {
        SetByteBit(p, j);
        p := ByteOr(p, Bits8(j));
      }
    }
  }

  /** The loop over the key in __des_crypt. */
  method PackKey(key: Place) returns (keybuf: seq<bv8>)
    requires key.IsString()
    ensures keybuf == KeyBytes(key.Text(), 8)
  {
    hide KeyBytes, At, CText;
    ghost var k := key.Text();
    keybuf := [];
    var pos := 0;
    assert k[0..] == k;
    while |keybuf| != 8
      invariant |keybuf| <= 8 && pos <= |k| && keybuf + KeyBytes(k[pos..], 8 - |keybuf|) == KeyBytes(k, 8)
      decreases 8 - |keybuf|
    {
      KeyStep(keybuf, k, pos, 8 - |keybuf|);
      ByteAt(key, pos);
      var c := key.mem[key.at + pos] << 1;
      keybuf := keybuf + [c];
      if c != 0 {
        pos := pos + 1;
      }
    }
    KeyEnd(keybuf, k[pos..]);
  }

  lemma KeyStep(done: seq<bv8>, key: CString, pos: nat, n: nat)
    requires pos <= |key| && n > 0
    ensures var c := At(key, pos) << 1;
      && (c != 0 ==> pos < |key|)
      && done + KeyBytes(key[pos..], n) == done + [c] + KeyBytes(key[if c != 0 then pos + 1 else pos..], n - 1)
  {
    ShiftedNul();
    var rest := key[pos..];
    assert At(rest, 0) == At(key, pos);
    if At(key, pos) << 1 != 0 {
      assert rest[1..] == key[pos + 1..];
    }
  }

  lemma KeyEnd(done: seq<bv8>, key: CString)
    ensures done + KeyBytes(key, 0) == done
  {}

  /** The inner loop of encrypt: 32 low bits as a word. */
  method PackWord(block: array<bv8>, base: nat) returns (w: bv32)
    requires base + 32 <= block.Length
    ensures forall k :: 0 <= k < 32 ==> Bits(w)[k] == LowBit(block[base + k])
  {
    hide Bit, Bits32, LowBit, Or;
    w := 0;
    forall k | 0 <= k < 32 ensures !Bit(w, k) { BitZero(k); }
    for j := 0 to 32
      invariant forall k :: 0 <= k < 32 ==> Bit(w, k) == (k < j && LowBit(block[base + k]))
    {
      if LowBit(block[base + j]) {
        forall k | 0 <= k < 32
          ensures Bit(Or(w, Bits32(j)), k) == (Bit(w, k) || k == j)
        {
          OrBit(w, Bits32(j), k);
          BitOfMask(j, k);
        }
        w := Or(w, Bits32(j));
      }
    }
  }

  /** The last loop of encrypt. */
  method StoreWords(block: array<bv8>, l: bv32, r: bv32)
    requires block.Length == 64
    modifies block
    ensures block[..] == BitBytes(Bits(l) + Bits(r))
  {
    hide Test, Bits32, Bits;
    ghost var want := Bits(l) + Bits(r);
    var io := [l, r];
    for i := 0 to 2
      invariant forall k :: 0 <= k < 32 * i ==> block[k] == if want[k] then 1 else 0
    {
      for j := 0 to 32
        invariant forall k :: 0 <= k < 32 * i + j ==> block[k] == if want[k] then 1 else 0
      {
        BlockBit(l, r, i, j);
        block[32 * i + j] := if Test(io[i], Bits32(j)) then 1 else 0;
      }
    }
    assert block[..] == BitBytes(want);
  }

  lemma BlockBit(l: bv32, r: bv32, i: nat, j: nat)
    requires i < 2 && j < 32
    ensures (Bits(l) + Bits(r))[32 * i + j] == Test([l, r][i], Bits32(j))
  {
    hide Test, Bits32;
  }

  lemma BoxTables(t: Tables)
    requires t.Tables? && TablesOk(t)
    ensures BoxesOk(t.m_sbox) && POk(t.psbox)
    ensures t.m_sbox.Length0 == 4 && t.m_sbox.Length1 == 4096 && t.psbox.Length0 == 4 && t.psbox.Length1 == 256
  {}

  lemma RunStep(keys: seq<RoundKey>, n: nat, p: (BitString, BitString))
    requires n < |keys|
    ensures Run(F, Xor, keys[n..], p) == Run(F, Xor, keys[n + 1..], (p.1, Xor(p.0, F(p.1, keys[n]))))
  {
    hide F, Xor;
    assert keys[n..][1..] == keys[n + 1..];
  }

  lemma RunEnd(keys: seq<RoundKey>, p: (BitString, BitString))
    ensures Run(F, Xor, keys[|keys|..], p) == p
  {}

  lemma CoreStep(keys: seq<RoundKey>, n: nat, p: (BitString, BitString))
    requires n > 0 && Halved(p)
    ensures Halved(Core(keys, p)) && CoreN(keys, n, p) == CoreN(keys, n - 1, Core(keys, p))
  {
    CoreHalved(keys, p);
  }

  lemma CoreDone(keys: seq<RoundKey>, p: (BitString, BitString))
    requires Halved(p)
    ensures CoreN(keys, 0, p) == p
  {}

  lemma BlockHalves(l_in: bv32, r_in: bv32, l: bv32, r: bv32)
    requires Bits(l) + Bits(r) == Initial(Bits(l_in) + Bits(r_in))
    ensures Halve(Initial(Bits(l_in) + Bits(r_in))) == (Bits(l), Bits(r))
  {
    hide Bits, Initial;
    assert (Bits(l) + Bits(r))[..32] == Bits(l) && (Bits(l) + Bits(r))[32..] == Bits(r);
  }

  lemma FirstMasks()
    ensures (1 as bv32) == Bits32(31) && (0x800000 as bv32) == Bits32(8)
  {}

  lemma SaltTest(salt: bv32, i: nat)
    requires i < 24
    ensures Test(salt, Bits32(31 - i)) == Bit(salt, 31 - i)
  {}

  lemma RoundKeyIs(key: BitString, n: nat)
    requires |key| == 64
    ensures Fips46.Key(key, n) == Choose2(Fips46.Halves(key, n + 1))
  {}

  lemma KeyTables(t: Tables)
    requires t.Tables? && TablesOk(t)
    ensures t.key_perm_maskl.Length0 == t.key_perm_maskr.Length0 == t.comp_maskl.Length0 == t.comp_maskr.Length0 == 8
    ensures t.key_perm_maskl.Length1 == t.key_perm_maskr.Length1 == t.comp_maskl.Length1 == t.comp_maskr.Length1 == 128
    ensures TableOk(t.key_perm_maskl, 128, 7, 8, 4, KeySource(), 0) && TableOk(t.key_perm_maskr, 128, 7, 8, 4, KeySource(), 28)
    ensures TableOk(t.comp_maskl, 128, 7, 7, 8, CompSource(), 0) && TableOk(t.comp_maskr, 128, 7, 7, 8, CompSource(), 24)
  {}

  function ByteOr(x: bv8, y: bv8): bv8 { x | y }

  lemma ByteZero()
    ensures forall k :: 0 <= k < 8 ==> !ByteBit(0, k)
  {
    hide Bits8, TestByte;
    forall k | 0 <= k < 8 ensures !ByteBit(0, k) { RawByteZero(Bits8(k)); }
  }

  lemma RawByteZero(m: bv8)
    ensures !TestByte(0, m)
  {}

  lemma SetByteBit(x: bv8, j: nat)
    requires j < 8
    ensures forall k :: 0 <= k < 8 ==> ByteBit(ByteOr(x, Bits8(j)), k) == (ByteBit(x, k) || k == j)
  {
    hide ByteBit, ByteOr, Bits8;
    forall k | 0 <= k < 8
      ensures ByteBit(ByteOr(x, Bits8(j)), k) == (ByteBit(x, k) || k == j)
    {
      SetOne(x, j, k);
    }
  }

  lemma SetOne(x: bv8, j: nat, k: nat)
    requires j < 8 && k < 8
    ensures ByteBit(ByteOr(x, Bits8(j)), k) == (ByteBit(x, k) || k == j)
  {
    hide Bits8, ByteOr, TestByte;
    MaskPair(j, k);
    RawByteOr(x, Bits8(j), Bits8(k));
  }

  lemma MaskPair(j: nat, k: nat)
    requires j < 8 && k < 8
    ensures TestByte(Bits8(j), Bits8(k)) == (j == k)
  {}

  lemma RawByteOr(x: bv8, y: bv8, m: bv8)
    ensures TestByte(ByteOr(x, y), m) == (TestByte(x, m) || TestByte(y, m))
  {}

  lemma PackedBits(p: seq<bv8>, key: seq<bv8>)
    requires |p| == 8 && |key| == 64
    requires forall n, k :: 0 <= n < 8 && 0 <= k < 8 ==> ByteBit(p[n], k) == LowBit(key[8 * n + k])
    ensures ByteBits64(p) == LowBits(key)
  {
    hide ByteBit, LowBit;
    forall i | 0 <= i < 64
      ensures ByteBits64(p)[i] == LowBits(key)[i]
    {
      assert ByteBit(p[i / 8], i % 8) == LowBit(key[8 * (i / 8) + i % 8]);
    }
  }

  lemma PackedBlock(block: seq<bv8>, w0: bv32, w1: bv32)
    requires |block| == 64
    requires forall k :: 0 <= k < 32 ==> Bits(w0)[k] == LowBit(block[k])
    requires forall k :: 0 <= k < 32 ==> Bits(w1)[k] == LowBit(block[32 + k])
    ensures Bits(w0) + Bits(w1) == LowBits(block)
  {
    hide Bits, LowBit;
    forall k | 0 <= k < 64
      ensures (Bits(w0) + Bits(w1))[k] == LowBits(block)[k]
    {
      assert k >= 32 ==> Bits(w1)[k - 32] == LowBit(block[32 + (k - 32)]);
    }
  }

  lemma ZeroBits()
    ensures Bits(0) + Bits(0) == ZeroBlock()
  {
    hide Bit;
    forall i | 0 <= i < 32 ensures !Bit(0, i) { BitZero(i); }
  }

  lemma HashBlockIs(key: CString, setting: CString)
    ensures HashBlock(key, setting)
      == Fips46.DoDes(ByteBits64(KeyBytes(key, 8)), SaltBits(SaltWord(setting)), 25, ZeroBlock())
  {}
}
