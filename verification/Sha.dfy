/** The streaming SHA-1 of libmincrypt, in both of its builds. */
module Sha {
  import opened Bytes
  import opened BlockHash
  import opened Fips180

  /** Which half of the source is compiled. */
  datatype Build = LittleEndian | Generic

  // ----- the helpers of the little-endian build

  function Ror27(val: bv32): bv32 { (val >> 27) | (val << 5) }
  function Ror2(val: bv32): bv32 { (val >> 2) | (val << 30) }
  function Ror31(val: bv32): bv32 { (val >> 31) | (val << 1) }

  function Bswap32(x: bv32): bv32 {
    (x << 24) | ((x & 0xff00) << 8) | ((x >> 8) & 0xff00) | (x >> 24)
  }

  /** The sum a SHA_Fn macro adds to its E. */
  function Mix(e: bv32, rolled: bv32, w: bv32, f: bv32, k: bv32): bv32 { e + (rolled + w + f + k) }

  function Select(b: bv32, c: bv32, d: bv32): bv32 { d ^ (b & (c ^ d)) }
  function Majority(b: bv32, c: bv32, d: bv32): bv32 { (b & c) | (d & (b | c)) }

  // ----- bit-level identities

  lemma RawSelect(x: bv32, y: bv32, z: bv32)
    ensures (z ^ (x & (y ^ z))) == ((x & y) ^ (!x & z))
  {}

  lemma RawMajority(x: bv32, y: bv32, z: bv32)
    ensures ((x & y) | (z & (x | y))) == ((x & y) ^ (x & z) ^ (y & z))
  {}

  lemma SelectIsCh(x: bv32, y: bv32, z: bv32)
    ensures Select(x, y, z) == Ch(x, y, z)
  {
    RawSelect(x, y, z);
  }

  lemma MajorityIsMaj(x: bv32, y: bv32, z: bv32)
    ensures Majority(x, y, z) == Maj(x, y, z)
  {
    RawMajority(x, y, z);
  }

  lemma MixIsSum(e: bv32, r: bv32, w: bv32, f: bv32, k: bv32)
    ensures Mix(e, r, w, f, k) == Sum(r, f, e, k, w)
  {}

  lemma Rotations(x: bv32)
    ensures Ror27(x) == Rotl(5, x) && Ror2(x) == Rotl(30, x) && Ror31(x) == Rotl(1, x)
  {}

  lemma RawSwap(b0: bv8, b1: bv8, b2: bv8, b3: bv8)
    ensures var x := b0 as bv32 | (b1 as bv32 << 8) | (b2 as bv32 << 16) | (b3 as bv32 << 24);
      ((x << 24) | ((x & 0xff00) << 8) | ((x >> 8) & 0xff00) | (x >> 24))
      == ((b0 as bv32 << 24) | (b1 as bv32 << 16) | (b2 as bv32 << 8) | b3 as bv32)
  {}

  lemma SwapIsBigEndian(b0: bv8, b1: bv8, b2: bv8, b3: bv8)
    ensures Bswap32(LoadLe(b0, b1, b2, b3)) == LoadBe(b0, b1, b2, b3)
  {
    RawSwap(b0, b1, b2, b3);
  }

  /** The bit function both builds use in round t, as they spell it. */
  function Mixer(t: nat, b: bv32, c: bv32, d: bv32): bv32 {
    if t < 20 then Select(b, c, d) else if t < 40 then Parity(b, c, d) else if t < 60 then Majority(b, c, d) else Parity(b, c, d)
  }

  lemma MixerIsF(t: nat, b: bv32, c: bv32, d: bv32)
    ensures Mixer(t, b, c, d) == F(t, b, c, d)
  {
    hide Ch, Maj, Select, Majority;
    SelectIsCh(b, c, d);
    MajorityIsMaj(b, c, d);
  }

  /** One SHA_Fn macro followed by a renaming is one round of the standard. */
  lemma MacroIsRound(v: Vars, w: bv32, t: nat)
    ensures Vars(Mix(v.e, Ror27(v.a), w, Mixer(t, v.b, v.c, v.d), K(t)), v.a, Ror2(v.b), v.c, v.d) == Round(v, t, w)
  {
    hide Rotl, Ror27, Ror2, Ror31, Sum, Mix, Mixer, F;
    Rotations(v.a);
    Rotations(v.b);
    MixerIsF(t, v.b, v.c, v.d);
    MixIsSum(v.e, Rotl(5, v.a), w, F(t, v.b, v.c, v.d), K(t));
  }

  /** The sum that ends up in tmp in the generic build's round. */
  function RolledSum(rolled: bv32, e: bv32, w: bv32, f: bv32, k: bv32): bv32 { rolled + e + w + (f + k) }

  lemma RolledSumIsSum(r: bv32, e: bv32, w: bv32, f: bv32, k: bv32)
    ensures RolledSum(r, e, w, f, k) == Sum(r, f, e, k, w)
  {}

  lemma RolledIsRound(v: Vars, w: bv32, t: nat)
    ensures RolledSum(Rotl(5, v.a), v.e, w, Mixer(t, v.b, v.c, v.d), K(t)) == Temp(t, v, w)
  {
    hide Rotl, Mixer, F, RolledSum, Sum;
    MixerIsF(t, v.b, v.c, v.d);
    RolledSumIsSum(Rotl(5, v.a), v.e, w, F(t, v.b, v.c, v.d), K(t));
  }

  // ----- the context

  class ShaContext {
    const build: Build
    const state: array<bv32>
    const buf: array<bv8>
    var count: nat  // a 64-bit counter of bytes
    ghost var message: seq<bv8>  // the bytes given since SHA_init

    ghost predicate Sized()
    {
      state.Length == 5 && buf.Length == 64
    }

    /** The counter agrees with the message and the state and buffer have absorbed it. */
    ghost predicate Valid()
      reads this, state, buf
    {
      && Sized()
      && count == |message| % 0x1_0000_0000_0000_0000
      && Absorbed(Step, H0, message, Hash(), buf[..])
    }

    ghost function Hash(): Vars
      requires Sized()
      reads state
    {
      Vars(state[0], state[1], state[2], state[3], state[4])
    }

    /** SHA_init on a fresh context. */
    constructor Init(build: Build)
      ensures Valid() && message == [] && this.build == build
      ensures fresh(state) && fresh(buf)
    {
      this.build := build;
      state := new bv32[5] [0x67452301, 0xEFCDAB89, 0x98BADCFE, 0x10325476, 0xC3D2E1F0];
      buf := new bv8[64](_ => 0);
      count := 0;
      message := [];
      new;
      assert state[..] == [0x67452301, 0xEFCDAB89, 0x98BADCFE, 0x10325476, 0xC3D2E1F0];
    }

    /** SHA1_Transform of the selected build. */
    method Transform()
      requires Sized()
      modifies state
      ensures Hash() == Compress(old(Hash()), buf[..])
    {
      match build
      case LittleEndian => TransformUnrolled();
      case Generic => TransformRolled();
    }

    /** The rolled build: the whole schedule first, then one round after another. */
    method TransformRolled()
      requires Sized()
      modifies state
      ensures Hash() == Compress(old(Hash()), buf[..])
    {
      hide W, Rounds, Round, Mixer, RolledSum;
      ghost var block, h := buf[..], Hash();
      var w := new bv32[80];
      FillSchedule(w);
      var A, B, C, D, E := state[0], state[1], state[2], state[3], state[4];
      NoRounds(h, block);
      for t := 0 to 80
        invariant Hash() == h && buf[..] == block
        invariant forall k :: 0 <= k < 80 ==> w[k] == W(block, k)
        invariant Vars(A, B, C, D, E) == Rounds(h, block, t)
      {
        var tmp := RolledTemp(t, A, B, C, D, E, w[t]);
        assert w[t] == W(block, t);
        NextRound(h, block, t);
        E := D;
        D := C;
        C := Rotl(30, B);
        B := A;
        A := tmp;
      }
      AddTo(A, B, C, D, E);
      assert buf[..] == block;
    }

    /** The value of tmp in round t of the rolled build. */
    method RolledTemp(t: nat, A: bv32, B: bv32, C: bv32, D: bv32, E: bv32, w: bv32) returns (tmp: bv32)
      ensures Vars(tmp, A, Rotl(30, B), C, D) == Round(Vars(A, B, C, D, E), t, w)
    {
      hide Temp, RolledSum, Select, Majority, Parity, Rotl;
      if t < 20 {
        tmp := RolledSum(Rotl(5, A), E, w, Select(B, C, D), 0x5A827999);
      } else if t < 40 {
        tmp := RolledSum(Rotl(5, A), E, w, Parity(B, C, D), 0x6ED9EBA1);
      } else if t < 60 {
        tmp := RolledSum(Rotl(5, A), E, w, Majority(B, C, D), 0x8F1BBCDC);
      } else {
        tmp := RolledSum(Rotl(5, A), E, w, Parity(B, C, D), 0xCA62C1D6);
      }
      RolledIsRound(Vars(A, B, C, D, E), w, t);
    }

    /** The 16 block words and the 64 words derived from them. */
    method FillSchedule(w: array<bv32>)
      requires Sized() && w.Length == 80
      modifies w
      ensures forall k :: 0 <= k < 80 ==> w[k] == W(buf[..], k)
    {
      hide W, Rotl, Xor4, LoadBe;
      ghost var block := buf[..];
      var p := 0;
      for t := 0 to 16
        invariant p == 4 * t
        invariant forall k :: 0 <= k < t ==> w[k] == W(block, k)
      {
        w[t] := LoadBe(buf[p], buf[p + 1], buf[p + 2], buf[p + 3]);
        p := p + 4;
        EarlyWord(block, t);
      }
      for t := 16 to 80
        invariant forall k :: 0 <= k < t ==> w[k] == W(block, k)
      {
        w[t] := Rotl(1, Xor4(w[t - 3], w[t - 8], w[t - 14], w[t - 16]));
        LateWord(block, t);
      }
    }

    /** What holds between two macro uses of the unrolled build: the schedule so far and t rounds. */
    ghost predicate MacroPre(w: array<bv32>, t: nat, a: bv32, b: bv32, c: bv32, d: bv32, e: bv32, h: Vars)
      reads w, buf
    {
      && Sized() && w.Length == 80 && t <= 80
      && (forall k :: 0 <= k < t ==> w[k] == W(buf[..], k))
      && Vars(a, b, c, d, e) == Rounds(h, buf[..], t)
    }

    /** The first sixteen uses of SHA_F1: stores W[t] and assigns E and B. */
    method F1Load(w: array<bv32>, t: nat, a: bv32, b: bv32, c: bv32, d: bv32, e: bv32, ghost h: Vars)
      returns (e': bv32, b': bv32)
      requires MacroPre(w, t, a, b, c, d, e, h) && 0 <= t < 16
      modifies w
      ensures MacroPre(w, t + 1, e', a, b', c, d, h)
    {
      hide W, Rotl, Xor4, Temp, Mix, Select, Majority, Parity, Bswap32, LoadLe, LoadBe, Ror27, Ror2, Ror31;
      w[t] := Bswap32(LoadLe(buf[4 * t], buf[4 * t + 1], buf[4 * t + 2], buf[4 * t + 3]));
      SwapIsBigEndian(buf[4 * t], buf[4 * t + 1], buf[4 * t + 2], buf[4 * t + 3]);
      EarlyWord(buf[..], t);
      e' := Mix(e, Ror27(a), w[t], Select(b, c, d), 0x5A827999);
      b' := Ror2(b);
      MacroIsRound(Vars(a, b, c, d, e), w[t], t);
      NextRound(h, buf[..], t);
    }

    /** SHA_F1 past the block's own words: stores W[t] and assigns E and B. */
    method F1(w: array<bv32>, t: nat, a: bv32, b: bv32, c: bv32, d: bv32, e: bv32, ghost h: Vars)
      returns (e': bv32, b': bv32)
      requires MacroPre(w, t, a, b, c, d, e, h) && 16 <= t < 20
      modifies w
      ensures MacroPre(w, t + 1, e', a, b', c, d, h)
    {
      hide W, Rotl, Xor4, Temp, Mix, Select, Majority, Parity, Bswap32, LoadLe, LoadBe, Ror27, Ror2, Ror31;
      var x := Xor4(w[t - 3], w[t - 8], w[t - 14], w[t - 16]);
      w[t] := Ror31(x);
      Rotations(x);
      LateWord(buf[..], t);
      e' := Mix(e, Ror27(a), w[t], Select(b, c, d), 0x5A827999);
      b' := Ror2(b);
      MacroIsRound(Vars(a, b, c, d, e), w[t], t);
      NextRound(h, buf[..], t);
    }

    /** SHA_F2: stores W[t] and assigns E and B. */
    method F2(w: array<bv32>, t: nat, a: bv32, b: bv32, c: bv32, d: bv32, e: bv32, ghost h: Vars)
      returns (e': bv32, b': bv32)
      requires MacroPre(w, t, a, b, c, d, e, h) && 20 <= t < 40
      modifies w
      ensures MacroPre(w, t + 1, e', a, b', c, d, h)
    {
      hide W, Rotl, Xor4, Temp, Mix, Select, Majority, Parity, Bswap32, LoadLe, LoadBe, Ror27, Ror2, Ror31;
      var x := Xor4(w[t - 3], w[t - 8], w[t - 14], w[t - 16]);
      w[t] := Ror31(x);
      Rotations(x);
      LateWord(buf[..], t);
      e' := Mix(e, Ror27(a), w[t], Parity(b, c, d), 0x6ED9EBA1);
      b' := Ror2(b);
      MacroIsRound(Vars(a, b, c, d, e), w[t], t);
      NextRound(h, buf[..], t);
    }

    /** SHA_F3: stores W[t] and assigns E and B. */
    method F3(w: array<bv32>, t: nat, a: bv32, b: bv32, c: bv32, d: bv32, e: bv32, ghost h: Vars)
      returns (e': bv32, b': bv32)
      requires MacroPre(w, t, a, b, c, d, e, h) && 40 <= t < 60
      modifies w
      ensures MacroPre(w, t + 1, e', a, b', c, d, h)
    {
      hide W, Rotl, Xor4, Temp, Mix, Select, Majority, Parity, Bswap32, LoadLe, LoadBe, Ror27, Ror2, Ror31;
      var x := Xor4(w[t - 3], w[t - 8], w[t - 14], w[t - 16]);
      w[t] := Ror31(x);
      Rotations(x);
      LateWord(buf[..], t);
      e' := Mix(e, Ror27(a), w[t], Majority(b, c, d), 0x8F1BBCDC);
      b' := Ror2(b);
      MacroIsRound(Vars(a, b, c, d, e), w[t], t);
      NextRound(h, buf[..], t);
    }

    /** SHA_F4: stores W[t] and assigns E and B. */
    method F4(w: array<bv32>, t: nat, a: bv32, b: bv32, c: bv32, d: bv32, e: bv32, ghost h: Vars)
      returns (e': bv32, b': bv32)
      requires MacroPre(w, t, a, b, c, d, e, h) && 60 <= t < 80
      modifies w
      ensures MacroPre(w, t + 1, e', a, b', c, d, h)
    {
      hide W, Rotl, Xor4, Temp, Mix, Select, Majority, Parity, Bswap32, LoadLe, LoadBe, Ror27, Ror2, Ror31;
      var x := Xor4(w[t - 3], w[t - 8], w[t - 14], w[t - 16]);
      w[t] := Ror31(x);
      Rotations(x);
      LateWord(buf[..], t);
      e' := Mix(e, Ror27(a), w[t], Parity(b, c, d), 0xCA62C1D6);
      b' := Ror2(b);
      MacroIsRound(Vars(a, b, c, d, e), w[t], t);
      NextRound(h, buf[..], t);
    }

    /** Rounds 0 to 19: one loop of block words, then the five rounds around the change of macro. */
    method Rounds1(w: array<bv32>, a: bv32, b: bv32, c: bv32, d: bv32, e: bv32, ghost h: Vars)
      returns (A: bv32, B: bv32, C: bv32, D: bv32, E: bv32)
      requires MacroPre(w, 0, a, b, c, d, e, h)
      modifies w
      ensures MacroPre(w, 20, A, B, C, D, E, h)
    {
      hide MacroPre;
      A, B, C, D, E := a, b, c, d, e;
      var t := 0;
      while t < 15
        invariant t % 5 == 0 && t <= 15
        invariant MacroPre(w, t, A, B, C, D, E, h)
      {
        E, B := F1Load(w, t + 0, A, B, C, D, E, h);
        D, A := F1Load(w, t + 1, E, A, B, C, D, h);
        C, E := F1Load(w, t + 2, D, E, A, B, C, h);
        B, D := F1Load(w, t + 3, C, D, E, A, B, h);
        A, C := F1Load(w, t + 4, B, C, D, E, A, h);
        t := t + 5;
      }
      E, B := F1Load(w, t + 0, A, B, C, D, E, h);
      D, A := F1(w, t + 1, E, A, B, C, D, h);
      C, E := F1(w, t + 2, D, E, A, B, C, h);
      B, D := F1(w, t + 3, C, D, E, A, B, h);
      A, C := F1(w, t + 4, B, C, D, E, A, h);
    }

    /** Rounds 20 to 39. */
    method Rounds2(w: array<bv32>, a: bv32, b: bv32, c: bv32, d: bv32, e: bv32, ghost h: Vars)
      returns (A: bv32, B: bv32, C: bv32, D: bv32, E: bv32)
      requires MacroPre(w, 20, a, b, c, d, e, h)
      modifies w
      ensures MacroPre(w, 40, A, B, C, D, E, h)
    {
      hide MacroPre;
      A, B, C, D, E := a, b, c, d, e;
      var t := 20;
      while t < 40
        invariant t % 5 == 0 && 20 <= t <= 40
        invariant MacroPre(w, t, A, B, C, D, E, h)
      {
        E, B := F2(w, t + 0, A, B, C, D, E, h);
        D, A := F2(w, t + 1, E, A, B, C, D, h);
        C, E := F2(w, t + 2, D, E, A, B, C, h);
        B, D := F2(w, t + 3, C, D, E, A, B, h);
        A, C := F2(w, t + 4, B, C, D, E, A, h);
        t := t + 5;
      }
    }

    /** Rounds 40 to 59. */
    method Rounds3(w: array<bv32>, a: bv32, b: bv32, c: bv32, d: bv32, e: bv32, ghost h: Vars)
      returns (A: bv32, B: bv32, C: bv32, D: bv32, E: bv32)
      requires MacroPre(w, 40, a, b, c, d, e, h)
      modifies w
      ensures MacroPre(w, 60, A, B, C, D, E, h)
    {
      hide MacroPre;
      A, B, C, D, E := a, b, c, d, e;
      var t := 40;
      while t < 60
        invariant t % 5 == 0 && 40 <= t <= 60
        invariant MacroPre(w, t, A, B, C, D, E, h)
      {
        E, B := F3(w, t + 0, A, B, C, D, E, h);
        D, A := F3(w, t + 1, E, A, B, C, D, h);
        C, E := F3(w, t + 2, D, E, A, B, C, h);
        B, D := F3(w, t + 3, C, D, E, A, B, h);
        A, C := F3(w, t + 4, B, C, D, E, A, h);
        t := t + 5;
      }
    }

    /** Rounds 60 to 79. */
    method Rounds4(w: array<bv32>, a: bv32, b: bv32, c: bv32, d: bv32, e: bv32, ghost h: Vars)
      returns (A: bv32, B: bv32, C: bv32, D: bv32, E: bv32)
      requires MacroPre(w, 60, a, b, c, d, e, h)
      modifies w
      ensures MacroPre(w, 80, A, B, C, D, E, h)
    {
      hide MacroPre;
      A, B, C, D, E := a, b, c, d, e;
      var t := 60;
      while t < 80
        invariant t % 5 == 0 && 60 <= t <= 80
        invariant MacroPre(w, t, A, B, C, D, E, h)
      {
        E, B := F4(w, t + 0, A, B, C, D, E, h);
        D, A := F4(w, t + 1, E, A, B, C, D, h);
        C, E := F4(w, t + 2, D, E, A, B, C, h);
        B, D := F4(w, t + 3, C, D, E, A, B, h);
        A, C := F4(w, t + 4, B, C, D, E, A, h);
        t := t + 5;
      }
    }

    /** The unrolled build: the five names rotate instead of the five values. */
    method TransformUnrolled()
      requires Sized()
      modifies state
      ensures Hash() == Compress(old(Hash()), buf[..])
    {
      hide MacroPre, Compress;
      ghost var h, block := Hash(), buf[..];
      var w := new bv32[80];
      var A, B, C, D, E := state[0], state[1], state[2], state[3], state[4];
      BeforeMacros(w, h);
      A, B, C, D, E := Rounds1(w, A, B, C, D, E, h);
      A, B, C, D, E := Rounds2(w, A, B, C, D, E, h);
      A, B, C, D, E := Rounds3(w, A, B, C, D, E, h);
      A, B, C, D, E := Rounds4(w, A, B, C, D, E, h);
      AfterMacros(w, A, B, C, D, E, h);
      AddTo(A, B, C, D, E);
      assert buf[..] == block;
    }

    lemma BeforeMacros(w: array<bv32>, h: Vars)
      requires Sized() && w.Length == 80
      ensures MacroPre(w, 0, h.a, h.b, h.c, h.d, h.e, h)
    {}

    lemma AfterMacros(w: array<bv32>, a: bv32, b: bv32, c: bv32, d: bv32, e: bv32, h: Vars)
      requires Sized() && MacroPre(w, 80, a, b, c, d, e, h)
      ensures Compress(h, buf[..]) == Vars(Plus(h.a, a), Plus(h.b, b), Plus(h.c, c), Plus(h.d, d), Plus(h.e, e))
    {}

    /** Adds the working variables to the state. */
    method AddTo(A: bv32, B: bv32, C: bv32, D: bv32, E: bv32)
      requires Sized()
      modifies state
      ensures var h := old(Hash()); Hash() == Vars(Plus(h.a, A), Plus(h.b, B), Plus(h.c, C), Plus(h.d, D), Plus(h.e, E))
    {
      hide Plus;
      state[0] := Plus(state[0], A);
      state[1] := Plus(state[1], B);
      state[2] := Plus(state[2], C);
      state[3] := Plus(state[3], D);
      state[4] := Plus(state[4], E);
    }

    /** SHA_update: whole remaining blocks first in the little-endian build, then byte by byte. */
    method Update(data: seq<bv8>)
      requires Valid() && |data| < 0x8000_0000
      modifies this, state, buf
      ensures Valid() && message == old(message) + data
    {
      hide Absorbed;
      ghost var m := message;
      var i := count % 64;
      CountLow(count, |m|);
      count := (count + |data|) % 0x1_0000_0000_0000_0000;
      assert count == |m + data| % 0x1_0000_0000_0000_0000;
      var p := 0;
      assert m + data[..0] == m;
      if build == LittleEndian {
        i, p := CopyBlocks(i, data, m);
      }
      CopyBytes(i, data, p, m);
      assert data[..|data|] == data;
      message := m + data;
    }

    /** The first loop of the little-endian build: fill and compress while more than a fill is left. */
    method CopyBlocks(at: nat, data: seq<bv8>, ghost m: seq<bv8>) returns (i: nat, p: nat)
      requires Sized() && at == |m| % 64 && Absorbed(Step, H0, m, Hash(), buf[..])
      modifies state, buf
      ensures p <= |data| && i == |m + data[..p]| % 64
      ensures Absorbed(Step, H0, m + data[..p], Hash(), buf[..])
    {
      hide Absorbed, Compress;
      i, p := at, 0;
      assert m + data[..0] == m;
      var len := |data|;
      while len > 64 - i
        invariant 0 <= p <= |data| && p + len == |data| && i == |m + data[..p]| % 64
        invariant Absorbed(Step, H0, m + data[..p], Hash(), buf[..])
      {
        var n := 64 - i;
        ghost var h0, b0, p0 := Hash(), buf[..], p;
        Put(buf, i, data[p..p + n]);
        len := len - n;
        p := p + n;
        Transform();
        assert m + data[..p] == m + data[..p0] + data[p0..p];
        Filled(Step, H0, m + data[..p0], data[p0..p], h0, b0, buf[..]);
        i := 0;
      }
    }

    /** The byte loop both builds share. */
    method CopyBytes(at: nat, data: seq<bv8>, from: nat, ghost m: seq<bv8>)
      requires Sized() && from <= |data| && at == |m + data[..from]| % 64
      requires Absorbed(Step, H0, m + data[..from], Hash(), buf[..])
      modifies state, buf
      ensures Absorbed(Step, H0, m + data[..|data|], Hash(), buf[..])
    {
      hide Absorbed, Compress;
      var i, p := at, from;
      while p < |data|
        invariant 0 <= p <= |data| && i == |m + data[..p]| % 64
        invariant Absorbed(Step, H0, m + data[..p], Hash(), buf[..])
      {
        ghost var h0, b0 := Hash(), buf[..];
        buf[i] := data[p];
        assert m + data[..p + 1] == m + data[..p] + [data[p]];
        if i + 1 == 64 {
          Transform();
          Filled(Step, H0, m + data[..p], [data[p]], h0, b0, buf[..]);
          i := 0;
        } else {
          Stored(Step, H0, m + data[..p], [data[p]], h0, b0, buf[..]);
          i := i + 1;
        }
        p := p + 1;
      }
    }

    /** SHA_final: pads, appends the bit count and leaves the digest at the front of the buffer. */
    method Final() returns (digest: seq<bv8>)
      requires Valid()
      modifies this, state, buf
      ensures digest == Sha1(old(message)) && buf[..20] == digest
    {
      hide Absorbed, Chain, Shr8, Be64, ZeroBytes, Zeros, WordBytes, Pad;
      ghost var m := message;
      var cnt := count * 8 % 0x1_0000_0000_0000_0000;
      BitCount(count, |m|);
      Update([0x80]);
      PadZeros(m);
      AppendCount(cnt);
      IsPadded(m, message, cnt);
      Finished(Step, H0, message, Hash(), buf[..]);
      PutWords();
      digest := buf[..20];
    }

    /** The loop that appends zero bytes until the count fits at the end of a block. */
    method PadZeros(ghost m: seq<bv8>)
      requires Valid() && message == m + [0x80]
      modifies this, state, buf
      ensures Valid() && message == m + [0x80] + ZeroBytes(Zeros(|m|))
    {
      hide Absorbed, ZeroBytes, Zeros, ShaContext.Valid;
      ghost var z := 0;
      NoZeros(m + [0x80]);
      LowBits(|m| + 1);
      while count % 64 != 56
        invariant Valid() && z <= Zeros(|m|)
        invariant message == m + [0x80] + ZeroBytes(z)
        invariant count % 64 == (|m| + 1 + z) % 64
        decreases Zeros(|m|) - z
      {
        NotYet(|m|, z);
        Update([0]);
        z := z + 1;
        OneMoreZero(z);
        assert message == m + [0x80] + ZeroBytes(z);
        LowBits(|m| + 1 + z);
      }
      EnoughZeros(|m|, z);
    }

    lemma LowBits(len: nat)
      requires Valid() && |message| == len
      ensures count % 64 == len % 64
    {
      CountLow(count, len);
    }

    /** The loop that appends the bit count, most significant byte first. */
    method AppendCount(cnt: nat)
      requires Valid()
      modifies this, state, buf
      ensures Valid() && message == old(message) + Be64(cnt)
    {
      hide Absorbed, Shr8, Be64, ShaContext.Valid;
      ghost var padded := message;
      assert Be64(cnt)[..0] == [];
      for i := 0 to 8
        invariant Valid() && message == padded + Be64(cnt)[..i]
      {
        var tmp := (Shr8(cnt, 7 - i) % 256) as bv8;
        Update([tmp]);
        Be64Byte(cnt, i);
        assert Be64(cnt)[..i + 1] == Be64(cnt)[..i] + [Be64(cnt)[i]];
      }
      assert Be64(cnt)[..8] == Be64(cnt);
    }

    /** Stores the state words big-endian at the front of the buffer. */
    method PutWords()
      requires Sized()
      modifies buf
      ensures var h := Hash();
        buf[..20] == WordBytes(h.a) + WordBytes(h.b) + WordBytes(h.c) + WordBytes(h.d) + WordBytes(h.e)
    {
      hide WordBytes, AllBytes;
      NoWords();
      for i := 0 to 5
        invariant buf[..4 * i] == AllBytes(state[..i])
      {
        BytesPerWord(state[i]);
        OneMoreWord(state[..], i);
        PutNext(buf, 4 * i, WordBytes(state[i]));
      }
      assert state[..5] == [state[0], state[1], state[2], state[3], state[4]];
      FiveWords(state[0], state[1], state[2], state[3], state[4]);
    }
  }

  ghost function AllBytes(w: seq<bv32>): seq<bv8> {
    if w == [] then [] else AllBytes(w[..|w| - 1]) + WordBytes(w[|w| - 1])
  }

  lemma NoWords()
    ensures AllBytes([]) == []
  {}

  lemma OneMoreWord(w: seq<bv32>, i: nat)
    requires i < |w|
    ensures AllBytes(w[..i + 1]) == AllBytes(w[..i]) + WordBytes(w[i])
  {
    hide WordBytes;
    assert w[..i + 1][..i] == w[..i];
  }

  lemma FiveWords(a: bv32, b: bv32, c: bv32, d: bv32, e: bv32)
    ensures AllBytes([a, b, c, d, e]) == WordBytes(a) + WordBytes(b) + WordBytes(c) + WordBytes(d) + WordBytes(e)
  {
    hide WordBytes, AllBytes;
    var w := [a, b, c, d, e];
    NoWords();
    OneMoreWord(w, 0);
    OneMoreWord(w, 1);
    OneMoreWord(w, 2);
    OneMoreWord(w, 3);
    OneMoreWord(w, 4);
    assert w[..0] == [] && w[..5] == w;
  }

  /** The counter wraps at a multiple of the block size, so its low bits are those of the length. */
  lemma CountLow(count: nat, len: nat)
    requires count == len % 0x1_0000_0000_0000_0000
    ensures count % 64 == len % 64
  {
    var q := len / 0x1_0000_0000_0000_0000;
    assert len == 0x1_0000_0000_0000_0000 * q + count;
    AddBlocks(count, 0x400_0000_0000_0000 * q);
  }

  lemma Be64Byte(x: nat, i: nat)
    requires i < 8
    ensures Be64(x)[i] == (Shr8(x, 7 - i) % 256) as bv8
  {
    assert Digits(x)[i] == Shr8(x, 7 - i) % 256;
  }

  lemma BitCount(count: nat, len: nat)
    requires count == len % 0x1_0000_0000_0000_0000
    ensures count * 8 % 0x1_0000_0000_0000_0000 == 8 * len % 0x1_0000_0000_0000_0000
  {}

  lemma IsPadded(m: seq<bv8>, p: seq<bv8>, cnt: nat)
    requires cnt == 8 * |m| % 0x1_0000_0000_0000_0000
    requires p == m + [0x80] + ZeroBytes(Zeros(|m|)) + Be64(cnt)
    ensures p == Pad(m) && |p| % 64 == 0
  {}

  lemma BytesPerWord(w: bv32)
    ensures |WordBytes(w)| == 4
  {}

  /** SHA: the digest of a buffer in one call. */
  method DigestOf(build: Build, data: seq<bv8>) returns (digest: seq<bv8>)
    requires |data| < 0x8000_0000
    ensures digest == Sha1(data)
  {
    hide Absorbed, Sha1;
    var ctx := new ShaContext.Init(build);
    ctx.Update(data);
    assert [] + data == data;
    digest := ctx.Final();
  }

  lemma EarlyWord(block: seq<bv8>, t: nat)
    requires |block| == 64 && t < 16
    ensures W(block, t) == LoadBe(block[4 * t], block[4 * t + 1], block[4 * t + 2], block[4 * t + 3])
  {}

  lemma LateWord(block: seq<bv8>, t: nat)
    requires |block| == 64 && t >= 16
    ensures W(block, t) == Rotl(1, Xor4(W(block, t - 3), W(block, t - 8), W(block, t - 14), W(block, t - 16)))
  {}

  lemma NoRounds(h: Vars, block: seq<bv8>)
    requires |block| == 64
    ensures Rounds(h, block, 0) == h
  {}

  lemma NextRound(h: Vars, block: seq<bv8>, t: nat)
    requires |block| == 64
    ensures Rounds(h, block, t + 1) == Round(Rounds(h, block, t), t, W(block, t))
  {}
}
