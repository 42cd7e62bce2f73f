/** The four forms of __md5_Transform, each proved to compute the 64 steps of RFC 1321. */
module Md5Forms {
  import opened Bytes
  import opened Rfc1321

  /** MD5_SIZE_OVER_SPEED: which form of the transform is compiled. */
  datatype Form = Unrolled | FourPerLoop | OnePerLoop | OneLoop

  // The tables of the rolled forms, read by index.

  function S(i: nat): (s: nat)
    ensures s <= 32
  {
    match i
    case 0 => 7 case 1 => 12 case 2 => 17 case 3 => 22
    case 4 => 5 case 5 => 9 case 6 => 14 case 7 => 20
    case 8 => 4 case 9 => 11 case 10 => 16 case 11 => 23
    case 12 => 6 case 13 => 10 case 14 => 15 case _ => 21
  }

  function P(i: nat): (k: nat)
    ensures k < 16
  {
    if i < 16 then i else if i < 32 then P2(i - 16) else if i < 48 then P3(i - 32) else P4(i - 48)
  }

  function P2(i: nat): (k: nat)
    ensures k < 16
  {
    match i
    case 0 => 1 case 1 => 6 case 2 => 11 case 3 => 0 case 4 => 5 case 5 => 10 case 6 => 15 case 7 => 4
    case 8 => 9 case 9 => 14 case 10 => 3 case 11 => 8 case 12 => 13 case 13 => 2 case 14 => 7 case _ => 12
  }

  function P3(i: nat): (k: nat)
    ensures k < 16
  {
    match i
    case 0 => 5 case 1 => 8 case 2 => 11 case 3 => 14 case 4 => 1 case 5 => 4 case 6 => 7 case 7 => 10
    case 8 => 13 case 9 => 0 case 10 => 3 case 11 => 6 case 12 => 9 case 13 => 12 case 14 => 15 case _ => 2
  }

  function P4(i: nat): (k: nat)
    ensures k < 16
  {
    match i
    case 0 => 0 case 1 => 7 case 2 => 14 case 3 => 5 case 4 => 12 case 5 => 3 case 6 => 10 case 7 => 1
    case 8 => 8 case 9 => 15 case 10 => 6 case 11 => 13 case 12 => 4 case 13 => 11 case 14 => 2 case _ => 9
  }

  /** The word table is the stride walk of the RFC. */
  lemma WordTable(i: nat)
    requires i < 64
    ensures P(i) == K(i)
  {
    hide P2, P3, P4;
    if 16 <= i < 32 {
      WordRow2(i - 16);
    } else if 32 <= i < 48 {
      WordRow3(i - 32);
    } else if 48 <= i {
      WordRow4(i - 48);
    }
  }

  lemma WordRow2(i: nat)
    requires i < 16
    ensures P2(i) == (5 * (i + 16) + 1) % 16
  {}

  lemma WordRow3(i: nat)
    requires i < 16
    ensures P3(i) == (3 * (i + 32) + 5) % 16
  {}

  lemma WordRow4(i: nat)
    requires i < 16
    ensures P4(i) == (7 * (i + 48)) % 16
  {}

  /** The rotation table, read as the rolled forms read it. */
  lemma ShiftTable(i: nat)
    requires i < 64
    ensures S(4 * (i / 16) + i % 4) == Shift(i)
  {}

  /** A macro's assignments to its first argument. */
  function Macro(a: bv32, f: bv32, x: bv32, s: nat, ac: bv32, b: bv32): bv32
    requires s <= 32
  {
    Rotl(s, a + (f + x + ac)) + b
  }

  /** The same value, as the one-loop form adds it up in temp. */
  function Temp(a: bv32, f: bv32, x: bv32, c: bv32, s: nat, b: bv32): bv32
    requires s <= 32
  {
    Rotl(s, (a + f) + (x + c)) + b
  }

  lemma SumsAgree(a: bv32, f: bv32, x: bv32, t: bv32)
    ensures a + (f + x + t) == a + f + x + t && (a + f) + (x + t) == a + f + x + t
  {}

  lemma Commute(x: bv32, y: bv32)
    ensures x + y == y + x
  {}

  lemma MacroIsMixed(a: bv32, f: bv32, x: bv32, s: nat, t: bv32, b: bv32)
    requires s <= 32
    ensures Macro(a, f, x, s, t, b) == Mixed(a, f, x, t, s, b)
  {
    hide Rotl;
    SumsAgree(a, f, x, t);
    Commute(b, Rotl(s, a + f + x + t));
  }

  lemma TempIsMixed(a: bv32, f: bv32, x: bv32, s: nat, t: bv32, b: bv32)
    requires s <= 32
    ensures Temp(a, f, x, t, s, b) == Mixed(a, f, x, t, s, b)
  {
    hide Rotl;
    SumsAgree(a, f, x, t);
    Commute(b, Rotl(s, a + f + x + t));
  }

  /** One step of the RFC, from the step before it. */
  lemma NextOp(h: Vars, block: seq<bv8>, i: nat)
    requires |block| == 64
    ensures Ops(h, block, i + 1) == Op(Ops(h, block, i), i, block)
  {}

  lemma NoOps(h: Vars, block: seq<bv8>)
    requires |block| == 64
    ensures Ops(h, block, 0) == h
  {}

  /** x holds the words of a block. */
  ghost predicate Decoded(x: array<bv32>, block: seq<bv8>)
    reads x
  {
    |block| == 64 && x.Length == 16 && forall k :: 0 <= k < 16 ==> x[k] == Word(block, k)
  }

  lemma ShiftsOfFour(i: nat)
    requires i % 4 == 0 && i < 64
    ensures Shift(i) == if i < 16 then 7 else if i < 32 then 5 else if i < 48 then 4 else 6
    ensures Shift(i + 1) == if i < 16 then 12 else if i < 32 then 9 else if i < 48 then 11 else 10
    ensures Shift(i + 2) == if i < 16 then 17 else if i < 32 then 14 else if i < 48 then 16 else 15
    ensures Shift(i + 3) == if i < 16 then 22 else if i < 32 then 20 else if i < 48 then 23 else 21
  {}

  // ----- the macros: each assigns its first argument and completes step i

  /** What a macro needs: the registers after i steps, and the operands of step i. */
  ghost predicate Ready(h: Vars, block: seq<bv8>, i: nat, v: Vars, x: bv32, s: nat, ac: bv32) {
    |block| == 64 && v == Ops(h, block, i) && x == Word(block, K(i)) && s == Shift(i) && ac == T(i)
  }

  method FF(a: bv32, b: bv32, c: bv32, d: bv32, x: bv32, s: nat, ac: bv32, ghost i: nat, ghost h: Vars, ghost block: seq<bv8>)
    returns (a': bv32)
    requires 0 <= i < 16 && Ready(h, block, i, Vars(a, b, c, d), x, s, ac)
    ensures Vars(d, a', b, c) == Ops(h, block, i + 1)
  {
    hide F, G, H, I, Word, K, T, Macro, Mixed, Ops;
    a' := Macro(a, F(b, c, d), x, s, ac, b);
    MacroIsMixed(a, F(b, c, d), x, s, ac, b);
    NextOp(h, block, i);
  }

  method GG(a: bv32, b: bv32, c: bv32, d: bv32, x: bv32, s: nat, ac: bv32, ghost i: nat, ghost h: Vars, ghost block: seq<bv8>)
    returns (a': bv32)
    requires 16 <= i < 32 && Ready(h, block, i, Vars(a, b, c, d), x, s, ac)
    ensures Vars(d, a', b, c) == Ops(h, block, i + 1)
  {
    hide F, G, H, I, Word, K, T, Macro, Mixed, Ops;
    a' := Macro(a, G(b, c, d), x, s, ac, b);
    MacroIsMixed(a, G(b, c, d), x, s, ac, b);
    NextOp(h, block, i);
  }

  method HH(a: bv32, b: bv32, c: bv32, d: bv32, x: bv32, s: nat, ac: bv32, ghost i: nat, ghost h: Vars, ghost block: seq<bv8>)
    returns (a': bv32)
    requires 32 <= i < 48 && Ready(h, block, i, Vars(a, b, c, d), x, s, ac)
    ensures Vars(d, a', b, c) == Ops(h, block, i + 1)
  {
    hide F, G, H, I, Word, K, T, Macro, Mixed, Ops;
    a' := Macro(a, H(b, c, d), x, s, ac, b);
    MacroIsMixed(a, H(b, c, d), x, s, ac, b);
    NextOp(h, block, i);
  }

  method II(a: bv32, b: bv32, c: bv32, d: bv32, x: bv32, s: nat, ac: bv32, ghost i: nat, ghost h: Vars, ghost block: seq<bv8>)
    returns (a': bv32)
    requires 48 <= i < 64 && Ready(h, block, i, Vars(a, b, c, d), x, s, ac)
    ensures Vars(d, a', b, c) == Ops(h, block, i + 1)
  {
    hide F, G, H, I, Word, K, T, Macro, Mixed, Ops;
    a' := Macro(a, I(b, c, d), x, s, ac, b);
    MacroIsMixed(a, I(b, c, d), x, s, ac, b);
    NextOp(h, block, i);
  }

  // ----- the four forms

  lemma Operands0()
    ensures K(0) == 0 && Shift(0) == 7 && T(0) == 0xd76aa478
    ensures K(1) == 1 && Shift(1) == 12 && T(1) == 0xe8c7b756
    ensures K(2) == 2 && Shift(2) == 17 && T(2) == 0x242070db
    ensures K(3) == 3 && Shift(3) == 22 && T(3) == 0xc1bdceee
    ensures K(4) == 4 && Shift(4) == 7 && T(4) == 0xf57c0faf
    ensures K(5) == 5 && Shift(5) == 12 && T(5) == 0x4787c62a
    ensures K(6) == 6 && Shift(6) == 17 && T(6) == 0xa8304613
    ensures K(7) == 7 && Shift(7) == 22 && T(7) == 0xfd469501
  {}

  /** Steps 0 to 7 written out. */
  method Unrolled0(x: array<bv32>, a0: bv32, b0: bv32, c0: bv32, d0: bv32, ghost h: Vars, ghost block: seq<bv8>)
    returns (a: bv32, b: bv32, c: bv32, d: bv32)
    requires Decoded(x, block) && Vars(a0, b0, c0, d0) == Ops(h, block, 0)
    ensures Vars(a, b, c, d) == Ops(h, block, 8)
  {
    hide Ops, Word, K, Shift, T;
    Operands0();
    a, b, c, d := a0, b0, c0, d0;
    a := FF(a, b, c, d, x[0], 7, 0xd76aa478, 0, h, block);
    d := FF(d, a, b, c, x[1], 12, 0xe8c7b756, 1, h, block);
    c := FF(c, d, a, b, x[2], 17, 0x242070db, 2, h, block);
    b := FF(b, c, d, a, x[3], 22, 0xc1bdceee, 3, h, block);
    a := FF(a, b, c, d, x[4], 7, 0xf57c0faf, 4, h, block);
    d := FF(d, a, b, c, x[5], 12, 0x4787c62a, 5, h, block);
    c := FF(c, d, a, b, x[6], 17, 0xa8304613, 6, h, block);
    b := FF(b, c, d, a, x[7], 22, 0xfd469501, 7, h, block);
  }

  lemma Operands8()
    ensures K(8) == 8 && Shift(8) == 7 && T(8) == 0x698098d8
    ensures K(9) == 9 && Shift(9) == 12 && T(9) == 0x8b44f7af
    ensures K(10) == 10 && Shift(10) == 17 && T(10) == 0xffff5bb1
    ensures K(11) == 11 && Shift(11) == 22 && T(11) == 0x895cd7be
    ensures K(12) == 12 && Shift(12) == 7 && T(12) == 0x6b901122
    ensures K(13) == 13 && Shift(13) == 12 && T(13) == 0xfd987193
    ensures K(14) == 14 && Shift(14) == 17 && T(14) == 0xa679438e
    ensures K(15) == 15 && Shift(15) == 22 && T(15) == 0x49b40821
  {}

  /** Steps 8 to 15 written out. */
  method Unrolled8(x: array<bv32>, a0: bv32, b0: bv32, c0: bv32, d0: bv32, ghost h: Vars, ghost block: seq<bv8>)
    returns (a: bv32, b: bv32, c: bv32, d: bv32)
    requires Decoded(x, block) && Vars(a0, b0, c0, d0) == Ops(h, block, 8)
    ensures Vars(a, b, c, d) == Ops(h, block, 16)
  {
    hide Ops, Word, K, Shift, T;
    Operands8();
    a, b, c, d := a0, b0, c0, d0;
    a := FF(a, b, c, d, x[8], 7, 0x698098d8, 8, h, block);
    d := FF(d, a, b, c, x[9], 12, 0x8b44f7af, 9, h, block);
    c := FF(c, d, a, b, x[10], 17, 0xffff5bb1, 10, h, block);
    b := FF(b, c, d, a, x[11], 22, 0x895cd7be, 11, h, block);
    a := FF(a, b, c, d, x[12], 7, 0x6b901122, 12, h, block);
    d := FF(d, a, b, c, x[13], 12, 0xfd987193, 13, h, block);
    c := FF(c, d, a, b, x[14], 17, 0xa679438e, 14, h, block);
    b := FF(b, c, d, a, x[15], 22, 0x49b40821, 15, h, block);
  }

  lemma Operands16()
    ensures K(16) == 1 && Shift(16) == 5 && T(16) == 0xf61e2562
    ensures K(17) == 6 && Shift(17) == 9 && T(17) == 0xc040b340
    ensures K(18) == 11 && Shift(18) == 14 && T(18) == 0x265e5a51
    ensures K(19) == 0 && Shift(19) == 20 && T(19) == 0xe9b6c7aa
    ensures K(20) == 5 && Shift(20) == 5 && T(20) == 0xd62f105d
    ensures K(21) == 10 && Shift(21) == 9 && T(21) == 0x2441453
    ensures K(22) == 15 && Shift(22) == 14 && T(22) == 0xd8a1e681
    ensures K(23) == 4 && Shift(23) == 20 && T(23) == 0xe7d3fbc8
  {}

  /** Steps 16 to 23 written out. */
  method Unrolled16(x: array<bv32>, a0: bv32, b0: bv32, c0: bv32, d0: bv32, ghost h: Vars, ghost block: seq<bv8>)
    returns (a: bv32, b: bv32, c: bv32, d: bv32)
    requires Decoded(x, block) && Vars(a0, b0, c0, d0) == Ops(h, block, 16)
    ensures Vars(a, b, c, d) == Ops(h, block, 24)
  {
    hide Ops, Word, K, Shift, T;
    Operands16();
    a, b, c, d := a0, b0, c0, d0;
    a := GG(a, b, c, d, x[1], 5, 0xf61e2562, 16, h, block);
    d := GG(d, a, b, c, x[6], 9, 0xc040b340, 17, h, block);
    c := GG(c, d, a, b, x[11], 14, 0x265e5a51, 18, h, block);
    b := GG(b, c, d, a, x[0], 20, 0xe9b6c7aa, 19, h, block);
    a := GG(a, b, c, d, x[5], 5, 0xd62f105d, 20, h, block);
    d := GG(d, a, b, c, x[10], 9, 0x2441453, 21, h, block);
    c := GG(c, d, a, b, x[15], 14, 0xd8a1e681, 22, h, block);
    b := GG(b, c, d, a, x[4], 20, 0xe7d3fbc8, 23, h, block);
  }

  lemma Operands24()
    ensures K(24) == 9 && Shift(24) == 5 && T(24) == 0x21e1cde6
    ensures K(25) == 14 && Shift(25) == 9 && T(25) == 0xc33707d6
    ensures K(26) == 3 && Shift(26) == 14 && T(26) == 0xf4d50d87
    ensures K(27) == 8 && Shift(27) == 20 && T(27) == 0x455a14ed
    ensures K(28) == 13 && Shift(28) == 5 && T(28) == 0xa9e3e905
    ensures K(29) == 2 && Shift(29) == 9 && T(29) == 0xfcefa3f8
    ensures K(30) == 7 && Shift(30) == 14 && T(30) == 0x676f02d9
    ensures K(31) == 12 && Shift(31) == 20 && T(31) == 0x8d2a4c8a
  {}

  /** Steps 24 to 31 written out. */
  method Unrolled24(x: array<bv32>, a0: bv32, b0: bv32, c0: bv32, d0: bv32, ghost h: Vars, ghost block: seq<bv8>)
    returns (a: bv32, b: bv32, c: bv32, d: bv32)
    requires Decoded(x, block) && Vars(a0, b0, c0, d0) == Ops(h, block, 24)
    ensures Vars(a, b, c, d) == Ops(h, block, 32)
  {
    hide Ops, Word, K, Shift, T;
    Operands24();
    a, b, c, d := a0, b0, c0, d0;
    a := GG(a, b, c, d, x[9], 5, 0x21e1cde6, 24, h, block);
    d := GG(d, a, b, c, x[14], 9, 0xc33707d6, 25, h, block);
    c := GG(c, d, a, b, x[3], 14, 0xf4d50d87, 26, h, block);
    b := GG(b, c, d, a, x[8], 20, 0x455a14ed, 27, h, block);
    a := GG(a, b, c, d, x[13], 5, 0xa9e3e905, 28, h, block);
    d := GG(d, a, b, c, x[2], 9, 0xfcefa3f8, 29, h, block);
    c := GG(c, d, a, b, x[7], 14, 0x676f02d9, 30, h, block);
    b := GG(b, c, d, a, x[12], 20, 0x8d2a4c8a, 31, h, block);
  }

  lemma Operands32()
    ensures K(32) == 5 && Shift(32) == 4 && T(32) == 0xfffa3942
    ensures K(33) == 8 && Shift(33) == 11 && T(33) == 0x8771f681
    ensures K(34) == 11 && Shift(34) == 16 && T(34) == 0x6d9d6122
    ensures K(35) == 14 && Shift(35) == 23 && T(35) == 0xfde5380c
    ensures K(36) == 1 && Shift(36) == 4 && T(36) == 0xa4beea44
    ensures K(37) == 4 && Shift(37) == 11 && T(37) == 0x4bdecfa9
    ensures K(38) == 7 && Shift(38) == 16 && T(38) == 0xf6bb4b60
    ensures K(39) == 10 && Shift(39) == 23 && T(39) == 0xbebfbc70
  {}

  /** Steps 32 to 39 written out. */
  method Unrolled32(x: array<bv32>, a0: bv32, b0: bv32, c0: bv32, d0: bv32, ghost h: Vars, ghost block: seq<bv8>)
    returns (a: bv32, b: bv32, c: bv32, d: bv32)
    requires Decoded(x, block) && Vars(a0, b0, c0, d0) == Ops(h, block, 32)
    ensures Vars(a, b, c, d) == Ops(h, block, 40)
  {
    hide Ops, Word, K, Shift, T;
    Operands32();
    a, b, c, d := a0, b0, c0, d0;
    a := HH(a, b, c, d, x[5], 4, 0xfffa3942, 32, h, block);
    d := HH(d, a, b, c, x[8], 11, 0x8771f681, 33, h, block);
    c := HH(c, d, a, b, x[11], 16, 0x6d9d6122, 34, h, block);
    b := HH(b, c, d, a, x[14], 23, 0xfde5380c, 35, h, block);
    a := HH(a, b, c, d, x[1], 4, 0xa4beea44, 36, h, block);
    d := HH(d, a, b, c, x[4], 11, 0x4bdecfa9, 37, h, block);
    c := HH(c, d, a, b, x[7], 16, 0xf6bb4b60, 38, h, block);
    b := HH(b, c, d, a, x[10], 23, 0xbebfbc70, 39, h, block);
  }

  lemma Operands40()
    ensures K(40) == 13 && Shift(40) == 4 && T(40) == 0x289b7ec6
    ensures K(41) == 0 && Shift(41) == 11 && T(41) == 0xeaa127fa
    ensures K(42) == 3 && Shift(42) == 16 && T(42) == 0xd4ef3085
    ensures K(43) == 6 && Shift(43) == 23 && T(43) == 0x4881d05
    ensures K(44) == 9 && Shift(44) == 4 && T(44) == 0xd9d4d039
    ensures K(45) == 12 && Shift(45) == 11 && T(45) == 0xe6db99e5
    ensures K(46) == 15 && Shift(46) == 16 && T(46) == 0x1fa27cf8
    ensures K(47) == 2 && Shift(47) == 23 && T(47) == 0xc4ac5665
  {}

  /** Steps 40 to 47 written out. */
  method Unrolled40(x: array<bv32>, a0: bv32, b0: bv32, c0: bv32, d0: bv32, ghost h: Vars, ghost block: seq<bv8>)
    returns (a: bv32, b: bv32, c: bv32, d: bv32)
    requires Decoded(x, block) && Vars(a0, b0, c0, d0) == Ops(h, block, 40)
    ensures Vars(a, b, c, d) == Ops(h, block, 48)
  {
    hide Ops, Word, K, Shift, T;
    Operands40();
    a, b, c, d := a0, b0, c0, d0;
    a := HH(a, b, c, d, x[13], 4, 0x289b7ec6, 40, h, block);
    d := HH(d, a, b, c, x[0], 11, 0xeaa127fa, 41, h, block);
    c := HH(c, d, a, b, x[3], 16, 0xd4ef3085, 42, h, block);
    b := HH(b, c, d, a, x[6], 23, 0x4881d05, 43, h, block);
    a := HH(a, b, c, d, x[9], 4, 0xd9d4d039, 44, h, block);
    d := HH(d, a, b, c, x[12], 11, 0xe6db99e5, 45, h, block);
    c := HH(c, d, a, b, x[15], 16, 0x1fa27cf8, 46, h, block);
    b := HH(b, c, d, a, x[2], 23, 0xc4ac5665, 47, h, block);
  }

  lemma Operands48()
    ensures K(48) == 0 && Shift(48) == 6 && T(48) == 0xf4292244
    ensures K(49) == 7 && Shift(49) == 10 && T(49) == 0x432aff97
    ensures K(50) == 14 && Shift(50) == 15 && T(50) == 0xab9423a7
    ensures K(51) == 5 && Shift(51) == 21 && T(51) == 0xfc93a039
    ensures K(52) == 12 && Shift(52) == 6 && T(52) == 0x655b59c3
    ensures K(53) == 3 && Shift(53) == 10 && T(53) == 0x8f0ccc92
    ensures K(54) == 10 && Shift(54) == 15 && T(54) == 0xffeff47d
    ensures K(55) == 1 && Shift(55) == 21 && T(55) == 0x85845dd1
  {}

  /** Steps 48 to 55 written out. */
  method Unrolled48(x: array<bv32>, a0: bv32, b0: bv32, c0: bv32, d0: bv32, ghost h: Vars, ghost block: seq<bv8>)
    returns (a: bv32, b: bv32, c: bv32, d: bv32)
    requires Decoded(x, block) && Vars(a0, b0, c0, d0) == Ops(h, block, 48)
    ensures Vars(a, b, c, d) == Ops(h, block, 56)
  {
    hide Ops, Word, K, Shift, T;
    Operands48();
    a, b, c, d := a0, b0, c0, d0;
    a := II(a, b, c, d, x[0], 6, 0xf4292244, 48, h, block);
    d := II(d, a, b, c, x[7], 10, 0x432aff97, 49, h, block);
    c := II(c, d, a, b, x[14], 15, 0xab9423a7, 50, h, block);
    b := II(b, c, d, a, x[5], 21, 0xfc93a039, 51, h, block);
    a := II(a, b, c, d, x[12], 6, 0x655b59c3, 52, h, block);
    d := II(d, a, b, c, x[3], 10, 0x8f0ccc92, 53, h, block);
    c := II(c, d, a, b, x[10], 15, 0xffeff47d, 54, h, block);
    b := II(b, c, d, a, x[1], 21, 0x85845dd1, 55, h, block);
  }

  lemma Operands56()
    ensures K(56) == 8 && Shift(56) == 6 && T(56) == 0x6fa87e4f
    ensures K(57) == 15 && Shift(57) == 10 && T(57) == 0xfe2ce6e0
    ensures K(58) == 6 && Shift(58) == 15 && T(58) == 0xa3014314
    ensures K(59) == 13 && Shift(59) == 21 && T(59) == 0x4e0811a1
    ensures K(60) == 4 && Shift(60) == 6 && T(60) == 0xf7537e82
    ensures K(61) == 11 && Shift(61) == 10 && T(61) == 0xbd3af235
    ensures K(62) == 2 && Shift(62) == 15 && T(62) == 0x2ad7d2bb
    ensures K(63) == 9 && Shift(63) == 21 && T(63) == 0xeb86d391
  {}

  /** Steps 56 to 63 written out. */
  method Unrolled56(x: array<bv32>, a0: bv32, b0: bv32, c0: bv32, d0: bv32, ghost h: Vars, ghost block: seq<bv8>)
    returns (a: bv32, b: bv32, c: bv32, d: bv32)
    requires Decoded(x, block) && Vars(a0, b0, c0, d0) == Ops(h, block, 56)
    ensures Vars(a, b, c, d) == Ops(h, block, 64)
  {
    hide Ops, Word, K, Shift, T;
    Operands56();
    a, b, c, d := a0, b0, c0, d0;
    a := II(a, b, c, d, x[8], 6, 0x6fa87e4f, 56, h, block);
    d := II(d, a, b, c, x[15], 10, 0xfe2ce6e0, 57, h, block);
    c := II(c, d, a, b, x[6], 15, 0xa3014314, 58, h, block);
    b := II(b, c, d, a, x[13], 21, 0x4e0811a1, 59, h, block);
    a := II(a, b, c, d, x[4], 6, 0xf7537e82, 60, h, block);
    d := II(d, a, b, c, x[11], 10, 0xbd3af235, 61, h, block);
    c := II(c, d, a, b, x[2], 15, 0x2ad7d2bb, 62, h, block);
    b := II(b, c, d, a, x[9], 21, 0xeb86d391, 63, h, block);
  }

  /** Form 0: 64 macros in a row. */
  method UnrolledForm(x: array<bv32>, h: Vars, ghost block: seq<bv8>)
    returns (a: bv32, b: bv32, c: bv32, d: bv32)
    requires Decoded(x, block)
    ensures Vars(a, b, c, d) == Ops(h, block, 64)
  {
    hide Ops, Word;
    NoOps(h, block);
    a, b, c, d := Unrolled0(x, h.a, h.b, h.c, h.d, h, block);
    a, b, c, d := Unrolled8(x, a, b, c, d, h, block);
    a, b, c, d := Unrolled16(x, a, b, c, d, h, block);
    a, b, c, d := Unrolled24(x, a, b, c, d, h, block);
    a, b, c, d := Unrolled32(x, a, b, c, d, h, block);
    a, b, c, d := Unrolled40(x, a, b, c, d, h, block);
    a, b, c, d := Unrolled48(x, a, b, c, d, h, block);
    a, b, c, d := Unrolled56(x, a, b, c, d, h, block);
  }

  /** Form 1: four loops of four macros. */
  method FourPerLoopForm(x: array<bv32>, h: Vars, ghost block: seq<bv8>)
    returns (a: bv32, b: bv32, c: bv32, d: bv32)
    requires Decoded(x, block)
    ensures Vars(a, b, c, d) == Ops(h, block, 64)
  {
    hide Ops;
    NoOps(h, block);
    a, b, c, d := LoopFF(x, h.a, h.b, h.c, h.d, h, block);
    a, b, c, d := LoopGG(x, a, b, c, d, h, block);
    a, b, c, d := LoopHH(x, a, b, c, d, h, block);
    a, b, c, d := LoopII(x, a, b, c, d, h, block);
  }

  method LoopFF(x: array<bv32>, a0: bv32, b0: bv32, c0: bv32, d0: bv32, ghost h: Vars, ghost block: seq<bv8>)
    returns (a: bv32, b: bv32, c: bv32, d: bv32)
    requires Decoded(x, block) && Vars(a0, b0, c0, d0) == Ops(h, block, 0)
    ensures Vars(a, b, c, d) == Ops(h, block, 16)
  {
    hide Ops, Word, T, P, K, Shift;
    a, b, c, d := a0, b0, c0, d0;
    var pc, pp := 0, 0;
    for i := 0 to 4
      invariant pc == pp == 0 + 4 * i && Vars(a, b, c, d) == Ops(h, block, pc)
    {
      ShiftsOfFour(pc);
      WordTable(pp + 0);
      a := FF(a, b, c, d, x[P(pp + 0)], 7, T(pc + 0), pc + 0, h, block);
      WordTable(pp + 1);
      d := FF(d, a, b, c, x[P(pp + 1)], 12, T(pc + 1), pc + 1, h, block);
      WordTable(pp + 2);
      c := FF(c, d, a, b, x[P(pp + 2)], 17, T(pc + 2), pc + 2, h, block);
      WordTable(pp + 3);
      b := FF(b, c, d, a, x[P(pp + 3)], 22, T(pc + 3), pc + 3, h, block);
      pc, pp := pc + 4, pp + 4;
    }
  }

  method LoopGG(x: array<bv32>, a0: bv32, b0: bv32, c0: bv32, d0: bv32, ghost h: Vars, ghost block: seq<bv8>)
    returns (a: bv32, b: bv32, c: bv32, d: bv32)
    requires Decoded(x, block) && Vars(a0, b0, c0, d0) == Ops(h, block, 16)
    ensures Vars(a, b, c, d) == Ops(h, block, 32)
  {
    hide Ops, Word, T, P, K, Shift;
    a, b, c, d := a0, b0, c0, d0;
    var pc, pp := 16, 16;
    for i := 0 to 4
      invariant pc == pp == 16 + 4 * i && Vars(a, b, c, d) == Ops(h, block, pc)
    {
      ShiftsOfFour(pc);
      WordTable(pp + 0);
      a := GG(a, b, c, d, x[P(pp + 0)], 5, T(pc + 0), pc + 0, h, block);
      WordTable(pp + 1);
      d := GG(d, a, b, c, x[P(pp + 1)], 9, T(pc + 1), pc + 1, h, block);
      WordTable(pp + 2);
      c := GG(c, d, a, b, x[P(pp + 2)], 14, T(pc + 2), pc + 2, h, block);
      WordTable(pp + 3);
      b := GG(b, c, d, a, x[P(pp + 3)], 20, T(pc + 3), pc + 3, h, block);
      pc, pp := pc + 4, pp + 4;
    }
  }

  method LoopHH(x: array<bv32>, a0: bv32, b0: bv32, c0: bv32, d0: bv32, ghost h: Vars, ghost block: seq<bv8>)
    returns (a: bv32, b: bv32, c: bv32, d: bv32)
    requires Decoded(x, block) && Vars(a0, b0, c0, d0) == Ops(h, block, 32)
    ensures Vars(a, b, c, d) == Ops(h, block, 48)
  {
    hide Ops, Word, T, P, K, Shift;
    a, b, c, d := a0, b0, c0, d0;
    var pc, pp := 32, 32;
    for i := 0 to 4
      invariant pc == pp == 32 + 4 * i && Vars(a, b, c, d) == Ops(h, block, pc)
    {
      ShiftsOfFour(pc);
      WordTable(pp + 0);
      a := HH(a, b, c, d, x[P(pp + 0)], 4, T(pc + 0), pc + 0, h, block);
      WordTable(pp + 1);
      d := HH(d, a, b, c, x[P(pp + 1)], 11, T(pc + 1), pc + 1, h, block);
      WordTable(pp + 2);
      c := HH(c, d, a, b, x[P(pp + 2)], 16, T(pc + 2), pc + 2, h, block);
      WordTable(pp + 3);
      b := HH(b, c, d, a, x[P(pp + 3)], 23, T(pc + 3), pc + 3, h, block);
      pc, pp := pc + 4, pp + 4;
    }
  }

  method LoopII(x: array<bv32>, a0: bv32, b0: bv32, c0: bv32, d0: bv32, ghost h: Vars, ghost block: seq<bv8>)
    returns (a: bv32, b: bv32, c: bv32, d: bv32)
    requires Decoded(x, block) && Vars(a0, b0, c0, d0) == Ops(h, block, 48)
    ensures Vars(a, b, c, d) == Ops(h, block, 64)
  {
    hide Ops, Word, T, P, K, Shift;
    a, b, c, d := a0, b0, c0, d0;
    var pc, pp := 48, 48;
    for i := 0 to 4
      invariant pc == pp == 48 + 4 * i && Vars(a, b, c, d) == Ops(h, block, pc)
    {
      ShiftsOfFour(pc);
      WordTable(pp + 0);
      a := II(a, b, c, d, x[P(pp + 0)], 6, T(pc + 0), pc + 0, h, block);
      WordTable(pp + 1);
      d := II(d, a, b, c, x[P(pp + 1)], 10, T(pc + 1), pc + 1, h, block);
      WordTable(pp + 2);
      c := II(c, d, a, b, x[P(pp + 2)], 15, T(pc + 2), pc + 2, h, block);
      WordTable(pp + 3);
      b := II(b, c, d, a, x[P(pp + 3)], 21, T(pc + 3), pc + 3, h, block);
      pc, pp := pc + 4, pp + 4;
    }
  }

  /** Form 2: four loops of one macro and a rotation of the registers. */
  method OnePerLoopForm(x: array<bv32>, h: Vars, ghost block: seq<bv8>)
    returns (a: bv32, b: bv32, c: bv32, d: bv32)
    requires Decoded(x, block)
    ensures Vars(a, b, c, d) == Ops(h, block, 64)
  {
    hide Ops, Word, T, P, K, S, Shift;
    NoOps(h, block);
    a, b, c, d := h.a, h.b, h.c, h.d;
    var ps := 0;
    for i := 0 to 16
      invariant Vars(a, b, c, d) == Ops(h, block, i)
    {
      WordTable(i);
      ShiftTable(i);
      a := FF(a, b, c, d, x[P(i)], S(ps + i % 4), T(i), i, h, block);
      var temp := d;
      d := c;
      c := b;
      b := a;
      a := temp;
    }
    ps := ps + 4;
    for i := 16 to 32
      invariant Vars(a, b, c, d) == Ops(h, block, i)
    {
      WordTable(i);
      ShiftTable(i);
      a := GG(a, b, c, d, x[P(i)], S(ps + i % 4), T(i), i, h, block);
      var temp := d;
      d := c;
      c := b;
      b := a;
      a := temp;
    }
    ps := ps + 4;
    for i := 32 to 48
      invariant Vars(a, b, c, d) == Ops(h, block, i)
    {
      WordTable(i);
      ShiftTable(i);
      a := HH(a, b, c, d, x[P(i)], S(ps + i % 4), T(i), i, h, block);
      var temp := d;
      d := c;
      c := b;
      b := a;
      a := temp;
    }
    ps := ps + 4;
    for i := 48 to 64
      invariant Vars(a, b, c, d) == Ops(h, block, i)
    {
      WordTable(i);
      ShiftTable(i);
      a := II(a, b, c, d, x[P(i)], S(ps + i % 4), T(i), i, h, block);
      var temp := d;
      d := c;
      c := b;
      b := a;
      a := temp;
    }
  }

  /** Form 3: one loop, with a switch on the round. */
  method OneLoopForm(x: array<bv32>, h: Vars, ghost block: seq<bv8>)
    returns (a: bv32, b: bv32, c: bv32, d: bv32)
    requires Decoded(x, block)
    ensures Vars(a, b, c, d) == Ops(h, block, 64)
  {
    hide Ops, Word, T, P, K, S, Shift, F, G, H, I, Temp, Mixed;
    NoOps(h, block);
    a, b, c, d := h.a, h.b, h.c, h.d;
    var ps := -4;
    for i := 0 to 64
      invariant ps == 4 * ((i + 15) / 16) - 4
      invariant Vars(a, b, c, d) == Ops(h, block, i)
    {
      if i % 16 == 0 {
        ps := ps + 4;
      }
      WordTable(i);
      ShiftTable(i);
      assert ps == 4 * (i / 16);
      var f;
      match i / 16 {
        case 0 => f := F(b, c, d);
        case 1 => f := G(b, c, d);
        case 2 => f := H(b, c, d);
        case _ => f := I(b, c, d);
      }
      var temp := Temp(a, f, x[P(i)], T(i), S(ps + i % 4), b);
      TempIsMixed(a, f, x[P(i)], S(ps + i % 4), T(i), b);
      NextOp(h, block, i);
      a := d;
      d := c;
      c := b;
      b := temp;
    }
  }
}
