/** The tables of FIPS 46-3, as des.c has them. Table entries count bits from 1. */
module DesTables {

  /** The initial permutation. */
  function IP(i: nat): (r: nat)
    ensures 1 <= r <= 64
  {
    if i < 16 then IP0(i) else if i < 32 then IP1(i - 16) else if i < 48 then IP2(i - 32) else IP3(i - 48)
  }

  function IP0(i: nat): (r: nat)
    ensures 1 <= r <= 64
  {
    match i
    case 0 => 58 case 1 => 50 case 2 => 42 case 3 => 34 case 4 => 26 case 5 => 18 case 6 => 10 case 7 => 2
    case 8 => 60 case 9 => 52 case 10 => 44 case 11 => 36 case 12 => 28 case 13 => 20 case 14 => 12 case _ => 4
  }

  function IP1(i: nat): (r: nat)
    ensures 1 <= r <= 64
  {
    match i
    case 0 => 62 case 1 => 54 case 2 => 46 case 3 => 38 case 4 => 30 case 5 => 22 case 6 => 14 case 7 => 6
    case 8 => 64 case 9 => 56 case 10 => 48 case 11 => 40 case 12 => 32 case 13 => 24 case 14 => 16 case _ => 8
  }

  function IP2(i: nat): (r: nat)
    ensures 1 <= r <= 64
  {
    match i
    case 0 => 57 case 1 => 49 case 2 => 41 case 3 => 33 case 4 => 25 case 5 => 17 case 6 => 9 case 7 => 1
    case 8 => 59 case 9 => 51 case 10 => 43 case 11 => 35 case 12 => 27 case 13 => 19 case 14 => 11 case _ => 3
  }

  function IP3(i: nat): (r: nat)
    ensures 1 <= r <= 64
  {
    match i
    case 0 => 61 case 1 => 53 case 2 => 45 case 3 => 37 case 4 => 29 case 5 => 21 case 6 => 13 case 7 => 5
    case 8 => 63 case 9 => 55 case 10 => 47 case 11 => 39 case 12 => 31 case 13 => 23 case 14 => 15 case _ => 7
  }

  /** Its inverse, as the standard tabulates it. The source computes it from IP. */
  function FP(i: nat): (r: nat)
    ensures 1 <= r <= 64
  {
    if i < 16 then FP0(i) else if i < 32 then FP1(i - 16) else if i < 48 then FP2(i - 32) else FP3(i - 48)
  }

  function FP0(i: nat): (r: nat)
    ensures 1 <= r <= 64
  {
    match i
    case 0 => 40 case 1 => 8 case 2 => 48 case 3 => 16 case 4 => 56 case 5 => 24 case 6 => 64 case 7 => 32
    case 8 => 39 case 9 => 7 case 10 => 47 case 11 => 15 case 12 => 55 case 13 => 23 case 14 => 63 case _ => 31
  }

  function FP1(i: nat): (r: nat)
    ensures 1 <= r <= 64
  {
    match i
    case 0 => 38 case 1 => 6 case 2 => 46 case 3 => 14 case 4 => 54 case 5 => 22 case 6 => 62 case 7 => 30
    case 8 => 37 case 9 => 5 case 10 => 45 case 11 => 13 case 12 => 53 case 13 => 21 case 14 => 61 case _ => 29
  }

  function FP2(i: nat): (r: nat)
    ensures 1 <= r <= 64
  {
    match i
    case 0 => 36 case 1 => 4 case 2 => 44 case 3 => 12 case 4 => 52 case 5 => 20 case 6 => 60 case 7 => 28
    case 8 => 35 case 9 => 3 case 10 => 43 case 11 => 11 case 12 => 51 case 13 => 19 case 14 => 59 case _ => 27
  }

  function FP3(i: nat): (r: nat)
    ensures 1 <= r <= 64
  {
    match i
    case 0 => 34 case 1 => 2 case 2 => 42 case 3 => 10 case 4 => 50 case 5 => 18 case 6 => 58 case 7 => 26
    case 8 => 33 case 9 => 1 case 10 => 41 case 11 => 9 case 12 => 49 case 13 => 17 case 14 => 57 case _ => 25
  }

  /** The E bit-selection table. The source has shifts and masks instead. */
  function E(i: nat): (r: nat)
    ensures 1 <= r <= 32
  {
    if i < 12 then E0(i) else if i < 24 then E1(i - 12) else if i < 36 then E2(i - 24) else E3(i - 36)
  }

  function E0(i: nat): (r: nat)
    ensures 1 <= r <= 32
  {
    match i
    case 0 => 32 case 1 => 1 case 2 => 2 case 3 => 3 case 4 => 4 case 5 => 5 case 6 => 4 case 7 => 5
    case 8 => 6 case 9 => 7 case 10 => 8 case _ => 9
  }

  function E1(i: nat): (r: nat)
    ensures 1 <= r <= 32
  {
    match i
    case 0 => 8 case 1 => 9 case 2 => 10 case 3 => 11 case 4 => 12 case 5 => 13 case 6 => 12 case 7 => 13
    case 8 => 14 case 9 => 15 case 10 => 16 case _ => 17
  }

  function E2(i: nat): (r: nat)
    ensures 1 <= r <= 32
  {
    match i
    case 0 => 16 case 1 => 17 case 2 => 18 case 3 => 19 case 4 => 20 case 5 => 21 case 6 => 20 case 7 => 21
    case 8 => 22 case 9 => 23 case 10 => 24 case _ => 25
  }

  function E3(i: nat): (r: nat)
    ensures 1 <= r <= 32
  {
    match i
    case 0 => 24 case 1 => 25 case 2 => 26 case 3 => 27 case 4 => 28 case 5 => 29 case 6 => 28 case 7 => 29
    case 8 => 30 case 9 => 31 case 10 => 32 case _ => 1
  }

  /** The permutation P (pbox). */
  function P(i: nat): (r: nat)
    ensures 1 <= r <= 32
  {
    if i < 16 then P0(i) else P1(i - 16)
  }

  function P0(i: nat): (r: nat)
    ensures 1 <= r <= 32
  {
    match i
    case 0 => 16 case 1 => 7 case 2 => 20 case 3 => 21 case 4 => 29 case 5 => 12 case 6 => 28 case 7 => 17
    case 8 => 1 case 9 => 15 case 10 => 23 case 11 => 26 case 12 => 5 case 13 => 18 case 14 => 31 case _ => 10
  }

  function P1(i: nat): (r: nat)
    ensures 1 <= r <= 32
  {
    match i
    case 0 => 2 case 1 => 8 case 2 => 24 case 3 => 14 case 4 => 32 case 5 => 27 case 6 => 3 case 7 => 9
    case 8 => 19 case 9 => 13 case 10 => 30 case 11 => 6 case 12 => 22 case 13 => 11 case 14 => 4 case _ => 25
  }

  /** Permuted choice 1 (key_perm). */
  function PC1(i: nat): (r: nat)
    ensures 1 <= r <= 63
  {
    if i < 14 then PC10(i) else if i < 28 then PC11(i - 14) else if i < 42 then PC12(i - 28) else PC13(i - 42)
  }

  function PC10(i: nat): (r: nat)
    ensures 1 <= r <= 63
  {
    match i
    case 0 => 57 case 1 => 49 case 2 => 41 case 3 => 33 case 4 => 25 case 5 => 17 case 6 => 9 case 7 => 1
    case 8 => 58 case 9 => 50 case 10 => 42 case 11 => 34 case 12 => 26 case _ => 18
  }

  function PC11(i: nat): (r: nat)
    ensures 1 <= r <= 63
  {
    match i
    case 0 => 10 case 1 => 2 case 2 => 59 case 3 => 51 case 4 => 43 case 5 => 35 case 6 => 27 case 7 => 19
    case 8 => 11 case 9 => 3 case 10 => 60 case 11 => 52 case 12 => 44 case _ => 36
  }

  function PC12(i: nat): (r: nat)
    ensures 1 <= r <= 63
  {
    match i
    case 0 => 63 case 1 => 55 case 2 => 47 case 3 => 39 case 4 => 31 case 5 => 23 case 6 => 15 case 7 => 7
    case 8 => 62 case 9 => 54 case 10 => 46 case 11 => 38 case 12 => 30 case _ => 22
  }

  function PC13(i: nat): (r: nat)
    ensures 1 <= r <= 63
  {
    match i
    case 0 => 14 case 1 => 6 case 2 => 61 case 3 => 53 case 4 => 45 case 5 => 37 case 6 => 29 case 7 => 21
    case 8 => 13 case 9 => 5 case 10 => 28 case 11 => 20 case 12 => 12 case _ => 4
  }

  /** Permuted choice 2 (comp_perm). */
  function PC2(i: nat): (r: nat)
    ensures 1 <= r <= 56
  {
    if i < 12 then PC20(i) else if i < 24 then PC21(i - 12) else if i < 36 then PC22(i - 24) else PC23(i - 36)
  }

  function PC20(i: nat): (r: nat)
    ensures 1 <= r <= 56
  {
    match i
    case 0 => 14 case 1 => 17 case 2 => 11 case 3 => 24 case 4 => 1 case 5 => 5 case 6 => 3 case 7 => 28
    case 8 => 15 case 9 => 6 case 10 => 21 case _ => 10
  }

  function PC21(i: nat): (r: nat)
    ensures 1 <= r <= 56
  {
    match i
    case 0 => 23 case 1 => 19 case 2 => 12 case 3 => 4 case 4 => 26 case 5 => 8 case 6 => 16 case 7 => 7
    case 8 => 27 case 9 => 20 case 10 => 13 case _ => 2
  }

  function PC22(i: nat): (r: nat)
    ensures 1 <= r <= 56
  {
    match i
    case 0 => 41 case 1 => 52 case 2 => 31 case 3 => 37 case 4 => 47 case 5 => 55 case 6 => 30 case 7 => 40
    case 8 => 51 case 9 => 45 case 10 => 33 case _ => 48
  }

  function PC23(i: nat): (r: nat)
    ensures 1 <= r <= 56
  {
    match i
    case 0 => 44 case 1 => 49 case 2 => 39 case 3 => 56 case 4 => 34 case 5 => 53 case 6 => 46 case 7 => 42
    case 8 => 50 case 9 => 36 case 10 => 29 case _ => 32
  }

  /** The left shifts of the key schedule (key_shifts). */
  function KeyShifts(i: nat): (r: nat)
    ensures 1 <= r <= 2
  {
    match i
    case 0 => 1 case 1 => 1 case 2 => 2 case 3 => 2 case 4 => 2 case 5 => 2 case 6 => 2 case 7 => 2
    case 8 => 1 case 9 => 2 case 10 => 2 case 11 => 2 case 12 => 2 case 13 => 2 case 14 => 2 case _ => 1
  }

  /** The selection functions S1..S8 (sbox), by box and by row * 16 + column. */
  function Sbox(n: nat, x: bv8): bv4 {
    match n
    case 0 => S1(x) case 1 => S2(x) case 2 => S3(x) case 3 => S4(x)
    case 4 => S5(x) case 5 => S6(x) case 6 => S7(x) case _ => S8(x)
  }

  function S1(x: bv8): bv4 {
    if x < 16 then S1Row0(x) else if x < 32 then S1Row1(x - 16) else if x < 48 then S1Row2(x - 32) else S1Row3(x - 48)
  }

  function S1Row0(x: bv8): bv4 {
    match x
    case 0 => 14 case 1 => 4 case 2 => 13 case 3 => 1 case 4 => 2 case 5 => 15 case 6 => 11 case 7 => 8
    case 8 => 3 case 9 => 10 case 10 => 6 case 11 => 12 case 12 => 5 case 13 => 9 case 14 => 0 case _ => 7
  }

  function S1Row1(x: bv8): bv4 {
    match x
    case 0 => 0 case 1 => 15 case 2 => 7 case 3 => 4 case 4 => 14 case 5 => 2 case 6 => 13 case 7 => 1
    case 8 => 10 case 9 => 6 case 10 => 12 case 11 => 11 case 12 => 9 case 13 => 5 case 14 => 3 case _ => 8
  }

  function S1Row2(x: bv8): bv4 {
    match x
    case 0 => 4 case 1 => 1 case 2 => 14 case 3 => 8 case 4 => 13 case 5 => 6 case 6 => 2 case 7 => 11
    case 8 => 15 case 9 => 12 case 10 => 9 case 11 => 7 case 12 => 3 case 13 => 10 case 14 => 5 case _ => 0
  }

  function S1Row3(x: bv8): bv4 {
    match x
    case 0 => 15 case 1 => 12 case 2 => 8 case 3 => 2 case 4 => 4 case 5 => 9 case 6 => 1 case 7 => 7
    case 8 => 5 case 9 => 11 case 10 => 3 case 11 => 14 case 12 => 10 case 13 => 0 case 14 => 6 case _ => 13
  }

  function S2(x: bv8): bv4 {
    if x < 16 then S2Row0(x) else if x < 32 then S2Row1(x - 16) else if x < 48 then S2Row2(x - 32) else S2Row3(x - 48)
  }

  function S2Row0(x: bv8): bv4 {
    match x
    case 0 => 15 case 1 => 1 case 2 => 8 case 3 => 14 case 4 => 6 case 5 => 11 case 6 => 3 case 7 => 4
    case 8 => 9 case 9 => 7 case 10 => 2 case 11 => 13 case 12 => 12 case 13 => 0 case 14 => 5 case _ => 10
  }

  function S2Row1(x: bv8): bv4 {
    match x
    case 0 => 3 case 1 => 13 case 2 => 4 case 3 => 7 case 4 => 15 case 5 => 2 case 6 => 8 case 7 => 14
    case 8 => 12 case 9 => 0 case 10 => 1 case 11 => 10 case 12 => 6 case 13 => 9 case 14 => 11 case _ => 5
  }

  function S2Row2(x: bv8): bv4 {
    match x
    case 0 => 0 case 1 => 14 case 2 => 7 case 3 => 11 case 4 => 10 case 5 => 4 case 6 => 13 case 7 => 1
    case 8 => 5 case 9 => 8 case 10 => 12 case 11 => 6 case 12 => 9 case 13 => 3 case 14 => 2 case _ => 15
  }

  function S2Row3(x: bv8): bv4 {
    match x
    case 0 => 13 case 1 => 8 case 2 => 10 case 3 => 1 case 4 => 3 case 5 => 15 case 6 => 4 case 7 => 2
    case 8 => 11 case 9 => 6 case 10 => 7 case 11 => 12 case 12 => 0 case 13 => 5 case 14 => 14 case _ => 9
  }

  function S3(x: bv8): bv4 {
    if x < 16 then S3Row0(x) else if x < 32 then S3Row1(x - 16) else if x < 48 then S3Row2(x - 32) else S3Row3(x - 48)
  }

  function S3Row0(x: bv8): bv4 {
    match x
    case 0 => 10 case 1 => 0 case 2 => 9 case 3 => 14 case 4 => 6 case 5 => 3 case 6 => 15 case 7 => 5
    case 8 => 1 case 9 => 13 case 10 => 12 case 11 => 7 case 12 => 11 case 13 => 4 case 14 => 2 case _ => 8
  }

  function S3Row1(x: bv8): bv4 {
    match x
    case 0 => 13 case 1 => 7 case 2 => 0 case 3 => 9 case 4 => 3 case 5 => 4 case 6 => 6 case 7 => 10
    case 8 => 2 case 9 => 8 case 10 => 5 case 11 => 14 case 12 => 12 case 13 => 11 case 14 => 15 case _ => 1
  }

  function S3Row2(x: bv8): bv4 {
    match x
    case 0 => 13 case 1 => 6 case 2 => 4 case 3 => 9 case 4 => 8 case 5 => 15 case 6 => 3 case 7 => 0
    case 8 => 11 case 9 => 1 case 10 => 2 case 11 => 12 case 12 => 5 case 13 => 10 case 14 => 14 case _ => 7
  }

  function S3Row3(x: bv8): bv4 {
    match x
    case 0 => 1 case 1 => 10 case 2 => 13 case 3 => 0 case 4 => 6 case 5 => 9 case 6 => 8 case 7 => 7
    case 8 => 4 case 9 => 15 case 10 => 14 case 11 => 3 case 12 => 11 case 13 => 5 case 14 => 2 case _ => 12
  }

  function S4(x: bv8): bv4 {
    if x < 16 then S4Row0(x) else if x < 32 then S4Row1(x - 16) else if x < 48 then S4Row2(x - 32) else S4Row3(x - 48)
  }

  function S4Row0(x: bv8): bv4 {
    match x
    case 0 => 7 case 1 => 13 case 2 => 14 case 3 => 3 case 4 => 0 case 5 => 6 case 6 => 9 case 7 => 10
    case 8 => 1 case 9 => 2 case 10 => 8 case 11 => 5 case 12 => 11 case 13 => 12 case 14 => 4 case _ => 15
  }

  function S4Row1(x: bv8): bv4 {
    match x
    case 0 => 13 case 1 => 8 case 2 => 11 case 3 => 5 case 4 => 6 case 5 => 15 case 6 => 0 case 7 => 3
    case 8 => 4 case 9 => 7 case 10 => 2 case 11 => 12 case 12 => 1 case 13 => 10 case 14 => 14 case _ => 9
  }

  function S4Row2(x: bv8): bv4 {
    match x
    case 0 => 10 case 1 => 6 case 2 => 9 case 3 => 0 case 4 => 12 case 5 => 11 case 6 => 7 case 7 => 13
    case 8 => 15 case 9 => 1 case 10 => 3 case 11 => 14 case 12 => 5 case 13 => 2 case 14 => 8 case _ => 4
  }

  function S4Row3(x: bv8): bv4 {
    match x
    case 0 => 3 case 1 => 15 case 2 => 0 case 3 => 6 case 4 => 10 case 5 => 1 case 6 => 13 case 7 => 8
    case 8 => 9 case 9 => 4 case 10 => 5 case 11 => 11 case 12 => 12 case 13 => 7 case 14 => 2 case _ => 14
  }

  function S5(x: bv8): bv4 {
    if x < 16 then S5Row0(x) else if x < 32 then S5Row1(x - 16) else if x < 48 then S5Row2(x - 32) else S5Row3(x - 48)
  }

  function S5Row0(x: bv8): bv4 {
    match x
    case 0 => 2 case 1 => 12 case 2 => 4 case 3 => 1 case 4 => 7 case 5 => 10 case 6 => 11 case 7 => 6
    case 8 => 8 case 9 => 5 case 10 => 3 case 11 => 15 case 12 => 13 case 13 => 0 case 14 => 14 case _ => 9
  }

  function S5Row1(x: bv8): bv4 {
    match x
    case 0 => 14 case 1 => 11 case 2 => 2 case 3 => 12 case 4 => 4 case 5 => 7 case 6 => 13 case 7 => 1
    case 8 => 5 case 9 => 0 case 10 => 15 case 11 => 10 case 12 => 3 case 13 => 9 case 14 => 8 case _ => 6
  }

  function S5Row2(x: bv8): bv4 {
    match x
    case 0 => 4 case 1 => 2 case 2 => 1 case 3 => 11 case 4 => 10 case 5 => 13 case 6 => 7 case 7 => 8
    case 8 => 15 case 9 => 9 case 10 => 12 case 11 => 5 case 12 => 6 case 13 => 3 case 14 => 0 case _ => 14
  }

  function S5Row3(x: bv8): bv4 {
    match x
    case 0 => 11 case 1 => 8 case 2 => 12 case 3 => 7 case 4 => 1 case 5 => 14 case 6 => 2 case 7 => 13
    case 8 => 6 case 9 => 15 case 10 => 0 case 11 => 9 case 12 => 10 case 13 => 4 case 14 => 5 case _ => 3
  }

  function S6(x: bv8): bv4 {
    if x < 16 then S6Row0(x) else if x < 32 then S6Row1(x - 16) else if x < 48 then S6Row2(x - 32) else S6Row3(x - 48)
  }

  function S6Row0(x: bv8): bv4 {
    match x
    case 0 => 12 case 1 => 1 case 2 => 10 case 3 => 15 case 4 => 9 case 5 => 2 case 6 => 6 case 7 => 8
    case 8 => 0 case 9 => 13 case 10 => 3 case 11 => 4 case 12 => 14 case 13 => 7 case 14 => 5 case _ => 11
  }

  function S6Row1(x: bv8): bv4 {
    match x
    case 0 => 10 case 1 => 15 case 2 => 4 case 3 => 2 case 4 => 7 case 5 => 12 case 6 => 9 case 7 => 5
    case 8 => 6 case 9 => 1 case 10 => 13 case 11 => 14 case 12 => 0 case 13 => 11 case 14 => 3 case _ => 8
  }

  function S6Row2(x: bv8): bv4 {
    match x
    case 0 => 9 case 1 => 14 case 2 => 15 case 3 => 5 case 4 => 2 case 5 => 8 case 6 => 12 case 7 => 3
    case 8 => 7 case 9 => 0 case 10 => 4 case 11 => 10 case 12 => 1 case 13 => 13 case 14 => 11 case _ => 6
  }

  function S6Row3(x: bv8): bv4 {
    match x
    case 0 => 4 case 1 => 3 case 2 => 2 case 3 => 12 case 4 => 9 case 5 => 5 case 6 => 15 case 7 => 10
    case 8 => 11 case 9 => 14 case 10 => 1 case 11 => 7 case 12 => 6 case 13 => 0 case 14 => 8 case _ => 13
  }

  function S7(x: bv8): bv4 {
    if x < 16 then S7Row0(x) else if x < 32 then S7Row1(x - 16) else if x < 48 then S7Row2(x - 32) else S7Row3(x - 48)
  }

  function S7Row0(x: bv8): bv4 {
    match x
    case 0 => 4 case 1 => 11 case 2 => 2 case 3 => 14 case 4 => 15 case 5 => 0 case 6 => 8 case 7 => 13
    case 8 => 3 case 9 => 12 case 10 => 9 case 11 => 7 case 12 => 5 case 13 => 10 case 14 => 6 case _ => 1
  }

  function S7Row1(x: bv8): bv4 {
    match x
    case 0 => 13 case 1 => 0 case 2 => 11 case 3 => 7 case 4 => 4 case 5 => 9 case 6 => 1 case 7 => 10
    case 8 => 14 case 9 => 3 case 10 => 5 case 11 => 12 case 12 => 2 case 13 => 15 case 14 => 8 case _ => 6
  }

  function S7Row2(x: bv8): bv4 {
    match x
    case 0 => 1 case 1 => 4 case 2 => 11 case 3 => 13 case 4 => 12 case 5 => 3 case 6 => 7 case 7 => 14
    case 8 => 10 case 9 => 15 case 10 => 6 case 11 => 8 case 12 => 0 case 13 => 5 case 14 => 9 case _ => 2
  }

  function S7Row3(x: bv8): bv4 {
    match x
    case 0 => 6 case 1 => 11 case 2 => 13 case 3 => 8 case 4 => 1 case 5 => 4 case 6 => 10 case 7 => 7
    case 8 => 9 case 9 => 5 case 10 => 0 case 11 => 15 case 12 => 14 case 13 => 2 case 14 => 3 case _ => 12
  }

  function S8(x: bv8): bv4 {
    if x < 16 then S8Row0(x) else if x < 32 then S8Row1(x - 16) else if x < 48 then S8Row2(x - 32) else S8Row3(x - 48)
  }

  function S8Row0(x: bv8): bv4 {
    match x
    case 0 => 13 case 1 => 2 case 2 => 8 case 3 => 4 case 4 => 6 case 5 => 15 case 6 => 11 case 7 => 1
    case 8 => 10 case 9 => 9 case 10 => 3 case 11 => 14 case 12 => 5 case 13 => 0 case 14 => 12 case _ => 7
  }

  function S8Row1(x: bv8): bv4 {
    match x
    case 0 => 1 case 1 => 15 case 2 => 13 case 3 => 8 case 4 => 10 case 5 => 3 case 6 => 7 case 7 => 4
    case 8 => 12 case 9 => 5 case 10 => 6 case 11 => 11 case 12 => 0 case 13 => 14 case 14 => 9 case _ => 2
  }

  function S8Row2(x: bv8): bv4 {
    match x
    case 0 => 7 case 1 => 11 case 2 => 4 case 3 => 1 case 4 => 9 case 5 => 12 case 6 => 14 case 7 => 2
    case 8 => 0 case 9 => 6 case 10 => 10 case 11 => 13 case 12 => 15 case 13 => 3 case 14 => 5 case _ => 8
  }

  function S8Row3(x: bv8): bv4 {
    match x
    case 0 => 2 case 1 => 1 case 2 => 14 case 3 => 7 case 4 => 4 case 5 => 10 case 6 => 8 case 7 => 13
    case 8 => 15 case 9 => 12 case 10 => 9 case 11 => 0 case 12 => 3 case 13 => 5 case 14 => 6 case _ => 11
  }

  /** The position of each key bit in PC1, or 255 for the parity bits. */
  function InvPC1(i: nat): (r: nat)
    ensures 0 <= r <= 255
  {
    if i < 16 then InvPC10(i) else if i < 32 then InvPC11(i - 16) else if i < 48 then InvPC12(i - 32) else InvPC13(i - 48)
  }

  function InvPC10(i: nat): (r: nat)
    ensures 0 <= r <= 255
  {
    match i
    case 0 => 7 case 1 => 15 case 2 => 23 case 3 => 55 case 4 => 51 case 5 => 43 case 6 => 35 case 7 => 255
    case 8 => 6 case 9 => 14 case 10 => 22 case 11 => 54 case 12 => 50 case 13 => 42 case 14 => 34 case _ => 255
  }

  function InvPC11(i: nat): (r: nat)
    ensures 0 <= r <= 255
  {
    match i
    case 0 => 5 case 1 => 13 case 2 => 21 case 3 => 53 case 4 => 49 case 5 => 41 case 6 => 33 case 7 => 255
    case 8 => 4 case 9 => 12 case 10 => 20 case 11 => 52 case 12 => 48 case 13 => 40 case 14 => 32 case _ => 255
  }

  function InvPC12(i: nat): (r: nat)
    ensures 0 <= r <= 255
  {
    match i
    case 0 => 3 case 1 => 11 case 2 => 19 case 3 => 27 case 4 => 47 case 5 => 39 case 6 => 31 case 7 => 255
    case 8 => 2 case 9 => 10 case 10 => 18 case 11 => 26 case 12 => 46 case 13 => 38 case 14 => 30 case _ => 255
  }

  function InvPC13(i: nat): (r: nat)
    ensures 0 <= r <= 255
  {
    match i
    case 0 => 1 case 1 => 9 case 2 => 17 case 3 => 25 case 4 => 45 case 5 => 37 case 6 => 29 case 7 => 255
    case 8 => 0 case 9 => 8 case 10 => 16 case 11 => 24 case 12 => 44 case 13 => 36 case 14 => 28 case _ => 255
  }

  /** The position of each bit in PC2, or 255 for the bits it drops. */
  function InvPC2(i: nat): (r: nat)
    ensures 0 <= r <= 255
  {
    if i < 14 then InvPC20(i) else if i < 28 then InvPC21(i - 14) else if i < 42 then InvPC22(i - 28) else InvPC23(i - 42)
  }

  function InvPC20(i: nat): (r: nat)
    ensures 0 <= r <= 255
  {
    match i
    case 0 => 4 case 1 => 23 case 2 => 6 case 3 => 15 case 4 => 5 case 5 => 9 case 6 => 19 case 7 => 17
    case 8 => 255 case 9 => 11 case 10 => 2 case 11 => 14 case 12 => 22 case _ => 0
  }

  function InvPC21(i: nat): (r: nat)
    ensures 0 <= r <= 255
  {
    match i
    case 0 => 8 case 1 => 18 case 2 => 1 case 3 => 255 case 4 => 13 case 5 => 21 case 6 => 10 case 7 => 255
    case 8 => 12 case 9 => 3 case 10 => 255 case 11 => 16 case 12 => 20 case _ => 7
  }

  function InvPC22(i: nat): (r: nat)
    ensures 0 <= r <= 255
  {
    match i
    case 0 => 46 case 1 => 30 case 2 => 26 case 3 => 47 case 4 => 34 case 5 => 40 case 6 => 255 case 7 => 45
    case 8 => 27 case 9 => 255 case 10 => 38 case 11 => 31 case 12 => 24 case _ => 43
  }

  function InvPC23(i: nat): (r: nat)
    ensures 0 <= r <= 255
  {
    match i
    case 0 => 255 case 1 => 36 case 2 => 33 case 3 => 42 case 4 => 28 case 5 => 35 case 6 => 37 case 7 => 44
    case 8 => 32 case 9 => 25 case 10 => 41 case 11 => 255 case 12 => 29 case _ => 39
  }

  /** The position of each bit in P. */
  function InvP(i: nat): (r: nat)
    ensures 0 <= r <= 31
  {
    if i < 16 then InvP0(i) else InvP1(i - 16)
  }

  function InvP0(i: nat): (r: nat)
    ensures 0 <= r <= 31
  {
    match i
    case 0 => 8 case 1 => 16 case 2 => 22 case 3 => 30 case 4 => 12 case 5 => 27 case 6 => 1 case 7 => 17
    case 8 => 23 case 9 => 15 case 10 => 29 case 11 => 5 case 12 => 25 case 13 => 19 case 14 => 9 case _ => 0
  }

  function InvP1(i: nat): (r: nat)
    ensures 0 <= r <= 31
  {
    match i
    case 0 => 7 case 1 => 13 case 2 => 24 case 3 => 2 case 4 => 3 case 5 => 28 case 6 => 10 case 7 => 18
    case 8 => 31 case 9 => 11 case 10 => 21 case 11 => 6 case 12 => 4 case 13 => 26 case 14 => 14 case _ => 20
  }

  // ----- the tables and their inverses

  lemma IpThenFp(i: nat)
    requires i < 64
    ensures FP(IP(i) - 1) - 1 == i
  {}

  lemma FpThenIp(i: nat)
    requires i < 64
    ensures IP(FP(i) - 1) - 1 == i
  {}

  lemma InvertPC1(i: nat)
    requires i < 56
    ensures InvPC1(PC1(i) - 1) == i
  {}

  lemma InvertPC2(i: nat)
    requires i < 48
    ensures InvPC2(PC2(i) - 1) == i
  {}

  lemma InvertP(i: nat)
    requires i < 32
    ensures InvP(P(i) - 1) == i
  {}

  lemma InvertInvP(b: nat)
    requires b < 32
    ensures P(InvP(b)) - 1 == b
  {}
}
