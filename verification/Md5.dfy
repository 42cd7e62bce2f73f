/** The streaming MD5 context of libcrypt. */
module Md5 {
  import opened Bytes
  import opened BlockHash
  import opened Rfc1321
  import opened Md5Forms

  class Md5Context {
    const form: Form
    const state: array<bv32>
    const buffer: array<bv8>
    var count0: Word32  // the two words of the bit count, low word first
    var count1: Word32
    ghost var message: seq<bv8>  // the bytes given since __md5_Init

    ghost predicate Sized() {
      state.Length == 4 && buffer.Length == 64
    }

    ghost function Hash(): Vars
      requires Sized()
      reads state
    {
      Vars(state[0], state[1], state[2], state[3])
    }

    /** The words count bits modulo 2^64, and state and buffer have absorbed the message. */
    ghost predicate Valid()
      reads this, state, buffer
    {
      && Sized()
      && Counts(count0, count1, |message|)
      && Absorbed(Step, H0, message, Hash(), buffer[..])
    }

    constructor (form: Form)
      ensures Valid() && message == [] && this.form == form
      ensures fresh(state) && fresh(buffer)
    {
      this.form := form;
      state := new bv32[4] [0x67452301, 0xefcdab89, 0x98badcfe, 0x10325476];
      buffer := new bv8[64](_ => 0);
      count0, count1 := 0, 0;
      message := [];
    }

    /** __md5_Init, on a context already in use. The buffer keeps its old bytes. */
    method Init()
      requires Sized()
      modifies this, state
      ensures Valid() && message == []
    {
      count0, count1 := 0, 0;
      state[0] := 0x67452301;
      state[1] := 0xefcdab89;
      state[2] := 0x98badcfe;
      state[3] := 0x10325476;
      message := [];
    }

    /** __md5_Transform, in the form selected at compile time. */
    method Transform(block: seq<bv8>)
      requires Sized() && |block| == 64
      modifies state
      ensures Hash() == Compress(old(Hash()), block)
    {
      hide Ops, Plus, Decoded;
      var h := Vars(state[0], state[1], state[2], state[3]);
      var x := Decode(block);
      var a, b, c, d := Steps(x, h, block);
      state[0] := Plus(state[0], a);
      state[1] := Plus(state[1], b);
      state[2] := Plus(state[2], c);
      state[3] := Plus(state[3], d);
    }

    method Steps(x: array<bv32>, h: Vars, ghost block: seq<bv8>) returns (a: bv32, b: bv32, c: bv32, d: bv32)
      requires Decoded(x, block)
      ensures Vars(a, b, c, d) == Ops(h, block, 64)
    {
      hide Ops, Decoded;
      match form {
        case Unrolled => a, b, c, d := UnrolledForm(x, h, block);
        case FourPerLoop => a, b, c, d := FourPerLoopForm(x, h, block);
        case OnePerLoop => a, b, c, d := OnePerLoopForm(x, h, block);
        case OneLoop => a, b, c, d := OneLoopForm(x, h, block);
      }
    }

    /** Adds a byte length to the bit count, by a carry test on the low word. */
    method AddBits(len: nat, ghost bytes: nat)
      requires len < 0x1_0000_0000 && Counts(count0, count1, bytes)
      modifies this`count0, this`count1
      ensures Counts(count0, count1, bytes + len)
    {
      hide Counts;
      CountStep(count0, count1, bytes, len);
      count0 := (count0 + len * 8 % 0x1_0000_0000) % 0x1_0000_0000;
      if count0 < len * 8 % 0x1_0000_0000 {
        count1 := (count1 + 1) % 0x1_0000_0000;
      }
      count1 := (count1 + len / 0x2000_0000) % 0x1_0000_0000;
    }

    /** __md5_Update. */
    method Update(input: seq<bv8>)
      requires Valid() && |input| < 0x1_0000_0000
      requires IndexFits(|message| % 64, |input|)
      modifies this, state, buffer
      ensures Valid() && message == old(message) + input
    {
      hide Absorbed, Compress, Counts, IndexFits;
      ghost var m := message;
      var idx := (count0 / 8) % 64;
      IndexIsTail(count0, count1, |m|);
      AddBits(|input|, |m|);

      var partLen := 64 - idx;
      var i := 0;
      assert m + input[..0] == m;
      if |input| >= partLen {
        ghost var h0, b0 := Hash(), buffer[..];
        Put(buffer, idx, input[..partLen]);
        Transform(buffer[..]);
        Filled(Step, H0, m, input[..partLen], h0, b0, buffer[..]);
        i := CopyBlocks(input, partLen, idx, m);
        idx := 0;
      }
      KeepRest(idx, input, i, m);
      message := m + input;
    }

    /** Buffers the remaining input. */
    method KeepRest(idx: nat, input: seq<bv8>, i: nat, ghost m: seq<bv8>)
      requires Sized() && i <= |input| && idx == |m + input[..i]| % 64 && idx + (|input| - i) < 64
      requires Absorbed(Step, H0, m + input[..i], Hash(), buffer[..])
      modifies buffer
      ensures Absorbed(Step, H0, m + input, Hash(), buffer[..])
    {
      hide Absorbed, Compress;
      ghost var b := buffer[..];
      Put(buffer, idx, input[i..]);
      Stored(Step, H0, m + input[..i], input[i..], Hash(), b, buffer[..]);
      assert m + input[..i] + input[i..] == m + input;
    }

    /** __md5_Pad. */
    method Pad()
      requires Valid()
      modifies this, state, buffer
      ensures Valid() && message == Rfc1321.Pad(old(message))
    {
      hide Absorbed, Counts, IndexFits, Zeros, ZeroBytes, LengthBytes, EncodeCount, Padded;
      ghost var m := message;
      var padding := [0x80] + ZeroBytes(63);
      var bits := EncodeCount(count0, count1);
      CountBytes(count0, count1, |m|);
      var idx := (count0 / 8) % 64;
      IndexIsTail(count0, count1, |m|);
      var padLen := if idx < 56 then 56 - idx else 120 - idx;
      PadLength(|m|);
      PaddingPrefix(padLen);
      SmallFits(idx, padLen);
      Update(padding[..padLen]);
      SmallFits(|message| % 64, 8);
      Update(bits);
      Assemble(m, padLen, bits, message);
    }

    /** __md5_Final: pads, stores the digest and zeroizes the context. */
    method Final() returns (digest: seq<bv8>)
      requires Valid()
      modifies this, state, buffer
      ensures digest == Md5(old(message))
    {
      hide Absorbed, Counts, WordBytes, Rfc1321.Pad, Chain;
      Pad();
      Finished(Step, H0, message, Hash(), buffer[..]);
      digest := WordBytes(state[0]) + WordBytes(state[1]) + WordBytes(state[2]) + WordBytes(state[3]);
      count0, count1 := 0, 0;
      forall k | 0 <= k < 4 {
        state[k] := 0;
      }
      forall k | 0 <= k < 64 {
        buffer[k] := 0;
      }
    }

    /** The loop over whole blocks of the input. Its index is a 32-bit number. */
    method CopyBlocks(input: seq<bv8>, partLen: nat, ghost idx: nat, ghost m: seq<bv8>) returns (i: nat)
      requires Sized() && |input| < 0x1_0000_0000 && idx == |m| % 64 && partLen == 64 - idx <= |input|
      requires IndexFits(idx, |input|)
      requires Absorbed(Step, H0, m + input[..partLen], Hash(), buffer[..])
      modifies state
      ensures i <= |input| < i + 64 && |m + input[..i]| % 64 == 0
      ensures Absorbed(Step, H0, m + input[..i], Hash(), buffer[..])
    {
      hide Absorbed, Compress, IndexFits, LastIndex;
      i := partLen;
      while (i + 63) % 0x1_0000_0000 < |input|
        invariant partLen <= i <= |input| && (i - partLen) % 64 == 0 && |m + input[..i]| % 64 == 0
        invariant Absorbed(Step, H0, m + input[..i], Hash(), buffer[..])
        decreases |input| - i
      {
        IndexNeverWraps(idx, |input|, i);
        ghost var h0 := Hash();
        Transform(input[i..i + 64]);
        Cut(m, input, i);
        OneMoreBlock(i - partLen, |m + input[..i]|);
        Direct(Step, H0, m + input[..i], input[i..i + 64], h0, buffer[..]);
        i := i + 64;
      }
      IndexNeverWraps(idx, |input|, i);
    }
  }

  /** __md5_Encode of two words. */
  function EncodeCount(c0: Word32, c1: Word32): (s: seq<bv8>)
    ensures |s| == 8
  {
    WordBytes(c0 as bv32) + WordBytes(c1 as bv32)
  }

  lemma CountBytes(c0: Word32, c1: Word32, bytes: nat)
    requires Counts(c0, c1, bytes)
    ensures EncodeCount(c0, c1) == LengthBytes(8 * bytes)
  {
    SplitBits(c0, c1, 8 * bytes);
  }

  lemma SplitBits(c0: nat, c1: nat, bits: nat)
    requires c0 < 0x1_0000_0000 && c1 < 0x1_0000_0000
    requires c0 + 0x1_0000_0000 * c1 == bits % 0x1_0000_0000_0000_0000
    ensures c0 == bits % 0x1_0000_0000 && c1 == bits / 0x1_0000_0000 % 0x1_0000_0000
  {
    var q := bits / 0x1_0000_0000_0000_0000;
    LowWord(bits, c0, c1 + 0x1_0000_0000 * q);
    LowWord(c1 + 0x1_0000_0000 * q, c1, q);
  }

  lemma LowWord(x: nat, low: nat, high: nat)
    requires low < 0x1_0000_0000 && x == low + 0x1_0000_0000 * high
    ensures x % 0x1_0000_0000 == low && x / 0x1_0000_0000 == high
  {}

  lemma Assemble(m: seq<bv8>, padLen: nat, bits: seq<bv8>, p: seq<bv8>)
    requires padLen == Zeros(|m|) + 1 && |bits| == 8 && bits == LengthBytes(8 * |m|)
    requires p == m + ([0x80] + ZeroBytes(padLen - 1)) + bits
    ensures p == Rfc1321.Pad(m)
  {
    hide LengthBytes;
    assert p == m + [0x80] + ZeroBytes(padLen - 1) + bits;
  }

  /** The pad length computed from the index is one byte more than the zeros of the padding. */
  lemma PadLength(len: nat)
    ensures var idx := len % 64; Zeros(len) + 1 == if idx < 56 then 56 - idx else 120 - idx
  {}

  /** __md5_Decode of one block. */
  method Decode(block: seq<bv8>) returns (x: array<bv32>)
    requires |block| == 64
    ensures fresh(x) && Decoded(x, block)
  {
    x := new bv32[16];
    for i := 0 to 16
      invariant forall k :: 0 <= k < i ==> x[k] == Word(block, k)
    {
      var j := 4 * i;
      x[i] := block[j] as bv32 | (block[j + 1] as bv32 << 8) | (block[j + 2] as bv32 << 16) | (block[j + 3] as bv32 << 24);
    }
  }

  // ----- the bit count

  /** Two 32-bit words that hold eight times a byte count, modulo 2^64. */
  ghost predicate Counts(c0: nat, c1: nat, bytes: nat) {
    && c0 < 0x1_0000_0000 && c1 < 0x1_0000_0000
    && c0 + 0x1_0000_0000 * c1 == 8 * bytes % 0x1_0000_0000_0000_0000
  }

  lemma IndexIsTail(c0: nat, c1: nat, bytes: nat)
    requires Counts(c0, c1, bytes)
    ensures (c0 / 8) % 64 == bytes % 64
  {
    TailOfBits(c0, c1 + 0x1_0000_0000 * (8 * bytes / 0x1_0000_0000_0000_0000), bytes);
  }

  lemma TailOfBits(c0: nat, w: nat, bytes: nat)
    requires 8 * bytes == c0 + 0x1_0000_0000 * w
    ensures (c0 / 8) % 64 == bytes % 64
  {
    assert bytes == c0 / 8 + BLOCK * (0x80_0000 * w);
    AddBlocks(c0 / 8, 0x80_0000 * w);
  }

  /** The carry test and the high part of the length keep the two words right. */
  lemma CountStep(c0: nat, c1: nat, bytes: nat, len: nat)
    requires Counts(c0, c1, bytes) && len < 0x1_0000_0000
    ensures var low := len * 8 % 0x1_0000_0000;
      var c0' := (c0 + low) % 0x1_0000_0000;
      var carried := if c0' < low then (c1 + 1) % 0x1_0000_0000 else c1;
      Counts(c0', (carried + len / 0x2000_0000) % 0x1_0000_0000, bytes + len)
  {
    var low, high := len * 8 % 0x1_0000_0000, len / 0x2000_0000;
    var c0' := (c0 + low) % 0x1_0000_0000;
    var carry := if c0' < low then 1 else 0;
    assert len * 8 == low + 0x1_0000_0000 * high;
    assert c0 + low == c0' + 0x1_0000_0000 * carry;
    HighWord(c1, carry, high);
    WordSum(c0, c1, 8 * bytes, low, high, c0', carry);
  }

  lemma HighWord(c1: nat, carry: nat, high: nat)
    requires carry <= 1
    ensures ((if carry == 1 then (c1 + 1) % 0x1_0000_0000 else c1) + high) % 0x1_0000_0000 == (c1 + carry + high) % 0x1_0000_0000
  {}

  lemma WordSum(c0: nat, c1: nat, bits: nat, low: nat, high: nat, c0': nat, carry: nat)
    requires c0 + 0x1_0000_0000 * c1 == bits % 0x1_0000_0000_0000_0000
    requires c0 + low == c0' + 0x1_0000_0000 * carry && c0' < 0x1_0000_0000
    ensures c0' + 0x1_0000_0000 * ((c1 + carry + high) % 0x1_0000_0000)
      == (bits + low + 0x1_0000_0000 * high) % 0x1_0000_0000_0000_0000
  {
    var q, t := bits / 0x1_0000_0000_0000_0000, c1 + carry + high;
    var c1', r := t % 0x1_0000_0000, t / 0x1_0000_0000;
    assert bits == c0 + 0x1_0000_0000 * c1 + 0x1_0000_0000_0000_0000 * q;
    assert t == c1' + 0x1_0000_0000 * r;
    assert bits + low + 0x1_0000_0000 * high == (c0' + 0x1_0000_0000 * c1') + 0x1_0000_0000_0000_0000 * (q + r);
    LowPart(c0' + 0x1_0000_0000 * c1', q + r);
  }

  lemma LowPart(x: nat, q: nat)
    requires x < 0x1_0000_0000_0000_0000
    ensures (x + 0x1_0000_0000_0000_0000 * q) % 0x1_0000_0000_0000_0000 == x
  {}

  lemma Cut(m: seq<bv8>, input: seq<bv8>, i: nat)
    requires i + 64 <= |input|
    ensures m + input[..i + 64] == m + input[..i] + input[i..i + 64]
  {}

  lemma OneMoreBlock(x: int, y: int)
    requires x % 64 == 0 && y % 64 == 0
    ensures (x + 64) % 64 == 0 && (y + 64) % 64 == 0
  {}

  // ----- the block loop's 32-bit index

  /** The index the block loop ends on. */
  function LastIndex(idx: nat, len: nat): nat
    requires idx < 64 && len >= 64 - idx
  {
    64 - idx + 64 * ((len - (64 - idx)) / 64)
  }

  /** Adding 63 to the last index of the block loop stays within 32 bits. */
  predicate IndexFits(idx: nat, len: nat)
    requires idx < 64
  {
    len >= 64 - idx ==> LastIndex(idx, len) + 63 < 0x1_0000_0000
  }

  /** With fitting indices the loop guard means that a whole block is left. */
  lemma IndexNeverWraps(idx: nat, len: nat, i: nat)
    requires idx < 64 && IndexFits(idx, len) && 64 - idx <= i <= len < 0x1_0000_0000 && (i - (64 - idx)) % 64 == 0
    ensures (i + 63) % 0x1_0000_0000 < len <==> i + 64 <= len
  {
    var j := (i - (64 - idx)) / 64;
    assert i == 64 - idx + 64 * j;
    assert j <= (len - (64 - idx)) / 64;
    assert i <= LastIndex(idx, len);
  }

  /** Without them the guard holds on the last index although less than a block is left:
      IndexFits is exactly the condition under which the loop stays inside its input. */
  lemma IndexWraps(idx: nat, len: nat)
    requires idx < 64 && len < 0x1_0000_0000 && !IndexFits(idx, len)
    ensures var i := LastIndex(idx, len); i <= len < i + 64 && (i + 63) % 0x1_0000_0000 < len
  {
    var n := len - (64 - idx);
    assert n == 64 * (n / 64) + n % 64;
  }

  /** A call length for which the loop runs past its input. */
  lemma IndexWrapsExample()
    ensures !IndexFits(1, 0xFFFF_FFFF)
  {
    assert LastIndex(1, 0xFFFF_FFFF) == 0xFFFF_FFFF;
  }

  /** All but the largest call lengths fit, wherever the buffer stands. */
  lemma SmallFits(idx: nat, len: nat)
    requires idx < 64 && len <= 0x1_0000_0000 - 64
    ensures IndexFits(idx, len)
  {}

  lemma PaddingPrefix(n: nat)
    requires 1 <= n <= 64
    ensures ([0x80] + ZeroBytes(63))[..n] == [0x80] + ZeroBytes(n - 1)
  {}
}
