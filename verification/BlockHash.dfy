/** What the two streaming hashes share: a chain over 64-byte blocks, the padding of
    a message to whole blocks, and a context that has absorbed part of a message. */
module BlockHash {
  import opened Bytes

  const BLOCK: nat := 64

  /** The value after all blocks of m, one compression per block. */
  function Chain<H>(step: (H, seq<bv8>) -> H, h0: H, m: seq<bv8>): H
    requires |m| % BLOCK == 0
  {
    if m == [] then h0 else step(Chain(step, h0, m[..|m| - BLOCK]), m[|m| - BLOCK..])
  }

  /** The number of zero bytes between the 0x80 byte and the eight length bytes
      (section 5.1.1 of FIPS 180-4, sections 3.1 and 3.2 of RFC 1321). */
  function Zeros(len: nat): (z: nat)
    ensures z < BLOCK && (len + 1 + z + 8) % BLOCK == 0
  {
    (55 - len) % BLOCK
  }

  /** The padding takes the fewest zero bytes that leave room for the length in the last block. */
  lemma ZerosLeast(len: nat, k: nat)
    requires (len + 1 + k) % BLOCK == 56
    ensures (len + 1 + Zeros(len)) % BLOCK == 56 && Zeros(len) <= k
  {}

  /** m, a one bit, zeros, and the eight bytes that hold its length. */
  function Padded(m: seq<bv8>, length: seq<bv8>): (p: seq<bv8>)
    requires |length| == 8
    ensures |p| % BLOCK == 0
  {
    m + [0x80] + ZeroBytes(Zeros(|m|)) + length
  }

  lemma OneMoreZero(z: nat)
    requires z > 0
    ensures ZeroBytes(z) == ZeroBytes(z - 1) + [0]
  {}

  lemma NoZeros(s: seq<bv8>)
    ensures s == s + ZeroBytes(0)
  {}

  lemma NotYet(len: nat, z: nat)
    requires z <= Zeros(len) && (len + 1 + z) % BLOCK != 56
    ensures z < Zeros(len)
  {}

  lemma EnoughZeros(len: nat, z: nat)
    requires z <= Zeros(len) && (len + 1 + z) % BLOCK == 56
    ensures z == Zeros(len)
  {
    ZerosLeast(len, z);
  }

  /** h and the first |m| % 64 bytes of buf hold exactly the message m. */
  ghost predicate Absorbed<H(!new)>(step: (H, seq<bv8>) -> H, h0: H, m: seq<bv8>, h: H, buf: seq<bv8>)
    requires |buf| == BLOCK
  {
    var r := |m| % BLOCK;
    h == Chain(step, h0, m[..|m| - r]) && buf[..r] == m[|m| - r..]
  }

  /** Bytes that do not fill the buffer are only stored. */
  lemma Stored<H(!new)>(step: (H, seq<bv8>) -> H, h0: H, m: seq<bv8>, d: seq<bv8>, h: H, buf: seq<bv8>, buf': seq<bv8>)
    requires |buf| == |buf'| == BLOCK && Absorbed(step, h0, m, h, buf)
    requires |m| % BLOCK + |d| < BLOCK
    requires buf'[..|m| % BLOCK] == buf[..|m| % BLOCK] && buf'[|m| % BLOCK..|m| % BLOCK + |d|] == d
    ensures Absorbed(step, h0, m + d, h, buf') && |m + d| % BLOCK == |m| % BLOCK + |d|
  {
    hide Chain;
    var r := |m| % BLOCK;
    assert |m + d| % BLOCK == r + |d|;
    assert (m + d)[..|m| - r] == m[..|m| - r];
    assert (m + d)[|m| - r..] == m[|m| - r..] + d;
    assert buf'[..r + |d|] == buf'[..r] + buf'[r..r + |d|];
  }

  /** Bytes that fill the buffer are compressed with it. */
  lemma Filled<H(!new)>(step: (H, seq<bv8>) -> H, h0: H, m: seq<bv8>, d: seq<bv8>, h: H, buf: seq<bv8>, buf': seq<bv8>)
    requires |buf| == |buf'| == BLOCK && Absorbed(step, h0, m, h, buf)
    requires |m| % BLOCK + |d| == BLOCK
    requires buf'[..|m| % BLOCK] == buf[..|m| % BLOCK] && buf'[|m| % BLOCK..] == d
    ensures Absorbed(step, h0, m + d, step(h, buf'), buf') && |m + d| % BLOCK == 0
  {
    hide Chain;
    var r := |m| % BLOCK;
    var m' := m + d;
    assert |m'| % BLOCK == 0;
    assert m'[..|m'| - BLOCK] == m[..|m| - r];
    assert m'[|m'| - BLOCK..] == m[|m| - r..] + d;
    assert buf' == buf'[..r] + buf'[r..];
    assert m'[..|m'|] == m';
    ChainStep(step, h0, m');
  }

  lemma ChainStep<H>(step: (H, seq<bv8>) -> H, h0: H, m: seq<bv8>)
    requires |m| % BLOCK == 0 && m != []
    ensures |m| >= BLOCK && Chain(step, h0, m) == step(Chain(step, h0, m[..|m| - BLOCK]), m[|m| - BLOCK..])
  {}

  /** A block compressed on its own, past an empty buffer. */
  lemma Direct<H(!new)>(step: (H, seq<bv8>) -> H, h0: H, m: seq<bv8>, d: seq<bv8>, h: H, buf: seq<bv8>)
    requires |buf| == |d| == BLOCK && |m| % BLOCK == 0 && Absorbed(step, h0, m, h, buf)
    ensures Absorbed(step, h0, m + d, step(h, d), buf)
  {
    hide Chain;
    var m' := m + d;
    assert |m'| % BLOCK == 0;
    assert m'[..|m'| - BLOCK] == m && m'[|m'| - BLOCK..] == d;
    assert m[..|m|] == m && m'[..|m'|] == m';
    ChainStep(step, h0, m');
  }

  /** A message of whole blocks leaves its chain value in the state. */
  lemma Finished<H(!new)>(step: (H, seq<bv8>) -> H, h0: H, m: seq<bv8>, h: H, buf: seq<bv8>)
    requires |buf| == BLOCK && |m| % BLOCK == 0 && Absorbed(step, h0, m, h, buf)
    ensures h == Chain(step, h0, m)
  {
    hide Chain;
    assert m[..|m|] == m;
  }

  /** Whole blocks do not change how far a length goes into its last block. */
  lemma AddBlocks(x: nat, q: nat)
    ensures (x + BLOCK * q) % BLOCK == x % BLOCK
  {}
}
