/** SHA-256 as FIPS 180-4 specifies it. */
module Fips180 {
  import opened Words
  import opened Blocks

  /** bits is the first 32 bits of the fractional part of the cube root of a
      prime whose cube root lies between whole and whole + 1: shifting the root
      left by 32 bits and rounding down leaves whole followed by bits. */
  function CubeRoot(prime: nat, whole: nat, bits: word): word
    requires var n := whole * TWO32 + bits;
             n * n * n <= prime * TWO32 * TWO32 * TWO32 < (n + 1) * (n + 1) * (n + 1)
  {
    bits
  }

  /** The same for a square root. */
  function SquareRoot(prime: nat, whole: nat, bits: word): word
    requires var n := whole * TWO32 + bits;
             n * n <= prime * TWO32 * TWO32 < (n + 1) * (n + 1)
  {
    bits
  }

  /** Section 4.2.2: from the cube roots of the first sixty-four primes. */
  const K: seq<word> := K0 + K1 + K2 + K3 + K4 + K5 + K6 + K7

  const K0: seq<word> := [
    CubeRoot(2, 1, 0x428a2f98), CubeRoot(3, 1, 0x71374491),
    CubeRoot(5, 1, 0xb5c0fbcf), CubeRoot(7, 1, 0xe9b5dba5),
    CubeRoot(11, 2, 0x3956c25b), CubeRoot(13, 2, 0x59f111f1),
    CubeRoot(17, 2, 0x923f82a4), CubeRoot(19, 2, 0xab1c5ed5)
  ]

  const K1: seq<word> := [
    CubeRoot(23, 2, 0xd807aa98), CubeRoot(29, 3, 0x12835b01),
    CubeRoot(31, 3, 0x243185be), CubeRoot(37, 3, 0x550c7dc3),
    CubeRoot(41, 3, 0x72be5d74), CubeRoot(43, 3, 0x80deb1fe),
    CubeRoot(47, 3, 0x9bdc06a7), CubeRoot(53, 3, 0xc19bf174)
  ]

  const K2: seq<word> := [
    CubeRoot(59, 3, 0xe49b69c1), CubeRoot(61, 3, 0xefbe4786),
    CubeRoot(67, 4, 0x0fc19dc6), CubeRoot(71, 4, 0x240ca1cc),
    CubeRoot(73, 4, 0x2de92c6f), CubeRoot(79, 4, 0x4a7484aa),
    CubeRoot(83, 4, 0x5cb0a9dc), CubeRoot(89, 4, 0x76f988da)
  ]

  const K3: seq<word> := [
    CubeRoot(97, 4, 0x983e5152), CubeRoot(101, 4, 0xa831c66d),
    CubeRoot(103, 4, 0xb00327c8), CubeRoot(107, 4, 0xbf597fc7),
    CubeRoot(109, 4, 0xc6e00bf3), CubeRoot(113, 4, 0xd5a79147),
    CubeRoot(127, 5, 0x06ca6351), CubeRoot(131, 5, 0x14292967)
  ]

  const K4: seq<word> := [
    CubeRoot(137, 5, 0x27b70a85), CubeRoot(139, 5, 0x2e1b2138),
    CubeRoot(149, 5, 0x4d2c6dfc), CubeRoot(151, 5, 0x53380d13),
    CubeRoot(157, 5, 0x650a7354), CubeRoot(163, 5, 0x766a0abb),
    CubeRoot(167, 5, 0x81c2c92e), CubeRoot(173, 5, 0x92722c85)
  ]

  const K5: seq<word> := [
    CubeRoot(179, 5, 0xa2bfe8a1), CubeRoot(181, 5, 0xa81a664b),
    CubeRoot(191, 5, 0xc24b8b70), CubeRoot(193, 5, 0xc76c51a3),
    CubeRoot(197, 5, 0xd192e819), CubeRoot(199, 5, 0xd6990624),
    CubeRoot(211, 5, 0xf40e3585), CubeRoot(223, 6, 0x106aa070)
  ]

  const K6: seq<word> := [
    CubeRoot(227, 6, 0x19a4c116), CubeRoot(229, 6, 0x1e376c08),
    CubeRoot(233, 6, 0x2748774c), CubeRoot(239, 6, 0x34b0bcb5),
    CubeRoot(241, 6, 0x391c0cb3), CubeRoot(251, 6, 0x4ed8aa4a),
    CubeRoot(257, 6, 0x5b9cca4f), CubeRoot(263, 6, 0x682e6ff3)
  ]

  const K7: seq<word> := [
    CubeRoot(269, 6, 0x748f82ee), CubeRoot(271, 6, 0x78a5636f),
    CubeRoot(277, 6, 0x84c87814), CubeRoot(281, 6, 0x8cc70208),
    CubeRoot(283, 6, 0x90befffa), CubeRoot(293, 6, 0xa4506ceb),
    CubeRoot(307, 6, 0xbef9a3f7), CubeRoot(311, 6, 0xc67178f2)
  ]

  /** Section 5.3.3: from the square roots of the first eight primes. */
  const H0: Eight := Eight(
    SquareRoot(2, 1, 0x6a09e667), SquareRoot(3, 1, 0xbb67ae85),
    SquareRoot(5, 2, 0x3c6ef372), SquareRoot(7, 2, 0xa54ff53a),
    SquareRoot(11, 3, 0x510e527f), SquareRoot(13, 3, 0x9b05688c),
    SquareRoot(17, 4, 0x1f83d9ab), SquareRoot(19, 4, 0x5be0cd19)
  )

  /** Eight words: a hash value, or the working variables of section 6.2. */
  datatype Eight = Eight(a: word, b: word, c: word, d: word, e: word, f: word, g: word, h: word)

  // ----- Section 4.1.2 -----

  function Ch(x: word, y: word, z: word): word { Xor(And(x, y), And(Not(x), z)) }

  function Maj(x: word, y: word, z: word): word { Xor(Xor(And(x, y), And(x, z)), And(y, z)) }

  function BigSigma0(x: word): word { Xor(Xor(Rotr(x, 2), Rotr(x, 13)), Rotr(x, 22)) }

  function BigSigma1(x: word): word { Xor(Xor(Rotr(x, 6), Rotr(x, 11)), Rotr(x, 25)) }

  function SmallSigma0(x: word): word { Xor(Xor(Rotr(x, 7), Rotr(x, 18)), Shr(x, 3)) }

  function SmallSigma1(x: word): word { Xor(Xor(Rotr(x, 17), Rotr(x, 19)), Shr(x, 10)) }

  // ----- Section 6.2.2 -----

  /** Word t of the message schedule of a block. */
  function Schedule(block: Block, t: nat): word
  {
    if t < 16 then BigEndian(block[4 * t], block[4 * t + 1], block[4 * t + 2], block[4 * t + 3])
    else Mod32(SmallSigma1(Schedule(block, t - 2)) + Schedule(block, t - 7)
               + SmallSigma0(Schedule(block, t - 15)) + Schedule(block, t - 16))
  }

  lemma ScheduleStart(block: Block, t: nat)
    requires t < 16
    ensures Schedule(block, t) == BigEndian(block[4 * t], block[4 * t + 1], block[4 * t + 2], block[4 * t + 3])
  {
  }

  lemma ScheduleNext(block: Block, t: nat)
    requires t >= 16
    ensures Schedule(block, t) == Mod32(SmallSigma1(Schedule(block, t - 2)) + Schedule(block, t - 7)
                                        + SmallSigma0(Schedule(block, t - 15)) + Schedule(block, t - 16))
  {
  }

  /** T1 and T2 before they are reduced modulo 2^32. */
  function T1(v: Eight, k: word, w: word): nat { v.h + BigSigma1(v.e) + Ch(v.e, v.f, v.g) + k + w }

  function T2(v: Eight): nat { BigSigma0(v.a) + Maj(v.a, v.b, v.c) }

  function Round(v: Eight, k: word, w: word): Eight {
    Eight(Mod32(T1(v, k, w) + T2(v)), v.a, v.b, v.c, Mod32(v.d + T1(v, k, w)), v.e, v.f, v.g)
  }

  /** The working variables after the first t rounds on a block. */
  function Rounds(v: Eight, block: Block, t: nat): Eight
    requires t <= |K|
  {
    if t == 0 then v else Round(Rounds(v, block, t - 1), K[t - 1], Schedule(block, t - 1))
  }

  /** Word by word, modulo 2^32. */
  function Added(v: Eight, r: Eight): Eight {
    Eight(Mod32(v.a + r.a), Mod32(v.b + r.b), Mod32(v.c + r.c), Mod32(v.d + r.d),
          Mod32(v.e + r.e), Mod32(v.f + r.f), Mod32(v.g + r.g), Mod32(v.h + r.h))
  }

  function Compress(v: Eight, block: Block): Eight {
    Added(v, Rounds(v, block, |K|))
  }

  // ----- Section 5.1.1 -----

  /** How many zero bytes come between the byte 0x80 and the length: as few as
      leave room for the eight bytes of the length in the last block. */
  function ZeroBytes(length: nat): (k: nat)
    ensures k < 64 && (length + 1 + k + 8) % 64 == 0
  {
    (55 - length) % 64
  }

  /** The low count bytes of n, most significant first. */
  function BigEndianBytes(n: nat, count: nat): (s: seq<byte>)
    ensures |s| == count
  {
    if count == 0 then [] else BigEndianBytes(n / 256, count - 1) + [n % 256]
  }

  lemma NestedQuotients(n: nat)
    ensures n / 256 / 256 == n / 0x1_0000
    ensures n / 0x1_0000 / 256 == n / 0x100_0000
    ensures n / 0x100_0000 / 256 == n / TWO32
  {
  }

  /** The last four bytes, and what is left above them. */
  lemma LastFourBytes(n: nat, high: nat)
    ensures BigEndianBytes(n, high + 4)
         == BigEndianBytes(n / TWO32, high) + [n / 0x100_0000 % 256, n / 0x1_0000 % 256, n / 256 % 256, n % 256]
  {
    NestedQuotients(n);
    assert BigEndianBytes(n, high + 4) == BigEndianBytes(n / 256, high + 3) + [n % 256];
    assert BigEndianBytes(n / 256, high + 3) == BigEndianBytes(n / 0x1_0000, high + 2) + [n / 256 % 256];
    assert BigEndianBytes(n / 0x1_0000, high + 2) == BigEndianBytes(n / 0x100_0000, high + 1) + [n / 0x1_0000 % 256];
    assert BigEndianBytes(n / 0x100_0000, high + 1) == BigEndianBytes(n / TWO32, high) + [n / 0x100_0000 % 256];
  }

  /** What is appended to a message of length bytes: the bit 1, zeros, and the
      length in bits as a 64-bit number. */
  function Padding(length: nat): (s: seq<byte>)
    ensures |s| == ZeroBytes(length) + 9
  {
    [0x80] + seq(ZeroBytes(length), _ => 0) + BigEndianBytes(8 * length, 8)
  }

  lemma PaddingFillsBlocks(length: nat)
    ensures (length + |Padding(length)|) % 64 == 0
  {
    var k := ZeroBytes(length);
    assert length + |Padding(length)| == length + 1 + k + 8;
  }

  /** SHA-256 of a message of whole bytes. */
  function Digest(message: seq<byte>): Eight {
    Fold(Compress, H0, message + Padding(|message|))
  }
}
