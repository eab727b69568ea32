/**
 * Where the constants of SHA-256 come from: sections 4.2.2 and 5.3.3 of FIPS
 * 180-4 take them from the roots of the first primes, in integers here. Then what
 * the functions of section 4.1.2 do to single bits.
 */
module Sha256Constants {
  import opened Sha256

  const TWO32: nat := 0x1_0000_0000

  const PRIMES: seq<nat> :=
    [2, 3, 5, 7, 11, 13, 17, 19] +
    [23, 29, 31, 37, 41, 43, 47, 53] +
    [59, 61, 67, 71, 73, 79, 83, 89] +
    [97, 101, 103, 107, 109, 113, 127, 131] +
    [137, 139, 149, 151, 157, 163, 167, 173] +
    [179, 181, 191, 193, 197, 199, 211, 223] +
    [227, 229, 233, 239, 241, 251, 257, 263] +
    [269, 271, 277, 281, 283, 293, 307, 311]

  /** `k` is the first 32 bits of the fraction of the cube root of `p`, whose whole part is `whole`. */
  predicate CubeRoot(p: nat, whole: nat, k: Word) {
    var r: nat := whole * TWO32 + k as nat;
    r * r * r <= p * TWO32 * TWO32 * TWO32 < (r + 1) * (r + 1) * (r + 1)
  }

  lemma IsCubeRoot(p: nat, whole: nat, k: Word, r: nat)
    requires r == whole * 0x1_0000_0000 + k as nat
    requires r * r * r <= p * 0x1_0000_0000_0000_0000_0000_0000 < (r + 1) * (r + 1) * (r + 1)
    ensures CubeRoot(p, whole, k)
  {
    assert p * TWO32 * TWO32 * TWO32 == p * 0x1_0000_0000_0000_0000_0000_0000;
  }

  lemma IsSquareRoot(p: nat, whole: nat, k: Word, r: nat)
    requires r == whole * 0x1_0000_0000 + k as nat
    requires r * r <= p * 0x1_0000_0000_0000_0000 < (r + 1) * (r + 1)
    ensures SquareRoot(p, whole, k)
  {
    assert p * TWO32 * TWO32 == p * 0x1_0000_0000_0000_0000;
  }

  /** The same for the square root. */
  predicate SquareRoot(p: nat, whole: nat, k: Word) {
    var r: nat := whole * TWO32 + k as nat;
    r * r <= p * TWO32 * TWO32 < (r + 1) * (r + 1)
  }

  lemma Roots0()
    ensures CubeRoot(2, 1, K[0])
    ensures CubeRoot(3, 1, K[1])
    ensures CubeRoot(5, 1, K[2])
    ensures CubeRoot(7, 1, K[3])
    ensures CubeRoot(11, 2, K[4])
    ensures CubeRoot(13, 2, K[5])
    ensures CubeRoot(17, 2, K[6])
    ensures CubeRoot(19, 2, K[7])
  {
    hide CubeRoot;
    IsCubeRoot(2, 1, 0x428a2f98, 0x1428a2f98);
    IsCubeRoot(3, 1, 0x71374491, 0x171374491);
    IsCubeRoot(5, 1, 0xb5c0fbcf, 0x1b5c0fbcf);
    IsCubeRoot(7, 1, 0xe9b5dba5, 0x1e9b5dba5);
    IsCubeRoot(11, 2, 0x3956c25b, 0x23956c25b);
    IsCubeRoot(13, 2, 0x59f111f1, 0x259f111f1);
    IsCubeRoot(17, 2, 0x923f82a4, 0x2923f82a4);
    IsCubeRoot(19, 2, 0xab1c5ed5, 0x2ab1c5ed5);
  }

  lemma Roots1()
    ensures CubeRoot(23, 2, K[8])
    ensures CubeRoot(29, 3, K[9])
    ensures CubeRoot(31, 3, K[10])
    ensures CubeRoot(37, 3, K[11])
    ensures CubeRoot(41, 3, K[12])
    ensures CubeRoot(43, 3, K[13])
    ensures CubeRoot(47, 3, K[14])
    ensures CubeRoot(53, 3, K[15])
  {
    hide CubeRoot;
    IsCubeRoot(23, 2, 0xd807aa98, 0x2d807aa98);
    IsCubeRoot(29, 3, 0x12835b01, 0x312835b01);
    IsCubeRoot(31, 3, 0x243185be, 0x3243185be);
    IsCubeRoot(37, 3, 0x550c7dc3, 0x3550c7dc3);
    IsCubeRoot(41, 3, 0x72be5d74, 0x372be5d74);
    IsCubeRoot(43, 3, 0x80deb1fe, 0x380deb1fe);
    IsCubeRoot(47, 3, 0x9bdc06a7, 0x39bdc06a7);
    IsCubeRoot(53, 3, 0xc19bf174, 0x3c19bf174);
  }

  lemma Roots2()
    ensures CubeRoot(59, 3, K[16])
    ensures CubeRoot(61, 3, K[17])
    ensures CubeRoot(67, 4, K[18])
    ensures CubeRoot(71, 4, K[19])
    ensures CubeRoot(73, 4, K[20])
    ensures CubeRoot(79, 4, K[21])
    ensures CubeRoot(83, 4, K[22])
    ensures CubeRoot(89, 4, K[23])
  {
    hide CubeRoot;
    IsCubeRoot(59, 3, 0xe49b69c1, 0x3e49b69c1);
    IsCubeRoot(61, 3, 0xefbe4786, 0x3efbe4786);
    IsCubeRoot(67, 4, 0x0fc19dc6, 0x40fc19dc6);
    IsCubeRoot(71, 4, 0x240ca1cc, 0x4240ca1cc);
    IsCubeRoot(73, 4, 0x2de92c6f, 0x42de92c6f);
    IsCubeRoot(79, 4, 0x4a7484aa, 0x44a7484aa);
    IsCubeRoot(83, 4, 0x5cb0a9dc, 0x45cb0a9dc);
    IsCubeRoot(89, 4, 0x76f988da, 0x476f988da);
  }

  lemma Roots3()
    ensures CubeRoot(97, 4, K[24])
    ensures CubeRoot(101, 4, K[25])
    ensures CubeRoot(103, 4, K[26])
    ensures CubeRoot(107, 4, K[27])
    ensures CubeRoot(109, 4, K[28])
    ensures CubeRoot(113, 4, K[29])
    ensures CubeRoot(127, 5, K[30])
    ensures CubeRoot(131, 5, K[31])
  {
    hide CubeRoot;
    IsCubeRoot(97, 4, 0x983e5152, 0x4983e5152);
    IsCubeRoot(101, 4, 0xa831c66d, 0x4a831c66d);
    IsCubeRoot(103, 4, 0xb00327c8, 0x4b00327c8);
    IsCubeRoot(107, 4, 0xbf597fc7, 0x4bf597fc7);
    IsCubeRoot(109, 4, 0xc6e00bf3, 0x4c6e00bf3);
    IsCubeRoot(113, 4, 0xd5a79147, 0x4d5a79147);
    IsCubeRoot(127, 5, 0x06ca6351, 0x506ca6351);
    IsCubeRoot(131, 5, 0x14292967, 0x514292967);
  }

  lemma Roots4()
    ensures CubeRoot(137, 5, K[32])
    ensures CubeRoot(139, 5, K[33])
    ensures CubeRoot(149, 5, K[34])
    ensures CubeRoot(151, 5, K[35])
    ensures CubeRoot(157, 5, K[36])
    ensures CubeRoot(163, 5, K[37])
    ensures CubeRoot(167, 5, K[38])
    ensures CubeRoot(173, 5, K[39])
  {
    hide CubeRoot;
    IsCubeRoot(137, 5, 0x27b70a85, 0x527b70a85);
    IsCubeRoot(139, 5, 0x2e1b2138, 0x52e1b2138);
    IsCubeRoot(149, 5, 0x4d2c6dfc, 0x54d2c6dfc);
    IsCubeRoot(151, 5, 0x53380d13, 0x553380d13);
    IsCubeRoot(157, 5, 0x650a7354, 0x5650a7354);
    IsCubeRoot(163, 5, 0x766a0abb, 0x5766a0abb);
    IsCubeRoot(167, 5, 0x81c2c92e, 0x581c2c92e);
    IsCubeRoot(173, 5, 0x92722c85, 0x592722c85);
  }

  lemma Roots5()
    ensures CubeRoot(179, 5, K[40])
    ensures CubeRoot(181, 5, K[41])
    ensures CubeRoot(191, 5, K[42])
    ensures CubeRoot(193, 5, K[43])
    ensures CubeRoot(197, 5, K[44])
    ensures CubeRoot(199, 5, K[45])
    ensures CubeRoot(211, 5, K[46])
    ensures CubeRoot(223, 6, K[47])
  {
    hide CubeRoot;
    IsCubeRoot(179, 5, 0xa2bfe8a1, 0x5a2bfe8a1);
    IsCubeRoot(181, 5, 0xa81a664b, 0x5a81a664b);
    IsCubeRoot(191, 5, 0xc24b8b70, 0x5c24b8b70);
    IsCubeRoot(193, 5, 0xc76c51a3, 0x5c76c51a3);
    IsCubeRoot(197, 5, 0xd192e819, 0x5d192e819);
    IsCubeRoot(199, 5, 0xd6990624, 0x5d6990624);
    IsCubeRoot(211, 5, 0xf40e3585, 0x5f40e3585);
    IsCubeRoot(223, 6, 0x106aa070, 0x6106aa070);
  }

  lemma Roots6()
    ensures CubeRoot(227, 6, K[48])
    ensures CubeRoot(229, 6, K[49])
    ensures CubeRoot(233, 6, K[50])
    ensures CubeRoot(239, 6, K[51])
    ensures CubeRoot(241, 6, K[52])
    ensures CubeRoot(251, 6, K[53])
    ensures CubeRoot(257, 6, K[54])
    ensures CubeRoot(263, 6, K[55])
  {
    hide CubeRoot;
    IsCubeRoot(227, 6, 0x19a4c116, 0x619a4c116);
    IsCubeRoot(229, 6, 0x1e376c08, 0x61e376c08);
    IsCubeRoot(233, 6, 0x2748774c, 0x62748774c);
    IsCubeRoot(239, 6, 0x34b0bcb5, 0x634b0bcb5);
    IsCubeRoot(241, 6, 0x391c0cb3, 0x6391c0cb3);
    IsCubeRoot(251, 6, 0x4ed8aa4a, 0x64ed8aa4a);
    IsCubeRoot(257, 6, 0x5b9cca4f, 0x65b9cca4f);
    IsCubeRoot(263, 6, 0x682e6ff3, 0x6682e6ff3);
  }

  lemma Roots7()
    ensures CubeRoot(269, 6, K[56])
    ensures CubeRoot(271, 6, K[57])
    ensures CubeRoot(277, 6, K[58])
    ensures CubeRoot(281, 6, K[59])
    ensures CubeRoot(283, 6, K[60])
    ensures CubeRoot(293, 6, K[61])
    ensures CubeRoot(307, 6, K[62])
    ensures CubeRoot(311, 6, K[63])
  {
    hide CubeRoot;
    IsCubeRoot(269, 6, 0x748f82ee, 0x6748f82ee);
    IsCubeRoot(271, 6, 0x78a5636f, 0x678a5636f);
    IsCubeRoot(277, 6, 0x84c87814, 0x684c87814);
    IsCubeRoot(281, 6, 0x8cc70208, 0x68cc70208);
    IsCubeRoot(283, 6, 0x90befffa, 0x690befffa);
    IsCubeRoot(293, 6, 0xa4506ceb, 0x6a4506ceb);
    IsCubeRoot(307, 6, 0xbef9a3f7, 0x6bef9a3f7);
    IsCubeRoot(311, 6, 0xc67178f2, 0x6c67178f2);
  }

  /** The whole part of the cube root of a number below 343. */
  function Whole(p: nat): nat {
    if p < 8 then 1 else if p < 27 then 2 else if p < 64 then 3 else if p < 125 then 4 else if p < 216 then 5 else 6
  }

  /** The round constants are the fractions of the cube roots of the first 64 primes. */
  lemma RoundConstants(i: nat)
    requires i < 64
    ensures |K| == |PRIMES| == 64 && CubeRoot(PRIMES[i], Whole(PRIMES[i]), K[i])
  {
    hide CubeRoot;
    if i < 8 {
      Roots0();
      assert i == 0 || i == 1 || i == 2 || i == 3 || i == 4 || i == 5 || i == 6 || i == 7;
    } else if i < 16 {
      Roots1();
      assert i == 8 || i == 9 || i == 10 || i == 11 || i == 12 || i == 13 || i == 14 || i == 15;
    } else if i < 24 {
      Roots2();
      assert i == 16 || i == 17 || i == 18 || i == 19 || i == 20 || i == 21 || i == 22 || i == 23;
    } else if i < 32 {
      Roots3();
      assert i == 24 || i == 25 || i == 26 || i == 27 || i == 28 || i == 29 || i == 30 || i == 31;
    } else if i < 40 {
      Roots4();
      assert i == 32 || i == 33 || i == 34 || i == 35 || i == 36 || i == 37 || i == 38 || i == 39;
    } else if i < 48 {
      Roots5();
      assert i == 40 || i == 41 || i == 42 || i == 43 || i == 44 || i == 45 || i == 46 || i == 47;
    } else if i < 56 {
      Roots6();
      assert i == 48 || i == 49 || i == 50 || i == 51 || i == 52 || i == 53 || i == 54 || i == 55;
    } else {
      Roots7();
      assert i == 56 || i == 57 || i == 58 || i == 59 || i == 60 || i == 61 || i == 62 || i == 63;
    }
  }

  /** The initial hash value holds the fractions of the square roots of the first eight. */
  lemma InitialHash()
    ensures SquareRoot(2, 1, H0.a)
    ensures SquareRoot(3, 1, H0.b)
    ensures SquareRoot(5, 2, H0.c)
    ensures SquareRoot(7, 2, H0.d)
    ensures SquareRoot(11, 3, H0.e)
    ensures SquareRoot(13, 3, H0.f)
    ensures SquareRoot(17, 4, H0.g)
    ensures SquareRoot(19, 4, H0.h)
  {
    hide SquareRoot;
    IsSquareRoot(2, 1, 0x6a09e667, 0x16a09e667);
    IsSquareRoot(3, 1, 0xbb67ae85, 0x1bb67ae85);
    IsSquareRoot(5, 2, 0x3c6ef372, 0x23c6ef372);
    IsSquareRoot(7, 2, 0xa54ff53a, 0x2a54ff53a);
    IsSquareRoot(11, 3, 0x510e527f, 0x3510e527f);
    IsSquareRoot(13, 3, 0x9b05688c, 0x39b05688c);
    IsSquareRoot(17, 4, 0x1f83d9ab, 0x41f83d9ab);
    IsSquareRoot(19, 4, 0x5be0cd19, 0x45be0cd19);
  }

  // ------------------------------------------------------------------------ rotations

  /** The highest bit goes down by the amounts of section 4.1.2; the lowest comes back at the top, or is shifted out. */
  lemma FirstAndLastBit()
    ensures BigSigma0(0x8000_0000) == 0x20040200 && BigSigma0(1) == 0x40080400
    ensures BigSigma1(0x8000_0000) == 0x02100040 && BigSigma1(1) == 0x04200080
    ensures SmallSigma0(0x8000_0000) == 0x11002000 && SmallSigma0(1) == 0x02004000
    ensures SmallSigma1(0x8000_0000) == 0x00205000 && SmallSigma1(1) == 0x0000a000
  {
  }

  /** Bit by bit, Ch takes `y` where `x` has a one and `z` elsewhere. */
  lemma Choice(x: Word, y: Word, z: Word)
    ensures Ch(x, y, z) == (y & x) | (z & !x)
  {
  }

  /** Bit by bit, Maj takes what at least two agree on. */
  lemma Majority(x: Word, y: Word, z: Word)
    ensures Maj(x, y, z) == (x & y) | (x & z) | (y & z)
  {
  }
}
