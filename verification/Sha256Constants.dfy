/** The constants of SHA-256: fractions of square and cube roots of primes (sections 4.2.2 and 5.3.3 of FIPS 180-4). */
module Sha256Constants {
  import opened Sha256

  const PRIMES: seq<nat> :=
    [2, 3, 5, 7, 11, 13, 17, 19] +
    [23, 29, 31, 37, 41, 43, 47, 53] +
    [59, 61, 67, 71, 73, 79, 83, 89] +
    [97, 101, 103, 107, 109, 113, 127, 131] +
    [137, 139, 149, 151, 157, 163, 167, 173] +
    [179, 181, 191, 193, 197, 199, 211, 223] +
    [227, 229, 233, 239, 241, 251, 257, 263] +
    [269, 271, 277, 281, 283, 293, 307, 311]

  const UNIT: nat := 0x1_0000_0000

  function Cube(n: nat): nat {
    n * n * n
  }

  /** `word` is the first 32 bits behind the point of the cube root of `p`. */
  ghost predicate FromCubeRoot(p: nat, word: Word) {
    exists whole: nat :: CubeBetween(p, whole * UNIT + word as nat)
  }

  predicate CubeBetween(p: nat, root: nat) {
    Cube(root) <= p * Cube(UNIT) < Cube(root + 1)
  }

  ghost predicate FromSquareRoot(p: nat, word: Word) {
    exists whole: nat :: SquareBetween(p, whole * UNIT + word as nat)
  }

  predicate SquareBetween(p: nat, root: nat) {
    root * root <= p * UNIT * UNIT < (root + 1) * (root + 1)
  }

  lemma {:induction false} CubeRootPart(p: nat, whole: nat, word: Word, n: nat)
    requires word as nat == n && CubeBetween(p, whole * UNIT + n)
    ensures FromCubeRoot(p, word)
  {
  }

  lemma {:induction false} SquareRootPart(p: nat, whole: nat, word: Word, n: nat)
    requires word as nat == n && SquareBetween(p, whole * UNIT + n)
    ensures FromSquareRoot(p, word)
  {
  }

  lemma {:induction false} RoundConstants0()
    ensures forall t :: 0 <= t < 8 ==> FromCubeRoot(PRIMES[t], K[t])
  {
    hide FromCubeRoot;
    CubeRootPart(2, 1, 0x428a2f98, 0x428a2f98);
    assert PRIMES[0] == 2 && K[0] == 0x428a2f98;
    CubeRootPart(3, 1, 0x71374491, 0x71374491);
    assert PRIMES[1] == 3 && K[1] == 0x71374491;
    CubeRootPart(5, 1, 0xb5c0fbcf, 0xb5c0fbcf);
    assert PRIMES[2] == 5 && K[2] == 0xb5c0fbcf;
    CubeRootPart(7, 1, 0xe9b5dba5, 0xe9b5dba5);
    assert PRIMES[3] == 7 && K[3] == 0xe9b5dba5;
    CubeRootPart(11, 2, 0x3956c25b, 0x3956c25b);
    assert PRIMES[4] == 11 && K[4] == 0x3956c25b;
    CubeRootPart(13, 2, 0x59f111f1, 0x59f111f1);
    assert PRIMES[5] == 13 && K[5] == 0x59f111f1;
    CubeRootPart(17, 2, 0x923f82a4, 0x923f82a4);
    assert PRIMES[6] == 17 && K[6] == 0x923f82a4;
    CubeRootPart(19, 2, 0xab1c5ed5, 0xab1c5ed5);
    assert PRIMES[7] == 19 && K[7] == 0xab1c5ed5;
  }

  lemma {:induction false} RoundConstants8()
    ensures forall t :: 8 <= t < 16 ==> FromCubeRoot(PRIMES[t], K[t])
  {
    hide FromCubeRoot;
    CubeRootPart(23, 2, 0xd807aa98, 0xd807aa98);
    assert PRIMES[8] == 23 && K[8] == 0xd807aa98;
    CubeRootPart(29, 3, 0x12835b01, 0x12835b01);
    assert PRIMES[9] == 29 && K[9] == 0x12835b01;
    CubeRootPart(31, 3, 0x243185be, 0x243185be);
    assert PRIMES[10] == 31 && K[10] == 0x243185be;
    CubeRootPart(37, 3, 0x550c7dc3, 0x550c7dc3);
    assert PRIMES[11] == 37 && K[11] == 0x550c7dc3;
    CubeRootPart(41, 3, 0x72be5d74, 0x72be5d74);
    assert PRIMES[12] == 41 && K[12] == 0x72be5d74;
    CubeRootPart(43, 3, 0x80deb1fe, 0x80deb1fe);
    assert PRIMES[13] == 43 && K[13] == 0x80deb1fe;
    CubeRootPart(47, 3, 0x9bdc06a7, 0x9bdc06a7);
    assert PRIMES[14] == 47 && K[14] == 0x9bdc06a7;
    CubeRootPart(53, 3, 0xc19bf174, 0xc19bf174);
    assert PRIMES[15] == 53 && K[15] == 0xc19bf174;
  }

  lemma {:induction false} RoundConstants16()
    ensures forall t :: 16 <= t < 24 ==> FromCubeRoot(PRIMES[t], K[t])
  {
    hide FromCubeRoot;
    CubeRootPart(59, 3, 0xe49b69c1, 0xe49b69c1);
    assert PRIMES[16] == 59 && K[16] == 0xe49b69c1;
    CubeRootPart(61, 3, 0xefbe4786, 0xefbe4786);
    assert PRIMES[17] == 61 && K[17] == 0xefbe4786;
    CubeRootPart(67, 4, 0x0fc19dc6, 0x0fc19dc6);
    assert PRIMES[18] == 67 && K[18] == 0x0fc19dc6;
    CubeRootPart(71, 4, 0x240ca1cc, 0x240ca1cc);
    assert PRIMES[19] == 71 && K[19] == 0x240ca1cc;
    CubeRootPart(73, 4, 0x2de92c6f, 0x2de92c6f);
    assert PRIMES[20] == 73 && K[20] == 0x2de92c6f;
    CubeRootPart(79, 4, 0x4a7484aa, 0x4a7484aa);
    assert PRIMES[21] == 79 && K[21] == 0x4a7484aa;
    CubeRootPart(83, 4, 0x5cb0a9dc, 0x5cb0a9dc);
    assert PRIMES[22] == 83 && K[22] == 0x5cb0a9dc;
    CubeRootPart(89, 4, 0x76f988da, 0x76f988da);
    assert PRIMES[23] == 89 && K[23] == 0x76f988da;
  }

  lemma {:induction false} RoundConstants24()
    ensures forall t :: 24 <= t < 32 ==> FromCubeRoot(PRIMES[t], K[t])
  {
    hide FromCubeRoot;
    CubeRootPart(97, 4, 0x983e5152, 0x983e5152);
    assert PRIMES[24] == 97 && K[24] == 0x983e5152;
    CubeRootPart(101, 4, 0xa831c66d, 0xa831c66d);
    assert PRIMES[25] == 101 && K[25] == 0xa831c66d;
    CubeRootPart(103, 4, 0xb00327c8, 0xb00327c8);
    assert PRIMES[26] == 103 && K[26] == 0xb00327c8;
    CubeRootPart(107, 4, 0xbf597fc7, 0xbf597fc7);
    assert PRIMES[27] == 107 && K[27] == 0xbf597fc7;
    CubeRootPart(109, 4, 0xc6e00bf3, 0xc6e00bf3);
    assert PRIMES[28] == 109 && K[28] == 0xc6e00bf3;
    CubeRootPart(113, 4, 0xd5a79147, 0xd5a79147);
    assert PRIMES[29] == 113 && K[29] == 0xd5a79147;
    CubeRootPart(127, 5, 0x06ca6351, 0x06ca6351);
    assert PRIMES[30] == 127 && K[30] == 0x06ca6351;
    CubeRootPart(131, 5, 0x14292967, 0x14292967);
    assert PRIMES[31] == 131 && K[31] == 0x14292967;
  }

  lemma {:induction false} RoundConstants32()
    ensures forall t :: 32 <= t < 40 ==> FromCubeRoot(PRIMES[t], K[t])
  {
    hide FromCubeRoot;
    CubeRootPart(137, 5, 0x27b70a85, 0x27b70a85);
    assert PRIMES[32] == 137 && K[32] == 0x27b70a85;
    CubeRootPart(139, 5, 0x2e1b2138, 0x2e1b2138);
    assert PRIMES[33] == 139 && K[33] == 0x2e1b2138;
    CubeRootPart(149, 5, 0x4d2c6dfc, 0x4d2c6dfc);
    assert PRIMES[34] == 149 && K[34] == 0x4d2c6dfc;
    CubeRootPart(151, 5, 0x53380d13, 0x53380d13);
    assert PRIMES[35] == 151 && K[35] == 0x53380d13;
    CubeRootPart(157, 5, 0x650a7354, 0x650a7354);
    assert PRIMES[36] == 157 && K[36] == 0x650a7354;
    CubeRootPart(163, 5, 0x766a0abb, 0x766a0abb);
    assert PRIMES[37] == 163 && K[37] == 0x766a0abb;
    CubeRootPart(167, 5, 0x81c2c92e, 0x81c2c92e);
    assert PRIMES[38] == 167 && K[38] == 0x81c2c92e;
    CubeRootPart(173, 5, 0x92722c85, 0x92722c85);
    assert PRIMES[39] == 173 && K[39] == 0x92722c85;
  }

  lemma {:induction false} RoundConstants40()
    ensures forall t :: 40 <= t < 48 ==> FromCubeRoot(PRIMES[t], K[t])
  {
    hide FromCubeRoot;
    CubeRootPart(179, 5, 0xa2bfe8a1, 0xa2bfe8a1);
    assert PRIMES[40] == 179 && K[40] == 0xa2bfe8a1;
    CubeRootPart(181, 5, 0xa81a664b, 0xa81a664b);
    assert PRIMES[41] == 181 && K[41] == 0xa81a664b;
    CubeRootPart(191, 5, 0xc24b8b70, 0xc24b8b70);
    assert PRIMES[42] == 191 && K[42] == 0xc24b8b70;
    CubeRootPart(193, 5, 0xc76c51a3, 0xc76c51a3);
    assert PRIMES[43] == 193 && K[43] == 0xc76c51a3;
    CubeRootPart(197, 5, 0xd192e819, 0xd192e819);
    assert PRIMES[44] == 197 && K[44] == 0xd192e819;
    CubeRootPart(199, 5, 0xd6990624, 0xd6990624);
    assert PRIMES[45] == 199 && K[45] == 0xd6990624;
    CubeRootPart(211, 5, 0xf40e3585, 0xf40e3585);
    assert PRIMES[46] == 211 && K[46] == 0xf40e3585;
    CubeRootPart(223, 6, 0x106aa070, 0x106aa070);
    assert PRIMES[47] == 223 && K[47] == 0x106aa070;
  }

  lemma {:induction false} RoundConstants48()
    ensures forall t :: 48 <= t < 56 ==> FromCubeRoot(PRIMES[t], K[t])
  {
    hide FromCubeRoot;
    CubeRootPart(227, 6, 0x19a4c116, 0x19a4c116);
    assert PRIMES[48] == 227 && K[48] == 0x19a4c116;
    CubeRootPart(229, 6, 0x1e376c08, 0x1e376c08);
    assert PRIMES[49] == 229 && K[49] == 0x1e376c08;
    CubeRootPart(233, 6, 0x2748774c, 0x2748774c);
    assert PRIMES[50] == 233 && K[50] == 0x2748774c;
    CubeRootPart(239, 6, 0x34b0bcb5, 0x34b0bcb5);
    assert PRIMES[51] == 239 && K[51] == 0x34b0bcb5;
    CubeRootPart(241, 6, 0x391c0cb3, 0x391c0cb3);
    assert PRIMES[52] == 241 && K[52] == 0x391c0cb3;
    CubeRootPart(251, 6, 0x4ed8aa4a, 0x4ed8aa4a);
    assert PRIMES[53] == 251 && K[53] == 0x4ed8aa4a;
    CubeRootPart(257, 6, 0x5b9cca4f, 0x5b9cca4f);
    assert PRIMES[54] == 257 && K[54] == 0x5b9cca4f;
    CubeRootPart(263, 6, 0x682e6ff3, 0x682e6ff3);
    assert PRIMES[55] == 263 && K[55] == 0x682e6ff3;
  }

  lemma {:induction false} RoundConstants56()
    ensures forall t :: 56 <= t < 64 ==> FromCubeRoot(PRIMES[t], K[t])
  {
    hide FromCubeRoot;
    CubeRootPart(269, 6, 0x748f82ee, 0x748f82ee);
    assert PRIMES[56] == 269 && K[56] == 0x748f82ee;
    CubeRootPart(271, 6, 0x78a5636f, 0x78a5636f);
    assert PRIMES[57] == 271 && K[57] == 0x78a5636f;
    CubeRootPart(277, 6, 0x84c87814, 0x84c87814);
    assert PRIMES[58] == 277 && K[58] == 0x84c87814;
    CubeRootPart(281, 6, 0x8cc70208, 0x8cc70208);
    assert PRIMES[59] == 281 && K[59] == 0x8cc70208;
    CubeRootPart(283, 6, 0x90befffa, 0x90befffa);
    assert PRIMES[60] == 283 && K[60] == 0x90befffa;
    CubeRootPart(293, 6, 0xa4506ceb, 0xa4506ceb);
    assert PRIMES[61] == 293 && K[61] == 0xa4506ceb;
    CubeRootPart(307, 6, 0xbef9a3f7, 0xbef9a3f7);
    assert PRIMES[62] == 307 && K[62] == 0xbef9a3f7;
    CubeRootPart(311, 6, 0xc67178f2, 0xc67178f2);
    assert PRIMES[63] == 311 && K[63] == 0xc67178f2;
  }

  lemma {:induction false} InitialState0()
    ensures forall t :: 0 <= t < 8 ==> FromSquareRoot(PRIMES[t], H0[t])
  {
    hide FromSquareRoot;
    SquareRootPart(2, 1, 0x6a09e667, 0x6a09e667);
    assert PRIMES[0] == 2 && H0[0] == 0x6a09e667;
    SquareRootPart(3, 1, 0xbb67ae85, 0xbb67ae85);
    assert PRIMES[1] == 3 && H0[1] == 0xbb67ae85;
    SquareRootPart(5, 2, 0x3c6ef372, 0x3c6ef372);
    assert PRIMES[2] == 5 && H0[2] == 0x3c6ef372;
    SquareRootPart(7, 2, 0xa54ff53a, 0xa54ff53a);
    assert PRIMES[3] == 7 && H0[3] == 0xa54ff53a;
    SquareRootPart(11, 3, 0x510e527f, 0x510e527f);
    assert PRIMES[4] == 11 && H0[4] == 0x510e527f;
    SquareRootPart(13, 3, 0x9b05688c, 0x9b05688c);
    assert PRIMES[5] == 13 && H0[5] == 0x9b05688c;
    SquareRootPart(17, 4, 0x1f83d9ab, 0x1f83d9ab);
    assert PRIMES[6] == 17 && H0[6] == 0x1f83d9ab;
    SquareRootPart(19, 4, 0x5be0cd19, 0x5be0cd19);
    assert PRIMES[7] == 19 && H0[7] == 0x5be0cd19;
  }

  /** Every round constant comes from the cube root of a prime, the primes in order. */
  lemma {:induction false} RoundConstantsAreCubeRoots(t: nat)
    requires t < 64
    ensures FromCubeRoot(PRIMES[t], K[t])
  {
    hide FromCubeRoot;
    RoundConstants0();
    RoundConstants8();
    RoundConstants16();
    RoundConstants24();
    RoundConstants32();
    RoundConstants40();
    RoundConstants48();
    RoundConstants56();
  }

  /** The initial state comes from the square roots of the first eight primes. */
  lemma {:induction false} InitialStateIsSquareRoots(t: nat)
    requires t < 8
    ensures FromSquareRoot(PRIMES[t], H0[t])
  {
    hide FromSquareRoot;
    InitialState0();
  }
}
