/** The constants of SHA-512, and what sections 4.2.3 and 5.3.5 of FIPS 180-4 say they are: the first 64 bits of
    the fractional parts of roots of primes. */
module Sha512Constants {
  import opened Sha512Words

  // The round constants, eight a row.

  const K0: Eight := [
    0x428a2f98d728ae22, 0x7137449123ef65cd, 0xb5c0fbcfec4d3b2f, 0xe9b5dba58189dbbc,
    0x3956c25bf348b538, 0x59f111f1b605d019, 0x923f82a4af194f9b, 0xab1c5ed5da6d8118
  ]
  const K1: Eight := [
    0xd807aa98a3030242, 0x12835b0145706fbe, 0x243185be4ee4b28c, 0x550c7dc3d5ffb4e2,
    0x72be5d74f27b896f, 0x80deb1fe3b1696b1, 0x9bdc06a725c71235, 0xc19bf174cf692694
  ]
  const K2: Eight := [
    0xe49b69c19ef14ad2, 0xefbe4786384f25e3, 0x0fc19dc68b8cd5b5, 0x240ca1cc77ac9c65,
    0x2de92c6f592b0275, 0x4a7484aa6ea6e483, 0x5cb0a9dcbd41fbd4, 0x76f988da831153b5
  ]
  const K3: Eight := [
    0x983e5152ee66dfab, 0xa831c66d2db43210, 0xb00327c898fb213f, 0xbf597fc7beef0ee4,
    0xc6e00bf33da88fc2, 0xd5a79147930aa725, 0x06ca6351e003826f, 0x142929670a0e6e70
  ]
  const K4: Eight := [
    0x27b70a8546d22ffc, 0x2e1b21385c26c926, 0x4d2c6dfc5ac42aed, 0x53380d139d95b3df,
    0x650a73548baf63de, 0x766a0abb3c77b2a8, 0x81c2c92e47edaee6, 0x92722c851482353b
  ]
  const K5: Eight := [
    0xa2bfe8a14cf10364, 0xa81a664bbc423001, 0xc24b8b70d0f89791, 0xc76c51a30654be30,
    0xd192e819d6ef5218, 0xd69906245565a910, 0xf40e35855771202a, 0x106aa07032bbd1b8
  ]
  const K6: Eight := [
    0x19a4c116b8d2d0c8, 0x1e376c085141ab53, 0x2748774cdf8eeb99, 0x34b0bcb5e19b48a8,
    0x391c0cb3c5c95a63, 0x4ed8aa4ae3418acb, 0x5b9cca4f7763e373, 0x682e6ff3d6b2b8a3
  ]
  const K7: Eight := [
    0x748f82ee5defb2fc, 0x78a5636f43172f60, 0x84c87814a1f0ab72, 0x8cc702081a6439ec,
    0x90befffa23631e28, 0xa4506cebde82bde9, 0xbef9a3f7b2c67915, 0xc67178f2e372532b
  ]
  const K8: Eight := [
    0xca273eceea26619c, 0xd186b8c721c0c207, 0xeada7dd6cde0eb1e, 0xf57d4f7fee6ed178,
    0x06f067aa72176fba, 0x0a637dc5a2c898a6, 0x113f9804bef90dae, 0x1b710b35131c471b
  ]
  const K9: Eight := [
    0x28db77f523047d84, 0x32caab7b40c72493, 0x3c9ebe0a15c9bebc, 0x431d67c49c100d4c,
    0x4cc5d4becb3e42b6, 0x597f299cfc657e2a, 0x5fcb6fab3ad6faec, 0x6c44198c4a475817
  ]

  const K: seq<Word> := K0 + K1 + K2 + K3 + K4 + K5 + K6 + K7 + K8 + K9

  /** The initial hash value. */
  const IV: Eight := [
    0x6a09e667f3bcc908, 0xbb67ae8584caa73b, 0x3c6ef372fe94f82b, 0xa54ff53a5f1d36f1,
    0x510e527fade682d1, 0x9b05688c2b3e6c1f, 0x1f83d9abfb41bd6b, 0x5be0cd19137e2179
  ]

  lemma ConstantRows()
    ensures |K| == 80
    ensures K[0..8] == K0
    ensures K[8..16] == K1
    ensures K[16..24] == K2
    ensures K[24..32] == K3
    ensures K[32..40] == K4
    ensures K[40..48] == K5
    ensures K[48..56] == K6
    ensures K[56..64] == K7
    ensures K[64..72] == K8
    ensures K[72..80] == K9
  {
  }

  // -------------------------------------------------------------------------------------------
  // Roots of primes
  // -------------------------------------------------------------------------------------------

  type EightPrimes = s: seq<nat> | |s| == 8 witness [0, 0, 0, 0, 0, 0, 0, 0]

  // The first eighty primes.

  const P0: EightPrimes := [2, 3, 5, 7, 11, 13, 17, 19]
  const P1: EightPrimes := [23, 29, 31, 37, 41, 43, 47, 53]
  const P2: EightPrimes := [59, 61, 67, 71, 73, 79, 83, 89]
  const P3: EightPrimes := [97, 101, 103, 107, 109, 113, 127, 131]
  const P4: EightPrimes := [137, 139, 149, 151, 157, 163, 167, 173]
  const P5: EightPrimes := [179, 181, 191, 193, 197, 199, 211, 223]
  const P6: EightPrimes := [227, 229, 233, 239, 241, 251, 257, 263]
  const P7: EightPrimes := [269, 271, 277, 281, 283, 293, 307, 311]
  const P8: EightPrimes := [313, 317, 331, 337, 347, 349, 353, 359]
  const P9: EightPrimes := [367, 373, 379, 383, 389, 397, 401, 409]

  function Cube(x: nat): nat {
    x * x * x
  }

  /** x / 2^64 is the cube root of p, rounded down. */
  predicate IsCubeRoot(x: nat, p: nat) {
    Cube(x) <= p * 0x1_0000_0000_0000_0000_0000_0000_0000_0000_0000_0000_0000_0000 < Cube(x + 1)
  }

  /** x / 2^64 is the square root of p, rounded down. */
  predicate IsSquareRoot(x: nat, p: nat) {
    x * x <= p * 0x1_0000_0000_0000_0000_0000_0000_0000_0000 < (x + 1) * (x + 1)
  }

  /** The number n + k / 2^64, times 2^64. */
  function Fixed(n: nat, k: Word): nat {
    n * 0x1_0000_0000_0000_0000 + k as nat
  }

  /** The words k are the fractional parts of the cube roots of p. */
  ghost predicate CubeRoots(k: Eight, p: EightPrimes) {
    forall t :: 0 <= t < 8 ==> exists n :: IsCubeRoot(Fixed(n, k[t]), p[t])
  }

  ghost predicate SquareRoots(k: Eight, p: EightPrimes) {
    forall t :: 0 <= t < 8 ==> exists n :: IsSquareRoot(Fixed(n, k[t]), p[t])
  }

  lemma Row0()
    ensures CubeRoots(K0, P0)
  {
    assert IsCubeRoot(Fixed(1, K0[0]), P0[0]);
    assert IsCubeRoot(Fixed(1, K0[1]), P0[1]);
    assert IsCubeRoot(Fixed(1, K0[2]), P0[2]);
    assert IsCubeRoot(Fixed(1, K0[3]), P0[3]);
    assert IsCubeRoot(Fixed(2, K0[4]), P0[4]);
    assert IsCubeRoot(Fixed(2, K0[5]), P0[5]);
    assert IsCubeRoot(Fixed(2, K0[6]), P0[6]);
    assert IsCubeRoot(Fixed(2, K0[7]), P0[7]);
  }

  lemma Row1()
    ensures CubeRoots(K1, P1)
  {
    assert IsCubeRoot(Fixed(2, K1[0]), P1[0]);
    assert IsCubeRoot(Fixed(3, K1[1]), P1[1]);
    assert IsCubeRoot(Fixed(3, K1[2]), P1[2]);
    assert IsCubeRoot(Fixed(3, K1[3]), P1[3]);
    assert IsCubeRoot(Fixed(3, K1[4]), P1[4]);
    assert IsCubeRoot(Fixed(3, K1[5]), P1[5]);
    assert IsCubeRoot(Fixed(3, K1[6]), P1[6]);
    assert IsCubeRoot(Fixed(3, K1[7]), P1[7]);
  }

  lemma Row2()
    ensures CubeRoots(K2, P2)
  {
    assert IsCubeRoot(Fixed(3, K2[0]), P2[0]);
    assert IsCubeRoot(Fixed(3, K2[1]), P2[1]);
    assert IsCubeRoot(Fixed(4, K2[2]), P2[2]);
    assert IsCubeRoot(Fixed(4, K2[3]), P2[3]);
    assert IsCubeRoot(Fixed(4, K2[4]), P2[4]);
    assert IsCubeRoot(Fixed(4, K2[5]), P2[5]);
    assert IsCubeRoot(Fixed(4, K2[6]), P2[6]);
    assert IsCubeRoot(Fixed(4, K2[7]), P2[7]);
  }

  lemma Row3()
    ensures CubeRoots(K3, P3)
  {
    assert IsCubeRoot(Fixed(4, K3[0]), P3[0]);
    assert IsCubeRoot(Fixed(4, K3[1]), P3[1]);
    assert IsCubeRoot(Fixed(4, K3[2]), P3[2]);
    assert IsCubeRoot(Fixed(4, K3[3]), P3[3]);
    assert IsCubeRoot(Fixed(4, K3[4]), P3[4]);
    assert IsCubeRoot(Fixed(4, K3[5]), P3[5]);
    assert IsCubeRoot(Fixed(5, K3[6]), P3[6]);
    assert IsCubeRoot(Fixed(5, K3[7]), P3[7]);
  }

  lemma Row4()
    ensures CubeRoots(K4, P4)
  {
    assert IsCubeRoot(Fixed(5, K4[0]), P4[0]);
    assert IsCubeRoot(Fixed(5, K4[1]), P4[1]);
    assert IsCubeRoot(Fixed(5, K4[2]), P4[2]);
    assert IsCubeRoot(Fixed(5, K4[3]), P4[3]);
    assert IsCubeRoot(Fixed(5, K4[4]), P4[4]);
    assert IsCubeRoot(Fixed(5, K4[5]), P4[5]);
    assert IsCubeRoot(Fixed(5, K4[6]), P4[6]);
    assert IsCubeRoot(Fixed(5, K4[7]), P4[7]);
  }

  lemma Row5()
    ensures CubeRoots(K5, P5)
  {
    assert IsCubeRoot(Fixed(5, K5[0]), P5[0]);
    assert IsCubeRoot(Fixed(5, K5[1]), P5[1]);
    assert IsCubeRoot(Fixed(5, K5[2]), P5[2]);
    assert IsCubeRoot(Fixed(5, K5[3]), P5[3]);
    assert IsCubeRoot(Fixed(5, K5[4]), P5[4]);
    assert IsCubeRoot(Fixed(5, K5[5]), P5[5]);
    assert IsCubeRoot(Fixed(5, K5[6]), P5[6]);
    assert IsCubeRoot(Fixed(6, K5[7]), P5[7]);
  }

  lemma Row6()
    ensures CubeRoots(K6, P6)
  {
    assert IsCubeRoot(Fixed(6, K6[0]), P6[0]);
    assert IsCubeRoot(Fixed(6, K6[1]), P6[1]);
    assert IsCubeRoot(Fixed(6, K6[2]), P6[2]);
    assert IsCubeRoot(Fixed(6, K6[3]), P6[3]);
    assert IsCubeRoot(Fixed(6, K6[4]), P6[4]);
    assert IsCubeRoot(Fixed(6, K6[5]), P6[5]);
    assert IsCubeRoot(Fixed(6, K6[6]), P6[6]);
    assert IsCubeRoot(Fixed(6, K6[7]), P6[7]);
  }

  lemma Row7()
    ensures CubeRoots(K7, P7)
  {
    assert IsCubeRoot(Fixed(6, K7[0]), P7[0]);
    assert IsCubeRoot(Fixed(6, K7[1]), P7[1]);
    assert IsCubeRoot(Fixed(6, K7[2]), P7[2]);
    assert IsCubeRoot(Fixed(6, K7[3]), P7[3]);
    assert IsCubeRoot(Fixed(6, K7[4]), P7[4]);
    assert IsCubeRoot(Fixed(6, K7[5]), P7[5]);
    assert IsCubeRoot(Fixed(6, K7[6]), P7[6]);
    assert IsCubeRoot(Fixed(6, K7[7]), P7[7]);
  }

  lemma Row8()
    ensures CubeRoots(K8, P8)
  {
    assert IsCubeRoot(Fixed(6, K8[0]), P8[0]);
    assert IsCubeRoot(Fixed(6, K8[1]), P8[1]);
    assert IsCubeRoot(Fixed(6, K8[2]), P8[2]);
    assert IsCubeRoot(Fixed(6, K8[3]), P8[3]);
    assert IsCubeRoot(Fixed(7, K8[4]), P8[4]);
    assert IsCubeRoot(Fixed(7, K8[5]), P8[5]);
    assert IsCubeRoot(Fixed(7, K8[6]), P8[6]);
    assert IsCubeRoot(Fixed(7, K8[7]), P8[7]);
  }

  lemma Row9()
    ensures CubeRoots(K9, P9)
  {
    assert IsCubeRoot(Fixed(7, K9[0]), P9[0]);
    assert IsCubeRoot(Fixed(7, K9[1]), P9[1]);
    assert IsCubeRoot(Fixed(7, K9[2]), P9[2]);
    assert IsCubeRoot(Fixed(7, K9[3]), P9[3]);
    assert IsCubeRoot(Fixed(7, K9[4]), P9[4]);
    assert IsCubeRoot(Fixed(7, K9[5]), P9[5]);
    assert IsCubeRoot(Fixed(7, K9[6]), P9[6]);
    assert IsCubeRoot(Fixed(7, K9[7]), P9[7]);
  }

  /** The initial hash value comes from the square roots of the first eight primes. */
  lemma InitialValue()
    ensures SquareRoots(IV, P0)
  {
    assert IsSquareRoot(Fixed(1, IV[0]), P0[0]);
    assert IsSquareRoot(Fixed(1, IV[1]), P0[1]);
    assert IsSquareRoot(Fixed(2, IV[2]), P0[2]);
    assert IsSquareRoot(Fixed(2, IV[3]), P0[3]);
    assert IsSquareRoot(Fixed(3, IV[4]), P0[4]);
    assert IsSquareRoot(Fixed(3, IV[5]), P0[5]);
    assert IsSquareRoot(Fixed(4, IV[6]), P0[6]);
    assert IsSquareRoot(Fixed(4, IV[7]), P0[7]);
  }

  /** The round constants come from the cube roots of the first eighty primes. */
  lemma RoundConstants()
    ensures CubeRoots(K[0..8], P0)
    ensures CubeRoots(K[8..16], P1)
    ensures CubeRoots(K[16..24], P2)
    ensures CubeRoots(K[24..32], P3)
    ensures CubeRoots(K[32..40], P4)
    ensures CubeRoots(K[40..48], P5)
    ensures CubeRoots(K[48..56], P6)
    ensures CubeRoots(K[56..64], P7)
    ensures CubeRoots(K[64..72], P8)
    ensures CubeRoots(K[72..80], P9)
  {
    hide CubeRoots, K;
    ConstantRows();
    Row0();
    Row1();
    Row2();
    Row3();
    Row4();
    Row5();
    Row6();
    Row7();
    Row8();
    Row9();
  }
}
