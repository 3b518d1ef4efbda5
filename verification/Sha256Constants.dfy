/**
  Where the constants of SHA-256 come from. FIPS 180-4 defines them as the first thirty-two bits of the
  fractional parts of roots of the first primes; here every entry of the tables is checked against that.

  The root of p scaled by 2^32 is the largest m with m^3 <= p * 2^96, or m^2 <= p * 2^64 for the square
  roots; its fraction is m modulo 2^32, and its whole part is what each row below supplies.
*/
module Sha256Constants {
  import opened Prelude
  import opened Primes
  import opened Sha256Spec
  import opened Words

  // m is the integer part of the cube root of prime * 2^96, that is, of the cube root of prime with
  // thirty-two fractional bits.
  predicate ScaledCubeRoot(prime: nat, m: nat) {
    m * m * m <= prime * 0x1_00000000_00000000_00000000 < (m + 1) * (m + 1) * (m + 1)
  }

  predicate ScaledSquareRoot(prime: nat, m: nat) {
    m * m <= prime * 0x1_00000000_00000000 < (m + 1) * (m + 1)
  }

  // `fraction` is the first thirty-two bits of the fractional part of the cube root of `prime`.
  ghost predicate CubeRootFraction(prime: nat, fraction: Word) {
    exists whole: nat :: ScaledCubeRoot(prime, whole * WORD32 + fraction)
  }

  ghost predicate SquareRootFraction(prime: nat, fraction: Word) {
    exists whole: nat :: ScaledSquareRoot(prime, whole * WORD32 + fraction)
  }

  lemma CubeRoot(prime: nat, fraction: Word, whole: nat)
    requires ScaledCubeRoot(prime, whole * WORD32 + fraction)
    ensures CubeRootFraction(prime, fraction)
  {
  }

  lemma SquareRoot(prime: nat, fraction: Word, whole: nat)
    requires ScaledSquareRoot(prime, whole * WORD32 + fraction)
    ensures SquareRootFraction(prime, fraction)
  {
  }

  lemma Row0()
    ensures forall c :: 0 <= c < 8 ==> CubeRootFraction(PrimeRow(0)[c], ConstantRow(0)[c])
  {
    CubeRoot(2, 0x428a2f98, 1);
    CubeRoot(3, 0x71374491, 1);
    CubeRoot(5, 0xb5c0fbcf, 1);
    CubeRoot(7, 0xe9b5dba5, 1);
    CubeRoot(11, 0x3956c25b, 2);
    CubeRoot(13, 0x59f111f1, 2);
    CubeRoot(17, 0x923f82a4, 2);
    CubeRoot(19, 0xab1c5ed5, 2);
  }

  lemma Row1()
    ensures forall c :: 0 <= c < 8 ==> CubeRootFraction(PrimeRow(1)[c], ConstantRow(1)[c])
  {
    CubeRoot(23, 0xd807aa98, 2);
    CubeRoot(29, 0x12835b01, 3);
    CubeRoot(31, 0x243185be, 3);
    CubeRoot(37, 0x550c7dc3, 3);
    CubeRoot(41, 0x72be5d74, 3);
    CubeRoot(43, 0x80deb1fe, 3);
    CubeRoot(47, 0x9bdc06a7, 3);
    CubeRoot(53, 0xc19bf174, 3);
  }

  lemma Row2()
    ensures forall c :: 0 <= c < 8 ==> CubeRootFraction(PrimeRow(2)[c], ConstantRow(2)[c])
  {
    CubeRoot(59, 0xe49b69c1, 3);
    CubeRoot(61, 0xefbe4786, 3);
    CubeRoot(67, 0x0fc19dc6, 4);
    CubeRoot(71, 0x240ca1cc, 4);
    CubeRoot(73, 0x2de92c6f, 4);
    CubeRoot(79, 0x4a7484aa, 4);
    CubeRoot(83, 0x5cb0a9dc, 4);
    CubeRoot(89, 0x76f988da, 4);
  }

  lemma Row3()
    ensures forall c :: 0 <= c < 8 ==> CubeRootFraction(PrimeRow(3)[c], ConstantRow(3)[c])
  {
    CubeRoot(97, 0x983e5152, 4);
    CubeRoot(101, 0xa831c66d, 4);
    CubeRoot(103, 0xb00327c8, 4);
    CubeRoot(107, 0xbf597fc7, 4);
    CubeRoot(109, 0xc6e00bf3, 4);
    CubeRoot(113, 0xd5a79147, 4);
    CubeRoot(127, 0x06ca6351, 5);
    CubeRoot(131, 0x14292967, 5);
  }

  lemma Row4()
    ensures forall c :: 0 <= c < 8 ==> CubeRootFraction(PrimeRow(4)[c], ConstantRow(4)[c])
  {
    CubeRoot(137, 0x27b70a85, 5);
    CubeRoot(139, 0x2e1b2138, 5);
    CubeRoot(149, 0x4d2c6dfc, 5);
    CubeRoot(151, 0x53380d13, 5);
    CubeRoot(157, 0x650a7354, 5);
    CubeRoot(163, 0x766a0abb, 5);
    CubeRoot(167, 0x81c2c92e, 5);
    CubeRoot(173, 0x92722c85, 5);
  }

  lemma Row5()
    ensures forall c :: 0 <= c < 8 ==> CubeRootFraction(PrimeRow(5)[c], ConstantRow(5)[c])
  {
    CubeRoot(179, 0xa2bfe8a1, 5);
    CubeRoot(181, 0xa81a664b, 5);
    CubeRoot(191, 0xc24b8b70, 5);
    CubeRoot(193, 0xc76c51a3, 5);
    CubeRoot(197, 0xd192e819, 5);
    CubeRoot(199, 0xd6990624, 5);
    CubeRoot(211, 0xf40e3585, 5);
    CubeRoot(223, 0x106aa070, 6);
  }

  lemma Row6()
    ensures forall c :: 0 <= c < 8 ==> CubeRootFraction(PrimeRow(6)[c], ConstantRow(6)[c])
  {
    CubeRoot(227, 0x19a4c116, 6);
    CubeRoot(229, 0x1e376c08, 6);
    CubeRoot(233, 0x2748774c, 6);
    CubeRoot(239, 0x34b0bcb5, 6);
    CubeRoot(241, 0x391c0cb3, 6);
    CubeRoot(251, 0x4ed8aa4a, 6);
    CubeRoot(257, 0x5b9cca4f, 6);
    CubeRoot(263, 0x682e6ff3, 6);
  }

  lemma Row7()
    ensures forall c :: 0 <= c < 8 ==> CubeRootFraction(PrimeRow(7)[c], ConstantRow(7)[c])
  {
    CubeRoot(269, 0x748f82ee, 6);
    CubeRoot(271, 0x78a5636f, 6);
    CubeRoot(277, 0x84c87814, 6);
    CubeRoot(281, 0x8cc70208, 6);
    CubeRoot(283, 0x90befffa, 6);
    CubeRoot(293, 0xa4506ceb, 6);
    CubeRoot(307, 0xbef9a3f7, 6);
    CubeRoot(311, 0xc67178f2, 6);
  }

  // Section 4.2.2: K_t comes from the cube root of the t-th prime.
  lemma RoundConstantsAreCubeRoots(t: nat)
    requires t < 64
    ensures CubeRootFraction(Prime(t), K(t))
  {
    match t / 8 {
      case 0 => Row0();
      case 1 => Row1();
      case 2 => Row2();
      case 3 => Row3();
      case 4 => Row4();
      case 5 => Row5();
      case 6 => Row6();
      case _ => Row7();
    }
  }

  // Section 5.3.3: the initial hash value comes from the square roots of the first eight primes.
  lemma InitialHashIsSquareRoots(i: nat)
    requires i < 8
    ensures SquareRootFraction(Prime(i), H0[i])
  {
    SquareRoot(2, 0x6a09e667, 1);
    SquareRoot(3, 0xbb67ae85, 1);
    SquareRoot(5, 0x3c6ef372, 2);
    SquareRoot(7, 0xa54ff53a, 2);
    SquareRoot(11, 0x510e527f, 3);
    SquareRoot(13, 0x9b05688c, 3);
    SquareRoot(17, 0x1f83d9ab, 4);
    SquareRoot(19, 0x5be0cd19, 4);
  }
}
