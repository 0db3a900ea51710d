/**
 The constants of SHA-256 are those FIPS 180-4 describes: the first 32 bits behind the point of the
 cube roots of the first sixty-four primes, and of the square roots of the first eight.
 */
module ShaConstants {
  import opened Sha256

  /** A prime, for numbers below 361 = 19 * 19: none of the primes below 19 divides it, or it is one of them. */
  predicate IsPrime(n: nat)
  {
    n in {2, 3, 5, 7, 11, 13, 17}
    || (n > 1 && n % 2 != 0 && n % 3 != 0 && n % 5 != 0 && n % 7 != 0 && n % 11 != 0 && n % 13 != 0 && n % 17 != 0)
  }

  const P0: seq<nat> := [2, 3, 5, 7, 11, 13, 17, 19]
  const P1: seq<nat> := [23, 29, 31, 37, 41, 43, 47, 53]
  const P2: seq<nat> := [59, 61, 67, 71, 73, 79, 83, 89]
  const P3: seq<nat> := [97, 101, 103, 107, 109, 113, 127, 131]
  const P4: seq<nat> := [137, 139, 149, 151, 157, 163, 167, 173]
  const P5: seq<nat> := [179, 181, 191, 193, 197, 199, 211, 223]
  const P6: seq<nat> := [227, 229, 233, 239, 241, 251, 257, 263]
  const P7: seq<nat> := [269, 271, 277, 281, 283, 293, 307, 311]

  /** The first sixty-four primes. */
  const PRIMES: seq<nat> := P0 + P1 + P2 + P3 + P4 + P5 + P6 + P7

  function WholeCubeRoot(p: nat): nat
  {
    if p < 8 then 1 else if p < 27 then 2 else if p < 64 then 3 else if p < 125 then 4 else if p < 216 then 5 else 6
  }

  function WholeSquareRoot(p: nat): nat { if p < 4 then 1 else if p < 9 then 2 else if p < 16 then 3 else 4 }

  /** The first 32 bits behind the point of the cube root of `p`: the root lies between `r` and `r + 1` units of 2^-32. */
  predicate CubeRootBits(x: nat, p: nat)
  {
    var r := WholeCubeRoot(p) * 0x1_0000_0000 + x;
    x < 0x1_0000_0000 && r * r * r <= p * 0x1_0000_0000_0000_0000_0000_0000 < (r + 1) * (r + 1) * (r + 1)
  }

  predicate SquareRootBits(x: nat, p: nat)
  {
    var r := WholeSquareRoot(p) * 0x1_0000_0000 + x;
    x < 0x1_0000_0000 && r * r <= p * 0x1_0000_0000_0000_0000 < (r + 1) * (r + 1)
  }

  /** No number after `p` and before `q` is prime. */
  predicate NoneBetween(p: nat, q: nat)
    decreases q - p
  {
    p + 1 >= q || (!IsPrime(p + 1) && NoneBetween(p + 1, q))
  }

  lemma {:induction false} NoneBetweenMeans(p: nat, q: nat)
    ensures NoneBetween(p, q) <==> forall m: nat :: p < m < q ==> !IsPrime(m)
    decreases q - p
  {
    hide IsPrime;
    if p + 1 < q {
      NoneBetweenMeans(p + 1, q);
      assert (forall m: nat :: p < m < q ==> !IsPrime(m)) ==> !IsPrime(p + 1);
    }
  }

  /** `q` is the prime after `p`. */
  predicate NextPrime(p: nat, q: nat) { p < q && IsPrime(q) && NoneBetween(p, q) }

  lemma RowOfPrimes0()
    ensures forall j :: 0 <= j < 7 ==> NextPrime(P0[j], P0[j + 1])
    ensures NextPrime(P0[7], P1[0])
  {
    assert NextPrime(2, 3);
    assert NextPrime(3, 5);
    assert NextPrime(5, 7);
    assert NextPrime(7, 11);
    assert NextPrime(11, 13);
    assert NextPrime(13, 17);
    assert NextPrime(17, 19);
    assert NextPrime(19, 23);
  }

  lemma RowOfPrimes1()
    ensures forall j :: 0 <= j < 7 ==> NextPrime(P1[j], P1[j + 1])
    ensures NextPrime(P1[7], P2[0])
  {
    assert NextPrime(23, 29);
    assert NextPrime(29, 31);
    assert NextPrime(31, 37);
    assert NextPrime(37, 41);
    assert NextPrime(41, 43);
    assert NextPrime(43, 47);
    assert NextPrime(47, 53);
    assert NextPrime(53, 59);
  }

  lemma RowOfPrimes2()
    ensures forall j :: 0 <= j < 7 ==> NextPrime(P2[j], P2[j + 1])
    ensures NextPrime(P2[7], P3[0])
  {
    assert NextPrime(59, 61);
    assert NextPrime(61, 67);
    assert NextPrime(67, 71);
    assert NextPrime(71, 73);
    assert NextPrime(73, 79);
    assert NextPrime(79, 83);
    assert NextPrime(83, 89);
    assert NextPrime(89, 97);
  }

  lemma RowOfPrimes3()
    ensures forall j :: 0 <= j < 7 ==> NextPrime(P3[j], P3[j + 1])
    ensures NextPrime(P3[7], P4[0])
  {
    assert NextPrime(97, 101);
    assert NextPrime(101, 103);
    assert NextPrime(103, 107);
    assert NextPrime(107, 109);
    assert NextPrime(109, 113);
    assert NextPrime(113, 127);
    assert NextPrime(127, 131);
    assert NextPrime(131, 137);
  }

  lemma RowOfPrimes4()
    ensures forall j :: 0 <= j < 7 ==> NextPrime(P4[j], P4[j + 1])
    ensures NextPrime(P4[7], P5[0])
  {
    assert NextPrime(137, 139);
    assert NextPrime(139, 149);
    assert NextPrime(149, 151);
    assert NextPrime(151, 157);
    assert NextPrime(157, 163);
    assert NextPrime(163, 167);
    assert NextPrime(167, 173);
    assert NextPrime(173, 179);
  }

  lemma RowOfPrimes5()
    ensures forall j :: 0 <= j < 7 ==> NextPrime(P5[j], P5[j + 1])
    ensures NextPrime(P5[7], P6[0])
  {
    assert NextPrime(179, 181);
    assert NextPrime(181, 191);
    assert NextPrime(191, 193);
    assert NextPrime(193, 197);
    assert NextPrime(197, 199);
    assert NextPrime(199, 211);
    assert NextPrime(211, 223);
    assert NextPrime(223, 227);
  }

  lemma RowOfPrimes6()
    ensures forall j :: 0 <= j < 7 ==> NextPrime(P6[j], P6[j + 1])
    ensures NextPrime(P6[7], P7[0])
  {
    assert NextPrime(227, 229);
    assert NextPrime(229, 233);
    assert NextPrime(233, 239);
    assert NextPrime(239, 241);
    assert NextPrime(241, 251);
    assert NextPrime(251, 257);
    assert NextPrime(257, 263);
    assert NextPrime(263, 269);
  }

  lemma RowOfPrimes7()
    ensures forall j :: 0 <= j < 7 ==> NextPrime(P7[j], P7[j + 1])
  {
    assert NextPrime(269, 271);
    assert NextPrime(271, 277);
    assert NextPrime(277, 281);
    assert NextPrime(281, 283);
    assert NextPrime(283, 293);
    assert NextPrime(293, 307);
    assert NextPrime(307, 311);
  }

  lemma RowIsCubeRoots0()
    ensures forall j :: 0 <= j < 8 ==> CubeRootBits(K0[j] as nat, P0[j])
  {
    assert CubeRootBits(0x428a2f98, 2) && K0[0] == 0x428a2f98;
    assert CubeRootBits(0x71374491, 3) && K0[1] == 0x71374491;
    assert CubeRootBits(0xb5c0fbcf, 5) && K0[2] == 0xb5c0fbcf;
    assert CubeRootBits(0xe9b5dba5, 7) && K0[3] == 0xe9b5dba5;
    assert CubeRootBits(0x3956c25b, 11) && K0[4] == 0x3956c25b;
    assert CubeRootBits(0x59f111f1, 13) && K0[5] == 0x59f111f1;
    assert CubeRootBits(0x923f82a4, 17) && K0[6] == 0x923f82a4;
    assert CubeRootBits(0xab1c5ed5, 19) && K0[7] == 0xab1c5ed5;
  }

  lemma RowIsCubeRoots1()
    ensures forall j :: 0 <= j < 8 ==> CubeRootBits(K1[j] as nat, P1[j])
  {
    assert CubeRootBits(0xd807aa98, 23) && K1[0] == 0xd807aa98;
    assert CubeRootBits(0x12835b01, 29) && K1[1] == 0x12835b01;
    assert CubeRootBits(0x243185be, 31) && K1[2] == 0x243185be;
    assert CubeRootBits(0x550c7dc3, 37) && K1[3] == 0x550c7dc3;
    assert CubeRootBits(0x72be5d74, 41) && K1[4] == 0x72be5d74;
    assert CubeRootBits(0x80deb1fe, 43) && K1[5] == 0x80deb1fe;
    assert CubeRootBits(0x9bdc06a7, 47) && K1[6] == 0x9bdc06a7;
    assert CubeRootBits(0xc19bf174, 53) && K1[7] == 0xc19bf174;
  }

  lemma RowIsCubeRoots2()
    ensures forall j :: 0 <= j < 8 ==> CubeRootBits(K2[j] as nat, P2[j])
  {
    assert CubeRootBits(0xe49b69c1, 59) && K2[0] == 0xe49b69c1;
    assert CubeRootBits(0xefbe4786, 61) && K2[1] == 0xefbe4786;
    assert CubeRootBits(0x0fc19dc6, 67) && K2[2] == 0x0fc19dc6;
    assert CubeRootBits(0x240ca1cc, 71) && K2[3] == 0x240ca1cc;
    assert CubeRootBits(0x2de92c6f, 73) && K2[4] == 0x2de92c6f;
    assert CubeRootBits(0x4a7484aa, 79) && K2[5] == 0x4a7484aa;
    assert CubeRootBits(0x5cb0a9dc, 83) && K2[6] == 0x5cb0a9dc;
    assert CubeRootBits(0x76f988da, 89) && K2[7] == 0x76f988da;
  }

  lemma RowIsCubeRoots3()
    ensures forall j :: 0 <= j < 8 ==> CubeRootBits(K3[j] as nat, P3[j])
  {
    assert CubeRootBits(0x983e5152, 97) && K3[0] == 0x983e5152;
    assert CubeRootBits(0xa831c66d, 101) && K3[1] == 0xa831c66d;
    assert CubeRootBits(0xb00327c8, 103) && K3[2] == 0xb00327c8;
    assert CubeRootBits(0xbf597fc7, 107) && K3[3] == 0xbf597fc7;
    assert CubeRootBits(0xc6e00bf3, 109) && K3[4] == 0xc6e00bf3;
    assert CubeRootBits(0xd5a79147, 113) && K3[5] == 0xd5a79147;
    assert CubeRootBits(0x06ca6351, 127) && K3[6] == 0x06ca6351;
    assert CubeRootBits(0x14292967, 131) && K3[7] == 0x14292967;
  }

  lemma RowIsCubeRoots4()
    ensures forall j :: 0 <= j < 8 ==> CubeRootBits(K4[j] as nat, P4[j])
  {
    assert CubeRootBits(0x27b70a85, 137) && K4[0] == 0x27b70a85;
    assert CubeRootBits(0x2e1b2138, 139) && K4[1] == 0x2e1b2138;
    assert CubeRootBits(0x4d2c6dfc, 149) && K4[2] == 0x4d2c6dfc;
    assert CubeRootBits(0x53380d13, 151) && K4[3] == 0x53380d13;
    assert CubeRootBits(0x650a7354, 157) && K4[4] == 0x650a7354;
    assert CubeRootBits(0x766a0abb, 163) && K4[5] == 0x766a0abb;
    assert CubeRootBits(0x81c2c92e, 167) && K4[6] == 0x81c2c92e;
    assert CubeRootBits(0x92722c85, 173) && K4[7] == 0x92722c85;
  }

  lemma RowIsCubeRoots5()
    ensures forall j :: 0 <= j < 8 ==> CubeRootBits(K5[j] as nat, P5[j])
  {
    assert CubeRootBits(0xa2bfe8a1, 179) && K5[0] == 0xa2bfe8a1;
    assert CubeRootBits(0xa81a664b, 181) && K5[1] == 0xa81a664b;
    assert CubeRootBits(0xc24b8b70, 191) && K5[2] == 0xc24b8b70;
    assert CubeRootBits(0xc76c51a3, 193) && K5[3] == 0xc76c51a3;
    assert CubeRootBits(0xd192e819, 197) && K5[4] == 0xd192e819;
    assert CubeRootBits(0xd6990624, 199) && K5[5] == 0xd6990624;
    assert CubeRootBits(0xf40e3585, 211) && K5[6] == 0xf40e3585;
    assert CubeRootBits(0x106aa070, 223) && K5[7] == 0x106aa070;
  }

  lemma RowIsCubeRoots6()
    ensures forall j :: 0 <= j < 8 ==> CubeRootBits(K6[j] as nat, P6[j])
  {
    assert CubeRootBits(0x19a4c116, 227) && K6[0] == 0x19a4c116;
    assert CubeRootBits(0x1e376c08, 229) && K6[1] == 0x1e376c08;
    assert CubeRootBits(0x2748774c, 233) && K6[2] == 0x2748774c;
    assert CubeRootBits(0x34b0bcb5, 239) && K6[3] == 0x34b0bcb5;
    assert CubeRootBits(0x391c0cb3, 241) && K6[4] == 0x391c0cb3;
    assert CubeRootBits(0x4ed8aa4a, 251) && K6[5] == 0x4ed8aa4a;
    assert CubeRootBits(0x5b9cca4f, 257) && K6[6] == 0x5b9cca4f;
    assert CubeRootBits(0x682e6ff3, 263) && K6[7] == 0x682e6ff3;
  }

  lemma RowIsCubeRoots7()
    ensures forall j :: 0 <= j < 8 ==> CubeRootBits(K7[j] as nat, P7[j])
  {
    assert CubeRootBits(0x748f82ee, 269) && K7[0] == 0x748f82ee;
    assert CubeRootBits(0x78a5636f, 271) && K7[1] == 0x78a5636f;
    assert CubeRootBits(0x84c87814, 277) && K7[2] == 0x84c87814;
    assert CubeRootBits(0x8cc70208, 281) && K7[3] == 0x8cc70208;
    assert CubeRootBits(0x90befffa, 283) && K7[4] == 0x90befffa;
    assert CubeRootBits(0xa4506ceb, 293) && K7[5] == 0xa4506ceb;
    assert CubeRootBits(0xbef9a3f7, 307) && K7[6] == 0xbef9a3f7;
    assert CubeRootBits(0xc67178f2, 311) && K7[7] == 0xc67178f2;
  }

  /** Every round constant is the first 32 bits of the fraction of its prime's cube root, section 4.2.2. */
  lemma RoundConstantIsCubeRoot(i: nat)
    requires i < 64
    ensures |K| == |PRIMES| == 64 && CubeRootBits(K[i] as nat, PRIMES[i])
  {
    hide CubeRootBits;
    RowOf(K0, K1, K2, K3, K4, K5, K6, K7, i);
    RowOf(P0, P1, P2, P3, P4, P5, P6, P7, i);
    if i < 8 {
      RowIsCubeRoots0();
    } else if i < 16 {
      RowIsCubeRoots1();
    } else if i < 24 {
      RowIsCubeRoots2();
    } else if i < 32 {
      RowIsCubeRoots3();
    } else if i < 40 {
      RowIsCubeRoots4();
    } else if i < 48 {
      RowIsCubeRoots5();
    } else if i < 56 {
      RowIsCubeRoots6();
    } else {
      RowIsCubeRoots7();
    }
  }

  /** The list starts with 2 and goes on with the next prime each time: the constant at `i` belongs to prime number `i`. */
  lemma PrimesInOrder(i: nat)
    requires i < 63
    ensures PRIMES[0] == 2 && NextPrime(PRIMES[i], PRIMES[i + 1])
  {
    hide NextPrime;
    RowOf(P0, P1, P2, P3, P4, P5, P6, P7, 0);
    RowOf(P0, P1, P2, P3, P4, P5, P6, P7, i);
    RowOf(P0, P1, P2, P3, P4, P5, P6, P7, i + 1);
    if i < 8 {
      RowOfPrimes0();
    } else if i < 16 {
      RowOfPrimes1();
    } else if i < 24 {
      RowOfPrimes2();
    } else if i < 32 {
      RowOfPrimes3();
    } else if i < 40 {
      RowOfPrimes4();
    } else if i < 48 {
      RowOfPrimes5();
    } else if i < 56 {
      RowOfPrimes6();
    } else {
      RowOfPrimes7();
    }
  }

  function Pick<T>(a: seq<T>, b: seq<T>, c: seq<T>, d: seq<T>, e: seq<T>, f: seq<T>, g: seq<T>, h: seq<T>, r: nat): seq<T>
  {
    if r == 0 then a else if r == 1 then b else if r == 2 then c else if r == 3 then d
    else if r == 4 then e else if r == 5 then f else if r == 6 then g else h
  }

  /** Eight rows of eight in a line. */
  lemma RowOf<T>(a: seq<T>, b: seq<T>, c: seq<T>, d: seq<T>, e: seq<T>, f: seq<T>, g: seq<T>, h: seq<T>, i: nat)
    requires |a| == |b| == |c| == |d| == |e| == |f| == |g| == |h| == 8 && i < 64
    ensures (a + b + c + d + e + f + g + h)[i] == Pick(a, b, c, d, e, f, g, h, i / 8)[i % 8]
  {
  }

  /** The initial hash value is made of the first 32 bits of the fractions of the first eight primes' square roots, section 5.3.3. */
  lemma InitialIsSquareRoots()
    ensures SquareRootBits(Initial.a as nat, 2) && SquareRootBits(Initial.b as nat, 3)
    ensures SquareRootBits(Initial.c as nat, 5) && SquareRootBits(Initial.d as nat, 7)
    ensures SquareRootBits(Initial.e as nat, 11) && SquareRootBits(Initial.f as nat, 13)
    ensures SquareRootBits(Initial.g as nat, 17) && SquareRootBits(Initial.h as nat, 19)
  {
    assert SquareRootBits(0x6a09e667, 2);
    assert SquareRootBits(0xbb67ae85, 3);
    assert SquareRootBits(0x3c6ef372, 5);
    assert SquareRootBits(0xa54ff53a, 7);
    assert SquareRootBits(0x510e527f, 11);
    assert SquareRootBits(0x9b05688c, 13);
    assert SquareRootBits(0x1f83d9ab, 17);
    assert SquareRootBits(0x5be0cd19, 19);
  }
}
