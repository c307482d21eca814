/** Where the constants of SHA-256 come from: sections 4.2.2 and 5.3.3 of FIPS 180-4. */
module Fips180Constants {
  import opened Arithmetic
  import opened Fips180

  /** The first 64 primes, eight a row. */
  const PRIMES: seq<seq<nat>> := [
    [2, 3, 5, 7, 11, 13, 17, 19],
    [23, 29, 31, 37, 41, 43, 47, 53],
    [59, 61, 67, 71, 73, 79, 83, 89],
    [97, 101, 103, 107, 109, 113, 127, 131],
    [137, 139, 149, 151, 157, 163, 167, 173],
    [179, 181, 191, 193, 197, 199, 211, 223],
    [227, 229, 233, 239, 241, 251, 257, 263],
    [269, 271, 277, 281, 283, 293, 307, 311]]

  function Prime(t: nat): nat
    requires t < 64
  {
    PRIMES[t / 8][t % 8]
  }

  predicate IsPrime(n: nat) {
    n >= 2 && forall d | 2 <= d < n :: n % d != 0
  }

  /** What trial division by the primes below 19 leaves of the numbers below 361. */
  predicate Sieved(n: nat) {
    if n < 19 then n == 2 || n == 3 || n == 5 || n == 7 || n == 11 || n == 13 || n == 17
    else
      && n % 2 != 0 && n % 3 != 0 && n % 5 != 0 && n % 7 != 0
      && n % 11 != 0 && n % 13 != 0 && n % 17 != 0
  }

  lemma Product(q: nat, e: nat, d: nat)
    requires d <= q && d <= e
    ensures d * d <= q * e
  {
    MulMono(d, q, d);
    MulMono(d, e, q);
  }

  lemma Cofactor(n: nat, q: nat, e: nat)
    requires n == q * e && 0 < e < n
    ensures 2 <= q && n % q == 0
  {
    MulMono(q, 1, e);
    MultipleMod(e, q);
  }

  /** Without a divisor up to the root there is none. */
  lemma RootBound(n: nat, d: nat, e: nat)
    requires n < d * d && 2 <= e < n && forall c | 2 <= c < d :: n % c != 0
    ensures n % e != 0
  {
    if n % e == 0 {
      var q := n / e;
      assert n == q * e;
      Cofactor(n, q, e);
      if d <= q && d <= e {
        Product(q, e, d);
      }
    }
  }

  lemma SievedIsPrime(n: nat)
    requires n < 361
    ensures IsPrime(n) <==> Sieved(n)
  {
    if n < 19 {
      SmallPrimes(n);
    } else if Sieved(n) {
      forall e | 2 <= e < n
        ensures n % e != 0
      {
        NoSmallDivisor(n);
        RootBound(n, 19, e);
      }
    }
  }

  lemma NoSmallDivisor(n: nat)
    requires Sieved(n) && 19 <= n
    ensures forall c | 2 <= c < 19 :: n % c != 0
  {
    hide Sieved;
    SievedOdd(n);
    forall c | 2 <= c < 19
      ensures n % c != 0
    {
      var q := if c % 2 == 0 then 2 else if c % 3 == 0 then 3 else c;
      if n % c == 0 {
        FactorDivides(n, q, c / q);
      }
    }
  }

  lemma SievedOdd(n: nat)
    requires Sieved(n) && 19 <= n
    ensures forall q | q in {2, 3, 5, 7, 11, 13, 17} :: n % q != 0
  {
  }

  lemma FactorDivides(n: nat, q: nat, k: nat)
    requires q > 0 && k > 0 && n % (q * k) == 0
    ensures n % q == 0
  {
    var m := n / (q * k);
    assert n == m * (q * k) == (m * k) * q;
    MultipleMod(m * k, q);
  }

  lemma SmallPrimes(n: nat)
    requires n < 19
    ensures IsPrime(n) <==> Sieved(n)
  {
    assert 4 % 2 == 6 % 2 == 8 % 2 == 10 % 2 == 12 % 2 == 14 % 2 == 16 % 2 == 18 % 2 == 9 % 3 == 15 % 3 == 0;
  }

  /** No number strictly between is left. */
  predicate NoneBetween(a: nat, b: nat)
    decreases b - a
  {
    a + 1 >= b || (!Sieved(a + 1) && NoneBetween(a + 1, b))
  }

  lemma {:induction false} NoneBetweenMeans(a: nat, b: nat, n: nat)
    requires NoneBetween(a, b) && a < n < b
    ensures !Sieved(n)
    decreases b - a
  {
    if n != a + 1 {
      NoneBetweenMeans(a + 1, b, n);
    }
  }

  /** `b` is the next prime after `a`, by trial. */
  predicate Next(a: nat, b: nat) {
    a < b && Sieved(b) && NoneBetween(a, b)
  }

  lemma PrimeRow0()
    ensures Next(1, PRIMES[0][0]) && forall i | 1 <= i < 8 :: Next(PRIMES[0][i - 1], PRIMES[0][i])
  {
    assert Next(1, 2);
    assert Next(2, 3);
    assert Next(3, 5);
    assert Next(5, 7);
    assert Next(7, 11);
    assert Next(11, 13);
    assert Next(13, 17);
    assert Next(17, 19);
  }

  lemma PrimeRow1()
    ensures Next(PRIMES[0][7], PRIMES[1][0]) && forall i | 1 <= i < 8 :: Next(PRIMES[1][i - 1], PRIMES[1][i])
  {
    assert Next(19, 23);
    assert Next(23, 29);
    assert Next(29, 31);
    assert Next(31, 37);
    assert Next(37, 41);
    assert Next(41, 43);
    assert Next(43, 47);
    assert Next(47, 53);
  }

  lemma PrimeRow2()
    ensures Next(PRIMES[1][7], PRIMES[2][0]) && forall i | 1 <= i < 8 :: Next(PRIMES[2][i - 1], PRIMES[2][i])
  {
    assert Next(53, 59);
    assert Next(59, 61);
    assert Next(61, 67);
    assert Next(67, 71);
    assert Next(71, 73);
    assert Next(73, 79);
    assert Next(79, 83);
    assert Next(83, 89);
  }

  lemma PrimeRow3()
    ensures Next(PRIMES[2][7], PRIMES[3][0]) && forall i | 1 <= i < 8 :: Next(PRIMES[3][i - 1], PRIMES[3][i])
  {
    assert Next(89, 97);
    assert Next(97, 101);
    assert Next(101, 103);
    assert Next(103, 107);
    assert Next(107, 109);
    assert Next(109, 113);
    assert Next(113, 127);
    assert Next(127, 131);
  }

  lemma PrimeRow4()
    ensures Next(PRIMES[3][7], PRIMES[4][0]) && forall i | 1 <= i < 8 :: Next(PRIMES[4][i - 1], PRIMES[4][i])
  {
    assert Next(131, 137);
    assert Next(137, 139);
    assert Next(139, 149);
    assert Next(149, 151);
    assert Next(151, 157);
    assert Next(157, 163);
    assert Next(163, 167);
    assert Next(167, 173);
  }

  lemma PrimeRow5()
    ensures Next(PRIMES[4][7], PRIMES[5][0]) && forall i | 1 <= i < 8 :: Next(PRIMES[5][i - 1], PRIMES[5][i])
  {
    assert Next(173, 179);
    assert Next(179, 181);
    assert Next(181, 191);
    assert Next(191, 193);
    assert Next(193, 197);
    assert Next(197, 199);
    assert Next(199, 211);
    assert Next(211, 223);
  }

  lemma PrimeRow6()
    ensures Next(PRIMES[5][7], PRIMES[6][0]) && forall i | 1 <= i < 8 :: Next(PRIMES[6][i - 1], PRIMES[6][i])
  {
    assert Next(223, 227);
    assert Next(227, 229);
    assert Next(229, 233);
    assert Next(233, 239);
    assert Next(239, 241);
    assert Next(241, 251);
    assert Next(251, 257);
    assert Next(257, 263);
  }

  lemma PrimeRow7()
    ensures Next(PRIMES[6][7], PRIMES[7][0]) && forall i | 1 <= i < 8 :: Next(PRIMES[7][i - 1], PRIMES[7][i])
  {
    assert Next(263, 269);
    assert Next(269, 271);
    assert Next(271, 277);
    assert Next(277, 281);
    assert Next(281, 283);
    assert Next(283, 293);
    assert Next(293, 307);
    assert Next(307, 311);
  }

  /** The integer part of a cube root below 7. */
  function CubeFloor(p: nat): nat {
    if p < 8 then 1 else if p < 27 then 2 else if p < 64 then 3 else if p < 125 then 4 else if p < 216 then 5 else 6
  }

  /** `x` is the cube root of `p`, shifted left by 32 bits and rounded down; `k` is its low 32 bits. */
  predicate CubeRootBits(k: nat, p: nat) {
    var x := CubeFloor(p) * 0x1_0000_0000 + k;
    k < 0x1_0000_0000 && x * x * x <= p * 0x1_0000_0000_0000_0000_0000_0000 < (x + 1) * (x + 1) * (x + 1)
  }

  function SquareFloor(p: nat): nat {
    if p < 4 then 1 else if p < 9 then 2 else if p < 16 then 3 else 4
  }

  predicate SquareRootBits(h: nat, p: nat) {
    var x := SquareFloor(p) * 0x1_0000_0000 + h;
    h < 0x1_0000_0000 && x * x <= p * 0x1_0000_0000_0000_0000 < (x + 1) * (x + 1)
  }

  lemma CubeRow0()
    ensures forall i | 0 <= i < 8 :: CubeRootBits(K[0][i] as int, PRIMES[0][i])
  {
    assert CubeRootBits(0x428a2f98, 2) && K[0][0] as int == 0x428a2f98;
    assert CubeRootBits(0x71374491, 3) && K[0][1] as int == 0x71374491;
    assert CubeRootBits(0xb5c0fbcf, 5) && K[0][2] as int == 0xb5c0fbcf;
    assert CubeRootBits(0xe9b5dba5, 7) && K[0][3] as int == 0xe9b5dba5;
    assert CubeRootBits(0x3956c25b, 11) && K[0][4] as int == 0x3956c25b;
    assert CubeRootBits(0x59f111f1, 13) && K[0][5] as int == 0x59f111f1;
    assert CubeRootBits(0x923f82a4, 17) && K[0][6] as int == 0x923f82a4;
    assert CubeRootBits(0xab1c5ed5, 19) && K[0][7] as int == 0xab1c5ed5;
  }

  lemma CubeRow1()
    ensures forall i | 0 <= i < 8 :: CubeRootBits(K[1][i] as int, PRIMES[1][i])
  {
    assert CubeRootBits(0xd807aa98, 23) && K[1][0] as int == 0xd807aa98;
    assert CubeRootBits(0x12835b01, 29) && K[1][1] as int == 0x12835b01;
    assert CubeRootBits(0x243185be, 31) && K[1][2] as int == 0x243185be;
    assert CubeRootBits(0x550c7dc3, 37) && K[1][3] as int == 0x550c7dc3;
    assert CubeRootBits(0x72be5d74, 41) && K[1][4] as int == 0x72be5d74;
    assert CubeRootBits(0x80deb1fe, 43) && K[1][5] as int == 0x80deb1fe;
    assert CubeRootBits(0x9bdc06a7, 47) && K[1][6] as int == 0x9bdc06a7;
    assert CubeRootBits(0xc19bf174, 53) && K[1][7] as int == 0xc19bf174;
  }

  lemma CubeRow2()
    ensures forall i | 0 <= i < 8 :: CubeRootBits(K[2][i] as int, PRIMES[2][i])
  {
    assert CubeRootBits(0xe49b69c1, 59) && K[2][0] as int == 0xe49b69c1;
    assert CubeRootBits(0xefbe4786, 61) && K[2][1] as int == 0xefbe4786;
    assert CubeRootBits(0x0fc19dc6, 67) && K[2][2] as int == 0x0fc19dc6;
    assert CubeRootBits(0x240ca1cc, 71) && K[2][3] as int == 0x240ca1cc;
    assert CubeRootBits(0x2de92c6f, 73) && K[2][4] as int == 0x2de92c6f;
    assert CubeRootBits(0x4a7484aa, 79) && K[2][5] as int == 0x4a7484aa;
    assert CubeRootBits(0x5cb0a9dc, 83) && K[2][6] as int == 0x5cb0a9dc;
    assert CubeRootBits(0x76f988da, 89) && K[2][7] as int == 0x76f988da;
  }

  lemma CubeRow3()
    ensures forall i | 0 <= i < 8 :: CubeRootBits(K[3][i] as int, PRIMES[3][i])
  {
    assert CubeRootBits(0x983e5152, 97) && K[3][0] as int == 0x983e5152;
    assert CubeRootBits(0xa831c66d, 101) && K[3][1] as int == 0xa831c66d;
    assert CubeRootBits(0xb00327c8, 103) && K[3][2] as int == 0xb00327c8;
    assert CubeRootBits(0xbf597fc7, 107) && K[3][3] as int == 0xbf597fc7;
    assert CubeRootBits(0xc6e00bf3, 109) && K[3][4] as int == 0xc6e00bf3;
    assert CubeRootBits(0xd5a79147, 113) && K[3][5] as int == 0xd5a79147;
    assert CubeRootBits(0x06ca6351, 127) && K[3][6] as int == 0x06ca6351;
    assert CubeRootBits(0x14292967, 131) && K[3][7] as int == 0x14292967;
  }

  lemma CubeRow4()
    ensures forall i | 0 <= i < 8 :: CubeRootBits(K[4][i] as int, PRIMES[4][i])
  {
    assert CubeRootBits(0x27b70a85, 137) && K[4][0] as int == 0x27b70a85;
    assert CubeRootBits(0x2e1b2138, 139) && K[4][1] as int == 0x2e1b2138;
    assert CubeRootBits(0x4d2c6dfc, 149) && K[4][2] as int == 0x4d2c6dfc;
    assert CubeRootBits(0x53380d13, 151) && K[4][3] as int == 0x53380d13;
    assert CubeRootBits(0x650a7354, 157) && K[4][4] as int == 0x650a7354;
    assert CubeRootBits(0x766a0abb, 163) && K[4][5] as int == 0x766a0abb;
    assert CubeRootBits(0x81c2c92e, 167) && K[4][6] as int == 0x81c2c92e;
    assert CubeRootBits(0x92722c85, 173) && K[4][7] as int == 0x92722c85;
  }

  lemma CubeRow5()
    ensures forall i | 0 <= i < 8 :: CubeRootBits(K[5][i] as int, PRIMES[5][i])
  {
    assert CubeRootBits(0xa2bfe8a1, 179) && K[5][0] as int == 0xa2bfe8a1;
    assert CubeRootBits(0xa81a664b, 181) && K[5][1] as int == 0xa81a664b;
    assert CubeRootBits(0xc24b8b70, 191) && K[5][2] as int == 0xc24b8b70;
    assert CubeRootBits(0xc76c51a3, 193) && K[5][3] as int == 0xc76c51a3;
    assert CubeRootBits(0xd192e819, 197) && K[5][4] as int == 0xd192e819;
    assert CubeRootBits(0xd6990624, 199) && K[5][5] as int == 0xd6990624;
    assert CubeRootBits(0xf40e3585, 211) && K[5][6] as int == 0xf40e3585;
    assert CubeRootBits(0x106aa070, 223) && K[5][7] as int == 0x106aa070;
  }

  lemma CubeRow6()
    ensures forall i | 0 <= i < 8 :: CubeRootBits(K[6][i] as int, PRIMES[6][i])
  {
    assert CubeRootBits(0x19a4c116, 227) && K[6][0] as int == 0x19a4c116;
    assert CubeRootBits(0x1e376c08, 229) && K[6][1] as int == 0x1e376c08;
    assert CubeRootBits(0x2748774c, 233) && K[6][2] as int == 0x2748774c;
    assert CubeRootBits(0x34b0bcb5, 239) && K[6][3] as int == 0x34b0bcb5;
    assert CubeRootBits(0x391c0cb3, 241) && K[6][4] as int == 0x391c0cb3;
    assert CubeRootBits(0x4ed8aa4a, 251) && K[6][5] as int == 0x4ed8aa4a;
    assert CubeRootBits(0x5b9cca4f, 257) && K[6][6] as int == 0x5b9cca4f;
    assert CubeRootBits(0x682e6ff3, 263) && K[6][7] as int == 0x682e6ff3;
  }

  lemma CubeRow7()
    ensures forall i | 0 <= i < 8 :: CubeRootBits(K[7][i] as int, PRIMES[7][i])
  {
    assert CubeRootBits(0x748f82ee, 269) && K[7][0] as int == 0x748f82ee;
    assert CubeRootBits(0x78a5636f, 271) && K[7][1] as int == 0x78a5636f;
    assert CubeRootBits(0x84c87814, 277) && K[7][2] as int == 0x84c87814;
    assert CubeRootBits(0x8cc70208, 281) && K[7][3] as int == 0x8cc70208;
    assert CubeRootBits(0x90befffa, 283) && K[7][4] as int == 0x90befffa;
    assert CubeRootBits(0xa4506ceb, 293) && K[7][5] as int == 0xa4506ceb;
    assert CubeRootBits(0xbef9a3f7, 307) && K[7][6] as int == 0xbef9a3f7;
    assert CubeRootBits(0xc67178f2, 311) && K[7][7] as int == 0xc67178f2;
  }

  lemma SquareRow()
    ensures forall i | 0 <= i < 8 :: SquareRootBits(H0[i] as int, PRIMES[0][i])
  {
    assert SquareRootBits(0x6a09e667, 2) && H0[0] as int == 0x6a09e667;
    assert SquareRootBits(0xbb67ae85, 3) && H0[1] as int == 0xbb67ae85;
    assert SquareRootBits(0x3c6ef372, 5) && H0[2] as int == 0x3c6ef372;
    assert SquareRootBits(0xa54ff53a, 7) && H0[3] as int == 0xa54ff53a;
    assert SquareRootBits(0x510e527f, 11) && H0[4] as int == 0x510e527f;
    assert SquareRootBits(0x9b05688c, 13) && H0[5] as int == 0x9b05688c;
    assert SquareRootBits(0x1f83d9ab, 17) && H0[6] as int == 0x1f83d9ab;
    assert SquareRootBits(0x5be0cd19, 19) && H0[7] as int == 0x5be0cd19;
  }

  /** The table lists the primes in order, without a gap. */
  lemma PrimesInOrder(t: nat)
    requires t < 64
    ensures IsPrime(Prime(t))
    ensures forall n: nat | n < Prime(t) && (t > 0 ==> Prime(t - 1) < n) :: !IsPrime(n)
  {
    hide Sieved, IsPrime, NoneBetween;
    var before := if t == 0 then 1 else Prime(t - 1);
    NextPrime(t);
    SievedIsPrime(Prime(t));
    forall n: nat | before < n < Prime(t)
      ensures !IsPrime(n)
    {
      NoneBetweenMeans(before, Prime(t), n);
      SievedIsPrime(n);
    }
    if t == 0 {
      SievedIsPrime(0);
      SievedIsPrime(1);
      assert !Sieved(0) && !Sieved(1) by { ZeroAndOne(); }
    }
  }

  lemma ZeroAndOne()
    ensures !Sieved(0) && !Sieved(1)
  {
  }

  lemma NextPrime(t: nat)
    requires t < 64
    ensures Next(if t == 0 then 1 else Prime(t - 1), Prime(t)) && Prime(t) < 361
  {
    hide Next;
    PrimesBelow();
    if t < 8 { PrimeRow0(); }
    else if t < 16 { PrimeRow1(); }
    else if t < 24 { PrimeRow2(); }
    else if t < 32 { PrimeRow3(); }
    else if t < 40 { PrimeRow4(); }
    else if t < 48 { PrimeRow5(); }
    else if t < 56 { PrimeRow6(); }
    else { PrimeRow7(); }
  }

  lemma PrimesBelow()
    ensures forall t | 0 <= t < 64 :: Prime(t) < 361
  {
  }

  /** Section 4.2.2: the first 32 bits of the fractional parts of the cube roots of the first 64 primes. */
  lemma ConstantsAreCubeRoots(t: nat)
    requires t < 64
    ensures CubeRootBits(Constant(t) as int, Prime(t))
  {
    hide CubeRootBits;
    if t < 8 { CubeRow0(); }
    else if t < 16 { CubeRow1(); }
    else if t < 24 { CubeRow2(); }
    else if t < 32 { CubeRow3(); }
    else if t < 40 { CubeRow4(); }
    else if t < 48 { CubeRow5(); }
    else if t < 56 { CubeRow6(); }
    else { CubeRow7(); }
  }

  /** Section 5.3.3: the same of the square roots of the first eight. */
  lemma InitialAreSquareRoots(i: nat)
    requires i < 8
    ensures SquareRootBits(Initial()[i] as int, Prime(i))
  {
    hide SquareRootBits;
    SquareRow();
  }
}
