/** What the constants of FIPS 180-4 are: the first thirty-two bits of the fractional parts of the cube roots of the
    first sixty-four primes (section 4.2.2) and of the square roots of the first eight (section 5.3.3). */
module RoundConstants {
  import Fips180
  import JsNumber

  const PRIMES: seq<nat> :=
    [2, 3, 5, 7, 11, 13, 17, 19] +
    [23, 29, 31, 37, 41, 43, 47, 53] +
    [59, 61, 67, 71, 73, 79, 83, 89] +
    [97, 101, 103, 107, 109, 113, 127, 131] +
    [137, 139, 149, 151, 157, 163, 167, 173] +
    [179, 181, 191, 193, 197, 199, 211, 223] +
    [227, 229, 233, 239, 241, 251, 257, 263] +
    [269, 271, 277, 281, 283, 293, 307, 311]

  // The first primes

  ghost predicate IsPrime(n: nat) {
    n >= 2 && forall d | 2 <= d < n :: n % d != 0
  }

  /** No prime up to seventeen divides it, but itself. */
  predicate Sieved(n: nat) {
    n >= 2 && (n % 2 != 0 || n == 2) && (n % 3 != 0 || n == 3) && (n % 5 != 0 || n == 5) && (n % 7 != 0 || n == 7)
    && (n % 11 != 0 || n == 11) && (n % 13 != 0 || n == 13) && (n % 17 != 0 || n == 17)
  }

  lemma Multiple(d: nat, q: nat, p: nat, k: nat)
    requires p > 0 && d == p * k
    ensures (d * q) % p == 0
  {
    assert d * q == p * (k * q);
    MultipleOf(p, k * q);
  }

  lemma MultipleOf(p: nat, k: nat)
    requires p > 0
    ensures (p * k) % p == 0
  {
    JsNumber.ModUnique(p * k, p, k, 0);
  }

  /** A number below nineteen squared with a divisor has one of the sieve's. */
  lemma SmallFactor(n: nat, m: nat, q: nat)
    requires 2 <= m <= q && n == m * q < 361
    ensures !Sieved(n)
  {
    assert m < 19 by {
      if m >= 19 {
        Squared(m, q);
      }
    }
    assert n >= 2 * m by { Doubled(m, q); }
    if m % 2 == 0 { Multiple(m, q, 2, m / 2); }
    else if m % 3 == 0 { Multiple(m, q, 3, m / 3); }
    else if m % 5 == 0 { Multiple(m, q, 5, m / 5); }
    else if m % 7 == 0 { Multiple(m, q, 7, m / 7); }
    else if m == 11 { Multiple(m, q, 11, 1); }
    else if m == 13 { Multiple(m, q, 13, 1); }
    else { Multiple(m, q, 17, 1); }
  }

  lemma Squared(m: nat, q: nat)
    requires 19 <= m <= q
    ensures m * q >= 361
  {
    assert m * q >= m * 19;
  }

  lemma Doubled(m: nat, q: nat)
    requires 2 <= q
    ensures m * q >= 2 * m
  {}

  lemma Least(n: nat, d: nat, q: nat)
    requires n == d * q && d < n
    ensures q >= 2
  {}

  lemma Composite(n: nat, d: nat)
    requires n < 361 && 2 <= d < n && n % d == 0
    ensures !Sieved(n)
  {
    hide Sieved;
    var q := n / d;
    assert n == d * q;
    Least(n, d, q);
    if d <= q {
      SmallFactor(n, d, q);
    } else {
      SmallFactor(n, q, d);
    }
  }

  /** Trial division by the primes up to seventeen decides below nineteen squared. */
  lemma SieveDecides(n: nat)
    requires n < 361
    ensures Sieved(n) <==> IsPrime(n)
  {
    if !Sieved(n) {
      if n >= 2 {
        var d := if n % 2 == 0 then 2 else if n % 3 == 0 then 3 else if n % 5 == 0 then 5 else if n % 7 == 0 then 7
          else if n % 11 == 0 then 11 else if n % 13 == 0 then 13 else 17;
        assert 2 <= d < n && n % d == 0;
      }
    } else {
      hide Sieved;
      assert n >= 2 by { SievedAboveOne(n); }
      forall d | 2 <= d < n ensures n % d != 0 {
        if n % d == 0 {
          Composite(n, d);
          assert false;
        }
      }
    }
  }

  lemma SievedAboveOne(n: nat)
    requires Sieved(n)
    ensures n >= 2
  {}

  predicate NoneFrom(n: nat, end: nat)
    decreases end - n
  {
    n >= end || (!Sieved(n) && NoneFrom(n + 1, end))
  }

  /** Two neighbouring primes. */
  predicate Next(p: nat, q: nat) {
    p < q && Sieved(p) && Sieved(q) && NoneFrom(p + 1, q)
  }

  lemma {:induction false} NoneBetween(n: nat, end: nat, m: nat)
    requires NoneFrom(n, end) && n <= m < end
    ensures !Sieved(m)
    decreases m - n
  {
    hide Sieved;
    if n < m {
      NoneBetween(n + 1, end, m);
    }
  }

  lemma NextFrom2()
    ensures Next(2, 3) && Next(3, 5) && Next(5, 7) && Next(7, 11)
    ensures Next(11, 13) && Next(13, 17) && Next(17, 19) && Next(19, 23)
  {
    hide PRIMES;
  }

  lemma NextPrimes0(i: nat)
    requires 0 <= i < 8
    ensures |PRIMES| == 64 && Next(PRIMES[i], PRIMES[i + 1])
  {
    hide Next;
    assert PRIMES[0] == 2 && PRIMES[1] == 3 && PRIMES[2] == 5 && PRIMES[3] == 7;
    assert PRIMES[4] == 11 && PRIMES[5] == 13 && PRIMES[6] == 17 && PRIMES[7] == 19 && PRIMES[8] == 23;
    hide PRIMES;
    NextFrom2();
  }

  lemma NextFrom23()
    ensures Next(23, 29) && Next(29, 31) && Next(31, 37) && Next(37, 41)
    ensures Next(41, 43) && Next(43, 47) && Next(47, 53) && Next(53, 59)
  {
    hide PRIMES;
  }

  lemma NextPrimes8(i: nat)
    requires 8 <= i < 16
    ensures |PRIMES| == 64 && Next(PRIMES[i], PRIMES[i + 1])
  {
    hide Next;
    assert PRIMES[8] == 23 && PRIMES[9] == 29 && PRIMES[10] == 31 && PRIMES[11] == 37;
    assert PRIMES[12] == 41 && PRIMES[13] == 43 && PRIMES[14] == 47 && PRIMES[15] == 53 && PRIMES[16] == 59;
    hide PRIMES;
    NextFrom23();
  }

  lemma NextFrom59()
    ensures Next(59, 61) && Next(61, 67) && Next(67, 71) && Next(71, 73)
    ensures Next(73, 79) && Next(79, 83) && Next(83, 89) && Next(89, 97)
  {
    hide PRIMES;
  }

  lemma NextPrimes16(i: nat)
    requires 16 <= i < 24
    ensures |PRIMES| == 64 && Next(PRIMES[i], PRIMES[i + 1])
  {
    hide Next;
    assert PRIMES[16] == 59 && PRIMES[17] == 61 && PRIMES[18] == 67 && PRIMES[19] == 71;
    assert PRIMES[20] == 73 && PRIMES[21] == 79 && PRIMES[22] == 83 && PRIMES[23] == 89 && PRIMES[24] == 97;
    hide PRIMES;
    NextFrom59();
  }

  lemma NextFrom97()
    ensures Next(97, 101) && Next(101, 103) && Next(103, 107) && Next(107, 109)
    ensures Next(109, 113) && Next(113, 127) && Next(127, 131) && Next(131, 137)
  {
    hide PRIMES;
  }

  lemma NextPrimes24(i: nat)
    requires 24 <= i < 32
    ensures |PRIMES| == 64 && Next(PRIMES[i], PRIMES[i + 1])
  {
    hide Next;
    assert PRIMES[24] == 97 && PRIMES[25] == 101 && PRIMES[26] == 103 && PRIMES[27] == 107;
    assert PRIMES[28] == 109 && PRIMES[29] == 113 && PRIMES[30] == 127 && PRIMES[31] == 131 && PRIMES[32] == 137;
    hide PRIMES;
    NextFrom97();
  }

  lemma NextFrom137()
    ensures Next(137, 139) && Next(139, 149) && Next(149, 151) && Next(151, 157)
    ensures Next(157, 163) && Next(163, 167) && Next(167, 173) && Next(173, 179)
  {
    hide PRIMES;
  }

  lemma NextPrimes32(i: nat)
    requires 32 <= i < 40
    ensures |PRIMES| == 64 && Next(PRIMES[i], PRIMES[i + 1])
  {
    hide Next;
    assert PRIMES[32] == 137 && PRIMES[33] == 139 && PRIMES[34] == 149 && PRIMES[35] == 151;
    assert PRIMES[36] == 157 && PRIMES[37] == 163 && PRIMES[38] == 167 && PRIMES[39] == 173 && PRIMES[40] == 179;
    hide PRIMES;
    NextFrom137();
  }

  lemma NextFrom179()
    ensures Next(179, 181) && Next(181, 191) && Next(191, 193) && Next(193, 197)
    ensures Next(197, 199) && Next(199, 211) && Next(211, 223) && Next(223, 227)
  {
    hide PRIMES;
  }

  lemma NextPrimes40(i: nat)
    requires 40 <= i < 48
    ensures |PRIMES| == 64 && Next(PRIMES[i], PRIMES[i + 1])
  {
    hide Next;
    assert PRIMES[40] == 179 && PRIMES[41] == 181 && PRIMES[42] == 191 && PRIMES[43] == 193;
    assert PRIMES[44] == 197 && PRIMES[45] == 199 && PRIMES[46] == 211 && PRIMES[47] == 223 && PRIMES[48] == 227;
    hide PRIMES;
    NextFrom179();
  }

  lemma NextFrom227()
    ensures Next(227, 229) && Next(229, 233) && Next(233, 239) && Next(239, 241)
    ensures Next(241, 251) && Next(251, 257) && Next(257, 263) && Next(263, 269)
  {
    hide PRIMES;
  }

  lemma NextPrimes48(i: nat)
    requires 48 <= i < 56
    ensures |PRIMES| == 64 && Next(PRIMES[i], PRIMES[i + 1])
  {
    hide Next;
    assert PRIMES[48] == 227 && PRIMES[49] == 229 && PRIMES[50] == 233 && PRIMES[51] == 239;
    assert PRIMES[52] == 241 && PRIMES[53] == 251 && PRIMES[54] == 257 && PRIMES[55] == 263 && PRIMES[56] == 269;
    hide PRIMES;
    NextFrom227();
  }

  lemma NextFrom269()
    ensures Next(269, 271) && Next(271, 277) && Next(277, 281) && Next(281, 283)
    ensures Next(283, 293) && Next(293, 307) && Next(307, 311)
  {
    hide PRIMES;
  }

  lemma NextPrimes56(i: nat)
    requires 56 <= i < 63
    ensures |PRIMES| == 64 && Next(PRIMES[i], PRIMES[i + 1])
  {
    hide Next;
    assert PRIMES[56] == 269 && PRIMES[57] == 271 && PRIMES[58] == 277 && PRIMES[59] == 281;
    assert PRIMES[60] == 283 && PRIMES[61] == 293 && PRIMES[62] == 307 && PRIMES[63] == 311;
    hide PRIMES;
    NextFrom269();
  }

  lemma Neighbours(i: nat)
    requires i < 63
    ensures |PRIMES| == 64 && Next(PRIMES[i], PRIMES[i + 1])
  {
    if i < 8 {
      NextPrimes0(i);
    } else if i < 16 {
      NextPrimes8(i);
    } else if i < 24 {
      NextPrimes16(i);
    } else if i < 32 {
      NextPrimes24(i);
    } else if i < 40 {
      NextPrimes32(i);
    } else if i < 48 {
      NextPrimes40(i);
    } else if i < 56 {
      NextPrimes48(i);
    } else {
      NextPrimes56(i);
    }
  }

  /** The table of primes is the first sixty-four, in order and without a gap. */
  lemma PrimesAreFirst(n: nat)
    requires n <= 311
    ensures IsPrime(n) <==> n in PRIMES
    ensures forall i | 0 <= i < 63 :: PRIMES[i] < PRIMES[i + 1]
  {
    forall i | 0 <= i < 63 ensures PRIMES[i] < PRIMES[i + 1] {
      Neighbours(i);
    }
    SieveDecides(n);
    Ends();
    hide PRIMES, Sieved, NoneFrom, IsPrime;
    if n < 2 {
      NotListed(n);
    } else {
      var i := Place(n, 63);
      if PRIMES[i] != n {
        Neighbours(i);
        NoneBetween(PRIMES[i] + 1, PRIMES[i + 1], n);
        NotBetween(n, i);
      } else {
        Neighbours(if i < 63 then i else 62);
      }
    }
  }

  lemma Ends()
    ensures |PRIMES| == 64 && PRIMES[0] == 2 && PRIMES[63] == 311
  {}

  /** The last of the first `k + 1` primes that is not above `n`. */
  lemma {:induction false} Place(n: nat, k: nat) returns (i: nat)
    requires 2 <= n && k < 64 == |PRIMES| && PRIMES[0] == 2
    ensures i <= k && PRIMES[i] <= n && (i < k ==> n < PRIMES[i + 1])
  {
    hide PRIMES;
    if k == 0 || PRIMES[k] <= n {
      i := k;
    } else {
      i := Place(n, k - 1);
    }
  }

  lemma {:induction false} Rising(i: nat, j: nat)
    requires i <= j < 64 == |PRIMES|
    ensures PRIMES[i] <= PRIMES[j]
    decreases j - i
  {
    hide PRIMES, NoneFrom, Sieved;
    if i < j {
      Rising(i, j - 1);
      Neighbours(j - 1);
    }
  }

  lemma NotListed(n: nat)
    requires n < 2
    ensures n !in PRIMES && !IsPrime(n)
  {
    Ends();
    hide PRIMES;
    forall j | 0 <= j < 64 ensures PRIMES[j] != n {
      Rising(0, j);
    }
  }

  lemma NotBetween(n: nat, i: nat)
    requires i < 63 && |PRIMES| == 64 && PRIMES[i] < n < PRIMES[i + 1]
    ensures n !in PRIMES
  {
    hide PRIMES;
    forall j | 0 <= j < 64 ensures PRIMES[j] != n {
      if j <= i {
        Rising(j, i);
      } else {
        Rising(i + 1, j);
      }
    }
  }

  // Their roots

  function Square(x: nat): nat {
    x * x
  }

  function Cubed(x: nat): nat {
    x * x * x
  }

  /** The first 32 bits of the fractional part of the cube root of `p`: the low word of the largest `x` with
      `(x / 2^32)^3 <= p`. */
  ghost predicate CubeRootBits(p: nat, bits: int) {
    exists x: nat :: Cubed(x) <= p * 0x1_0000_0000_0000_0000_0000_0000 < Cubed(x + 1) && x % 0x1_0000_0000 == bits
  }

  /** And of its square root. */
  ghost predicate SquareRootBits(p: nat, bits: int) {
    exists x: nat :: Square(x) <= p * 0x1_0000_0000_0000_0000 < Square(x + 1) && x % 0x1_0000_0000 == bits
  }

  lemma CubeRoot(p: nat, whole: nat, bits: nat)
    requires bits < 0x1_0000_0000
    requires var x := whole * 0x1_0000_0000 + bits; Cubed(x) <= p * 0x1_0000_0000_0000_0000_0000_0000 < Cubed(x + 1)
    ensures CubeRootBits(p, bits)
  {
    var x := whole * 0x1_0000_0000 + bits;
    assert x % 0x1_0000_0000 == bits;
  }

  lemma SquareRoot(p: nat, whole: nat, bits: nat)
    requires bits < 0x1_0000_0000
    requires var x := whole * 0x1_0000_0000 + bits; Square(x) <= p * 0x1_0000_0000_0000_0000 < Square(x + 1)
    ensures SquareRootBits(p, bits)
  {
    var x := whole * 0x1_0000_0000 + bits;
    assert x % 0x1_0000_0000 == bits;
  }

  lemma CubeRoots0(i: nat)
    requires 0 <= i < 8
    ensures |Fips180.K| == 64 && |PRIMES| == 64 && CubeRootBits(PRIMES[i], Fips180.K[i])
  {
    assert PRIMES[0] == 2 && Fips180.K[0] == 0x428a2f98 && PRIMES[1] == 3 && Fips180.K[1] == 0x71374491;
    assert PRIMES[2] == 5 && Fips180.K[2] == 0xb5c0fbcf && PRIMES[3] == 7 && Fips180.K[3] == 0xe9b5dba5;
    assert PRIMES[4] == 11 && Fips180.K[4] == 0x3956c25b && PRIMES[5] == 13 && Fips180.K[5] == 0x59f111f1;
    assert PRIMES[6] == 17 && Fips180.K[6] == 0x923f82a4 && PRIMES[7] == 19 && Fips180.K[7] == 0xab1c5ed5;
    hide CubeRootBits, PRIMES, Fips180.K;
    if i == 0 {
      CubeRoot(2, 1, 0x428a2f98);
    } else if i == 1 {
      CubeRoot(3, 1, 0x71374491);
    } else if i == 2 {
      CubeRoot(5, 1, 0xb5c0fbcf);
    } else if i == 3 {
      CubeRoot(7, 1, 0xe9b5dba5);
    } else if i == 4 {
      CubeRoot(11, 2, 0x3956c25b);
    } else if i == 5 {
      CubeRoot(13, 2, 0x59f111f1);
    } else if i == 6 {
      CubeRoot(17, 2, 0x923f82a4);
    } else {
      CubeRoot(19, 2, 0xab1c5ed5);
    }
  }

  lemma CubeRoots8(i: nat)
    requires 8 <= i < 16
    ensures |Fips180.K| == 64 && |PRIMES| == 64 && CubeRootBits(PRIMES[i], Fips180.K[i])
  {
    assert PRIMES[8] == 23 && Fips180.K[8] == 0xd807aa98 && PRIMES[9] == 29 && Fips180.K[9] == 0x12835b01;
    assert PRIMES[10] == 31 && Fips180.K[10] == 0x243185be && PRIMES[11] == 37 && Fips180.K[11] == 0x550c7dc3;
    assert PRIMES[12] == 41 && Fips180.K[12] == 0x72be5d74 && PRIMES[13] == 43 && Fips180.K[13] == 0x80deb1fe;
    assert PRIMES[14] == 47 && Fips180.K[14] == 0x9bdc06a7 && PRIMES[15] == 53 && Fips180.K[15] == 0xc19bf174;
    hide CubeRootBits, PRIMES, Fips180.K;
    if i == 8 {
      CubeRoot(23, 2, 0xd807aa98);
    } else if i == 9 {
      CubeRoot(29, 3, 0x12835b01);
    } else if i == 10 {
      CubeRoot(31, 3, 0x243185be);
    } else if i == 11 {
      CubeRoot(37, 3, 0x550c7dc3);
    } else if i == 12 {
      CubeRoot(41, 3, 0x72be5d74);
    } else if i == 13 {
      CubeRoot(43, 3, 0x80deb1fe);
    } else if i == 14 {
      CubeRoot(47, 3, 0x9bdc06a7);
    } else {
      CubeRoot(53, 3, 0xc19bf174);
    }
  }

  lemma CubeRoots16(i: nat)
    requires 16 <= i < 24
    ensures |Fips180.K| == 64 && |PRIMES| == 64 && CubeRootBits(PRIMES[i], Fips180.K[i])
  {
    assert PRIMES[16] == 59 && Fips180.K[16] == 0xe49b69c1 && PRIMES[17] == 61 && Fips180.K[17] == 0xefbe4786;
    assert PRIMES[18] == 67 && Fips180.K[18] == 0x0fc19dc6 && PRIMES[19] == 71 && Fips180.K[19] == 0x240ca1cc;
    assert PRIMES[20] == 73 && Fips180.K[20] == 0x2de92c6f && PRIMES[21] == 79 && Fips180.K[21] == 0x4a7484aa;
    assert PRIMES[22] == 83 && Fips180.K[22] == 0x5cb0a9dc && PRIMES[23] == 89 && Fips180.K[23] == 0x76f988da;
    hide CubeRootBits, PRIMES, Fips180.K;
    if i == 16 {
      CubeRoot(59, 3, 0xe49b69c1);
    } else if i == 17 {
      CubeRoot(61, 3, 0xefbe4786);
    } else if i == 18 {
      CubeRoot(67, 4, 0x0fc19dc6);
    } else if i == 19 {
      CubeRoot(71, 4, 0x240ca1cc);
    } else if i == 20 {
      CubeRoot(73, 4, 0x2de92c6f);
    } else if i == 21 {
      CubeRoot(79, 4, 0x4a7484aa);
    } else if i == 22 {
      CubeRoot(83, 4, 0x5cb0a9dc);
    } else {
      CubeRoot(89, 4, 0x76f988da);
    }
  }

  lemma CubeRoots24(i: nat)
    requires 24 <= i < 32
    ensures |Fips180.K| == 64 && |PRIMES| == 64 && CubeRootBits(PRIMES[i], Fips180.K[i])
  {
    assert PRIMES[24] == 97 && Fips180.K[24] == 0x983e5152 && PRIMES[25] == 101 && Fips180.K[25] == 0xa831c66d;
    assert PRIMES[26] == 103 && Fips180.K[26] == 0xb00327c8 && PRIMES[27] == 107 && Fips180.K[27] == 0xbf597fc7;
    assert PRIMES[28] == 109 && Fips180.K[28] == 0xc6e00bf3 && PRIMES[29] == 113 && Fips180.K[29] == 0xd5a79147;
    assert PRIMES[30] == 127 && Fips180.K[30] == 0x06ca6351 && PRIMES[31] == 131 && Fips180.K[31] == 0x14292967;
    hide CubeRootBits, PRIMES, Fips180.K;
    if i == 24 {
      CubeRoot(97, 4, 0x983e5152);
    } else if i == 25 {
      CubeRoot(101, 4, 0xa831c66d);
    } else if i == 26 {
      CubeRoot(103, 4, 0xb00327c8);
    } else if i == 27 {
      CubeRoot(107, 4, 0xbf597fc7);
    } else if i == 28 {
      CubeRoot(109, 4, 0xc6e00bf3);
    } else if i == 29 {
      CubeRoot(113, 4, 0xd5a79147);
    } else if i == 30 {
      CubeRoot(127, 5, 0x06ca6351);
    } else {
      CubeRoot(131, 5, 0x14292967);
    }
  }

  lemma CubeRoots32(i: nat)
    requires 32 <= i < 40
    ensures |Fips180.K| == 64 && |PRIMES| == 64 && CubeRootBits(PRIMES[i], Fips180.K[i])
  {
    assert PRIMES[32] == 137 && Fips180.K[32] == 0x27b70a85 && PRIMES[33] == 139 && Fips180.K[33] == 0x2e1b2138;
    assert PRIMES[34] == 149 && Fips180.K[34] == 0x4d2c6dfc && PRIMES[35] == 151 && Fips180.K[35] == 0x53380d13;
    assert PRIMES[36] == 157 && Fips180.K[36] == 0x650a7354 && PRIMES[37] == 163 && Fips180.K[37] == 0x766a0abb;
    assert PRIMES[38] == 167 && Fips180.K[38] == 0x81c2c92e && PRIMES[39] == 173 && Fips180.K[39] == 0x92722c85;
    hide CubeRootBits, PRIMES, Fips180.K;
    if i == 32 {
      CubeRoot(137, 5, 0x27b70a85);
    } else if i == 33 {
      CubeRoot(139, 5, 0x2e1b2138);
    } else if i == 34 {
      CubeRoot(149, 5, 0x4d2c6dfc);
    } else if i == 35 {
      CubeRoot(151, 5, 0x53380d13);
    } else if i == 36 {
      CubeRoot(157, 5, 0x650a7354);
    } else if i == 37 {
      CubeRoot(163, 5, 0x766a0abb);
    } else if i == 38 {
      CubeRoot(167, 5, 0x81c2c92e);
    } else {
      CubeRoot(173, 5, 0x92722c85);
    }
  }

  lemma CubeRoots40(i: nat)
    requires 40 <= i < 48
    ensures |Fips180.K| == 64 && |PRIMES| == 64 && CubeRootBits(PRIMES[i], Fips180.K[i])
  {
    assert PRIMES[40] == 179 && Fips180.K[40] == 0xa2bfe8a1 && PRIMES[41] == 181 && Fips180.K[41] == 0xa81a664b;
    assert PRIMES[42] == 191 && Fips180.K[42] == 0xc24b8b70 && PRIMES[43] == 193 && Fips180.K[43] == 0xc76c51a3;
    assert PRIMES[44] == 197 && Fips180.K[44] == 0xd192e819 && PRIMES[45] == 199 && Fips180.K[45] == 0xd6990624;
    assert PRIMES[46] == 211 && Fips180.K[46] == 0xf40e3585 && PRIMES[47] == 223 && Fips180.K[47] == 0x106aa070;
    hide CubeRootBits, PRIMES, Fips180.K;
    if i == 40 {
      CubeRoot(179, 5, 0xa2bfe8a1);
    } else if i == 41 {
      CubeRoot(181, 5, 0xa81a664b);
    } else if i == 42 {
      CubeRoot(191, 5, 0xc24b8b70);
    } else if i == 43 {
      CubeRoot(193, 5, 0xc76c51a3);
    } else if i == 44 {
      CubeRoot(197, 5, 0xd192e819);
    } else if i == 45 {
      CubeRoot(199, 5, 0xd6990624);
    } else if i == 46 {
      CubeRoot(211, 5, 0xf40e3585);
    } else {
      CubeRoot(223, 6, 0x106aa070);
    }
  }

  lemma CubeRoots48(i: nat)
    requires 48 <= i < 56
    ensures |Fips180.K| == 64 && |PRIMES| == 64 && CubeRootBits(PRIMES[i], Fips180.K[i])
  {
    assert PRIMES[48] == 227 && Fips180.K[48] == 0x19a4c116 && PRIMES[49] == 229 && Fips180.K[49] == 0x1e376c08;
    assert PRIMES[50] == 233 && Fips180.K[50] == 0x2748774c && PRIMES[51] == 239 && Fips180.K[51] == 0x34b0bcb5;
    assert PRIMES[52] == 241 && Fips180.K[52] == 0x391c0cb3 && PRIMES[53] == 251 && Fips180.K[53] == 0x4ed8aa4a;
    assert PRIMES[54] == 257 && Fips180.K[54] == 0x5b9cca4f && PRIMES[55] == 263 && Fips180.K[55] == 0x682e6ff3;
    hide CubeRootBits, PRIMES, Fips180.K;
    if i == 48 {
      CubeRoot(227, 6, 0x19a4c116);
    } else if i == 49 {
      CubeRoot(229, 6, 0x1e376c08);
    } else if i == 50 {
      CubeRoot(233, 6, 0x2748774c);
    } else if i == 51 {
      CubeRoot(239, 6, 0x34b0bcb5);
    } else if i == 52 {
      CubeRoot(241, 6, 0x391c0cb3);
    } else if i == 53 {
      CubeRoot(251, 6, 0x4ed8aa4a);
    } else if i == 54 {
      CubeRoot(257, 6, 0x5b9cca4f);
    } else {
      CubeRoot(263, 6, 0x682e6ff3);
    }
  }

  lemma CubeRoots56(i: nat)
    requires 56 <= i < 64
    ensures |Fips180.K| == 64 && |PRIMES| == 64 && CubeRootBits(PRIMES[i], Fips180.K[i])
  {
    assert PRIMES[56] == 269 && Fips180.K[56] == 0x748f82ee && PRIMES[57] == 271 && Fips180.K[57] == 0x78a5636f;
    assert PRIMES[58] == 277 && Fips180.K[58] == 0x84c87814 && PRIMES[59] == 281 && Fips180.K[59] == 0x8cc70208;
    assert PRIMES[60] == 283 && Fips180.K[60] == 0x90befffa && PRIMES[61] == 293 && Fips180.K[61] == 0xa4506ceb;
    assert PRIMES[62] == 307 && Fips180.K[62] == 0xbef9a3f7 && PRIMES[63] == 311 && Fips180.K[63] == 0xc67178f2;
    hide CubeRootBits, PRIMES, Fips180.K;
    if i == 56 {
      CubeRoot(269, 6, 0x748f82ee);
    } else if i == 57 {
      CubeRoot(271, 6, 0x78a5636f);
    } else if i == 58 {
      CubeRoot(277, 6, 0x84c87814);
    } else if i == 59 {
      CubeRoot(281, 6, 0x8cc70208);
    } else if i == 60 {
      CubeRoot(283, 6, 0x90befffa);
    } else if i == 61 {
      CubeRoot(293, 6, 0xa4506ceb);
    } else if i == 62 {
      CubeRoot(307, 6, 0xbef9a3f7);
    } else {
      CubeRoot(311, 6, 0xc67178f2);
    }
  }

  /** The round constants are the cube roots' bits. */
  lemma ConstantsAreCubeRoots(i: nat)
    requires i < 64
    ensures |Fips180.K| == 64 == |PRIMES| && CubeRootBits(PRIMES[i], Fips180.K[i])
  {
    if i < 8 {
      CubeRoots0(i);
    } else if i < 16 {
      CubeRoots8(i);
    } else if i < 24 {
      CubeRoots16(i);
    } else if i < 32 {
      CubeRoots24(i);
    } else if i < 40 {
      CubeRoots32(i);
    } else if i < 48 {
      CubeRoots40(i);
    } else if i < 56 {
      CubeRoots48(i);
    } else {
      CubeRoots56(i);
    }
  }

  /** The initial hash value is the square roots' bits. */
  lemma InitialIsSquareRoots(i: nat)
    requires i < 8
    ensures |Fips180.H0| == 8 && |PRIMES| == 64 && SquareRootBits(PRIMES[i], Fips180.H0[i])
  {
    assert PRIMES[0] == 2 && Fips180.H0[0] == 0x6a09e667 && PRIMES[1] == 3 && Fips180.H0[1] == 0xbb67ae85;
    assert PRIMES[2] == 5 && Fips180.H0[2] == 0x3c6ef372 && PRIMES[3] == 7 && Fips180.H0[3] == 0xa54ff53a;
    assert PRIMES[4] == 11 && Fips180.H0[4] == 0x510e527f && PRIMES[5] == 13 && Fips180.H0[5] == 0x9b05688c;
    assert PRIMES[6] == 17 && Fips180.H0[6] == 0x1f83d9ab && PRIMES[7] == 19 && Fips180.H0[7] == 0x5be0cd19;
    hide SquareRootBits, PRIMES, Fips180.H0;
    if i == 0 {
      SquareRoot(2, 1, 0x6a09e667);
    } else if i == 1 {
      SquareRoot(3, 1, 0xbb67ae85);
    } else if i == 2 {
      SquareRoot(5, 2, 0x3c6ef372);
    } else if i == 3 {
      SquareRoot(7, 2, 0xa54ff53a);
    } else if i == 4 {
      SquareRoot(11, 3, 0x510e527f);
    } else if i == 5 {
      SquareRoot(13, 3, 0x9b05688c);
    } else if i == 6 {
      SquareRoot(17, 4, 0x1f83d9ab);
    } else {
      SquareRoot(19, 4, 0x5be0cd19);
    }
  }

  // The bits of a root are one number

  lemma Larger(x: nat, y: nat)
    requires x <= y
    ensures Cubed(x) <= Cubed(y) && Square(x) <= Square(y)
  {
    assert x * x <= y * x <= y * y;
    assert x * x * x <= y * y * x <= y * y * y;
  }

  /** Nothing else than the table's value fits a prime. */
  lemma RootBitsUnique(p: nat, a: int, b: int)
    ensures CubeRootBits(p, a) && CubeRootBits(p, b) ==> a == b
    ensures SquareRootBits(p, a) && SquareRootBits(p, b) ==> a == b
  {
    hide *;
    if CubeRootBits(p, a) && CubeRootBits(p, b) {
      CubeBitsUnique(p, a, b);
    }
    if SquareRootBits(p, a) && SquareRootBits(p, b) {
      SquareBitsUnique(p, a, b);
    }
  }

  lemma CubeBitsUnique(p: nat, a: int, b: int)
    requires CubeRootBits(p, a) && CubeRootBits(p, b)
    ensures a == b
  {
    hide Cubed;
    var t := p * 0x1_0000_0000_0000_0000_0000_0000;
    var x: nat :| Cubed(x) <= t < Cubed(x + 1) && x % 0x1_0000_0000 == a;
    var y: nat :| Cubed(y) <= t < Cubed(y + 1) && y % 0x1_0000_0000 == b;
    if x < y {
      Larger(x + 1, y);
    } else if y < x {
      Larger(y + 1, x);
    }
  }

  lemma SquareBitsUnique(p: nat, a: int, b: int)
    requires SquareRootBits(p, a) && SquareRootBits(p, b)
    ensures a == b
  {
    hide Square;
    var t := p * 0x1_0000_0000_0000_0000;
    var x: nat :| Square(x) <= t < Square(x + 1) && x % 0x1_0000_0000 == a;
    var y: nat :| Square(y) <= t < Square(y + 1) && y % 0x1_0000_0000 == b;
    if x < y {
      Larger(x + 1, y);
    } else if y < x {
      Larger(y + 1, x);
    }
  }
}
