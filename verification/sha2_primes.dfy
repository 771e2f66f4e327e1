/** The numbers under the roots in the SHA-2 constants are the first eighty primes. */
module Sha2Primes {
  import opened NumberTheory
  import opened PrimeTable
  import opened Sha2Hashes

  /** n has no prime factor below 23 but perhaps itself. */
  predicate Sifted(n: nat) {
    && n >= 2
    && (n % 2 != 0 || n == 2) && (n % 3 != 0 || n == 3) && (n % 5 != 0 || n == 5) && (n % 7 != 0 || n == 7)
    && (n % 11 != 0 || n == 11) && (n % 13 != 0 || n == 13) && (n % 17 != 0 || n == 17) && (n % 19 != 0 || n == 19)
  }

  lemma ProperDivisor(d: nat, n: nat)
    requires Prime(n) && d >= 2 && n % d == 0
    ensures n == d
  {
    assert Divides(d, n);
    DivisorIsAtMost(d, n);
  }

  lemma PrimeIsSifted(n: nat)
    requires Prime(n)
    ensures Sifted(n)
  {
    if n % 2 == 0 { ProperDivisor(2, n); }
    if n % 3 == 0 { ProperDivisor(3, n); }
    if n % 5 == 0 { ProperDivisor(5, n); }
    if n % 7 == 0 { ProperDivisor(7, n); }
    if n % 11 == 0 { ProperDivisor(11, n); }
    if n % 13 == 0 { ProperDivisor(13, n); }
    if n % 17 == 0 { ProperDivisor(17, n); }
    if n % 19 == 0 { ProperDivisor(19, n); }
  }

  lemma SiftedHasNoSmallDivisor(n: nat, d: nat)
    requires Sifted(n) && 2 <= d < 23 && d < n
    ensures !Divides(d, n)
  {
    if Divides(d, n) {
      var e := SmallFactor(d);
      DividesTrans(e, d, n);
    }
  }

  lemma SmallFactor(d: nat) returns (e: nat)
    requires 2 <= d < 23
    ensures 2 <= e <= d && Divides(e, d)
    ensures e == 2 || e == 3 || e == 5 || e == 7 || e == 11 || e == 13 || e == 17 || e == 19
  {
    if d % 2 == 0 { e := 2; } else if d % 3 == 0 { e := 3; } else { e := d; }
  }

  lemma SiftedIsAtLeastTwo(n: nat)
    requires Sifted(n)
    ensures n >= 2
  {
  }

  lemma PrimeIffSifted(n: nat)
    requires n < 529
    ensures Prime(n) <==> Sifted(n)
  {
    hide Sifted;
    if Prime(n) {
      PrimeIsSifted(n);
    } else if Sifted(n) {
      SiftedIsAtLeastTwo(n);
      var p := SmallPrimeDivisorExists(n);
      if p >= 23 {
        ProductIsMonotone(23, 23, p, p);
      }
      ProductIsMonotone(p, 2, p, p);
      SiftedHasNoSmallDivisor(n, p);
    }
  }

  // ----- the list -----

  /** What is left of the numbers when two, three and five are sifted. */
  lemma Spokes(n: nat)
    requires n % 2 != 0 && n % 3 != 0 && n % 5 != 0
    ensures var r := n % 30;
            r == 1 || r == 7 || r == 11 || r == 13 || r == 17 || r == 19 || r == 23 || r == 29
  {
    var k, r := n / 30, n % 30;
    DivisionIsUnique(n, 15 * k + r / 2, r % 2, 2);
    DivisionIsUnique(n, 10 * k + r / 3, r % 3, 3);
    DivisionIsUnique(n, 6 * k + r / 5, r % 5, 5);
    SpokesBelow30(r);
  }

  lemma SpokesBelow30(r: nat)
    requires r < 30 && r % 2 != 0 && r % 3 != 0 && r % 5 != 0
    ensures r == 1 || r == 7 || r == 11 || r == 13 || r == 17 || r == 19 || r == 23 || r == 29
  {
  }

  lemma CandidatesA(n: nat)
    requires 6 <= n < 54 && n % 2 != 0 && n % 3 != 0 && n % 5 != 0
    ensures n == 7 || n == 11 || n == 13 || n == 17 || n == 19 || n == 23 || n == 29 || n == 31
      || n == 37 || n == 41 || n == 43 || n == 47 || n == 49 || n == 53
  {
    Spokes(n);
  }

  lemma ListedA(n: nat)
    requires n < 54
    ensures n in PRIMES_A <==> Sifted(n)
  {
    if Sifted(n) && n > 5 {
      CandidatesA(n);
    }
  }

  lemma CandidatesB(n: nat)
    requires 54 <= n < 132 && n % 2 != 0 && n % 3 != 0 && n % 5 != 0
    ensures n == 59 || n == 61 || n == 67 || n == 71 || n == 73 || n == 77 || n == 79 || n == 83
      || n == 89 || n == 91 || n == 97 || n == 101 || n == 103 || n == 107 || n == 109 || n == 113
      || n == 119 || n == 121 || n == 127 || n == 131
  {
    Spokes(n);
  }

  lemma ListedB(n: nat)
    requires 54 <= n < 132
    ensures n in PRIMES_B <==> Sifted(n)
  {
    if Sifted(n) && n > 5 {
      CandidatesB(n);
    }
  }

  lemma CandidatesC(n: nat)
    requires 132 <= n < 224 && n % 2 != 0 && n % 3 != 0 && n % 5 != 0
    ensures n == 133 || n == 137 || n == 139 || n == 143 || n == 149 || n == 151 || n == 157 || n == 161
      || n == 163 || n == 167 || n == 169 || n == 173 || n == 179 || n == 181 || n == 187 || n == 191
      || n == 193 || n == 197 || n == 199 || n == 203 || n == 209 || n == 211 || n == 217 || n == 221
      || n == 223
  {
    Spokes(n);
  }

  lemma ListedC(n: nat)
    requires 132 <= n < 224
    ensures n in PRIMES_C <==> Sifted(n)
  {
    if Sifted(n) && n > 5 {
      CandidatesC(n);
    }
  }

  lemma CandidatesD(n: nat)
    requires 224 <= n < 312 && n % 2 != 0 && n % 3 != 0 && n % 5 != 0
    ensures n == 227 || n == 229 || n == 233 || n == 239 || n == 241 || n == 247 || n == 251 || n == 253
      || n == 257 || n == 259 || n == 263 || n == 269 || n == 271 || n == 277 || n == 281 || n == 283
      || n == 287 || n == 289 || n == 293 || n == 299 || n == 301 || n == 307 || n == 311
  {
    Spokes(n);
  }

  lemma ListedD(n: nat)
    requires 224 <= n < 312
    ensures n in PRIMES_D <==> Sifted(n)
  {
    if Sifted(n) && n > 5 {
      CandidatesD(n);
    }
  }

  lemma CandidatesE(n: nat)
    requires 312 <= n < 410 && n % 2 != 0 && n % 3 != 0 && n % 5 != 0
    ensures n == 313 || n == 317 || n == 319 || n == 323 || n == 329 || n == 331 || n == 337 || n == 341
      || n == 343 || n == 347 || n == 349 || n == 353 || n == 359 || n == 361 || n == 367 || n == 371
      || n == 373 || n == 377 || n == 379 || n == 383 || n == 389 || n == 391 || n == 397 || n == 401
      || n == 403 || n == 407 || n == 409
  {
    Spokes(n);
  }

  lemma ListedE(n: nat)
    requires 312 <= n < 410
    ensures n in PRIMES_E <==> Sifted(n)
  {
    if Sifted(n) && n > 5 {
      CandidatesE(n);
    }
  }


  lemma FirstPrimesAreListed(n: nat)
    requires n < 410
    ensures n in FIRST_PRIMES <==> Sifted(n)
  {
    hide PRIMES_A, PRIMES_B, PRIMES_C, PRIMES_D, PRIMES_E, Sifted;
    ChunksAreApart();
    if n < 54 {
      ListedA(n);
    } else if n < 132 {
      ListedB(n);
    } else if n < 224 {
      ListedC(n);
    } else if n < 312 {
      ListedD(n);
    } else {
      ListedE(n);
    }
  }

  lemma ChunksAreApart()
    ensures forall n :: n in PRIMES_A ==> 2 <= n < 54
    ensures forall n :: n in PRIMES_B ==> 54 <= n < 132
    ensures forall n :: n in PRIMES_C ==> 132 <= n < 224
    ensures forall n :: n in PRIMES_D ==> 224 <= n < 312
    ensures forall n :: n in PRIMES_E ==> 312 <= n < 410
  {
  }

  predicate IsIncreasing(t: seq<nat>) {
    forall i :: 0 < i < |t| ==> t[i - 1] < t[i]
  }

  lemma ChunksIncrease()
    ensures IsIncreasing(PRIMES_A) && IsIncreasing(PRIMES_B) && IsIncreasing(PRIMES_C)
    ensures IsIncreasing(PRIMES_D) && IsIncreasing(PRIMES_E)
  {
  }

  lemma JoinIncreasing(s: seq<nat>, t: seq<nat>, bound: nat)
    requires IsIncreasing(s) && IsIncreasing(t)
    requires (forall n :: n in s ==> n < bound) && (forall n :: n in t ==> bound <= n)
    ensures IsIncreasing(s + t)
  {
    var u := s + t;
    forall i | 0 < i < |u|
      ensures u[i - 1] < u[i]
    {
      if i == |s| {
        assert u[i - 1] in s && u[i] in t;
      } else if i > |s| {
        assert t[i - |s| - 1] < t[i - |s|];
      }
    }
  }

  lemma {:induction false} IncreasingIsSorted(t: seq<nat>, i: nat, j: nat)
    requires IsIncreasing(t) && i < j < |t|
    ensures t[i] < t[j]
    decreases j
  {
    if i < j - 1 {
      IncreasingIsSorted(t, i, j - 1);
    }
  }

  lemma FirstPrimesIncrease()
    ensures IsIncreasing(FIRST_PRIMES)
  {
    hide IsIncreasing, PRIMES_A, PRIMES_B, PRIMES_C, PRIMES_D, PRIMES_E;
    ChunksIncrease();
    ChunksAreApart();
    JoinIncreasing(PRIMES_A, PRIMES_B, 54);
    JoinIncreasing(PRIMES_A + PRIMES_B, PRIMES_C, 132);
    JoinIncreasing(PRIMES_A + PRIMES_B + PRIMES_C, PRIMES_D, 224);
    JoinIncreasing(PRIMES_A + PRIMES_B + PRIMES_C + PRIMES_D, PRIMES_E, 312);
  }

  /** The numbers under the cube roots are the first eighty primes: the whole prime table below 410. */
  lemma FirstPrimesAreComplete()
    ensures |FIRST_PRIMES| == 80 && IsPrimeTable(FIRST_PRIMES, 410)
  {
    hide Sifted, Prime, FIRST_PRIMES, IsIncreasing;
    EightyPrimes();
    FirstPrimesIncrease();
    forall i, j | 0 <= i < j < |FIRST_PRIMES|
      ensures FIRST_PRIMES[i] < FIRST_PRIMES[j]
    {
      IncreasingIsSorted(FIRST_PRIMES, i, j);
    }
    forall n: nat | n < 410
      ensures Prime(n) <==> n in FIRST_PRIMES
    {
      PrimeIffSifted(n);
      FirstPrimesAreListed(n);
    }
    FirstPrimesAreBelow410();
    forall i | 0 <= i < |FIRST_PRIMES|
      ensures Prime(FIRST_PRIMES[i]) && FIRST_PRIMES[i] < 410
    {
      assert FIRST_PRIMES[i] in FIRST_PRIMES;
    }
  }

  lemma EightyPrimes()
    ensures |FIRST_PRIMES| == 80
  {
    hide *;
    PrimeChunks();
  }

  lemma FirstPrimesAreBelow410()
    ensures forall n :: n in FIRST_PRIMES ==> n < 410
  {
    hide PRIMES_A, PRIMES_B, PRIMES_C, PRIMES_D, PRIMES_E;
    ChunksAreApart();
  }
}
