/**
 The earlier sieve of xptMiner/riecoinMiner_1.cpp: start indices computed in 32-bit arithmetic with
 the machine-integer inverse. The product can wrap; this module says exactly when that matters.
 */
module RiecoinMiner1 {
  import opened NumberTheory
  import opened BitTable
  import opened PrimeTable
  import opened ModularInverse
  import opened RiecoinSieve

  // The step between candidates, 2*3*5*7*11.
  const STEP: nat := 2310

  /** index marks exactly the residue class of candidates that p divides. */
  ghost predicate MarksMultiples(a: nat, p: nat, index: nat)
    requires p > 0
  {
    forall k: nat :: Divides(p, a + STEP * k) <==> Congruent(k, index, p)
  }

  lemma StepIsCoprime(p: int)
    requires Prime(p) && p >= 13
    ensures Coprime(STEP, p)
  {
    if Divides(p, STEP) {
      assert STEP == 2 * (3 * (5 * (7 * 11)));
      EuclidsLemma(2, 3 * (5 * (7 * 11)), p);
      EuclidsLemma(3, 5 * (7 * 11), p);
      EuclidsLemma(5, 7 * 11, p);
      EuclidsLemma(7, 11, p);
      forall d: nat | 0 < d < 13 && Divides(p, d)
        ensures false
      {
        DivisorIsAtMost(p, d);
      }
      assert false;
    }
    PrimeIsCoprime(STEP, p);
  }

  /** Reducing a wrapped product modulo an odd prime loses nothing exactly when it did not wrap. */
  lemma WrappedResidue(x: nat, p: nat)
    requires Prime(p) && 2 < p < 0x1_0000_0000 && x < p * p
    ensures Congruent(Wrap32(x), x, p) <==> x < 0x1_0000_0000
  {
    var M := 0x1_0000_0000;
    var q := x / M;
    assert x == M * q + Wrap32(x);
    if x < M {
      MultipleIsDivisible(0, p);
    } else {
      assert 0 < q < p by {
        if q >= p { ProductIsMonotone(p, p, M, q); }
      }
      if Congruent(Wrap32(x), x, p) {
        assert Wrap32(x) - x == -1 * (M * q);
        DividesProduct(p, -1 * (M * q), -1);
        EuclidsLemma(M, q, p);
        if Divides(p, M) {
          PowerOfTwoFactor(32, p);
        } else {
          DivisorIsAtMost(p, q);
        }
      }
    }
  }

  /** Two indices that mark the same multiples are congruent. */
  lemma MarkedClassIsUnique(a: nat, p: nat, i: nat, j: nat)
    requires p > 0 && MarksMultiples(a, p, i)
    ensures MarksMultiples(a, p, j) <==> Congruent(i, j, p)
  {
    MultipleIsDivisible(0, p);
    if MarksMultiples(a, p, j) {
      assert Congruent(i, i, p);
      assert Divides(p, a + STEP * i);
    }
    if Congruent(i, j, p) {
      CongruentSym(i, j, p);
      forall k: nat
        ensures Congruent(k, i, p) <==> Congruent(k, j, p)
      {
        if Congruent(k, i, p) { CongruentTrans(k, i, j, p); }
        if Congruent(k, j, p) { CongruentTrans(k, j, i, p); }
      }
    }
  }

  /** The 32-bit start index, from the inverse of the step. */
  function Index32(base: nat, p: nat, bias: nat, inverse: nat): nat
    requires p > 0
  {
    Wrap32((p - (base % p + bias) % p) % p * inverse) % p
  }

  /**
   The start index of riecoin_process. It marks exactly the multiples of p if and only if the
   32-bit product of the residue and the inverse does not wrap.
   */
  method StartIndex32(base: nat, p: nat, bias: nat) returns (index: nat, pa: int, inverse: nat)
    requires Prime(p) && 13 <= p < 0x8000_0000 && bias <= 16
    ensures index < p && 0 < pa <= p && Divides(p, base + bias + pa)
    ensures inverse < p && Congruent(STEP * inverse, 1, p)
    ensures index == Index32(base, p, bias, inverse)
    ensures MarksMultiples(base + bias, p, index) <==> (pa % p) * inverse < 0x1_0000_0000
    ensures p < 50000 ==> MarksMultiples(base + bias, p, index)
  {
    hide MarksMultiples, Divides, Congruent, Index32, Prime, Coprime;
    var remainder := base % p;
    remainder := Wrap32(remainder + bias);
    remainder := remainder % p;
    pa := if p < remainder then p - remainder + p else p - remainder;
    inverse := IntInvert(STEP, p);
    StepIsCoprime(p);
    InverseIsCongruent(STEP, inverse, p);
    index := Wrap32((pa % p) * inverse);
    index := index % p;
    NegatedResidue(base, bias, p, remainder, pa);
    IndexFromResidue(base, p, bias, inverse, remainder, pa);
    ExactWhenNotWrapped(base + bias, p, inverse, pa, index, base, bias, remainder);
    if p < 50000 {
      FirstTableNeverWraps(p, pa, inverse);
    }
  }

  lemma IndexFromResidue(base: nat, p: nat, bias: nat, inverse: nat, remainder: nat, pa: nat)
    requires p > 0 && remainder == (base % p + bias) % p && pa == p - remainder
    ensures Index32(base, p, bias, inverse) == Wrap32((pa % p) * inverse) % p
  {
    hide Wrap32;
  }

  lemma InverseIsCongruent(a: nat, r: nat, p: nat)
    requires p > 1 && (a * r) % p == 1 % p
    ensures Congruent(a * r, 1, p)
  {
    CongruentIffSameRemainder(a * r, 1, p);
  }

  lemma NegatedResidue(base: nat, bias: nat, p: nat, remainder: nat, pa: nat)
    requires p > 0 && remainder == (base % p + bias) % p && pa == p - remainder
    ensures Divides(p, base + bias + pa)
  {
    CongruentToRemainder(base, p);
    CongruentToRemainder(base % p + bias, p);
    MultipleIsDivisible(1, p);
    DividesSum(p, base - base % p, base % p + bias - remainder);
    DividesSum(p, (base - base % p) + (base % p + bias - remainder), p);
  }

  lemma ExactWhenNotWrapped(a: nat, p: nat, inverse: nat, pa: int, index: nat, base: nat, bias: nat, remainder: nat)
    requires Prime(p) && 2 < p < 0x8000_0000 && inverse < p && Congruent(STEP * inverse, 1, p)
    requires a == base + bias && remainder == (base % p + bias) % p && pa == p - remainder
    requires index == Wrap32((pa % p) * inverse) % p
    ensures MarksMultiples(a, p, index) <==> (pa % p) * inverse < 0x1_0000_0000
  {
    hide MarksMultiples, Prime, Congruent, Divides, Wrap32;
    var x := (pa % p) * inverse;
    IndexIsResidue(base, bias, p, inverse, remainder, pa, x % p);
    ExactClass(a, p, inverse, x % p);
    MarkedClassIsUnique(a, p, x % p, index);
    ProductBelowSquare(pa % p, inverse, p);
    WrappedResidue(x, p);
    SameClass(x, Wrap32(x), p);
  }

  lemma ExactClass(a: nat, p: nat, inverse: nat, exact: nat)
    requires p > 0 && Congruent(STEP * inverse, 1, p) && Congruent(exact, (0 - a) * inverse, p)
    ensures MarksMultiples(a, p, exact)
  {
    forall k: nat
      ensures Divides(p, a + STEP * k) <==> Congruent(k, exact, p)
    {
      StartIndexSolves(a, STEP, inverse, p, exact, k);
    }
  }

  lemma ProductBelowSquare(x: nat, y: nat, p: nat)
    requires x < p && y < p
    ensures x * y < p * p
  {
    ProductIsMonotone(x, y, p - 1, p - 1);
    assert (p - 1) * (p - 1) < p * p;
  }

  lemma SameClass(x: int, y: int, p: nat)
    requires p > 0
    ensures Congruent(x % p, y % p, p) <==> Congruent(y, x, p)
  {
    CongruentIffSameRemainder(y, x, p);
    CongruentIffSameRemainder(x % p, y % p, p);
    DivisionIsUnique(x % p, 0, x % p, p);
    DivisionIsUnique(y % p, 0, y % p, p);
  }

  /** Every prime of the first table (limit 50000) gets its exact residue class. */
  lemma FirstTableNeverWraps(p: nat, pa: nat, inverse: nat)
    requires 0 < p < 50000 && inverse < p
    ensures (pa % p) * inverse < 0x1_0000_0000
  {
    ProductIsMonotone(pa % p, inverse, 50000, 50000);
  }

  lemma PrimalityOf66457()
    ensures Prime(66457)
  {
    if !Prime(66457) {
      var q := SmallPrimeDivisorExists(66457);
      if q >= 258 {
        ProductIsMonotone(258, 258, q, q);
      }
      TrialDivision(q);
    }
  }

  lemma TrialDivision(d: nat)
    requires 2 <= d < 258
    ensures !Divides(d, 66457)
  {
  }

  // ----- the sieve of the first table -----

  // The first five table entries are the primes that divide the step; four numbers are sieved with this table.
  const FIRST_ENTRY: nat := 5
  const NUMBERS: nat := 4

  /** Table prime j divides the f-th number of candidate k. */
  ghost predicate Strikes1(base: nat, t: seq<nat>, k: nat, j: nat, f: nat) {
    FIRST_ENTRY <= j < |t| && f < NUMBERS && t[j] > 0 && Divides(t[j], base + BIASES[f] + STEP * k)
  }

  /** Some pair before the pair (j, f) in sieving order strikes k. */
  ghost predicate StruckBefore1(base: nat, t: seq<nat>, k: nat, j: nat, f: nat) {
    exists j': nat, f': nat :: (j' < j || (j' == j && f' < f)) && Strikes1(base, t, k, j', f')
  }

  lemma StruckByNext1(base: nat, t: seq<nat>, k: nat, j: nat, f: nat)
    ensures StruckBefore1(base, t, k, j, f + 1) <==> StruckBefore1(base, t, k, j, f) || Strikes1(base, t, k, j, f)
    ensures StruckBefore1(base, t, k, j, NUMBERS) <==> StruckBefore1(base, t, k, j + 1, 0)
  {
    hide Strikes1;
    if StruckBefore1(base, t, k, j, f + 1) {
      var j': nat, f': nat :| (j' < j || (j' == j && f' < f + 1)) && Strikes1(base, t, k, j', f');
      assert (j' < j || (j' == j && f' < f)) || (j' == j && f' == f);
    }
    if StruckBefore1(base, t, k, j, f) {
      var j': nat, f': nat :| (j' < j || (j' == j && f' < f)) && Strikes1(base, t, k, j', f');
      assert j' < j || (j' == j && f' < f + 1);
    }
    if StruckBefore1(base, t, k, j, NUMBERS) {
      var j': nat, f': nat :| (j' < j || (j' == j && f' < NUMBERS)) && Strikes1(base, t, k, j', f');
      assert j' < j + 1;
    }
    if StruckBefore1(base, t, k, j + 1, 0) {
      var j': nat, f': nat :| (j' < j + 1 || (j' == j + 1 && f' < 0)) && Strikes1(base, t, k, j', f');
      StrikingNumber(base, t, k, j', f');
    }
  }

  lemma StrikingNumber(base: nat, t: seq<nat>, k: nat, j: nat, f: nat)
    requires Strikes1(base, t, k, j, f)
    ensures f < NUMBERS && FIRST_ENTRY <= j < |t|
  {
  }

  ghost predicate MarkedBefore1(bits: seq<bv8>, base: nat, t: seq<nat>, sieveSize: nat, j: nat, f: nat) {
    sieveSize <= 8 * |bits| &&
    forall k: nat :: k < 8 * |bits| ==> (Bit(bits, k) <==> k < sieveSize && StruckBefore1(base, t, k, j, f))
  }

  lemma NothingMarked1(bits: seq<bv8>, base: nat, t: seq<nat>, sieveSize: nat)
    requires sieveSize <= 8 * |bits| && forall i :: 0 <= i < |bits| ==> bits[i] == 0
    ensures MarkedBefore1(bits, base, t, sieveSize, FIRST_ENTRY, 0)
  {
    ClearTable(bits);
    hide Divides;
  }

  lemma ClassMarked1(before: seq<bv8>, after: seq<bv8>, base: nat, t: seq<nat>, sieveSize: nat, j: nat, f: nat,
                     index: nat)
    requires FIRST_ENTRY <= j < |t| && f < NUMBERS && t[j] > 0
    requires MarkedBefore1(before, base, t, sieveSize, j, f) && |after| == |before|
    requires MarksMultiples(base + BIASES[f], t[j], index)
    requires ClassSetUpTo(after, before, index, t[j], sieveSize, sieveSize)
    ensures MarkedBefore1(after, base, t, sieveSize, j, f + 1)
    ensures f + 1 == NUMBERS ==> MarkedBefore1(after, base, t, sieveSize, j + 1, 0)
  {
    hide Divides, Congruent, Bit, StruckBefore1;
    forall k: nat | k < 8 * |after|
      ensures Bit(after, k) <==> k < sieveSize && StruckBefore1(base, t, k, j, f + 1)
      ensures StruckBefore1(base, t, k, j, NUMBERS) <==> StruckBefore1(base, t, k, j + 1, 0)
    {
      StruckByNext1(base, t, k, j, f);
      assert Divides(t[j], base + BIASES[f] + STEP * k) <==> Congruent(k, index, t[j]);
    }
  }

  lemma SievedEntry1(t: seq<nat>, limit: nat, j: nat)
    requires IsPrimeTable(t, limit) && FIRST_ENTRY <= j < |t|
    ensures Prime(t[j]) && 13 <= t[j] < limit
  {
    FirstEntries(t, limit, j);
  }

  lemma StruckByPrime(base: nat, t: seq<nat>, limit: nat, k: nat, p: nat, n: nat)
    requires IsPrimeTable(t, limit) && Prime(p) && 13 <= p < limit && n == base + 2310 * k
    requires Divides(p, n) || Divides(p, n + 4) || Divides(p, n + 6) || Divides(p, n + 10)
    ensures exists j: nat, f: nat :: Strikes1(base, t, k, j, f)
  {
    var j :| 0 <= j < |t| && t[j] == p;
    FirstEntries(t, limit, j);
    hide Prime, Divides;
    assert Strikes1(base, t, k, j, 0) || Strikes1(base, t, k, j, 1) || Strikes1(base, t, k, j, 2)
      || Strikes1(base, t, k, j, 3);
  }

  lemma PrimeThatStrikes(base: nat, t: seq<nat>, limit: nat, k: nat, j: nat, f: nat, n: nat)
    requires IsPrimeTable(t, limit) && Strikes1(base, t, k, j, f) && n == base + 2310 * k
    ensures Prime(t[j]) && 13 <= t[j] < limit
    ensures Divides(t[j], n) || Divides(t[j], n + 4) || Divides(t[j], n + 6) || Divides(t[j], n + 10)
  {
    SievedEntry1(t, limit, j);
    hide Prime, Divides;
    assert f == 0 || f == 1 || f == 2 || f == 3;
  }

  /** Without tables: a prime from 13 on below the limit divides one of the first four numbers. */
  lemma StruckMeans(base: nat, t: seq<nat>, limit: nat, k: nat, n: nat)
    requires IsPrimeTable(t, limit) && n == base + 2310 * k
    ensures (exists j: nat, f: nat :: Strikes1(base, t, k, j, f)) <==>
            exists p: nat :: Prime(p) && 13 <= p < limit &&
              (Divides(p, n) || Divides(p, n + 4) || Divides(p, n + 6) || Divides(p, n + 10))
  {
    hide Strikes1, Divides, Prime;
    if j: nat, f: nat :| Strikes1(base, t, k, j, f) {
      assert j < |t| by { StrikingNumber(base, t, k, j, f); }
      PrimeThatStrikes(base, t, limit, k, j, f, n);
    }
    forall p: nat | Prime(p) && 13 <= p < limit &&
      (Divides(p, n) || Divides(p, n + 4) || Divides(p, n + 6) || Divides(p, n + 10))
      ensures exists j: nat, f: nat :: Strikes1(base, t, k, j, f)
    {
      StruckByPrime(base, t, limit, k, p, n);
    }
  }

  lemma AllStruckMean(bits: seq<bv8>, base: nat, t: seq<nat>, limit: nat, sieveSize: nat)
    requires IsPrimeTable(t, limit) && sieveSize <= 8 * |bits|
    requires forall k: nat :: k < sieveSize ==> (Bit(bits, k) <==> exists j: nat, f: nat :: Strikes1(base, t, k, j, f))
    ensures forall k: nat :: k < sieveSize ==>
              var n := base + 2310 * k;
              Bit(bits, k) <==>
              exists p: nat :: Prime(p) && 13 <= p < limit &&
                (Divides(p, n) || Divides(p, n + 4) || Divides(p, n + 6) || Divides(p, n + 10))
  {
    hide Strikes1, Bit, Divides, Prime;
    forall k: nat | k < sieveSize
      ensures var n := base + 2310 * k;
              Bit(bits, k) <==>
              exists p: nat :: Prime(p) && 13 <= p < limit &&
                (Divides(p, n) || Divides(p, n + 4) || Divides(p, n + 6) || Divides(p, n + 10))
    {
      StruckMeans(base, t, limit, k, base + 2310 * k);
    }
  }

  /**
   The sieve with the first table: a bit is set exactly when a prime from 13 on below the limit divides one
   of the first four numbers of its candidate.
   */
  method MarkFirstTable(sieve: array<bv8>, base: nat, t: seq<nat>, limit: nat, sieveSize: nat)
    requires IsPrimeTable(t, limit) && limit <= 50000
    requires 8 * sieve.Length == sieveSize && sieveSize + limit <= 0x1_0000_0000
    modifies sieve
    ensures forall k: nat :: k < sieveSize ==>
              var n := base + 2310 * k;
              Bit(sieve[..], k) <==>
              exists p: nat :: Prime(p) && 13 <= p < limit &&
                (Divides(p, n) || Divides(p, n + 4) || Divides(p, n + 6) || Divides(p, n + 10))
  {
    hide *;
    forall i | 0 <= i < sieve.Length {
      sieve[i] := 0;
    }
    NothingMarked1(sieve[..], base, t, sieveSize);
    var i := FIRST_ENTRY;
    while i < |t|
      invariant FIRST_ENTRY <= i && MarkedBefore1(sieve[..], base, t, sieveSize, i, 0)
    {
      SievedEntry1(t, limit, i);
      var p := t[i];
      var f := 0;
      Constants1();
      while f < NUMBERS
        invariant 0 <= f <= NUMBERS && |BIASES| == 6 && NUMBERS == 4
        invariant f < NUMBERS ==> MarkedBefore1(sieve[..], base, t, sieveSize, i, f)
        invariant f == NUMBERS ==> MarkedBefore1(sieve[..], base, t, sieveSize, i + 1, 0)
      {
        ghost var before := sieve[..];
        BiasFits(f);
        var index, pa, inverse := StartIndex32(base, p, BIASES[f]);
        ShortClass(index, p, limit, sieveSize);
        MarkResidueClass(sieve, index, p, sieveSize);
        ClassSize(before, sieve[..], index, p, sieveSize);
        ClassMarked1(before, sieve[..], base, t, sieveSize, i, f, index);
        f := f + 1;
      }
      i := i + 1;
    }
    AllMarked1(sieve[..], base, t, sieveSize, i);
    AllStruckMean(sieve[..], base, t, limit, sieveSize);
  }

  lemma Constants1()
    ensures |BIASES| == 6 && NUMBERS == 4
  {
  }

  lemma BiasFits(f: nat)
    requires f < NUMBERS
    ensures f < |BIASES| && BIASES[f] <= 16
  {
  }

  lemma ShortClass(index: nat, p: nat, limit: nat, sieveSize: nat)
    requires 0 < p < limit && sieveSize + limit <= 0x1_0000_0000
    ensures ClassEndsInRange(index, p, sieveSize)
  {
    hide Congruent;
  }

  lemma ClassSize(before: seq<bv8>, after: seq<bv8>, index: nat, p: nat, sieveSize: nat)
    requires p > 0 && ClassSetUpTo(after, before, index, p, sieveSize, sieveSize)
    ensures |after| == |before|
  {
  }

  lemma AllMarked1(bits: seq<bv8>, base: nat, t: seq<nat>, sieveSize: nat, j: nat)
    requires MarkedBefore1(bits, base, t, sieveSize, j, 0) && |t| <= j
    ensures sieveSize <= 8 * |bits|
    ensures forall k: nat :: k < sieveSize ==> (Bit(bits, k) <==> exists j: nat, f: nat :: Strikes1(base, t, k, j, f))
  {
    hide Bit, Divides;
    forall k: nat | k < sieveSize
      ensures Bit(bits, k) <==> exists j: nat, f: nat :: Strikes1(base, t, k, j, f)
    {
      assert Bit(bits, k) <==> StruckBefore1(base, t, k, j, 0);
      if j': nat, f': nat :| Strikes1(base, t, k, j', f') {
        assert j' < j;
      }
    }
  }

  // ----- the second table -----

  // A prime of the second table (limit 100000), the inverse of the step modulo it, and a residue of the base.
  const PRIME2: nat := 66457
  const INVERSE2: nat := 66083
  const RESIDUE2: nat := 66446

  lemma InverseIsUnique(inverse: nat)
    requires inverse < PRIME2 && Congruent(STEP * inverse, 1, PRIME2)
    ensures inverse == INVERSE2
  {
    PrimalityOf66457();
    assert STEP * INVERSE2 - 1 == 2297 * PRIME2;
    MultipleIsDivisible(2297, PRIME2);
    assert Congruent(STEP * INVERSE2, 1, PRIME2);
    CongruentSym(STEP * INVERSE2, 1, PRIME2);
    CongruentTrans(STEP * inverse, 1, STEP * INVERSE2, PRIME2);
    StepIsCoprime(PRIME2);
    assert STEP * inverse - STEP * INVERSE2 == STEP * (inverse - INVERSE2);
    CancelCoprime(STEP, inverse - INVERSE2, PRIME2);
    if inverse > INVERSE2 {
      DivisorIsAtMost(PRIME2, inverse - INVERSE2);
    } else if inverse < INVERSE2 {
      DividesProduct(PRIME2, inverse - INVERSE2, -1);
      DivisorIsAtMost(PRIME2, INVERSE2 - inverse);
    }
  }

  lemma WrappedIndex(base: nat)
    requires base % PRIME2 == RESIDUE2
    ensures Index32(base, PRIME2, 12, INVERSE2) == 16074
  {
    hide Wrap32;
    var residue := base % PRIME2;
    assert residue == RESIDUE2;
    assert (PRIME2 - (residue + 12) % PRIME2) % PRIME2 == 66456;
    WrappedProduct(66456);
  }

  lemma WrappedProduct(x: nat)
    requires x == 66456
    ensures Wrap32(x * INVERSE2) % PRIME2 == 16074
  {
  }

  lemma ResidueOfCandidate(base: nat, k: nat, r: nat)
    requires base % PRIME2 == RESIDUE2
    requires (RESIDUE2 + 12 + STEP * k) % PRIME2 == r
    ensures (base + 12 + STEP * k) % PRIME2 == r
  {
    var here := RESIDUE2 + 12 + STEP * k;
    DivisionIsUnique(base + 12 + STEP * k, base / PRIME2 + here / PRIME2, r, PRIME2);
  }

  /**
   The second table does wrap. For every base with the given residue, the fifth number of candidate 374 is
   divisible by the prime but its class leaves it unmarked, and candidate 16074 is struck although it is not.
   */
  lemma SecondTableWraps(base: nat, inverse: nat)
    requires base % PRIME2 == RESIDUE2 && inverse < PRIME2 && Congruent(STEP * inverse, 1, PRIME2)
    ensures Prime(PRIME2) && Index32(base, PRIME2, BIASES[4], inverse) == 16074
    ensures Divides(PRIME2, base + BIASES[4] + STEP * 374) && !Congruent(374, 16074, PRIME2)
    ensures !Divides(PRIME2, base + BIASES[4] + STEP * 16074)
    ensures !MarksMultiples(base + BIASES[4], PRIME2, 16074)
  {
    hide Prime, Congruent, Index32;
    assert BIASES[4] == 12;
    PrimalityOf66457();
    InverseIsUnique(inverse);
    WrappedIndex(base);
    ResidueOfCandidate(base, 374, 0);
    ResidueOfCandidate(base, 16074, (RESIDUE2 + 12 + STEP * 16074) % PRIME2);
    DistinctClasses();
    assert Divides(PRIME2, base + BIASES[4] + STEP * 374);
  }

  lemma DistinctClasses()
    ensures !Congruent(374, 16074, PRIME2)
  {
    DivisionIsUnique(374 - 16074, -1, 50757, PRIME2);
  }

  // 2^264 and 2^256: a target is a one, eight zeros and the 256 bits of a hash, here without trailing zeros.
  const LEAST_TARGET: nat := 0x1_00_00000000_00000000_00000000_00000000_00000000_00000000_00000000_00000000
  const HASHES: nat := 0x1_00000000_00000000_00000000_00000000_00000000_00000000_00000000_00000000

  function OffsetOf2310(target: nat): nat {
    (STEP - target % STEP) % STEP + 97
  }

  predicate AlignedAtResidue(hash: nat) {
    var base := LEAST_TARGET + hash + OffsetOf2310(LEAST_TARGET + hash);
    hash < HASHES && base % STEP == 97 && base % PRIME2 == RESIDUE2
  }

  lemma BothResidues(q: nat)
    ensures (q * (STEP * PRIME2) + 93305520) % STEP == 0
    ensures (q * (STEP * PRIME2) + 93305617) % STEP == 97
    ensures (q * (STEP * PRIME2) + 93305617) % PRIME2 == RESIDUE2
  {
    DivisionIsUnique(q * (STEP * PRIME2) + 93305520, q * PRIME2 + 40392, 0, STEP);
    DivisionIsUnique(q * (STEP * PRIME2) + 93305617, q * PRIME2 + 40392, 97, STEP);
    DivisionIsUnique(q * (STEP * PRIME2) + 93305617, q * STEP + 1403, RESIDUE2, PRIME2);
  }

  /** There are hashes whose aligned base has that residue. */
  lemma SecondTableWrapsForSomeHash()
    ensures exists hash: nat :: AlignedAtResidue(hash)
  {
    var q := LEAST_TARGET / (STEP * PRIME2) + 1;
    var hash := q * (STEP * PRIME2) + 93305520 - LEAST_TARGET;
    BothResidues(q);
    assert AlignedAtResidue(hash);
  }
}
