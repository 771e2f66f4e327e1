/**
 riecoin_process: aligning the search base, striking out the residue classes of the table
 primes, and scanning the remaining candidates for prime sextuples.
 */
module RiecoinSieve {
  import opened NumberTheory
  import opened BitTable
  import opened PrimeTable

  /** primeTupleBias: a sextuple is n, n+4, n+6, n+10, n+12, n+16. */
  const BIASES: seq<nat> := [0, 4, 6, 10, 12, 16]

  // The first nine table entries are the primes that divide the primorial; sieving starts behind them.
  const FIRST_SIEVED: nat := 9
  const SMALL_PRIMES: seq<nat> := [2, 3, 5, 7, 11, 13, 17, 19, 23]

  function Wrap64(x: nat): nat {
    x % 0x1_0000_0000_0000_0000
  }

  /** The f-th of the six numbers tested for sieve index i. */
  function Number(base: nat, i: nat, f: nat): nat
    requires f < 6
  {
    base + PRIMORIAL * i + BIASES[f]
  }

  // ----- small primes -----

  lemma PrimesBelow29(p: int)
    requires Prime(p) && p < 29
    ensures p in SMALL_PRIMES
  {
    assert p != 2 ==> !Divides(2, p);
    assert p > 3 ==> !Divides(3, p);
    assert p > 5 ==> !Divides(5, p);
    assert SMALL_PRIMES[0] == 2 && SMALL_PRIMES[1] == 3 && SMALL_PRIMES[2] == 5 && SMALL_PRIMES[3] == 7
      && SMALL_PRIMES[4] == 11;
    assert SMALL_PRIMES[5] == 13 && SMALL_PRIMES[6] == 17 && SMALL_PRIMES[7] == 19 && SMALL_PRIMES[8] == 23;
  }

  lemma SmallPrimesArePrime(i: nat)
    requires i < 9
    ensures Prime(SMALL_PRIMES[i])
  {
    var p := SMALL_PRIMES[i];
    if !Prime(p) {
      var q := SmallPrimeDivisorExists(p);
      assert q < 5 by {
        if q >= 5 { ProductIsMonotone(5, 5, q, q); }
      }
    }
  }

  /** Table entry j is below 29 exactly for the first nine indices. */
  lemma {:induction false} FirstEntries(t: seq<nat>, limit: nat, j: nat)
    requires IsPrimeTable(t, limit) && j < |t|
    ensures j < 9 ==> t[j] == SMALL_PRIMES[j]
    ensures j >= 9 ==> t[j] >= 29
  {
    if j > 0 {
      FirstEntries(t, limit, j - 1);
    }
    assert Prime(t[j]);
    if j < 9 {
      SmallPrimesArePrime(j);
      if t[j] > SMALL_PRIMES[j] {
        var m :| 0 <= m < |t| && t[m] == SMALL_PRIMES[j];
        assert m < j;
        FirstEntries(t, limit, m);
        assert false;
      }
      if t[j] < SMALL_PRIMES[j] {
        PrimesBelow29(t[j]);
        assert false;
      }
    } else if t[j] < 29 {
      PrimesBelow29(t[j]);
      assert false;
    }
  }

  lemma PrimorialFactors()
    ensures PRIMORIAL == 2 * (3 * (5 * (7 * (11 * (13 * (17 * (19 * 23)))))))
  {
  }

  /** A prime from 29 on does not divide the primorial. */
  lemma LargePrimeIsCoprime(p: int)
    requires Prime(p) && p >= 29
    ensures Coprime(PRIMORIAL, p)
  {
    if Divides(p, PRIMORIAL) {
      PrimorialFactors();
      EuclidsLemma(2, 3 * (5 * (7 * (11 * (13 * (17 * (19 * 23)))))), p);
      EuclidsLemma(3, 5 * (7 * (11 * (13 * (17 * (19 * 23))))), p);
      EuclidsLemma(5, 7 * (11 * (13 * (17 * (19 * 23)))), p);
      EuclidsLemma(7, 11 * (13 * (17 * (19 * 23))), p);
      EuclidsLemma(11, 13 * (17 * (19 * 23)), p);
      EuclidsLemma(13, 17 * (19 * 23), p);
      EuclidsLemma(17, 19 * 23, p);
      EuclidsLemma(19, 23, p);
      forall d: nat | 0 < d < 29 && Divides(p, d)
        ensures false
      {
        DivisorIsAtMost(p, d);
      }
      assert false;
    }
    PrimeIsCoprime(PRIMORIAL, p);
  }

  // ----- base alignment -----

  ghost predicate Aligned(target: nat, r: nat) {
    (target + r) % PRIMORIAL == 97
  }

  /** The offset of the search base from the target. */
  function OffsetOf(target: nat): nat {
    (PRIMORIAL - target % PRIMORIAL) % PRIMORIAL + 97
  }

  /** The first offset of at least 97 from target at which the residue modulo the primorial is 97. */
  method AlignBase(target: nat) returns (remainderPrimorial: nat)
    ensures remainderPrimorial == OffsetOf(target)
    ensures 97 <= remainderPrimorial < PRIMORIAL + 97 && Aligned(target, remainderPrimorial)
    ensures forall r: nat :: 97 <= r < remainderPrimorial ==> !Aligned(target, r)
  {
    remainderPrimorial := target % PRIMORIAL;
    remainderPrimorial := (PRIMORIAL - remainderPrimorial) % PRIMORIAL;
    remainderPrimorial := remainderPrimorial + 97;
  }

  /**
   The source's comment calls this the first offset of all. It is, unless the target's residue
   lies in 1..97: then an offset below 97 is skipped.
   */
  lemma SkipsEarlierOffset(target: nat, r: nat)
    requires 97 <= r < PRIMORIAL + 97 && Aligned(target, r)
    ensures (exists s: nat :: s < r && Aligned(target, s)) <==> 1 <= target % PRIMORIAL <= 97
  {
    var m := target % PRIMORIAL;
    if 1 <= m <= 97 {
      assert Aligned(target, 97 - m);
    }
  }

  /** With the aligned base no candidate is divisible by a prime below 29. */
  lemma AlignedBaseAvoidsSmallPrimes(base: nat, i: nat, f: nat, p: int)
    requires base % PRIMORIAL == 97 && f < 6 && Prime(p) && p < 29
    ensures !Divides(p, Number(base, i, f))
  {
    PrimesBelow29(p);
    var r := 97 + BIASES[f];
    assert r == 97 || r == 101 || r == 103 || r == 107 || r == 109 || r == 113;
    assert !Divides(p, r);
    assert Divides(p, PRIMORIAL);
    var q := base / PRIMORIAL;
    assert Number(base, i, f) == PRIMORIAL * (q + i) + r;
    DividesProduct(p, PRIMORIAL, q + i);
    DividesSum(p, PRIMORIAL * (q + i), r);
  }

  // ----- marking -----

  /** The residue class that the start index represents: x = -a * b^-1 (mod p) solves a + b*x = 0. */
  lemma StartIndexSolves(a: int, b: int, inv: int, p: int, index: int, k: int)
    requires p > 0 && Congruent(b * inv, 1, p) && Congruent(index, (0 - a) * inv, p)
    ensures Divides(p, a + b * k) <==> Congruent(k, index, p)
  {
    MultipleIsDivisible(0, p);
    // b * index is congruent to -a
    CongruentMul(b, b, index, (0 - a) * inv, p);
    CongruentMul(b * inv, 1, 0 - a, 0 - a, p);
    assert b * ((0 - a) * inv) == b * inv * (0 - a);
    CongruentTrans(b * index, b * inv * (0 - a), 0 - a, p);
    SolutionSet(a, b, inv, p, index, k);
  }

  lemma SolutionSet(a: int, b: int, inv: int, p: int, index: int, k: int)
    requires p > 0 && Congruent(b * inv, 1, p) && Congruent(b * index, 0 - a, p)
    ensures Divides(p, a + b * k) <==> Congruent(k, index, p)
  {
    assert b * index - (0 - a) == b * index + a;
    assert b * (k - index) == b * k - b * index;
    assert (b * index + a) + b * (k - index) == a + b * k;
    DividesSum(p, b * index + a, b * (k - index));
    if Congruent(k, index, p) {
      DividesProduct(p, k - index, b);
    }
    if Divides(p, b * (k - index)) {
      DividesProduct(p, b * (k - index), inv);
      assert b * (k - index) * inv == b * inv * (k - index);
      MultipleIsDivisible(0, p);
      CongruentMul(b * inv, 1, k - index, k - index, p);
      CongruentIffSameRemainder(b * inv * (k - index), 1 * (k - index), p);
    }
  }

  /** The sieve index at which the f-th number is first divisible by p, in the source's 64-bit arithmetic. */
  method StartIndex(base: nat, p: nat, pinv: nat, f: nat) returns (index: nat)
    requires f < 6 && 0 < p <= MAX_LIMIT && pinv < p && Congruent(PRIMORIAL * pinv, 1, p)
    ensures index < p
    ensures forall k: nat :: Divides(p, Number(base, k, f)) <==> Congruent(k, index, p)
  {
    var remainder2 := base % p;
    var remainder := Wrap32(remainder2 + BIASES[f]);
    remainder := remainder % p;
    var pa := if p < remainder then p - remainder + p else p - remainder;
    ProductIsMonotone(pa % p, pinv, p, p);
    ProductIsMonotone(p, p, 0x1_0000_0000, 0xFFFF_FFFF);
    index := Wrap64((pa % p) * pinv);
    index := index % p;
    IndexIsResidue(base, BIASES[f], p, pinv, remainder, pa, index);
    forall k: nat
      ensures Divides(p, Number(base, k, f)) <==> Congruent(k, index, p)
    {
      StartIndexSolves(base + BIASES[f], PRIMORIAL, pinv, p, index, k);
      assert Number(base, k, f) == base + BIASES[f] + PRIMORIAL * k;
    }
  }

  lemma IndexIsResidue(base: nat, bias: nat, p: nat, pinv: nat, remainder: nat, pa: nat, index: nat)
    requires p > 0 && remainder == (base % p + bias) % p && pa == p - remainder
    requires index == ((pa % p) * pinv) % p
    ensures Congruent(index, (0 - (base + bias)) * pinv, p)
  {
    var a := base + bias;
    CongruentToRemainder(base, p);
    MultipleIsDivisible(0, p);
    MultipleIsDivisible(1, p);
    CongruentAdd(base, base % p, bias, bias, p);
    CongruentToRemainder(base % p + bias, p);
    CongruentTrans(a, base % p + bias, remainder, p);
    CongruentAdd(p, 0, 0, 0, p);
    // pa == p - remainder is congruent to -a
    DividesSum(p, a - remainder, p);
    assert pa - (0 - a) == (a - remainder) + p;
    CongruentToRemainder(pa, p);
    CongruentSym(pa, pa % p, p);
    CongruentTrans(pa % p, pa, 0 - a, p);
    CongruentMul(pa % p, 0 - a, pinv, pinv, p);
    CongruentToRemainder((pa % p) * pinv, p);
    CongruentSym((pa % p) * pinv, index, p);
    CongruentTrans(index, (pa % p) * pinv, (0 - a) * pinv, p);
  }

  /** Between two consecutive members of a residue class there is no other. */
  lemma NoMemberBetween(index: nat, p: nat, c: nat, k: nat)
    requires p > 0 && Congruent(c, index, p) && c <= k < c + p && Congruent(k, index, p)
    ensures k == c
  {
    CongruentSym(c, index, p);
    CongruentTrans(k, index, c, p);
    if k > c {
      DivisorIsAtMost(p, k - c);
    }
  }

  /** bits is before with the members of the residue class below c set as well. */
  ghost predicate ClassSetUpTo(bits: seq<bv8>, before: seq<bv8>, index: nat, p: nat, c: nat, sieveSize: nat)
    requires p > 0
  {
    |bits| == |before| && sieveSize <= 8 * |bits| &&
    forall k: nat :: k < 8 * |bits| ==>
      (Bit(bits, k) <==> Bit(before, k) || (k < c && k < sieveSize && Congruent(k, index, p)))
  }

  lemma ClassBegins(before: seq<bv8>, index: nat, p: nat, sieveSize: nat)
    requires index < p && sieveSize <= 8 * |before|
    ensures ClassSetUpTo(before, before, index, p, index, sieveSize) && Congruent(index, index, p)
  {
    CongruentRefl(index, p);
    hide Bit, Divides;
    forall k: nat | k < index && Congruent(k, index, p)
      ensures false
    {
      CongruentSym(k, index, p);
      DivisorIsAtMost(p, index - k);
    }
  }

  lemma ClassStep(bits: seq<bv8>, current: seq<bv8>, before: seq<bv8>, index: nat, p: nat, c: nat, sieveSize: nat)
    requires p > 0 && c < sieveSize && Congruent(c, index, p)
    requires ClassSetUpTo(current, before, index, p, c, sieveSize) && IsBitSet(bits, current, c)
    ensures ClassSetUpTo(bits, before, index, p, c + p, sieveSize) && Congruent(c + p, index, p)
  {
    MultipleIsDivisible(1, p);
    DividesSum(p, c - index, p);
    assert c + p - index == (c - index) + p;
    hide Bit, Divides;
    forall k: nat | k < 8 * |bits|
      ensures Bit(bits, k) <==> Bit(before, k) || (k < c + p && k < sieveSize && Congruent(k, index, p))
    {
      assert Bit(bits, k) == (k == c || Bit(current, k));
      if c <= k < c + p && Congruent(k, index, p) {
        NoMemberBetween(index, p, c, k);
      }
    }
  }

  lemma ClassEnds(bits: seq<bv8>, before: seq<bv8>, index: nat, p: nat, c: nat, sieveSize: nat)
    requires p > 0 && c >= sieveSize && ClassSetUpTo(bits, before, index, p, c, sieveSize)
    ensures ClassSetUpTo(bits, before, index, p, sieveSize, sieveSize)
  {
    hide Bit, Congruent;
  }

  /** The first member of a class at or behind the end of the sieve fits the 32-bit loop counter. */
  ghost predicate ClassEndsInRange(index: nat, p: nat, sieveSize: nat)
    requires p > 0
  {
    forall c: nat :: sieveSize <= c < sieveSize + p && Congruent(c, index, p) ==> c < 0x1_0000_0000
  }

  lemma NextFits(index: nat, p: nat, sieveSize: nat, i: nat)
    requires p > 0 && ClassEndsInRange(index, p, sieveSize) && sieveSize < 0x1_0000_0000
    requires i < sieveSize && Congruent(i, index, p)
    ensures i + p < 0x1_0000_0000 && Congruent(i + p, index, p)
  {
    MultipleIsDivisible(1, p);
    DividesSum(p, i - index, p);
    assert i + p - index == (i - index) + p;
    assert Congruent(i + p, index, p);
  }

  /** Sets the bits of one residue class. */
  method MarkResidueClass(sieve: array<bv8>, index: nat, p: nat, sieveSize: nat)
    requires 0 < p && index < p && sieveSize <= 8 * sieve.Length && sieveSize < 0x1_0000_0000
    requires ClassEndsInRange(index, p, sieveSize)
    modifies sieve
    ensures ClassSetUpTo(sieve[..], old(sieve[..]), index, p, sieveSize, sieveSize)
  {
    hide *;
    ghost var before := sieve[..];
    ClassBegins(before, index, p, sieveSize);
    var i := index;
    while i < sieveSize
      invariant index <= i <= sieveSize + p && Congruent(i, index, p)
      invariant ClassSetUpTo(sieve[..], before, index, p, i, sieveSize)
      decreases sieveSize + p - i
    {
      ghost var current := sieve[..];
      SetBit(sieve, i);
      ClassStep(sieve[..], current, before, index, p, i, sieveSize);
      NextFits(index, p, sieveSize, i);
      FitsUnsigned(i + p);
      i := Wrap32(i + p);
    }
    ClassEnds(sieve[..], before, index, p, i, sieveSize);
  }

  // ----- the whole sieve -----

  /** Table prime j divides the f-th number of index k. */
  ghost predicate Hits(base: nat, t: seq<nat>, k: nat, j: nat, f: nat) {
    j < |t| && f < 6 && t[j] > 0 && Divides(t[j], Number(base, k, f))
  }

  /** Some pair (prime, number) before the pair (j, f) in sieving order hits k. */
  ghost predicate HitBefore(base: nat, t: seq<nat>, k: nat, j: nat, f: nat) {
    exists j': nat, f': nat :: FIRST_SIEVED <= j' && (j' < j || (j' == j && f' < f)) && Hits(base, t, k, j', f')
  }

  /** The sieve specification: some table prime from 29 on divides one of the six numbers. */
  ghost predicate Hit(base: nat, t: seq<nat>, k: nat) {
    exists j: nat, f: nat :: FIRST_SIEVED <= j && Hits(base, t, k, j, f)
  }

  lemma HitByNext(base: nat, t: seq<nat>, k: nat, j: nat, f: nat)
    requires FIRST_SIEVED <= j
    ensures HitBefore(base, t, k, j, f + 1) <==> HitBefore(base, t, k, j, f) || Hits(base, t, k, j, f)
  {
    if HitBefore(base, t, k, j, f + 1) {
      var j': nat, f': nat :| FIRST_SIEVED <= j' && (j' < j || (j' == j && f' < f + 1)) && Hits(base, t, k, j', f');
      assert (j' < j || (j' == j && f' < f)) || (j' == j && f' == f);
    }
    if HitBefore(base, t, k, j, f) {
      var j': nat, f': nat :| FIRST_SIEVED <= j' && (j' < j || (j' == j && f' < f)) && Hits(base, t, k, j', f');
      assert j' < j || (j' == j && f' < f + 1);
    }
  }

  lemma NextPrime(base: nat, t: seq<nat>, k: nat, j: nat)
    ensures HitBefore(base, t, k, j, 6) <==> HitBefore(base, t, k, j + 1, 0)
  {
    if HitBefore(base, t, k, j, 6) {
      var j': nat, f': nat :| FIRST_SIEVED <= j' && (j' < j || (j' == j && f' < 6)) && Hits(base, t, k, j', f');
      assert j' < j + 1;
    }
    if HitBefore(base, t, k, j + 1, 0) {
      var j': nat, f': nat :| FIRST_SIEVED <= j' && (j' < j + 1 || (j' == j + 1 && f' < 0)) && Hits(base, t, k, j', f');
      assert j' < j || (j' == j && f' < 6);
    }
  }

  ghost predicate MarkedBefore(bits: seq<bv8>, base: nat, t: seq<nat>, sieveSize: nat, j: nat, f: nat) {
    sieveSize <= 8 * |bits| &&
    forall k: nat :: k < 8 * |bits| ==> (Bit(bits, k) <==> k < sieveSize && HitBefore(base, t, k, j, f))
  }

  ghost predicate MarkedExactly(bits: seq<bv8>, base: nat, t: seq<nat>, sieveSize: nat) {
    sieveSize <= 8 * |bits| &&
    forall k: nat :: k < sieveSize ==> (Bit(bits, k) <==> Hit(base, t, k))
  }

  lemma NothingMarked(bits: seq<bv8>, base: nat, t: seq<nat>, sieveSize: nat)
    requires sieveSize <= 8 * |bits| && forall i :: 0 <= i < |bits| ==> bits[i] == 0
    ensures MarkedBefore(bits, base, t, sieveSize, FIRST_SIEVED, 0)
  {
    ClearTable(bits);
  }

  lemma PrimeDone(bits: seq<bv8>, base: nat, t: seq<nat>, sieveSize: nat, j: nat)
    requires MarkedBefore(bits, base, t, sieveSize, j, 6)
    ensures MarkedBefore(bits, base, t, sieveSize, j + 1, 0)
  {
    forall k: nat | k < 8 * |bits|
      ensures Bit(bits, k) <==> k < sieveSize && HitBefore(base, t, k, j + 1, 0)
    {
      NextPrime(base, t, k, j);
    }
  }

  lemma AllPrimesDone(bits: seq<bv8>, base: nat, t: seq<nat>, sieveSize: nat, j: nat)
    requires MarkedBefore(bits, base, t, sieveSize, j, 0) && |t| <= j
    ensures MarkedExactly(bits, base, t, sieveSize)
  {
    forall k: nat | k < sieveSize
      ensures Bit(bits, k) <==> Hit(base, t, k)
    {
      if Hit(base, t, k) {
        var j': nat, f': nat :| FIRST_SIEVED <= j' && Hits(base, t, k, j', f');
        assert j' < j;
      }
      if HitBefore(base, t, k, j, 0) {
        var j': nat, f': nat :| FIRST_SIEVED <= j' && (j' < j || (j' == j && f' < 0)) && Hits(base, t, k, j', f');
      }
    }
  }

  /** Marking the residue class of the start index strikes exactly what the pair (j, f) hits. */
  lemma ClassMarked(before: seq<bv8>, after: seq<bv8>, base: nat, t: seq<nat>, sieveSize: nat, j: nat, f: nat,
                    index: nat)
    requires FIRST_SIEVED <= j < |t| && f < 6 && t[j] > 0
    requires MarkedBefore(before, base, t, sieveSize, j, f) && |after| == |before|
    requires forall k: nat :: Divides(t[j], Number(base, k, f)) <==> Congruent(k, index, t[j])
    requires ClassSetUpTo(after, before, index, t[j], sieveSize, sieveSize)
    ensures MarkedBefore(after, base, t, sieveSize, j, f + 1)
  {
    forall k: nat | k < 8 * |after|
      ensures Bit(after, k) <==> k < sieveSize && HitBefore(base, t, k, j, f + 1)
    {
      HitByNext(base, t, k, j, f);
    }
  }

  lemma SievedEntry(t: seq<nat>, inv: seq<nat>, limit: nat, j: nat)
    requires IsPrimeTable(t, limit) && IsInverseTable(inv, t) && FIRST_SIEVED <= j < |t|
    ensures |inv| == |t| && 29 <= t[j] < limit && Prime(t[j]) && inv[j] < t[j] && Congruent(PRIMORIAL * inv[j], 1, t[j])
  {
    FirstEntries(t, limit, j);
    LargePrimeIsCoprime(t[j]);
  }

  /** For no prime and number does the first struck index at or behind the end of the sieve exceed 32 bits. */
  ghost predicate SieveEndsInRange(base: nat, t: seq<nat>, sieveSize: nat) {
    forall j: nat, f: nat, c: nat ::
      FIRST_SIEVED <= j && Hits(base, t, c, j, f) && sieveSize <= c < sieveSize + t[j] ==> c < 0x1_0000_0000
  }

  lemma SmallSieveEndsInRange(base: nat, t: seq<nat>, limit: nat, sieveSize: nat)
    requires IsPrimeTable(t, limit) && sieveSize + limit <= 0x1_0000_0000
    ensures SieveEndsInRange(base, t, sieveSize)
  {
    hide Divides, Prime;
  }

  lemma ClassOfPairEndsInRange(base: nat, t: seq<nat>, sieveSize: nat, j: nat, f: nat, index: nat)
    requires SieveEndsInRange(base, t, sieveSize) && FIRST_SIEVED <= j < |t| && f < 6 && t[j] > 0
    requires forall k: nat :: Divides(t[j], Number(base, k, f)) <==> Congruent(k, index, t[j])
    ensures ClassEndsInRange(index, t[j], sieveSize)
  {
    hide Divides, Congruent, Number;
    forall c: nat | sieveSize <= c < sieveSize + t[j] && Congruent(c, index, t[j])
      ensures c < 0x1_0000_0000
    {
      assert Hits(base, t, c, j, f);
    }
  }

  /**
   Otherwise the loop counter wraps: behind its last proper index some pair strikes an index that it
   does not hit.
   */
  lemma WrapStrikesWrongIndex(base: nat, t: seq<nat>, limit: nat, sieveSize: nat)
    requires IsPrimeTable(t, limit) && limit <= 0x8000_0000 && sieveSize < 0x1_0000_0000
    requires !SieveEndsInRange(base, t, sieveSize)
    ensures exists j: nat, f: nat, i: nat :: FIRST_SIEVED <= j && Hits(base, t, i, j, f) && i < sieveSize
              && Wrap32(i + t[j]) < sieveSize && !Hits(base, t, Wrap32(i + t[j]), j, f)
  {
    var j: nat, f: nat, c: nat :| FIRST_SIEVED <= j && Hits(base, t, c, j, f)
      && sieveSize <= c < sieveSize + t[j] && c >= 0x1_0000_0000;
    var p := t[j];
    FirstEntries(t, limit, j);
    var i := c - p;
    var w := c - 0x1_0000_0000;
    assert Wrap32(i + p) == w;
    MemberBefore(base, p, c, f);
    WrappedIsNoMember(base, p, c, f);
    hide Divides, Prime;
    assert Hits(base, t, i, j, f) && !Hits(base, t, w, j, f);
  }

  lemma MemberBefore(base: nat, p: nat, c: nat, f: nat)
    requires f < 6 && 0 < p <= c && Divides(p, Number(base, c, f))
    ensures Divides(p, Number(base, c - p, f))
  {
    MultipleIsDivisible(0 - PRIMORIAL, p);
    DividesSum(p, Number(base, c, f), (0 - PRIMORIAL) * p);
    assert Number(base, c - p, f) == Number(base, c, f) + (0 - PRIMORIAL) * p by {
      assert PRIMORIAL * (c - p) == PRIMORIAL * c - PRIMORIAL * p;
    }
  }

  lemma WrappedIsNoMember(base: nat, p: nat, c: nat, f: nat)
    requires f < 6 && Prime(p) && p >= 29 && c >= 0x1_0000_0000 && Divides(p, Number(base, c, f))
    ensures !Divides(p, Number(base, c - 0x1_0000_0000, f))
  {
    var w := c - 0x1_0000_0000;
    if Divides(p, Number(base, w, f)) {
      DividesProduct(p, Number(base, w, f), -1);
      DividesSum(p, Number(base, c, f), Number(base, w, f) * -1);
      assert Number(base, c, f) + Number(base, w, f) * -1 == PRIMORIAL * 0x1_0000_0000;
      EuclidsLemma(PRIMORIAL, 0x1_0000_0000, p);
      LargePrimeIsNoFactor(p);
      PowerOfTwoFactor(32, p);
    }
  }

  lemma LargePrimeIsNoFactor(p: int)
    requires Prime(p) && p >= 29
    ensures !Divides(p, PRIMORIAL)
  {
    LargePrimeIsCoprime(p);
    assert Divides(p, p) by { MultipleIsDivisible(1, p); }
  }

  /** The sieve array after it has been cleared and every table prime from 29 on has been processed. */
  method MarkSieve(sieve: array<bv8>, base: nat, t: seq<nat>, inv: seq<nat>, limit: nat, sieveSize: nat)
    requires IsPrimeTable(t, limit) && IsInverseTable(inv, t) && limit <= MAX_LIMIT
    requires 8 * sieve.Length == sieveSize < 0x1_0000_0000 && SieveEndsInRange(base, t, sieveSize)
    modifies sieve
    ensures MarkedExactly(sieve[..], base, t, sieveSize)
  {
    hide *;
    forall i | 0 <= i < sieve.Length {
      sieve[i] := 0;
    }
    NothingMarked(sieve[..], base, t, sieveSize);
    var i := FIRST_SIEVED;
    while i < |t|
      invariant FIRST_SIEVED <= i
      invariant MarkedBefore(sieve[..], base, t, sieveSize, i, 0)
    {
      SievedEntry(t, inv, limit, i);
      var p, pinv := t[i], inv[i];
      var f := 0;
      while f < 6
        invariant 0 <= f <= 6
        invariant MarkedBefore(sieve[..], base, t, sieveSize, i, f)
      {
        ghost var before := sieve[..];
        var index := StartIndex(base, p, pinv, f);
        ClassOfPairEndsInRange(base, t, sieveSize, i, f, index);
        MarkResidueClass(sieve, index, p, sieveSize);
        ClassMarked(before, sieve[..], base, t, sieveSize, i, f, index);
        f := f + 1;
      }
      PrimeDone(sieve[..], base, t, sieveSize, i);
      i := i + 1;
    }
    AllPrimesDone(sieve[..], base, t, sieveSize, i);
  }

  /** A clear bit certifies all six numbers free of every prime factor below the table limit. */
  lemma ClearMeansNoSmallFactor(base: nat, t: seq<nat>, limit: nat, k: nat, f: nat, p: int)
    requires base % PRIMORIAL == 97 && IsPrimeTable(t, limit) && !Hit(base, t, k)
    requires f < 6 && Prime(p) && p < limit
    ensures !Divides(p, Number(base, k, f))
  {
    if p < 29 {
      AlignedBaseAvoidsSmallPrimes(base, k, f, p);
    } else {
      var j :| 0 <= j < |t| && t[j] == p;
      FirstEntries(t, limit, j);
      assert !Hits(base, t, k, j, f);
    }
  }

  ghost predicate SextupleAt(base: nat, k: nat) {
    forall f: nat :: f < 6 ==> Prime(Number(base, k, f))
  }

  /** A sextuple of primes above the table limit is never struck out. */
  lemma SextupleIsClear(base: nat, t: seq<nat>, limit: nat, k: nat)
    requires IsPrimeTable(t, limit) && SextupleAt(base, k) && base >= limit
    ensures !Hit(base, t, k)
  {
  }

  // ----- the six numbers written out -----

  lemma NumbersAre(base: nat, k: nat)
    ensures var n := base + 223092870 * k;
            && Number(base, k, 0) == n && Number(base, k, 1) == n + 4 && Number(base, k, 2) == n + 6
            && Number(base, k, 3) == n + 10 && Number(base, k, 4) == n + 12 && Number(base, k, 5) == n + 16
  {
  }

  lemma HitByPrime(base: nat, t: seq<nat>, limit: nat, k: nat, p: nat, n: nat)
    requires IsPrimeTable(t, limit) && Prime(p) && 29 <= p < limit && n == base + 223092870 * k
    requires Divides(p, n) || Divides(p, n + 4) || Divides(p, n + 6) || Divides(p, n + 10) || Divides(p, n + 12)
      || Divides(p, n + 16)
    ensures Hit(base, t, k)
  {
    NumbersAre(base, k);
    hide Number, Divides;
    var j :| 0 <= j < |t| && t[j] == p;
    FirstEntries(t, limit, j);
    hide Prime;
    assert Hits(base, t, k, j, 0) || Hits(base, t, k, j, 1) || Hits(base, t, k, j, 2) || Hits(base, t, k, j, 3)
      || Hits(base, t, k, j, 4) || Hits(base, t, k, j, 5);
  }

  lemma PrimeOfHit(base: nat, t: seq<nat>, limit: nat, k: nat, n: nat) returns (p: nat)
    requires IsPrimeTable(t, limit) && Hit(base, t, k) && n == base + 223092870 * k
    ensures Prime(p) && 29 <= p < limit
    ensures Divides(p, n) || Divides(p, n + 4) || Divides(p, n + 6) || Divides(p, n + 10) || Divides(p, n + 12)
      || Divides(p, n + 16)
  {
    NumbersAre(base, k);
    hide Number, Divides;
    var j: nat, f: nat :| FIRST_SIEVED <= j && Hits(base, t, k, j, f);
    FirstEntries(t, limit, j);
    p := t[j];
    assert f == 0 || f == 1 || f == 2 || f == 3 || f == 4 || f == 5;
  }

  /**
   The sieve specification without tables: an index is hit exactly when a prime from 29 on below the
   limit divides one of its six numbers.
   */
  lemma HitMeans(base: nat, t: seq<nat>, limit: nat, k: nat, n: nat)
    requires IsPrimeTable(t, limit) && n == base + 223092870 * k
    ensures Hit(base, t, k) <==>
            exists p: nat :: Prime(p) && 29 <= p < limit &&
              (Divides(p, n) || Divides(p, n + 4) || Divides(p, n + 6) || Divides(p, n + 10) || Divides(p, n + 12)
               || Divides(p, n + 16))
  {
    hide Hit, Divides;
    if Hit(base, t, k) {
      var p := PrimeOfHit(base, t, limit, k, n);
    }
    forall p: nat | Prime(p) && 29 <= p < limit &&
      (Divides(p, n) || Divides(p, n + 4) || Divides(p, n + 6) || Divides(p, n + 10) || Divides(p, n + 12)
       || Divides(p, n + 16))
      ensures Hit(base, t, k)
    {
      HitByPrime(base, t, limit, k, p, n);
    }
  }

  // ----- the candidate scan -----

  /** mpz_powm followed by the comparison with 1: the base-2 Fermat test. */
  predicate FermatTest(n: nat)
    requires n > 0
  {
    Pow(2, n - 1) % n == 1
  }

  /** What a clear index has to pass before its share is submitted. */
  ghost predicate Passes(base: nat, probabPrime: int -> int, k: nat)
    requires base > 0
  {
    && FermatTest(Number(base, k, 0))
    && FermatTest(Number(base, k, 1))
    && probabPrime(Number(base, k, 2)) != 0
    && probabPrime(Number(base, k, 3)) != 0
  }

  /** The offsets submitted for the indices in [1, n), in scanning order. */
  ghost function Shares(base: nat, target: nat, t: seq<nat>, probabPrime: int -> int, n: nat): seq<int>
    requires base > 0
  {
    if n <= 1 then []
    else
      Shares(base, target, t, probabPrime, n - 1) +
      if !Hit(base, t, n - 1) && Passes(base, probabPrime, n - 1) then [Number(base, n - 1, 0) - target] else []
  }

  /** An offset is submitted exactly when it belongs to a scanned index that is clear and passes. */
  lemma {:induction false} SharesExactly(base: nat, target: nat, t: seq<nat>, probabPrime: int -> int, n: nat,
                                         offset: int)
    requires base > 0
    ensures offset in Shares(base, target, t, probabPrime, n) <==>
      exists k: nat :: 1 <= k < n && !Hit(base, t, k) && Passes(base, probabPrime, k)
        && offset == Number(base, k, 0) - target
  {
    hide Hit, Passes, Number;
    if n > 1 {
      SharesExactly(base, target, t, probabPrime, n - 1, offset);
    }
  }

  /** Prime sextuples pass: Fermat's little theorem for the first two numbers, the contract for the others. */
  lemma SextuplePasses(base: nat, probabPrime: int -> int, k: nat)
    requires base > 2 && SextupleAt(base, k)
    requires forall n: int :: Prime(n) ==> probabPrime(n) != 0
    ensures Passes(base, probabPrime, k)
  {
    FermatTestPasses(Number(base, k, 0));
    FermatTestPasses(Number(base, k, 1));
  }

  /**
   riecoin_process from the generated target on.  probabPrime stands for mpz_probab_prime_p with one
   round; the result is the sequence of submitted offsets from the target.
   */
  method Process(sieve: array<bv8>, target: nat, t: seq<nat>, inv: seq<nat>, limit: nat, sieveSize: nat,
                 probabPrime: int -> int)
    returns (shares: seq<int>, remainderPrimorial: nat)
    requires IsPrimeTable(t, limit) && IsInverseTable(inv, t) && limit <= MAX_LIMIT
    requires 8 * sieve.Length == sieveSize < 0x1_0000_0000
    requires SieveEndsInRange(target + OffsetOf(target), t, sieveSize)
    requires target > MAX_LIMIT
    modifies sieve
    ensures (target + remainderPrimorial) % 223092870 == 97 && 97 <= remainderPrimorial < 223092870 + 97
    ensures shares == Shares(target + remainderPrimorial, target, t, probabPrime, sieveSize)
    // a flag is set exactly when a prime from 29 on below the limit divides one of the six numbers of its index
    ensures forall k: nat :: k < sieveSize ==>
              var n := target + remainderPrimorial + 223092870 * k;
              Bit(sieve[..], k) <==>
              exists p: nat :: Prime(p) && 29 <= p < limit &&
                (Divides(p, n) || Divides(p, n + 4) || Divides(p, n + 6) || Divides(p, n + 10) || Divides(p, n + 12)
                 || Divides(p, n + 16))
    // what is submitted, in increasing order
    ensures forall offset :: offset in shares <==>
              var base, n := target + remainderPrimorial, target + offset;
              && n % 223092870 == 97 && base < n < base + 223092870 * sieveSize
              && (forall p: nat :: Prime(p) && 29 <= p < limit ==>
                    && !Divides(p, n) && !Divides(p, n + 4) && !Divides(p, n + 6) && !Divides(p, n + 10)
                    && !Divides(p, n + 12) && !Divides(p, n + 16))
              && Pow(2, n - 1) % n == 1 && Pow(2, n + 3) % (n + 4) == 1
              && probabPrime(n + 6) != 0 && probabPrime(n + 10) != 0
    ensures forall i, j :: 0 <= i < j < |shares| ==> shares[i] < shares[j]
    // no sextuple of primes is lost
    ensures (forall m: int :: Prime(m) ==> probabPrime(m) != 0) ==>
              forall offset {:trigger offset in shares} ::
                var base, n := target + remainderPrimorial, target + offset;
                && Prime(n) && Prime(n + 4) && Prime(n + 6) && Prime(n + 10) && Prime(n + 12) && Prime(n + 16)
                && n % 223092870 == 97 && base < n < base + 223092870 * sieveSize ==>
                  offset in shares
  {
    hide *;
    remainderPrimorial := AlignBase(target);
    var base := target + remainderPrimorial;
    AlignedMeans(target, remainderPrimorial);
    MarkSieve(sieve, base, t, inv, limit, sieveSize);
    ghost var bits := sieve[..];
    shares := [];
    NoSharesYet(base, target, t, probabPrime);
    var i := 1;
    while i < sieveSize
      invariant 1 <= i && (i <= sieveSize || i == 1)
      invariant sieve[..] == bits
      invariant shares == Shares(base, target, t, probabPrime, i)
    {
      var k := i;
      i := i + 1;
      NextShare(bits, base, target, t, sieveSize, probabPrime, k);
      if Bit(sieve[..], k) { continue; }
      OffsetFits(remainderPrimorial, k, sieveSize);
      // p1
      var z_temp := target + Wrap64(remainderPrimorial + Wrap64(PRIMORIAL * k));
      if !FermatTest(z_temp) { continue; }
      // p2
      z_temp := z_temp + 4;
      if !FermatTest(z_temp) { continue; }
      // p3
      z_temp := z_temp + 2;
      if probabPrime(z_temp) == 0 { continue; }
      // p4
      z_temp := z_temp + 4;
      if probabPrime(z_temp) == 0 { continue; }
      z_temp := target + Wrap64(remainderPrimorial + Wrap64(PRIMORIAL * k));
      shares := shares + [z_temp - target];
    }
    FlagsMean(bits, base, t, limit, sieveSize);
    SharesIncrease(base, target, t, probabPrime, sieveSize);
    SharesMean(base, target, t, limit, probabPrime, sieveSize);
    SextuplesAreSubmitted(base, target, t, limit, probabPrime, sieveSize);
  }

  lemma FlagsMean(bits: seq<bv8>, base: nat, t: seq<nat>, limit: nat, sieveSize: nat)
    requires IsPrimeTable(t, limit) && MarkedExactly(bits, base, t, sieveSize)
    ensures forall k: nat :: k < sieveSize ==>
              var n := base + 223092870 * k;
              Bit(bits, k) <==>
              exists p: nat :: Prime(p) && 29 <= p < limit &&
                (Divides(p, n) || Divides(p, n + 4) || Divides(p, n + 6) || Divides(p, n + 10) || Divides(p, n + 12)
                 || Divides(p, n + 16))
  {
    hide Hit, Bit, Divides, Prime;
    forall k: nat | k < sieveSize
      ensures var n := base + 223092870 * k;
              Bit(bits, k) <==>
              exists p: nat :: Prime(p) && 29 <= p < limit &&
                (Divides(p, n) || Divides(p, n + 4) || Divides(p, n + 6) || Divides(p, n + 10) || Divides(p, n + 12)
                 || Divides(p, n + 16))
    {
      HitMeans(base, t, limit, k, base + 223092870 * k);
    }
  }

  lemma NoSharesYet(base: nat, target: nat, t: seq<nat>, probabPrime: int -> int)
    requires base > 0
    ensures forall n: nat :: n <= 1 ==> Shares(base, target, t, probabPrime, n) == []
  {
  }

  /** What scanning index k adds to the shares, in terms of its bit and the four tests. */
  lemma NextShare(bits: seq<bv8>, base: nat, target: nat, t: seq<nat>, sieveSize: nat, probabPrime: int -> int, k: nat)
    requires MarkedExactly(bits, base, t, sieveSize) && 1 <= k < sieveSize && base > 0
    ensures k < 8 * |bits|
    ensures var n := base + PRIMORIAL * k;
            Shares(base, target, t, probabPrime, k + 1) ==
              if !Bit(bits, k) && FermatTest(n) && FermatTest(n + 4) && probabPrime(n + 6) != 0
                && probabPrime(n + 10) != 0
              then Shares(base, target, t, probabPrime, k) + [n - target]
              else Shares(base, target, t, probabPrime, k)
  {
    hide Hit, Bit, FermatTest;
    assert Bit(bits, k) <==> Hit(base, t, k);
  }

  /** Every prime sextuple in the scanned range is submitted. */
  lemma NoSextupleLost(base: nat, target: nat, t: seq<nat>, limit: nat, probabPrime: int -> int, sieveSize: nat)
    requires IsPrimeTable(t, limit) && base >= limit && base > 2
    ensures (forall n: int :: Prime(n) ==> probabPrime(n) != 0) ==>
              forall k: nat :: 1 <= k < sieveSize && SextupleAt(base, k) ==>
                base - target + PRIMORIAL * k in Shares(base, target, t, probabPrime, sieveSize)
  {
    if forall n: int :: Prime(n) ==> probabPrime(n) != 0 {
      forall k: nat | 1 <= k < sieveSize && SextupleAt(base, k)
        ensures base - target + PRIMORIAL * k in Shares(base, target, t, probabPrime, sieveSize)
      {
        SextupleIsClear(base, t, limit, k);
        SextuplePasses(base, probabPrime, k);
        SharesExactly(base, target, t, probabPrime, sieveSize, Number(base, k, 0) - target);
      }
    }
  }

  /** The offsets are submitted in increasing order, each once. */
  lemma {:induction false} SharesIncrease(base: nat, target: nat, t: seq<nat>, probabPrime: int -> int, n: nat)
    requires base > 0
    ensures forall x :: x in Shares(base, target, t, probabPrime, n) ==> x < base + PRIMORIAL * n - target
    ensures forall i, j :: 0 <= i < j < |Shares(base, target, t, probabPrime, n)| ==>
              Shares(base, target, t, probabPrime, n)[i] < Shares(base, target, t, probabPrime, n)[j]
  {
    hide Hit, Passes;
    if n > 1 {
      SharesIncrease(base, target, t, probabPrime, n - 1);
      NumbersAre(base, n - 1);
      var front := Shares(base, target, t, probabPrime, n - 1);
      assert forall i :: 0 <= i < |front| ==> front[i] in front;
    }
  }

  /** A sextuple is known by its first number: its residue and its range give the index. */
  lemma SextupleIndex(base: nat, n: int, sieveSize: nat) returns (k: nat)
    requires base % 223092870 == 97 && n % 223092870 == 97 && base < n < base + 223092870 * sieveSize
    ensures 1 <= k < sieveSize && n == base + 223092870 * k
  {
    k := n / 223092870 - base / 223092870;
  }

  /** What n has to meet to be submitted. */
  ghost predicate IsSubmitted(base: nat, limit: nat, probabPrime: int -> int, sieveSize: nat, n: int) {
    && n % 223092870 == 97 && base < n < base + 223092870 * sieveSize
    && (forall p: nat :: Prime(p) && 29 <= p < limit ==>
          && !Divides(p, n) && !Divides(p, n + 4) && !Divides(p, n + 6) && !Divides(p, n + 10)
          && !Divides(p, n + 12) && !Divides(p, n + 16))
    && Pow(2, n - 1) % n == 1 && Pow(2, n + 3) % (n + 4) == 1
    && probabPrime(n + 6) != 0 && probabPrime(n + 10) != 0
  }

  lemma SubmittedIsInRange(base: nat, limit: nat, probabPrime: int -> int, sieveSize: nat, n: int)
    requires IsSubmitted(base, limit, probabPrime, sieveSize, n)
    ensures n % 223092870 == 97 && base < n < base + 223092870 * sieveSize
  {
    hide Pow, Divides, Prime;
  }

  lemma IndexIsInRange(base: nat, sieveSize: nat, k: nat, n: int)
    requires base % 223092870 == 97 && 1 <= k < sieveSize && n == base + 223092870 * k
    ensures n % 223092870 == 97 && base < n < base + 223092870 * sieveSize
  {
  }

  lemma SubmittedAt(base: nat, t: seq<nat>, limit: nat, probabPrime: int -> int, sieveSize: nat, k: nat, n: nat)
    requires IsPrimeTable(t, limit) && base > 0 && base % 223092870 == 97
    requires 1 <= k < sieveSize && n == base + 223092870 * k
    ensures IsSubmitted(base, limit, probabPrime, sieveSize, n) <==> !Hit(base, t, k) && Passes(base, probabPrime, k)
  {
    hide Hit, Divides, Pow, Prime, Passes, IsPrimeTable;
    HitMeans(base, t, limit, k, n);
    PassesMeans(base, probabPrime, k, n);
    IndexIsInRange(base, sieveSize, k, n);
  }

  lemma ShareIsSubmitted(base: nat, target: nat, t: seq<nat>, limit: nat, probabPrime: int -> int, sieveSize: nat,
                         n: int)
    requires IsPrimeTable(t, limit) && base > 0 && base % 223092870 == 97
    ensures n - target in Shares(base, target, t, probabPrime, sieveSize) <==>
            IsSubmitted(base, limit, probabPrime, sieveSize, n)
  {
    hide Hit, Shares, Passes, Number, IsSubmitted, IsPrimeTable;
    SharesExactly(base, target, t, probabPrime, sieveSize, n - target);
    forall k: nat | 1 <= k < sieveSize && n - target == Number(base, k, 0) - target
      ensures n == base + 223092870 * k && (!Hit(base, t, k) && Passes(base, probabPrime, k) <==>
                                            IsSubmitted(base, limit, probabPrime, sieveSize, n))
    {
      NumbersAre(base, k);
      SubmittedAt(base, t, limit, probabPrime, sieveSize, k, n);
    }
    if IsSubmitted(base, limit, probabPrime, sieveSize, n) {
      SubmittedIsInRange(base, limit, probabPrime, sieveSize, n);
      var k := SextupleIndex(base, n, sieveSize);
      NumbersAre(base, k);
      assert n - target == Number(base, k, 0) - target;
    }
  }

  lemma SharesAreSubmitted(base: nat, target: nat, t: seq<nat>, limit: nat, probabPrime: int -> int, sieveSize: nat)
    requires IsPrimeTable(t, limit) && base > 0 && base % 223092870 == 97
    ensures forall offset :: offset in Shares(base, target, t, probabPrime, sieveSize) <==>
              IsSubmitted(base, limit, probabPrime, sieveSize, target + offset)
  {
    hide Shares, IsSubmitted;
    forall offset
      ensures offset in Shares(base, target, t, probabPrime, sieveSize) <==>
              IsSubmitted(base, limit, probabPrime, sieveSize, target + offset)
    {
      ShareIsSubmitted(base, target, t, limit, probabPrime, sieveSize, target + offset);
    }
  }

  /**
   What the search submits, without reference to tables or flags: exactly the n with residue 97 in range
   that have no small prime factor in their six numbers and pass the four tests.
   */
  lemma SharesMean(base: nat, target: nat, t: seq<nat>, limit: nat, probabPrime: int -> int, sieveSize: nat)
    requires IsPrimeTable(t, limit) && base > 0 && base % 223092870 == 97
    ensures forall offset :: offset in Shares(base, target, t, probabPrime, sieveSize) <==>
              var n := target + offset;
              && n % 223092870 == 97 && base < n < base + 223092870 * sieveSize
              && (forall p: nat :: Prime(p) && 29 <= p < limit ==>
                    && !Divides(p, n) && !Divides(p, n + 4) && !Divides(p, n + 6) && !Divides(p, n + 10)
                    && !Divides(p, n + 12) && !Divides(p, n + 16))
              && Pow(2, n - 1) % n == 1 && Pow(2, n + 3) % (n + 4) == 1
              && probabPrime(n + 6) != 0 && probabPrime(n + 10) != 0
  {
    hide Shares, Prime, Divides, Pow, IsPrimeTable;
    SharesAreSubmitted(base, target, t, limit, probabPrime, sieveSize);
  }

  /** No sextuple of primes is lost: each in range, whose residue is 97, is submitted. */
  lemma SextupleIsSubmitted(base: nat, target: nat, t: seq<nat>, limit: nat, probabPrime: int -> int, sieveSize: nat,
                            n: int)
    requires IsPrimeTable(t, limit) && base >= limit && base > 2 && base % 223092870 == 97
    requires n % 223092870 == 97 && base < n < base + 223092870 * sieveSize
    requires Prime(n) && Prime(n + 4) && Prime(n + 6) && Prime(n + 10) && Prime(n + 12) && Prime(n + 16)
    requires forall m: int :: Prime(m) ==> probabPrime(m) != 0
    ensures n - target in Shares(base, target, t, probabPrime, sieveSize)
  {
    hide Hit, Divides, Pow, Prime, Passes, Number, SextupleAt, Shares;
    var k := SextupleIndex(base, n, sieveSize);
    SixArePrime(base, k, n);
    NumbersAre(base, k);
    NoSextupleLost(base, target, t, limit, probabPrime, sieveSize);
  }

  lemma SextuplesAreSubmitted(base: nat, target: nat, t: seq<nat>, limit: nat, probabPrime: int -> int, sieveSize: nat)
    requires IsPrimeTable(t, limit) && base >= limit && base > 2 && base % 223092870 == 97
    ensures (forall m: int :: Prime(m) ==> probabPrime(m) != 0) ==>
              forall offset {:trigger offset in Shares(base, target, t, probabPrime, sieveSize)} ::
                var n := target + offset;
                && Prime(n) && Prime(n + 4) && Prime(n + 6) && Prime(n + 10) && Prime(n + 12) && Prime(n + 16)
                && n % 223092870 == 97 && base < n < base + 223092870 * sieveSize ==>
                  offset in Shares(base, target, t, probabPrime, sieveSize)
  {
    hide Shares, Prime, IsPrimeTable;
    if forall m: int :: Prime(m) ==> probabPrime(m) != 0 {
      var shares := Shares(base, target, t, probabPrime, sieveSize);
      forall offset |
        var n := target + offset;
        && Prime(n) && Prime(n + 4) && Prime(n + 6) && Prime(n + 10) && Prime(n + 12) && Prime(n + 16)
        && n % 223092870 == 97 && base < n < base + 223092870 * sieveSize
        ensures offset in shares
      {
        SextupleIsSubmitted(base, target, t, limit, probabPrime, sieveSize, target + offset);
      }
    }
  }

  lemma SixArePrime(base: nat, k: nat, n: nat)
    requires n == base + 223092870 * k
    requires Prime(n) && Prime(n + 4) && Prime(n + 6) && Prime(n + 10) && Prime(n + 12) && Prime(n + 16)
    ensures SextupleAt(base, k)
  {
    NumbersAre(base, k);
    hide Prime, Number;
    forall f: nat | f < 6
      ensures Prime(Number(base, k, f))
    {
      assert f == 0 || f == 1 || f == 2 || f == 3 || f == 4 || f == 5;
    }
  }

  lemma PassesMeans(base: nat, probabPrime: int -> int, k: nat, n: nat)
    requires base > 0 && n == base + 223092870 * k
    ensures Passes(base, probabPrime, k) <==>
            && Pow(2, n - 1) % n == 1 && Pow(2, n + 3) % (n + 4) == 1
            && probabPrime(n + 6) != 0 && probabPrime(n + 10) != 0
  {
    NumbersAre(base, k);
    hide Number, Pow;
  }

  lemma AlignedMeans(target: nat, r: nat)
    requires Aligned(target, r)
    ensures (target + r) % PRIMORIAL == 97 && (target + r) % 223092870 == 97 && PRIMORIAL == 223092870
  {
  }

  lemma OffsetFits(r: nat, k: nat, sieveSize: nat)
    requires r < PRIMORIAL + 97 && k < sieveSize <= 0x1_0000_0000
    ensures Wrap64(r + Wrap64(PRIMORIAL * k)) == r + PRIMORIAL * k
  {
  }
}
