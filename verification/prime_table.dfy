/**
 riecoin_init: the bit-packed sieve of Eratosthenes and the tables of small primes and of
 the primorial's inverses modulo them.
 */
module PrimeTable {
  import opened NumberTheory
  import opened PrimeCounting
  import opened BitTable

  /** riecoin_Primorial, the product of the primes up to 23. */
  const PRIMORIAL: nat := 223092870

  // The largest limit for which nFactor*nFactor still fits an unsigned int when the sieve stops.
  const MAX_LIMIT: nat := 65535 * 65535

  function Wrap32(x: nat): nat {
    x % 0x1_0000_0000
  }

  /** t lists exactly the primes below limit, in increasing order. */
  ghost predicate IsPrimeTable(t: seq<nat>, limit: nat) {
    && (forall i, j :: 0 <= i < j < |t| ==> t[i] < t[j])
    && (forall i :: 0 <= i < |t| ==> Prime(t[i]) && t[i] < limit)
    && (forall p: nat :: Prime(p) && p < limit ==> p in t)
  }

  /** inv holds the inverse of the primorial modulo every table prime that does not divide it. */
  ghost predicate IsInverseTable(inv: seq<nat>, t: seq<nat>) {
    && |inv| == |t|
    && forall i :: 0 <= i < |t| && t[i] > 0 && Coprime(PRIMORIAL, t[i]) ==>
         inv[i] < t[i] && Congruent(PRIMORIAL * inv[i], 1, t[i])
  }

  /** The sieve's stopping test is reached without wrap-around exactly for limits up to MAX_LIMIT. */
  lemma StopsBeforeWrapAround(limit: nat)
    ensures (exists f: nat :: 2 <= f && f * f < 0x1_0000_0000 && f * f >= limit) <==> limit <= MAX_LIMIT
  {
    if limit <= MAX_LIMIT {
      var f := 65535;
      assert f * f >= limit;
    } else {
      forall f: nat | 2 <= f && f * f < 0x1_0000_0000
        ensures f * f < limit
      {
        if f >= 65536 {
          ProductIsMonotone(65536, 65536, f, f);
        }
        ProductIsMonotone(f, f, 65535, 65535);
      }
    }
  }

  // ----- the sieve -----

  /** k is struck out as a multiple of d. */
  ghost predicate Strikes(d: nat, k: nat) {
    d > 0 && d * d <= k && Divides(d, k)
  }

  ghost predicate Struck(k: nat, bound: nat) {
    exists d: nat :: 2 <= d < bound && Strikes(d, k)
  }

  /** The struck numbers at the end of the sieve are exactly the composite ones. */
  lemma StruckIffComposite(n: nat, bound: nat, limit: nat)
    requires 2 <= n < limit && bound * bound >= limit
    ensures Struck(n, bound) <==> !Prime(n)
  {
    if Struck(n, bound) {
      var d: nat :| 2 <= d < bound && Strikes(d, n);
      SquareExceeds(d);
      assert Divides(d, n) && d < n;
    }
    if !Prime(n) {
      var p := SmallPrimeDivisorExists(n);
      if p >= bound {
        ProductIsMonotone(bound, bound, p, p);
      }
      assert Strikes(p, n);
    }
  }

  lemma SquareExceeds(d: nat)
    requires d >= 2
    ensures d * d > d
  {
  }

  /** Skipping a struck factor loses nothing: its multiples are struck by a smaller one. */
  lemma StruckFactorIsRedundant(f: nat, k: nat)
    requires f >= 2 && Struck(f, f) && Strikes(f, k)
    ensures Struck(k, f)
  {
    var d: nat :| 2 <= d < f && Strikes(d, f);
    DividesTrans(d, f, k);
    ProductIsMonotone(d, d, f, f);
    assert Strikes(d, k);
  }

  /** What the composite table holds once all factors below f have been processed. */
  ghost predicate StruckBelow(bits: seq<bv8>, f: nat, limit: nat) {
    limit <= 8 * |bits| &&
    forall k: nat :: k < 8 * |bits| ==> (Bit(bits, k) <==> k < limit && Struck(k, f))
  }

  lemma StruckByNext(k: nat, f: nat)
    requires f >= 2
    ensures Struck(k, f + 1) <==> Struck(k, f) || Strikes(f, k)
  {
    if Struck(k, f + 1) {
      var d: nat :| 2 <= d < f + 1 && Strikes(d, k);
      assert d < f || d == f;
    }
    if Struck(k, f) {
      var d: nat :| 2 <= d < f && Strikes(d, k);
      assert d < f + 1;
    }
  }

  /** Between two consecutive multiples of f there is no other. */
  lemma NoMultipleBetween(f: nat, c: nat, k: nat)
    requires f > 0 && Divides(f, c) && c <= k < c + f && Divides(f, k)
    ensures k == c
  {
    DividesSum(f, c, k - c);
    if k > c {
      DivisorIsAtMost(f, k - c);
    }
  }

  lemma SquareBound(f: nat, limit: nat)
    requires limit <= MAX_LIMIT && (f >= 1 ==> (f - 1) * (f - 1) < limit)
    ensures f <= 65535 && f * f < 0x1_0000_0000 && limit + f < 0x1_0000_0000
  {
    if f > 65535 {
      ProductIsMonotone(65535, 65535, f - 1, f - 1);
    }
    ProductIsMonotone(f, f, 65535, 65535);
  }

  /** bits is before with the multiples of f from f*f on and below c struck as well. */
  ghost predicate StruckUpTo(bits: seq<bv8>, before: seq<bv8>, f: nat, c: nat, limit: nat) {
    |bits| == |before| && limit <= 8 * |bits| &&
    forall k: nat :: k < 8 * |bits| ==> (Bit(bits, k) <==> Bit(before, k) || (k < c && k < limit && Strikes(f, k)))
  }

  /** Striking c moves on to c + f: no other multiple lies between the two. */
  lemma StrikeStep(bits: seq<bv8>, current: seq<bv8>, before: seq<bv8>, f: nat, c: nat, limit: nat)
    requires f > 0 && f * f <= c < limit && Divides(f, c)
    requires StruckUpTo(current, before, f, c, limit) && IsBitSet(bits, current, c)
    ensures StruckUpTo(bits, before, f, c + f, limit) && Divides(f, c + f)
  {
    MultipleIsDivisible(1, f);
    DividesSum(f, c, f);
    hide Bit, Divides;
    forall k: nat | k < 8 * |bits|
      ensures Bit(bits, k) <==> Bit(before, k) || (k < c + f && k < limit && Strikes(f, k))
    {
      assert Bit(bits, k) == (k == c || Bit(current, k));
      if c <= k < c + f && Strikes(f, k) {
        NoMultipleBetween(f, c, k);
      }
    }
  }

  lemma StrikeBegins(before: seq<bv8>, f: nat, limit: nat)
    requires f > 0 && limit <= 8 * |before|
    ensures StruckUpTo(before, before, f, f * f, limit) && Divides(f, f * f)
  {
    MultipleIsDivisible(f, f);
    hide Bit, Divides;
  }

  lemma StrikeEnds(bits: seq<bv8>, before: seq<bv8>, f: nat, c: nat, limit: nat)
    requires f >= 2 && c >= limit && StruckUpTo(bits, before, f, c, limit) && StruckBelow(before, f, limit)
    ensures StruckBelow(bits, f + 1, limit)
  {
    hide Bit, Divides, Strikes, Struck;
    forall k: nat | k < 8 * |bits|
      ensures Bit(bits, k) <==> k < limit && Struck(k, f + 1)
    {
      StruckByNext(k, f);
    }
  }

  lemma FitsUnsigned(x: nat)
    requires x < 0x1_0000_0000
    ensures Wrap32(x) == x
  {
  }

  /** Marks f*f, f*f + f, ... below limit. */
  method StrikeMultiples(vfComposite: array<bv8>, f: nat, limit: nat)
    requires f >= 2 && f * f < limit <= MAX_LIMIT && f <= 65535
    requires StruckBelow(vfComposite[..], f, limit)
    modifies vfComposite
    ensures StruckBelow(vfComposite[..], f + 1, limit)
  {
    ghost var before := vfComposite[..];
    assert limit <= 8 * |before|;
    hide *;
    FitsUnsigned(f * f);
    StrikeBegins(before, f, limit);
    var nComposite := Wrap32(f * f);
    while nComposite < limit
      invariant f * f <= nComposite <= limit + f && Divides(f, nComposite)
      invariant StruckUpTo(vfComposite[..], before, f, nComposite, limit)
      decreases limit + f - nComposite
    {
      ghost var current := vfComposite[..];
      SetBit(vfComposite, nComposite);
      StrikeStep(vfComposite[..], current, before, f, nComposite, limit);
      FitsUnsigned(nComposite + f);
      nComposite := Wrap32(nComposite + f);
    }
    StrikeEnds(vfComposite[..], before, f, nComposite, limit);
  }

  lemma SkipStruck(bits: seq<bv8>, f: nat, limit: nat)
    requires f >= 2 && StruckBelow(bits, f, limit) && Struck(f, f)
    ensures StruckBelow(bits, f + 1, limit)
  {
    forall k: nat | k < 8 * |bits|
      ensures Bit(bits, k) <==> k < limit && Struck(k, f + 1)
    {
      StruckByNext(k, f);
      if Strikes(f, k) {
        StruckFactorIsRedundant(f, k);
      }
    }
  }

  lemma NothingStruck(bits: seq<bv8>, limit: nat)
    requires limit <= 8 * |bits| && forall i :: 0 <= i < |bits| ==> bits[i] == 0
    ensures StruckBelow(bits, 2, limit)
  {
    ClearTable(bits);
  }

  lemma AllStruck(bits: seq<bv8>, f: nat, limit: nat)
    requires f * f >= limit && StruckBelow(bits, f, limit)
    ensures MarksComposites(bits, limit)
  {
    forall n: nat | 2 <= n < limit
      ensures Bit(bits, n) <==> !Prime(n)
    {
      StruckIffComposite(n, f, limit);
    }
  }

  ghost predicate MarksComposites(bits: seq<bv8>, limit: nat) {
    limit <= 8 * |bits| && forall n: nat :: 2 <= n < limit ==> (Bit(bits, n) <==> !Prime(n))
  }

  lemma CompositeMark(bits: seq<bv8>, n: nat, limit: nat)
    requires MarksComposites(bits, limit) && 2 <= n < limit
    ensures n < 8 * |bits| && (Bit(bits, n) <==> !Prime(n))
  {
  }

  lemma FactorMark(bits: seq<bv8>, f: nat, limit: nat)
    requires f >= 2 && f * f < limit && StruckBelow(bits, f, limit)
    ensures f < limit && f < 8 * |bits| && (Bit(bits, f) <==> Struck(f, f))
  {
    SquareExceeds(f);
    hide Bit, Struck;
  }

  /** The composite table: for every n in [2, limit), bit n is set exactly when n is composite. */
  method SieveComposites(limit: nat) returns (vfComposite: array<bv8>)
    requires limit <= MAX_LIMIT
    ensures fresh(vfComposite) && MarksComposites(vfComposite[..], limit)
  {
    assert limit + 7 < 0x1_0000_0000;
    hide *;
    FitsUnsigned(limit + 7);
    vfComposite := new bv8[Wrap32(limit + 7) / 8](_ => 0);
    NothingStruck(vfComposite[..], limit);
    FitsUnsigned(4);
    var nFactor := 2;
    while Wrap32(nFactor * nFactor) < limit
      invariant 2 <= nFactor <= 65535 && nFactor * nFactor == Wrap32(nFactor * nFactor)
      invariant StruckBelow(vfComposite[..], nFactor, limit)
      decreases 65536 - nFactor
    {
      FactorMark(vfComposite[..], nFactor, limit);
      if Bit(vfComposite[..], nFactor) {
        SkipStruck(vfComposite[..], nFactor, limit);
      } else {
        StrikeMultiples(vfComposite, nFactor, limit);
      }
      nFactor := nFactor + 1;
      SquareBound(nFactor, limit);
      FitsUnsigned(nFactor * nFactor);
    }
    AllStruck(vfComposite[..], nFactor, limit);
  }

  // ----- the tables -----

  /** mpz_invert: the inverse of a modulo n whenever there is one. */
  function MpzInvert(a: nat, n: nat): (r: nat)
    requires n > 0
    ensures r < n
    ensures Coprime(a, n) ==> Congruent(a * r, 1, n)
  {
    var (g, x, y) := Bezout(a, n);
    BezoutInverse(a, n, g, x, y);
    x % n
  }

  lemma BezoutInverse(a: nat, n: nat, g: int, x: int, y: int)
    requires n > 0 && g > 0 && g == a * x + n * y && Divides(g, a) && Divides(g, n)
    ensures Coprime(a, n) ==> Congruent(a * (x % n), 1, n)
  {
    if Coprime(a, n) {
      assert g == 1;
      InverseModulo(a, n, x, y);
    }
  }

  lemma CongruentToOne(z: int, n: nat, y: int)
    requires n > 0 && z + n * y == 1
    ensures Congruent(z, 1, n)
  {
    MultipleIsDivisible(0 - y, n);
  }

  lemma InverseModulo(a: int, n: nat, x: int, y: int)
    requires n > 0 && a * x + n * y == 1
    ensures Congruent(a * (x % n), 1, n)
  {
    assert Congruent(a * x, 1, n) by { CongruentToOne(a * x, n, y); }
    hide *;
    CongruentToRemainder(x, n);
    CongruentSym(x, x % n, n);
    CongruentRefl(a, n);
    CongruentMul(a, a, x % n, x, n);
    CongruentTrans(a * (x % n), a * x, 1, n);
  }

  ghost predicate HoldsPrimesBelow(t: seq<nat>, inv: seq<nat>, n: nat) {
    IsPrimeTable(t, n) && IsInverseTable(inv, t) && |t| == PrimeCount(n)
  }

  lemma AppendPrime(t: seq<nat>, inv: seq<nat>, n: nat)
    requires n >= 2 && HoldsPrimesBelow(t, inv, n)
    ensures Prime(n) ==> HoldsPrimesBelow(t + [n], inv + [MpzInvert(PRIMORIAL, n)], n + 1)
    ensures !Prime(n) ==> HoldsPrimesBelow(t, inv, n + 1)
  {
    if Prime(n) {
      var u := t + [n];
      forall p: nat | Prime(p) && p < n + 1
        ensures p in u
      {
        assert p == n ==> u[|t|] == p;
      }
    }
  }

  /**
   riecoin_init. The two tables are allocated with limit/4+10 entries, filled, and cut down to
   the number of primes found.
   */
  method Init(limit: nat) returns (primeTestTable: seq<nat>, primeTestTableInv: seq<nat>)
    requires limit <= MAX_LIMIT
    ensures IsPrimeTable(primeTestTable, limit)
    ensures IsInverseTable(primeTestTableInv, primeTestTable)
    ensures |primeTestTable| == PrimeCount(limit)
  {
    hide *;
    var table := new nat[limit / 4 + 10];
    var tableInv := new nat[limit / 4 + 10];
    var primeTestSize := 0;
    var vfComposite := SieveComposites(limit);
    ghost var marks := vfComposite[..];
    NoPrimesBelowTwo(limit);
    var n := 2;
    while n < limit
      invariant 2 <= n && (n <= limit || limit < 2 == n)
      invariant primeTestSize <= table.Length
      invariant vfComposite[..] == marks
      invariant HoldsPrimesBelow(table[..primeTestSize], tableInv[..primeTestSize], n)
    {
      ghost var t, inv := table[..primeTestSize], tableInv[..primeTestSize];
      AppendPrime(t, inv, n);
      CompositeMark(vfComposite[..], n, limit);
      if !Bit(vfComposite[..], n) {
        RoomForOneMore(t, inv, n, limit);
        table[primeTestSize] := n;
        tableInv[primeTestSize] := MpzInvert(PRIMORIAL, n);
        primeTestSize := primeTestSize + 1;
        assert table[..primeTestSize] == t + [n];
        assert tableInv[..primeTestSize] == inv + [MpzInvert(PRIMORIAL, n)];
      }
      n := n + 1;
    }
    primeTestTable, primeTestTableInv := table[..primeTestSize], tableInv[..primeTestSize];
    TablesComplete(primeTestTable, primeTestTableInv, n, limit);
  }

  /** A prime n below limit is itself counted, so the tables still have a free entry when it is found. */
  lemma RoomForOneMore(t: seq<nat>, inv: seq<nat>, n: nat, limit: nat)
    requires HoldsPrimesBelow(t, inv, n) && n < limit && Prime(n)
    ensures |t| < limit / 4 + 10
  {
    PrimeCountGrows(n + 1, limit);
    PrimeCountBound(limit);
  }

  lemma TablesComplete(t: seq<nat>, inv: seq<nat>, n: nat, limit: nat)
    requires HoldsPrimesBelow(t, inv, n) && (n == limit || limit < n == 2)
    ensures IsPrimeTable(t, limit) && IsInverseTable(inv, t) && |t| == PrimeCount(limit)
  {
    NoPrimesBelowTwo(limit);
    if limit < 2 {
      assert t == [];
    }
  }

  lemma NoPrimesBelowTwo(limit: nat)
    ensures limit <= 2 ==> PrimeCount(limit) == 0
    ensures HoldsPrimesBelow([], [], 2)
  {
    assert PrimeCount(2) == PrimeCount(1) == PrimeCount(0);
    assert !Prime(0) && !Prime(1);
  }
}
