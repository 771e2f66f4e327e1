/**
 The machine-integer modular inverse of xptMiner/riecoinMiner_1.cpp and
 xptMiner/riecoinMiner.cpp: an extended Euclidean algorithm whose three
 remainder and three coefficient variables rotate roles.
 */
module ModularInverse {
  import opened MachineWords
  import opened NumberTheory

  // C's int. Dafny checks that no operation on it leaves the range.
  newtype int32 = x: int | -0x8000_0000 <= x < 0x8000_0000

  function Abs(x: int): nat {
    if x < 0 then -x else x
  }

  ghost function CrossSum(r0: int, r1: int, x0: int, x1: int): int {
    Abs(x1) * r0 + Abs(x0) * r1
  }

  /**
   What holds between two consecutive remainders r0 > r1 of the Euclidean algorithm on (n, a)
   and their coefficients x0, x1. The cross sum bounds both coefficients by n.
   */
  ghost predicate Bezouts(a: int, n: int, r0: int, r1: int, x0: int, x1: int)
    requires n > 0
  {
    && 0 <= r1 < r0 <= n
    && (r0 == 1 ==> n == 1)
    && Congruent(a * x0, r0, n)
    && Congruent(a * x1, r1, n)
    && CrossSum(r0, r1, x0, x1) == n
    && ((x0 <= 0 <= x1) || (x1 <= 0 <= x0))
    && (Coprime(a, n) ==> Coprime(r0, r1))
  }

  lemma CoprimeStep(r0: int, r1: int)
    requires r1 > 0 && Coprime(r0, r1)
    ensures Coprime(r1, r0 % r1)
  {
    forall d | d >= 2 && Divides(d, r1) && Divides(d, r0 % r1)
      ensures false
    {
      assert r0 == r1 * (r0 / r1) + r0 % r1;
      DividesProduct(d, r1, r0 / r1);
      DividesSum(d, r1 * (r0 / r1), r0 % r1);
    }
  }

  lemma CrossSumStep(r0: int, r1: int, x0: int, x1: int, q: int)
    requires q >= 0 && ((x0 <= 0 <= x1) || (x1 <= 0 <= x0))
    ensures CrossSum(r1, r0 - q * r1, x1, x0 - q * x1) == CrossSum(r0, r1, x0, x1)
    ensures Abs(x0 - q * x1) == Abs(x0) + q * Abs(x1)
    ensures (x1 <= 0 <= x0 - q * x1) || (x0 - q * x1 <= 0 <= x1)
  {
    var x2 := x0 - q * x1;
    if x1 >= 0 {
      assert q * x1 >= 0;
    } else {
      assert q * x1 <= 0;
      assert q * (-x1) == -(q * x1);
    }
    assert (Abs(x0) + q * Abs(x1)) * r1 == Abs(x0) * r1 + q * Abs(x1) * r1;
    assert Abs(x1) * (r0 - q * r1) == Abs(x1) * r0 - q * Abs(x1) * r1;
  }

  lemma NextCoefficient(a: int, n: int, r0: int, r1: int, x0: int, x1: int, q: int)
    requires n > 0 && Congruent(a * x0, r0, n) && Congruent(a * x1, r1, n)
    ensures Congruent(a * (x0 - q * x1), r0 - q * r1, n)
  {
    MultipleIsDivisible(0, n);
    CongruentMul(a * x1, r1, -q, -q, n);
    CongruentAdd(a * x0, r0, a * x1 * (-q), r1 * (-q), n);
    assert a * (x0 - q * x1) == a * x0 + a * x1 * (-q);
  }

  lemma QuotientBound(r0: int, r1: int) returns (q: int)
    requires 1 <= r1 < r0
    ensures q == r0 / r1 && r0 % r1 == r0 - q * r1 && 0 <= q <= r0
  {
    q := r0 / r1;
    assert r0 == q * r1 + r0 % r1;
    if q > r0 {
      ProductIsMonotone(r0, 1, q, r1);
    }
  }

  /** A single division step keeps the relation and cannot overflow: the new coefficient is at most n. */
  lemma DivisionStep(a: int, n: int, r0: int, r1: int, r2: int, x0: int, x1: int, q: int)
    requires n > 0 && Bezouts(a, n, r0, r1, x0, x1) && r1 > 1
    requires r2 == r0 % r1 && q == r0 / r1
    ensures Bezouts(a, n, r1, r2, x1, -q * x1 + x0)
    ensures 0 <= q <= n && -n <= -q * x1 <= n && -n <= -q * x1 + x0 <= n
    ensures 0 <= r2 < r1
  {
    hide Congruent, Coprime, Divides;
    var _ := QuotientBound(r0, r1);
    if Coprime(a, n) {
      CoprimeStep(r0, r1);
    }
    SubtractiveStep(a, n, r0, r1, r2, x0, x1, q);
  }

  lemma SubtractiveStep(a: int, n: int, r0: int, r1: int, r2: int, x0: int, x1: int, q: int)
    requires n > 0 && q >= 0 && Bezouts(a, n, r0, r1, x0, x1) && r1 > 1
    requires r2 == r0 - q * r1 && 0 <= r2 < r1
    requires Coprime(a, n) ==> Coprime(r1, r2)
    ensures Bezouts(a, n, r1, r2, x1, -q * x1 + x0)
    ensures -n <= -q * x1 <= n && -n <= -q * x1 + x0 <= n
  {
    hide Congruent, Coprime, Divides, CrossSum, Abs;
    var x2 := -q * x1 + x0;
    assert x2 == x0 - q * x1 by {
      assert -q * x1 == -(q * x1);
    }
    CrossSumStep(r0, r1, x0, x1, q);
    NextCoefficient(a, n, r0, r1, x0, x1, q);
    NextCoefficientBound(n, r1, r2, x0, x1, q);
  }

  lemma NextCoefficientBound(n: int, r1: int, r2: nat, x0: int, x1: int, q: nat)
    requires r1 >= 1
    requires Abs(x0 - q * x1) == Abs(x0) + q * Abs(x1) && CrossSum(r1, r2, x1, x0 - q * x1) == n
    ensures -n <= x0 - q * x1 <= n && -n <= q * x1 <= n
  {
    ProductIsMonotone(0, 0, Abs(x1), r2);
    CoefficientBound(Abs(x0 - q * x1), r1, Abs(x1) * r2, n);
    AbsProduct(q, x1);
  }

  lemma AbsProduct(q: nat, x: int)
    ensures Abs(q * x) == q * Abs(x)
  {
    if x < 0 {
      assert q * (-x) == -(q * x);
      ProductIsMonotone(0, 0, q, -x);
    } else {
      ProductIsMonotone(0, 0, q, x);
    }
  }

  lemma CoefficientBound(c: nat, r: int, rest: int, n: int)
    requires r >= 1 && rest >= 0 && c * r + rest == n
    ensures c <= n
  {
    ProductIsMonotone(c, 1, c, r);
  }

  lemma CoefficientsBounded(a: int, n: int, r0: int, r1: int, x0: int, x1: int)
    requires n > 0 && Bezouts(a, n, r0, r1, x0, x1)
    ensures -n <= x1 <= n && r1 <= n
    ensures r1 > 0 ==> -n <= x0 <= n
  {
    ProductIsMonotone(0, 0, Abs(x0), r1);
    CoefficientBound(Abs(x1), r0, Abs(x0) * r1, n);
    if r1 > 0 {
      ProductIsMonotone(0, 0, Abs(x1), r0);
      CoefficientBound(Abs(x0), r1, Abs(x1) * r0, n);
    }
  }

  /** When the remainder has dropped to 0 or 1, its coefficient is the answer. */
  lemma LastCoefficient(a: int, n: int, r0: int, r1: int, x0: int, x1: int, r: int)
    requires n > 0 && Bezouts(a, n, r0, r1, x0, x1) && r1 <= 1
    requires r == (x1 + n) % n
    ensures (a * r) % n == if Coprime(a, n) then 1 % n else 0
  {
    assert x1 + n - x1 == 1 * n;
    MultipleIsDivisible(1, n);
    CongruentToRemainder(x1 + n, n);
    CongruentSym(x1 + n, r, n);
    CongruentTrans(r, x1 + n, x1, n);
    MultipleIsDivisible(0, n);
    CongruentMul(a, a, r, x1, n);
    CongruentTrans(a * r, a * x1, r1, n);
    CongruentIffSameRemainder(a * r, r1, n);
    if r1 == 1 {
      ResultIsUnit(a, n, r);
    } else if n > 1 {
      // both remainders are multiples of r0, which is at least 2
      MultipleIsDivisible(1, r0);
      MultipleIsDivisible(0, r0);
    }
  }

  /** A number with an inverse modulo n is coprime to n. */
  lemma ResultIsUnit(a: int, n: int, r: int)
    requires n > 0 && (a * r) % n == 1 % n
    ensures Coprime(a, n)
  {
    forall d | d >= 2 && Divides(d, a) && Divides(d, n)
      ensures false
    {
      DividesProduct(d, a, r);
      CongruentIffSameRemainder(a * r, 1, n);
      DividesTrans(d, n, a * r - 1);
      DividesSum(d, a * r, -(a * r) + 1);
      assert a * r + (-(a * r) + 1) == 1;
      DividesProduct(d, a * r - 1, -1);
      assert (a * r - 1) * -1 == -(a * r) + 1;
      DivisorIsAtMost(d, 1);
    }
  }

  method IntInvert(a: uint32, n: uint32) returns (r: uint32)
    requires 1 <= n < 0x8000_0000
    ensures r < n
    ensures (a * r) % n == if Coprime(a, n) then 1 % n else 0
  {
    hide Bezouts, Coprime, Abs;
    var rem0: int32, rem1: int32, rem2: int32 := n as int32, (a % n) as int32, 0;
    var aux0: int32, aux1: int32, aux2: int32 := 0, 1, 0;
    var quotient: int32;
    var inverse: int32;
    InitialRelation(a, n);
    while true
      invariant Bezouts(a, n, rem0 as int, rem1 as int, aux0 as int, aux1 as int)
      invariant 0 <= rem1 < rem0
      decreases rem1
    {
      if rem1 <= 1 {
        inverse := aux1;
        CoefficientsBounded(a, n, rem0 as int, rem1 as int, aux0 as int, aux1 as int);
        LastCoefficient(a, n, rem0 as int, rem1 as int, aux0 as int, aux1 as int, (inverse as int + n) % n);
        break;
      }

      rem2 := rem0 % rem1;
      quotient := rem0 / rem1;
      DivisionStep(a, n, rem0 as int, rem1 as int, rem2 as int, aux0 as int, aux1 as int, quotient as int);
      aux2 := -quotient * aux1 + aux0;
      if rem2 <= 1 {
        inverse := aux2;
        LastCoefficient(a, n, rem1 as int, rem2 as int, aux1 as int, aux2 as int, (inverse as int + n) % n);
        break;
      }

      rem0 := rem1 % rem2;
      quotient := rem1 / rem2;
      DivisionStep(a, n, rem1 as int, rem2 as int, rem0 as int, aux1 as int, aux2 as int, quotient as int);
      aux0 := -quotient * aux2 + aux1;
      if rem0 <= 1 {
        inverse := aux0;
        LastCoefficient(a, n, rem2 as int, rem0 as int, aux2 as int, aux0 as int, (inverse as int + n) % n);
        break;
      }

      rem1 := rem2 % rem0;
      quotient := rem2 / rem0;
      DivisionStep(a, n, rem2 as int, rem0 as int, rem1 as int, aux2 as int, aux0 as int, quotient as int);
      aux1 := -quotient * aux0 + aux2;
    }
    // C adds an int to an unsigned int: the sum is taken modulo 2^32
    var sum := (inverse as int + n) % WRAP;
    SumFits(inverse as int, n);
    r := sum % n;
  }

  lemma SumFits(inverse: int, n: int)
    requires -n <= inverse <= n < 0x8000_0000
    ensures (inverse + n) % WRAP == inverse + n
  {
  }

  lemma InitialRelation(a: int, n: int)
    requires n > 0
    ensures Bezouts(a, n, n, a % n, 0, 1)
  {
    MultipleIsDivisible(-1, n);
    CongruentToRemainder(a, n);
    if Coprime(a, n) {
      forall d | d >= 2 && Divides(d, n) && Divides(d, a % n)
        ensures false
      {
        assert a == n * (a / n) + a % n;
        DividesProduct(d, n, a / n);
        DividesSum(d, n * (a / n), a % n);
      }
    }
  }
}
