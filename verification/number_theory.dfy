/**
 Elementary number theory over unbounded integers: divisibility, congruences,
 Bezout coefficients, Euclid's lemma and Fermat's little theorem. The modules
 about the Riecoin sieve are proved against these definitions.
 */
module NumberTheory {

  // ----- divisibility -----

  ghost predicate Divides(d: int, n: int)
    requires d > 0
  {
    n % d == 0
  }

  ghost predicate Prime(n: int) {
    n >= 2 && forall d :: 2 <= d < n ==> !Divides(d, n)
  }

  ghost predicate Coprime(a: int, n: int) {
    forall d :: d >= 2 ==> !(Divides(d, a) && Divides(d, n))
  }

  /** The quotient and remainder of a division are determined by their defining equation. */
  lemma DivisionIsUnique(a: int, q: int, r: int, m: int)
    requires m > 0 && 0 <= r < m && a == q * m + r
    ensures a % m == r && a / m == q
  {
    var k := a / m - q;
    assert k * m == (a / m) * m - q * m;
    assert a == (a / m) * m + a % m;
    assert k * m == r - a % m;
    assert -m < k * m < m;
    assert k == 0;
  }

  lemma MultipleIsDivisible(k: int, d: int)
    requires d > 0
    ensures Divides(d, k * d) && Divides(d, d * k) && (k * d) / d == k
  {
    DivisionIsUnique(k * d, k, 0, d);
  }

  lemma DividesSum(d: int, a: int, b: int)
    requires d > 0 && Divides(d, a)
    ensures Divides(d, a + b) <==> Divides(d, b)
  {
    var k := a / d;
    assert a == k * d;
    assert b == (b / d) * d + b % d;
    assert (k + b / d) * d == k * d + (b / d) * d;
    DivisionIsUnique(a + b, k + b / d, b % d, d);
  }

  lemma DividesProduct(d: int, a: int, b: int)
    requires d > 0 && Divides(d, a)
    ensures Divides(d, a * b) && Divides(d, b * a)
  {
    var k := a / d;
    assert a * b == k * d * b == (k * b) * d;
    MultipleIsDivisible(k * b, d);
  }

  lemma DividesTrans(c: int, d: int, n: int)
    requires c > 0 && d > 0 && Divides(c, d) && Divides(d, n)
    ensures Divides(c, n)
  {
    assert n == d * (n / d);
    DividesProduct(c, d, n / d);
  }

  lemma DivisorIsAtMost(d: int, n: int)
    requires d > 0 && n > 0 && Divides(d, n)
    ensures d <= n
  {
    if n < d {
      DivisionIsUnique(n, 0, n, d);
    }
  }

  lemma ProductIsMonotone(a: int, b: int, c: int, d: int)
    requires 0 <= a <= c && 0 <= b <= d
    ensures a * b <= c * d
  {
    assert a * b <= c * b;
    assert c * b <= c * d;
  }

  // ----- congruence -----

  ghost predicate Congruent(a: int, b: int, m: int)
    requires m > 0
  {
    Divides(m, a - b)
  }

  lemma CongruentRefl(a: int, m: int)
    requires m > 0
    ensures Congruent(a, a, m)
  {
    MultipleIsDivisible(0, m);
  }

  lemma CongruentToRemainder(a: int, m: int)
    requires m > 0
    ensures Congruent(a, a % m, m)
  {
    assert a - a % m == (a / m) * m;
    MultipleIsDivisible(a / m, m);
  }

  lemma SameRemainderAfter(k: int, a: int, b: int, m: int)
    requires m > 0 && a - b == k * m
    ensures a % m == b % m
  {
    assert b == (b / m) * m + b % m;
    assert (k + b / m) * m == k * m + (b / m) * m;
    DivisionIsUnique(a, k + b / m, b % m, m);
  }

  lemma CongruentIffSameRemainder(a: int, b: int, m: int)
    requires m > 0
    ensures Congruent(a, b, m) <==> a % m == b % m
  {
    if Congruent(a, b, m) {
      SameRemainderAfter((a - b) / m, a, b, m);
    }
    if a % m == b % m {
      DifferenceOfMultiples(a, b, a / m, b / m, a % m, m);
      MultipleIsDivisible(a / m - b / m, m);
    }
  }

  lemma DifferenceOfMultiples(a: int, b: int, p: int, q: int, r: int, m: int)
    requires a == p * m + r && b == q * m + r
    ensures a - b == (p - q) * m
  {
  }

  lemma CongruentTrans(a: int, b: int, c: int, m: int)
    requires m > 0 && Congruent(a, b, m) && Congruent(b, c, m)
    ensures Congruent(a, c, m)
  {
    DividesSum(m, a - b, b - c);
  }

  lemma CongruentSym(a: int, b: int, m: int)
    requires m > 0 && Congruent(a, b, m)
    ensures Congruent(b, a, m)
  {
    CongruentIffSameRemainder(a, b, m);
    CongruentIffSameRemainder(b, a, m);
  }

  lemma CongruentAdd(a: int, b: int, c: int, d: int, m: int)
    requires m > 0 && Congruent(a, b, m) && Congruent(c, d, m)
    ensures Congruent(a + c, b + d, m)
  {
    DividesSum(m, a - b, c - d);
  }

  lemma CongruentMul(a: int, b: int, c: int, d: int, m: int)
    requires m > 0 && Congruent(a, b, m) && Congruent(c, d, m)
    ensures Congruent(a * c, b * d, m)
  {
    DividesProduct(m, a - b, c);
    DividesProduct(m, c - d, b);
    assert a * c - b * d == (a - b) * c + b * (c - d);
    DividesSum(m, (a - b) * c, b * (c - d));
  }

  // ----- Bezout and Euclid's lemma -----

  /** Extended Euclid: a common divisor g of a and b together with x, y such that g == a*x + b*y. */
  function Bezout(a: nat, b: nat): (r: (nat, int, int))
    requires a > 0 || b > 0
    ensures r.0 > 0 && r.0 == a * r.1 + b * r.2
    ensures Divides(r.0, a) && Divides(r.0, b)
    decreases b
  {
    if b == 0 then
      MultipleIsDivisible(1, a); MultipleIsDivisible(0, a);
      (a, 1, 0)
    else
      var (g, x, y) := Bezout(b, a % b);
      BezoutStep(a, b, g, x, y);
      (g, y, x - (a / b) * y)
  }

  lemma BezoutStep(a: nat, b: nat, g: int, x: int, y: int)
    requires b > 0 && g > 0 && g == b * x + (a % b) * y
    requires Divides(g, b) && Divides(g, a % b)
    ensures g == a * y + b * (x - (a / b) * y)
    ensures Divides(g, a)
  {
    var q := a / b;
    assert a == b * q + a % b;
    assert a * y == (b * q + a % b) * y == b * q * y + (a % b) * y;
    assert b * (x - q * y) == b * x - b * (q * y) == b * x - b * q * y;
    DividesProduct(g, b, q);
    DividesSum(g, b * q, a % b);
  }

  lemma CoprimeBezout(a: nat, n: nat) returns (x: int, y: int)
    requires n > 0 && Coprime(a, n)
    ensures a * x + n * y == 1
  {
    var (g, u, v) := Bezout(a, n);
    x, y := u, v;
  }

  /** If n divides a*b and is coprime to a then it divides b. */
  lemma CancelCoprime(a: nat, b: int, n: nat)
    requires n > 0 && Coprime(a, n) && Divides(n, a * b)
    ensures Divides(n, b)
  {
    var x, y := CoprimeBezout(a, n);
    DividesProduct(n, a * b, x);
    MultipleIsDivisible(y * b, n);
    DividesSum(n, a * b * x, n * (y * b));
    assert a * b * x + n * (y * b) == (a * x + n * y) * b == b;
  }

  lemma PrimeIsCoprime(a: nat, p: int)
    requires Prime(p) && !Divides(p, a)
    ensures Coprime(a, p)
  {
    forall d | d >= 2 && Divides(d, a) && Divides(d, p)
      ensures false
    {
      DivisorIsAtMost(d, p);
    }
  }

  lemma EuclidsLemma(a: nat, b: int, p: int)
    requires Prime(p) && Divides(p, a * b)
    ensures Divides(p, a) || Divides(p, b)
  {
    if !Divides(p, a) {
      PrimeIsCoprime(a, p);
      CancelCoprime(a, b, p);
    }
  }

  /** Every number from 2 on has a prime divisor. */
  lemma PrimeDivisorExists(n: int) returns (p: int)
    requires n >= 2
    ensures Prime(p) && 2 <= p <= n && Divides(p, n)
    decreases n
  {
    if Prime(n) {
      MultipleIsDivisible(1, n);
      p := n;
    } else {
      var d :| 2 <= d < n && Divides(d, n);
      p := PrimeDivisorExists(d);
      DividesTrans(p, d, n);
    }
  }

  lemma Cofactor(d: int, n: int) returns (e: int)
    requires 2 <= d < n && Divides(d, n)
    ensures n == d * e && 2 <= e && Divides(e, n)
  {
    e := n / d;
    assert n == d * e;
    assert e > 1;
    MultipleIsDivisible(d, e);
  }

  /** A composite number has a prime divisor whose square does not exceed it. */
  lemma SmallPrimeDivisorExists(n: int) returns (p: int)
    requires n >= 2 && !Prime(n)
    ensures Prime(p) && Divides(p, n) && p * p <= n
  {
    var d :| 2 <= d < n && Divides(d, n);
    var e := Cofactor(d, n);
    if d <= e {
      p := PrimeDivisorExists(d);
      DividesTrans(p, d, n);
      ProductIsMonotone(p, p, d, e);
    } else {
      p := PrimeDivisorExists(e);
      DividesTrans(p, e, n);
      ProductIsMonotone(p, p, d, e);
    }
  }

  // ----- powers, binomial coefficients and Fermat's little theorem -----

  function Pow(b: int, e: nat): int {
    if e == 0 then 1 else b * Pow(b, e - 1)
  }

  /** Pascal's triangle. */
  ghost function Choose(n: nat, k: nat): nat {
    if k == 0 then 1
    else if n == 0 then 0
    else Choose(n - 1, k - 1) + Choose(n - 1, k)
  }

  /** The first m terms of the binomial expansion of (a + 1)^n. */
  ghost function Expansion(a: int, n: nat, m: nat): int {
    if m == 0 then 0 else Expansion(a, n, m - 1) + Choose(n, m - 1) * Pow(a, m - 1)
  }

  lemma {:induction false} ChooseBeyond(n: nat, k: nat)
    requires k > n
    ensures Choose(n, k) == 0
  {
    if n > 0 {
      ChooseBeyond(n - 1, k - 1);
      ChooseBeyond(n - 1, k);
    }
  }

  lemma {:induction false} ChooseAll(n: nat)
    ensures Choose(n, n) == 1
  {
    if n > 0 {
      ChooseAll(n - 1);
      ChooseBeyond(n - 1, n);
    }
  }

  lemma PascalTerm(a: int, c0: int, c1: int, p: int, e: int)
    ensures (c0 + c1) * (a * p) + a * e == c1 * (a * p) + a * (e + c0 * p)
  {
    assert (c0 + c1) * (a * p) == c0 * (a * p) + c1 * (a * p);
    assert c0 * (a * p) == a * (c0 * p);
  }

  /** Pascal's rule lifted to expansions: Expansion(n, m) == Expansion(n-1, m) + a * Expansion(n-1, m-1). */
  lemma {:induction false} ExpansionStep(a: int, n: nat, m: nat)
    requires n > 0 && m > 0
    ensures Expansion(a, n, m) == Expansion(a, n - 1, m) + a * Expansion(a, n - 1, m - 1)
  {
    if m == 1 {
      assert Expansion(a, n, 0) == 0 == Expansion(a, n - 1, 0);
      assert Choose(n, 0) == 1 == Choose(n - 1, 0);
    } else {
      ExpansionStep(a, n, m - 1);
      PascalTerm(a, Choose(n - 1, m - 2), Choose(n - 1, m - 1), Pow(a, m - 2), Expansion(a, n - 1, m - 2));
    }
  }

  lemma {:induction false} BinomialTheorem(a: int, n: nat)
    ensures Pow(a + 1, n) == Expansion(a, n, n + 1)
  {
    if n == 0 {
      assert Expansion(a, 0, 1) == Expansion(a, 0, 0) + Choose(0, 0) * Pow(a, 0);
    } else {
      BinomialTheorem(a, n - 1);
      ExpansionStep(a, n, n + 1);
      ChooseBeyond(n - 1, n);
      assert Expansion(a, n - 1, n + 1) == Expansion(a, n - 1, n) + 0 * Pow(a, n);
      var e := Expansion(a, n - 1, n);
      assert (a + 1) * e == a * e + e;
    }
  }

  lemma AbsorptionStep(n: int, k: int, b: int, c: int, d: int)
    requires (k - 1) * (c + d) == (n - 1) * c && k * b == (n - 1) * d
    ensures k * (c + d + b) == n * (c + d)
  {
    assert k * (c + d + b) == (k - 1) * (c + d) + (c + d) + k * b;
    assert (n - 1) * c + (n - 1) * d == (n - 1) * (c + d);
  }

  /** The absorption identity k * C(n, k) == n * C(n-1, k-1). */
  lemma {:induction false} Absorption(n: nat, k: nat)
    requires n > 0 && k > 0
    ensures k * Choose(n, k) == n * Choose(n - 1, k - 1)
    decreases n, k
  {
    var a, b := Choose(n - 1, k - 1), Choose(n - 1, k);
    assert Choose(n, k) == a + b;
    if n == 1 {
      ChooseBeyond(0, k);
      if k > 1 { ChooseBeyond(0, k - 1); }
    } else if k == 1 {
      Absorption(n - 1, 1);
      assert a == 1;
      assert Choose(n - 2, 0) == 1;
    } else {
      var c, d := Choose(n - 2, k - 2), Choose(n - 2, k - 1);
      assert a == c + d;
      Absorption(n - 1, k - 1);
      Absorption(n - 1, k);
      assert (k - 1) * a == (n - 1) * c;
      assert k * b == (n - 1) * d;
      AbsorptionStep(n, k, b, c, d);
    }
  }

  /** A prime divides every inner coefficient of its row of Pascal's triangle. */
  lemma PrimeDividesChoose(p: int, k: nat)
    requires Prime(p) && 0 < k < p
    ensures Divides(p, Choose(p, k))
  {
    Absorption(p, k);
    MultipleIsDivisible(Choose(p - 1, k - 1), p);
    EuclidsLemma(k, Choose(p, k), p);
    if Divides(p, k) {
      DivisorIsAtMost(p, k);
    }
  }

  lemma {:induction false} InnerTermsVanish(a: int, p: int, m: nat)
    requires Prime(p) && 1 <= m <= p
    ensures Congruent(Expansion(a, p, m), 1, p)
  {
    if m == 1 {
      assert Expansion(a, p, 1) == Expansion(a, p, 0) + Choose(p, 0) * Pow(a, 0);
      MultipleIsDivisible(0, p);
    } else {
      InnerTermsVanish(a, p, m - 1);
      PrimeDividesChoose(p, m - 1);
      var t := Choose(p, m - 1) * Pow(a, m - 1);
      DividesProduct(p, Choose(p, m - 1), Pow(a, m - 1));
      DividesSum(p, t, Expansion(a, p, m - 1) - 1);
    }
  }

  /** Fermat's little theorem: a^p is congruent to a modulo every prime p. */
  lemma {:induction false} FermatLittle(a: nat, p: int)
    requires Prime(p)
    ensures Congruent(Pow(a, p), a, p)
  {
    if a == 0 {
      assert Pow(0, p) == 0 * Pow(0, p - 1);
      MultipleIsDivisible(0, p);
    } else {
      FermatLittle(a - 1, p);
      BinomialTheorem(a - 1, p);
      InnerTermsVanish(a - 1, p, p);
      ChooseAll(p);
      var e := Expansion(a - 1, p, p);
      assert Pow(a, p) == e + 1 * Pow(a - 1, p);
      CongruentAdd(e, 1, Pow(a - 1, p), a - 1, p);
    }
  }

  /** The form used as a primality test: base 2 and an odd prime. */
  lemma FermatTestPasses(p: int)
    requires Prime(p) && p > 2
    ensures Pow(2, p - 1) % p == 1
  {
    FermatLittle(2, p);
    assert Pow(2, p) - 2 == 2 * (Pow(2, p - 1) - 1);
    EuclidsLemma(2, Pow(2, p - 1) - 1, p);
    if Divides(p, 2) {
      DivisorIsAtMost(p, 2);
    }
    CongruentIffSameRemainder(Pow(2, p - 1), 1, p);
    DivisionIsUnique(1, 0, 1, p);
  }

  // ----- powers of two -----

  /** An odd prime divides no power of two. */
  lemma {:induction false} PowerOfTwoFactor(e: nat, p: int)
    requires Prime(p) && p > 2
    ensures !Divides(p, Pow(2, e))
    ensures Pow(2, 32) == 0x1_0000_0000
  {
    PowersOfTwo();
    if e > 0 {
      PowerOfTwoFactor(e - 1, p);
      if Divides(p, Pow(2, e)) {
        EuclidsLemma(2, Pow(2, e - 1), p);
        DivisorIsAtMost(p, 2);
      }
    } else if Divides(p, 1) {
      DivisorIsAtMost(p, 1);
    }
  }

  lemma PowersOfTwo()
    ensures Pow(2, 32) == 0x1_0000_0000
  {
    assert Pow(2, 8) == 256;
    assert Pow(2, 16) == 65536;
    assert Pow(2, 24) == 0x100_0000;
  }
}
