/**
 The sieve of riecoin_init for every 32-bit limit, step by step with its wrapping arithmetic: it stops
 with a table of exactly the primes if and only if the limit does not exceed 65535 * 65535.
 */
module PrimeTableLimits {
  import opened NumberTheory
  import opened PrimeTable

  // ----- the loops as a machine -----

  /**
   At the test of the outer loop with factor f, at the test of the inner loop with composite c, or
   behind both. marks are the flags that are set.
   */
  datatype Sieve = Outer(f: nat, marks: set<nat>) | Inner(f: nat, c: nat, marks: set<nat>) | Done(marks: set<nat>)

  function Step(s: Sieve, limit: nat): Sieve {
    match s
    case Outer(f, marks) =>
      if Wrap32(f * f) >= limit then Done(marks)
      else if f in marks then Outer(Wrap32(f + 1), marks)
      else Inner(f, Wrap32(f * f), marks)
    case Inner(f, c, marks) =>
      if c >= limit then Outer(Wrap32(f + 1), marks) else Inner(f, Wrap32(c + f), marks + {c})
    case Done(_) => s
  }

  function Run(s: Sieve, limit: nat, n: nat): Sieve
    decreases n
  {
    if n == 0 then s else Run(Step(s, limit), limit, n - 1)
  }

  lemma {:induction false} RunsJoin(s: Sieve, limit: nat, a: nat, b: nat)
    ensures Run(s, limit, a + b) == Run(Run(s, limit, a), limit, b)
    decreases a
  {
    if a > 0 {
      RunsJoin(Step(s, limit), limit, a - 1, b);
    }
  }

  /** The table is filled with the unmarked numbers from 2 on. */
  function Unmarked(marks: set<nat>, n: nat): seq<nat> {
    if n <= 2 then [] else Unmarked(marks, n - 1) + if n - 1 in marks then [] else [n - 1]
  }

  lemma {:induction false} UnmarkedAre(marks: set<nat>, n: nat)
    ensures forall k :: k in Unmarked(marks, n) <==> 2 <= k < n && k !in marks
    ensures forall i, j :: 0 <= i < j < |Unmarked(marks, n)| ==> Unmarked(marks, n)[i] < Unmarked(marks, n)[j]
  {
    if n > 2 {
      UnmarkedAre(marks, n - 1);
      var t := Unmarked(marks, n - 1);
      forall i | 0 <= i < |t|
        ensures t[i] < n - 1
      {
        assert t[i] in t;
      }
    }
  }

  // ----- up to the bound -----

  ghost predicate MarksStruck(marks: set<nat>, f: nat, limit: nat) {
    forall k: nat :: k in marks <==> k < limit && Struck(k, f)
  }

  ghost predicate MarksExactly(marks: set<nat>, limit: nat) {
    forall k: nat :: 2 <= k < limit ==> (k in marks <==> !Prime(k))
  }

  /** marks is before with the multiples of f from f * f on and below c. */
  ghost predicate MarksUpTo(marks: set<nat>, before: set<nat>, f: nat, c: nat, limit: nat) {
    forall k: nat :: k in marks <==> k in before || (k < c && k < limit && Strikes(f, k))
  }

  lemma MarkNext(marks: set<nat>, before: set<nat>, f: nat, c: nat, limit: nat)
    requires f > 0 && f * f <= c < limit && Divides(f, c) && MarksUpTo(marks, before, f, c, limit)
    ensures MarksUpTo(marks + {c}, before, f, c + f, limit) && Divides(f, c + f)
  {
    MultipleIsDivisible(1, f);
    DividesSum(f, c, f);
    hide Divides;
    forall k: nat
      ensures k in marks + {c} <==> k in before || (k < c + f && k < limit && Strikes(f, k))
    {
      if c <= k < c + f && Strikes(f, k) {
        NoMultipleBetween(f, c, k);
      }
    }
  }

  lemma AllMarked(marks: set<nat>, before: set<nat>, f: nat, c: nat, limit: nat)
    requires f >= 2 && c >= limit && MarksUpTo(marks, before, f, c, limit) && MarksStruck(before, f, limit)
    ensures MarksStruck(marks, f + 1, limit)
  {
    hide Strikes, Struck;
    forall k: nat
      ensures k in marks <==> k < limit && Struck(k, f + 1)
    {
      StruckByNext(k, f);
    }
  }

  /** The inner loop runs out of multiples without wrapping around. */
  lemma {:induction false} InnerFinishes(f: nat, c: nat, marks: set<nat>, before: set<nat>, limit: nat)
    returns (n: nat, after: set<nat>)
    requires 2 <= f <= 65535 && limit <= MAX_LIMIT && f * f <= c <= limit + f && Divides(f, c)
    requires MarksUpTo(marks, before, f, c, limit) && MarksStruck(before, f, limit)
    ensures Run(Inner(f, c, marks), limit, n) == Outer(f + 1, after) && MarksStruck(after, f + 1, limit)
    decreases limit + f - c
  {
    hide MarksUpTo, MarksStruck, Divides;
    if c >= limit {
      AllMarked(marks, before, f, c, limit);
      n, after := 1, marks;
      assert Run(Step(Inner(f, c, marks), limit), limit, 0) == Outer(f + 1, marks);
    } else {
      MarkNext(marks, before, f, c, limit);
      n, after := InnerFinishes(f, c + f, marks + {c}, before, limit);
      n := n + 1;
    }
  }

  lemma MarkBegins(before: set<nat>, f: nat, limit: nat)
    requires f >= 2
    ensures MarksUpTo(before, before, f, f * f, limit) && Divides(f, f * f)
  {
    MultipleIsDivisible(f, f);
  }

  lemma SkipMarked(marks: set<nat>, f: nat, limit: nat)
    requires f >= 2 && MarksStruck(marks, f, limit) && f in marks
    ensures MarksStruck(marks, f + 1, limit)
  {
    forall k: nat
      ensures k in marks <==> k < limit && Struck(k, f + 1)
    {
      StruckByNext(k, f);
      if Strikes(f, k) {
        StruckFactorIsRedundant(f, k);
      }
    }
  }

  lemma AllComposites(marks: set<nat>, f: nat, limit: nat)
    requires f * f >= limit && MarksStruck(marks, f, limit)
    ensures MarksExactly(marks, limit)
  {
    forall k: nat | 2 <= k < limit
      ensures k in marks <==> !Prime(k)
    {
      StruckIffComposite(k, f, limit);
    }
  }

  /** Up to the bound the outer loop stops, and the flags are exactly those of the composites. */
  lemma {:induction false} OuterFinishes(f: nat, marks: set<nat>, limit: nat) returns (n: nat, after: set<nat>)
    requires 2 <= f <= 65535 && limit <= MAX_LIMIT && MarksStruck(marks, f, limit)
    ensures Run(Outer(f, marks), limit, n) == Done(after) && MarksExactly(after, limit)
    decreases 65536 - f
  {
    hide MarksStruck, MarksUpTo, MarksExactly, Divides, Run, Step;
    var s := Outer(f, marks);
    FactorStep(f, marks, limit);
    RunsFrom(s, limit);
    if f * f >= limit {
      AllComposites(marks, f, limit);
      n, after := 1, marks;
    } else {
      var m, next, rest;
      if f in marks {
        SkipMarked(marks, f, limit);
        m, next := 0, marks;
        RunsFrom(Outer(f + 1, marks), limit);
      } else {
        MarkBegins(marks, f, limit);
        m, next := InnerFinishes(f, f * f, marks, marks, limit);
      }
      rest, after := OuterFinishes(f + 1, next, limit);
      n := 1 + (m + rest);
      RunsJoin(s, limit, 1, m + rest);
      RunsJoin(Step(s, limit), limit, m, rest);
    }
  }

  lemma RunsFrom(s: Sieve, limit: nat)
    ensures Run(s, limit, 0) == s && Run(s, limit, 1) == Step(s, limit)
  {
  }

  /** Up to the bound no square wraps around, and the last factor tested is at most 65535. */
  lemma FactorStep(f: nat, marks: set<nat>, limit: nat)
    requires 2 <= f <= 65535 && limit <= MAX_LIMIT
    ensures Step(Outer(f, marks), limit) ==
            if f * f >= limit then Done(marks) else if f in marks then Outer(f + 1, marks) else Inner(f, f * f, marks)
    ensures f * f < limit ==> f + 1 <= 65535 && f * f <= limit + f
  {
    ProductIsMonotone(f, f, 65535, 65535);
  }

  // ----- beyond the bound -----

  // 65537 is the first unmarked factor whose square wraps, to 2 * 65537 - 1: from there on the loop strikes the
  // numbers one below the multiples of 65537, and 262147 is the third of them.
  const FERMAT_PRIME: nat := 65537
  const VICTIM: nat := 262147

  lemma BothArePrime()
    ensures Prime(FERMAT_PRIME) && Prime(VICTIM)
  {
    if !Prime(FERMAT_PRIME) {
      var q := SmallPrimeDivisorExists(FERMAT_PRIME);
      if q >= 257 { ProductIsMonotone(257, 257, q, q); }
      NoDivisorBelow257(q);
    }
    if !Prime(VICTIM) {
      var q := SmallPrimeDivisorExists(VICTIM);
      if q >= 513 { ProductIsMonotone(513, 513, q, q); }
      if q < 257 { NoOtherDivisorBelow257(q); } else { NoDivisorBelow513(q); }
    }
  }

  lemma NoDivisorBelow257(d: nat)
    requires 2 <= d < 257
    ensures !Divides(d, FERMAT_PRIME)
  {
  }

  lemma NoOtherDivisorBelow257(d: nat)
    requires 2 <= d < 257
    ensures !Divides(d, VICTIM)
  {
  }

  lemma NoDivisorBelow513(d: nat)
    requires 257 <= d < 513
    ensures !Divides(d, VICTIM)
  {
  }

  predicate MarksAPrime(marks: set<nat>) {
    FERMAT_PRIME in marks || VICTIM in marks
  }

  /** Where the machine can be before it has marked one of the two primes. */
  predicate OnTheWay(s: Sieve) {
    || MarksAPrime(s.marks)
    || (s.Outer? && 2 <= s.f <= FERMAT_PRIME)
    || (s.Inner? && 2 <= s.f < FERMAT_PRIME)
    || (s.Inner? && s.f == FERMAT_PRIME && (s.c == 131073 || s.c == 196610 || s.c == VICTIM))
  }

  lemma StepStaysOnTheWay(s: Sieve, limit: nat)
    requires MAX_LIMIT < limit < 0x1_0000_0000 && OnTheWay(s)
    ensures OnTheWay(Step(s, limit))
  {
    if s.Outer? && s.f <= 65535 {
      ProductIsMonotone(s.f, s.f, 65535, 65535);
    }
  }

  lemma {:induction false} RunStaysOnTheWay(s: Sieve, limit: nat, n: nat)
    requires MAX_LIMIT < limit < 0x1_0000_0000 && OnTheWay(s)
    ensures OnTheWay(Run(s, limit, n))
    decreases n
  {
    if n > 0 {
      StepStaysOnTheWay(s, limit);
      RunStaysOnTheWay(Step(s, limit), limit, n - 1);
    }
  }

  /** Beyond the bound, whenever the sieve stops, it has struck out a prime. */
  lemma BeyondTheBoundAPrimeIsStruck(limit: nat, n: nat)
    requires MAX_LIMIT < limit < 0x1_0000_0000 && Run(Outer(2, {}), limit, n).Done?
    ensures var marks := Run(Outer(2, {}), limit, n).marks;
            exists p: nat :: p < limit && Prime(p) && p in marks
  {
    BothArePrime();
    RunStaysOnTheWay(Outer(2, {}), limit, n);
  }

  // ----- exactly up to the bound -----

  /** The sieve stops, and the table it leaves holds exactly the primes below the limit. */
  ghost predicate TableIsExact(limit: nat) {
    exists n: nat :: var s := Run(Outer(2, {}), limit, n); s.Done? && IsPrimeTable(Unmarked(s.marks, limit), limit)
  }

  lemma ExactMarksGiveTable(marks: set<nat>, limit: nat)
    requires MarksExactly(marks, limit)
    ensures IsPrimeTable(Unmarked(marks, limit), limit)
  {
    UnmarkedAre(marks, limit);
    var t := Unmarked(marks, limit);
    forall i | 0 <= i < |t|
      ensures Prime(t[i]) && t[i] < limit
    {
      assert t[i] in t;
    }
  }

  /** For every 32-bit limit: the sieve leaves an exact table if and only if the limit is at most 65535 * 65535. */
  lemma TableIsExactUpToTheBound(limit: nat)
    requires limit < 0x1_0000_0000
    ensures TableIsExact(limit) <==> limit <= MAX_LIMIT
  {
    if limit <= MAX_LIMIT {
      assert MarksStruck({}, 2, limit);
      var n, marks := OuterFinishes(2, {}, limit);
      ExactMarksGiveTable(marks, limit);
    } else if TableIsExact(limit) {
      var n: nat :| Run(Outer(2, {}), limit, n).Done?
        && IsPrimeTable(Unmarked(Run(Outer(2, {}), limit, n).marks, limit), limit);
      BeyondTheBoundAPrimeIsStruck(limit, n);
      UnmarkedAre(Run(Outer(2, {}), limit, n).marks, limit);
      assert false;
    }
  }
}
