/**
 How many primes there are below a bound: the argument behind the allocation size
 limit/4+10 of the prime tables in xptMiner/riecoinMiner.cpp and riecoinMiner_1.cpp.
 */
module PrimeCounting {
  import opened NumberTheory

  ghost function PrimeCount(n: nat): nat {
    if n == 0 then 0 else PrimeCount(n - 1) + if Prime(n - 1) then 1 else 0
  }

  /** The spokes of the wheel modulo 210 = 2*3*5*7. */
  predicate Spoke(m: nat) {
    m % 2 != 0 && m % 3 != 0 && m % 5 != 0 && m % 7 != 0
  }

  function SpokeCount(n: nat): nat {
    if n == 0 then 0 else SpokeCount(n - 1) + if Spoke(n - 1) then 1 else 0
  }

  function One(m: nat): nat {
    if Spoke(m) then 1 else 0
  }

  lemma MultipleIsNoSpoke(k: nat, d: nat)
    requires d == 2 || d == 3 || d == 5
    ensures One(d * k) == 0
  {
    MultipleIsDivisible(k, d);
  }

  lemma CountOne(n: nat)
    ensures SpokeCount(n + 1) == SpokeCount(n) + One(n)
  {
  }

  /** Of six consecutive numbers only two can be spokes. */
  lemma Sixth(k: nat)
    ensures SpokeCount(6 * k + 6) == SpokeCount(6 * k) + One(6 * k + 1) + One(6 * k + 5)
    ensures SpokeCount(6 * k + 1) == SpokeCount(6 * k)
    ensures SpokeCount(6 * k + 2) == SpokeCount(6 * k + 3) == SpokeCount(6 * k + 4) == SpokeCount(6 * k + 5)
            == SpokeCount(6 * k) + One(6 * k + 1)
  {
    hide *;
    CountOne(6 * k); CountOne(6 * k + 1); CountOne(6 * k + 2);
    CountOne(6 * k + 3); CountOne(6 * k + 4); CountOne(6 * k + 5);
    MultipleIsNoSpoke(3 * k, 2);
    MultipleIsNoSpoke(3 * k + 1, 2);
    MultipleIsNoSpoke(2 * k + 1, 3);
    MultipleIsNoSpoke(3 * k + 2, 2);
  }

  lemma AtMostOne(m: nat)
    ensures One(m) <= 1
  {
  }

  lemma {:induction false} AtMostAThird(k: nat, t: nat)
    ensures SpokeCount(6 * k + t) <= SpokeCount(6 * k) + t / 3 + 1
    decreases t
  {
    hide *;
    Sixth(k);
    AtMostOne(6 * k + 1);
    AtMostOne(6 * k + 5);
    if t >= 6 {
      AtMostAThird(k + 1, t - 6);
      assert 6 * (k + 1) + (t - 6) == 6 * k + t;
    } else {
      assert t == 0 || t == 1 || t == 2 || t == 3 || t == 4 || t == 5;
    }
  }

  /** Of thirty consecutive numbers only eight can be spokes. */
  lemma Thirty(k: nat)
    ensures SpokeCount(30 * k + 30) == SpokeCount(30 * k) + One(30 * k + 1) + One(30 * k + 7) + One(30 * k + 11)
        + One(30 * k + 13)
                                       + One(30 * k + 17) + One(30 * k + 19) + One(30 * k + 23) + One(30 * k + 29)
  {
    hide *;
    Sixth(5 * k); Sixth(5 * k + 1); Sixth(5 * k + 2); Sixth(5 * k + 3); Sixth(5 * k + 4);
    MultipleIsNoSpoke(6 * k + 1, 5);
    MultipleIsNoSpoke(6 * k + 5, 5);
  }

  /** The multiples of 7 among the 56 candidates of one turn. */
  lemma TurnSpokes()
    ensures One(1) == 1 && One(7) == 0 && One(11) == 1 && One(13) == 1 && One(17) == 1 && One(19) == 1 && One(23) == 1
      && One(29) == 1
    ensures One(31) == 1 && One(37) == 1 && One(41) == 1 && One(43) == 1 && One(47) == 1 && One(49) == 0
      && One(53) == 1 && One(59) == 1
    ensures One(61) == 1 && One(67) == 1 && One(71) == 1 && One(73) == 1 && One(77) == 0 && One(79) == 1
      && One(83) == 1 && One(89) == 1
    ensures One(91) == 0 && One(97) == 1 && One(101) == 1 && One(103) == 1 && One(107) == 1 && One(109) == 1
      && One(113) == 1 && One(119) == 0
    ensures One(121) == 1 && One(127) == 1 && One(131) == 1 && One(133) == 0 && One(137) == 1 && One(139) == 1
      && One(143) == 1 && One(149) == 1
    ensures One(151) == 1 && One(157) == 1 && One(161) == 0 && One(163) == 1 && One(167) == 1 && One(169) == 1
      && One(173) == 1 && One(179) == 1
    ensures One(181) == 1 && One(187) == 1 && One(191) == 1 && One(193) == 1 && One(197) == 1 && One(199) == 1
      && One(203) == 0 && One(209) == 1
  {
  }

  /** The spokes of one whole turn of the wheel. */
  lemma FirstTurn()
    ensures SpokeCount(0) == 0 && SpokeCount(30) == 7 && SpokeCount(60) == 14 && SpokeCount(90) == 21
    ensures SpokeCount(120) == 27 && SpokeCount(150) == 34 && SpokeCount(180) == 41 && SpokeCount(210) == 48
  {
    hide *;
    EmptyCount();
    TurnSpokes();
    Thirty(0); Thirty(1); Thirty(2); Thirty(3); Thirty(4); Thirty(5); Thirty(6);
  }

  lemma EmptyCount()
    ensures SpokeCount(0) == 0
  {
  }

  lemma SpokesRepeat(m: nat)
    ensures Spoke(m + 210) == Spoke(m)
  {
    assert (m + 210) % 2 == m % 2;
    assert (m + 210) % 3 == m % 3;
    assert (m + 210) % 5 == m % 5;
    assert (m + 210) % 7 == m % 7;
  }

  lemma {:induction false} TurnIsPeriodic(n: nat)
    ensures SpokeCount(n + 210) == SpokeCount(n) + 48
  {
    hide Spoke;
    if n == 0 {
      FirstTurn();
    } else {
      TurnIsPeriodic(n - 1);
      SpokesRepeat(n - 1);
    }
  }

  lemma FirstTurnBound(n: nat)
    requires n < 210
    ensures SpokeCount(n) <= n / 4 + 6
  {
    FirstTurn();
    hide SpokeCount;
    var k := if n < 30 then 0 else if n < 60 then 5 else if n < 90 then 10 else if n < 120 then 15
             else if n < 150 then 20 else if n < 180 then 25 else 30;
    AtMostAThird(k, n - 6 * k);
  }

  lemma {:induction false} SpokeBound(n: nat)
    ensures SpokeCount(n) <= n / 4 + 6
  {
    if n < 210 {
      FirstTurnBound(n);
    } else {
      SpokeBound(n - 210);
      TurnIsPeriodic(n - 210);
    }
  }

  /** A prime is one of 2, 3, 5, 7 or a spoke. */
  lemma PrimeIsSpoke(p: int)
    requires Prime(p)
    ensures Spoke(p) || p == 2 || p == 3 || p == 5 || p == 7
  {
    assert p > 2 ==> !Divides(2, p);
    assert p > 3 ==> !Divides(3, p);
    assert p > 5 ==> !Divides(5, p);
    assert p > 7 ==> !Divides(7, p);
  }

  lemma {:induction false} PrimesAmongSpokes(n: nat)
    ensures PrimeCount(n) <= SpokeCount(n) + (if n > 7 then 4 else if n > 5 then 3 else if n > 3 then 2
        else if n > 2 then 1 else 0)
  {
    if n > 0 {
      PrimesAmongSpokes(n - 1);
      if Prime(n - 1) {
        PrimeIsSpoke(n - 1);
      }
    }
  }

  /** For every limit the table of limit/4+10 entries has room for all primes below the limit. */
  lemma PrimeCountBound(limit: nat)
    ensures PrimeCount(limit) <= limit / 4 + 10
  {
    PrimesAmongSpokes(limit);
    SpokeBound(limit);
  }

  lemma {:induction false} PrimeCountGrows(m: nat, n: nat)
    requires m <= n
    ensures PrimeCount(m) <= PrimeCount(n)
  {
    if m < n {
      PrimeCountGrows(m, n - 1);
    }
  }
}
