/**
 One round of xptMiner/keccak.c: the THETA, RHO, KHI and IOTA macros on 25 named words, the renaming
 that replaces the pi step, and the lane-complement representation.
 */
module KeccakRound {
  import opened Lanes
  import opened KeccakSpec
  import opened KeccakWords

  // ----- naming the words -----

  /** An argument list b00, b01, ..., b44 of a macro: 25 different words, the first one a00. */
  ghost predicate IsNaming(p: seq<nat>) {
    && |p| == 25
    && (forall q :: 0 <= q < 25 ==> p[q] < 25)
    && (forall q, r :: 0 <= q < r < 25 ==> p[q] != p[r])
    && p[0] == a00
  }

  /** The state that the words hold when they are read in the order of an argument list. */
  ghost function View(words: seq<Lane>, p: seq<nat>): State
    requires |words| == 25 && IsNaming(p)
  {
    seq(25, q requires 0 <= q < 25 => words[p[q]])
  }

  /** s renames r by one pi step: what s calls (x, y) is what r calls (x + 3y, x). */
  ghost predicate PiRenames(r: seq<nat>, s: seq<nat>)
    requires |r| == 25 && |s| == 25
  {
    forall q :: 0 <= q < 25 ==> s[q] == r[PiSource(q)]
  }

  lemma RenamingIsPi(words: seq<Lane>, r: seq<nat>, s: seq<nat>)
    requires |words| == 25 && IsNaming(r) && IsNaming(s) && PiRenames(r, s)
    ensures View(words, s) == Pi(View(words, r))
  {
    hide PiSource;
  }

  // ----- the lane complement -----

  /** The lanes, as positions 5*x + y, that the code keeps complemented between rounds: words 1, 2, 8, 12, 17, 20. */
  predicate Kept(q: nat) {
    q == 4 || q == 5 || q == 10 || q == 12 || q == 13 || q == 16
  }

  // The columns whose theta effect comes out complemented.
  predicate EffectFlips(x: nat) {
    x == 0 || x == 3
  }

  // The complemented lanes after theta and rho, and after pi, which is what KHI receives.
  predicate AfterTheta(q: nat) {
    Kept(q) != EffectFlips(q / 5)
  }

  predicate BeforeKhi(q: nat) {
    q == 0 || q == 1 || q == 2 || q == 4 || q == 8 || q == 10 || q == 11 || q == 12 || q == 15 || q == 18 || q == 19
      || q == 23
  }

  /** The state with the kept lanes complemented. */
  function Masked(A: State): State {
    seq(25, q requires 0 <= q < 25 => Xor(A[q], Flip(Kept(q))))
  }

  function ThetaMasked(A: State): State {
    seq(25, q requires 0 <= q < 25 => Xor(A[q], Flip(AfterTheta(q))))
  }

  function KhiMasked(A: State): State {
    seq(25, q requires 0 <= q < 25 => Xor(A[q], Flip(BeforeKhi(q))))
  }

  lemma MaskedTwice(A: State)
    ensures Masked(Masked(A)) == A
  {
    forall q | 0 <= q < 25
      ensures Masked(Masked(A))[q] == A[q]
    {
      XorCancels(A[q], Flip(Kept(q)));
      hide Kept, Flip, Xor;
    }
  }

  // ----- theta -----

  predicate Odd(m0: bool, m1: bool, m2: bool, m3: bool, m4: bool) {
    ((((m0 != m1) != m2) != m3) != m4)
  }

  lemma ColumnXor(a0: Lane, a1: Lane, a2: Lane, a3: Lane, a4: Lane, m0: bool, m1: bool, m2: bool, m3: bool, m4: bool)
    ensures Xor(Xor(Xor(Xor(Xor(a0, Flip(m0)), Xor(a1, Flip(m1))), Xor(a2, Flip(m2))), Xor(a3, Flip(m3))),
        Xor(a4, Flip(m4)))
         == Xor(Xor(Xor(Xor(Xor(a0, a1), a2), a3), a4), Flip(Odd(m0, m1, m2, m3, m4)))
  {
    hide Xor, Flip;
    var m01 := m0 != m1;
    var m02 := m01 != m2;
    var m03 := m02 != m3;
    var s1, s2, s3 := Xor(a0, a1), Xor(Xor(a0, a1), a2), Xor(Xor(Xor(a0, a1), a2), a3);
    XorSwap(a0, Flip(m0), a1, Flip(m1));
    FlipXor(m0, m1);
    XorSwap(s1, Flip(m01), a2, Flip(m2));
    FlipXor(m01, m2);
    XorSwap(s2, Flip(m02), a3, Flip(m3));
    FlipXor(m02, m3);
    XorSwap(s3, Flip(m03), a4, Flip(m4));
    FlipXor(m03, m4);
  }

  /** Every column but the last has an odd number of complemented lanes. */
  lemma KeptParity(x: nat)
    requires x < 5
    ensures Odd(Kept(5 * x), Kept(5 * x + 1), Kept(5 * x + 2), Kept(5 * x + 3), Kept(5 * x + 4)) == (x < 4)
  {
  }

  lemma MaskedAt(A: State, q: nat)
    requires q < 25
    ensures Masked(A)[q] == Xor(A[q], Flip(Kept(q)))
  {
  }

  lemma ColumnUnfolds(A: State, x: nat)
    requires x < 5
    ensures Column(A, x) == Xor(Xor(Xor(Xor(A[5 * x], A[5 * x + 1]), A[5 * x + 2]), A[5 * x + 3]), A[5 * x + 4])
  {
  }

  lemma ColumnFlips(A: State, x: nat)
    requires x < 5
    ensures Column(Masked(A), x) == Xor(Column(A, x), Flip(x < 4))
  {
    hide *;
    var i := 5 * x;
    ColumnUnfolds(A, x);
    ColumnUnfolds(Masked(A), x);
    MaskedAt(A, i); MaskedAt(A, i + 1); MaskedAt(A, i + 2); MaskedAt(A, i + 3); MaskedAt(A, i + 4);
    ColumnXor(A[i], A[i + 1], A[i + 2], A[i + 3], A[i + 4], Kept(i), Kept(i + 1), Kept(i + 2), Kept(i + 3),
      Kept(i + 4));
    KeptParity(x);
  }

  lemma RotFlip(v: Lane, m: bool)
    ensures Rot(Xor(v, Flip(m)), 1) == Xor(Rot(v, 1), Flip(m))
  {
    hide Xor, Rot;
    RotOnes1(v);
    XorNothing(v);
    XorNothing(Rot(v, 1));
  }

  lemma EffectFlipped(A: State, x: nat)
    requires x < 5
    ensures ColumnEffect(Masked(A), x) == Xor(ColumnEffect(A, x), Flip(EffectFlips(x)))
  {
    hide Xor, Flip, Rot, Column, Masked;
    var l, r := (x + 4) % 5, (x + 1) % 5;
    ColumnFlips(A, l);
    ColumnFlips(A, r);
    RotFlip(Column(A, r), r < 4);
    XorSwap(Column(A, l), Flip(l < 4), Rot(Column(A, r), 1), Flip(r < 4));
    FlipXor(l < 4, r < 4);
  }

  lemma ThetaOnMasked(A: State)
    ensures Theta(Masked(A)) == ThetaMasked(Theta(A))
  {
    hide Xor, Flip, Kept, EffectFlips, ColumnEffect;
    forall q | 0 <= q < 25
      ensures Theta(Masked(A))[q] == ThetaMasked(Theta(A))[q]
    {
      EffectFlipped(A, q / 5);
      XorSwap(A[q], Flip(Kept(q)), ColumnEffect(A, q / 5), Flip(EffectFlips(q / 5)));
      FlipXor(Kept(q), EffectFlips(q / 5));
    }
  }

  // ----- rho and pi -----

  // One law for each rotation of a complemented lane.
  lemma RotOnes0(v: Lane) ensures Rot(Xor(v, ONES), 0) == Xor(Rot(v, 0), ONES) { }
  lemma RotOnes36(v: Lane) ensures Rot(Xor(v, ONES), 36) == Xor(Rot(v, 36), ONES) { }
  lemma RotOnes3(v: Lane) ensures Rot(Xor(v, ONES), 3) == Xor(Rot(v, 3), ONES) { }
  lemma RotOnes41(v: Lane) ensures Rot(Xor(v, ONES), 41) == Xor(Rot(v, 41), ONES) { }
  lemma RotOnes1(v: Lane) ensures Rot(Xor(v, ONES), 1) == Xor(Rot(v, 1), ONES) { }
  lemma RotOnes62(v: Lane) ensures Rot(Xor(v, ONES), 62) == Xor(Rot(v, 62), ONES) { }
  lemma RotOnes43(v: Lane) ensures Rot(Xor(v, ONES), 43) == Xor(Rot(v, 43), ONES) { }
  lemma RotOnes15(v: Lane) ensures Rot(Xor(v, ONES), 15) == Xor(Rot(v, 15), ONES) { }
  lemma RotOnes28(v: Lane) ensures Rot(Xor(v, ONES), 28) == Xor(Rot(v, 28), ONES) { }
  lemma RotOnes25(v: Lane) ensures Rot(Xor(v, ONES), 25) == Xor(Rot(v, 25), ONES) { }
  lemma RotOnes21(v: Lane) ensures Rot(Xor(v, ONES), 21) == Xor(Rot(v, 21), ONES) { }
  lemma RotOnes56(v: Lane) ensures Rot(Xor(v, ONES), 56) == Xor(Rot(v, 56), ONES) { }

  lemma RotOnes(v: Lane, q: nat)
    requires q < 25 && AfterTheta(q)
    ensures Rot(Xor(v, ONES), Offset(q)) == Xor(Rot(v, Offset(q)), ONES)
  {
    hide Xor, Rot;
    match q
    case 0 => RotOnes0(v);
    case 1 => RotOnes36(v);
    case 2 => RotOnes3(v);
    case 3 => RotOnes41(v);
    case 5 => RotOnes1(v);
    case 10 => RotOnes62(v);
    case 12 => RotOnes43(v);
    case 13 => RotOnes15(v);
    case 15 => RotOnes28(v);
    case 17 => RotOnes25(v);
    case 18 => RotOnes21(v);
    case _ => RotOnes56(v);
  }

  lemma RhoOnMasked(A: State)
    ensures Rho(ThetaMasked(A)) == ThetaMasked(Rho(A))
  {
    hide Xor, Rot, AfterTheta, Offset;
    forall q | 0 <= q < 25
      ensures Rho(ThetaMasked(A))[q] == ThetaMasked(Rho(A))[q]
    {
      if AfterTheta(q) {
        RotOnes(A[q], q);
      } else {
        XorNothing(A[q]);
        XorNothing(Rot(A[q], Offset(q)));
      }
    }
  }

  lemma PiOnMasked(A: State)
    ensures Pi(ThetaMasked(A)) == KhiMasked(Pi(A))
  {
    hide Xor, Flip, AfterTheta, BeforeKhi, PiSource;
    forall q | 0 <= q < 25
      ensures Pi(ThetaMasked(A))[q] == KhiMasked(Pi(A))[q]
    {
      PiMovesFlip(q);
    }
  }

  lemma PiTable()
    ensures PiSource(0) == 0 && PiSource(1) == 15 && PiSource(2) == 5 && PiSource(3) == 20 && PiSource(4) == 10
    ensures PiSource(5) == 6 && PiSource(6) == 21 && PiSource(7) == 11 && PiSource(8) == 1 && PiSource(9) == 16
    ensures PiSource(10) == 12 && PiSource(11) == 2 && PiSource(12) == 17 && PiSource(13) == 7 && PiSource(14) == 22
    ensures PiSource(15) == 18 && PiSource(16) == 8 && PiSource(17) == 23 && PiSource(18) == 13 && PiSource(19) == 3
    ensures PiSource(20) == 24 && PiSource(21) == 14 && PiSource(22) == 4 && PiSource(23) == 19 && PiSource(24) == 9
  {
  }

  lemma PiMovesFlip(q: nat)
    requires q < 25
    ensures BeforeKhi(q) == AfterTheta(PiSource(q))
  {
    hide PiSource;
    PiTable();
    assert q == 0 || q == 1 || q == 2 || q == 3 || q == 4 || q == 5 || q == 6 || q == 7 || q == 8 || q == 9 || q == 10
      || q == 11 || q == 12
      || q == 13 || q == 14 || q == 15 || q == 16 || q == 17 || q == 18 || q == 19 || q == 20 || q == 21 || q == 22
        || q == 23 || q == 24;
  }

  // ----- KHI -----

  function KhiXO(a: Lane, b: Lane, c: Lane): Lane {
    Xor(a, Or(b, c))
  }

  function KhiXA(a: Lane, b: Lane, c: Lane): Lane {
    Xor(a, And(b, c))
  }

  /** Five lanes of equal y, in the order of x. */
  datatype Row = Row(b0: Lane, b1: Lane, b2: Lane, b3: Lane, b4: Lane) {
    function At(x: nat): Lane {
      match x case 0 => b0 case 1 => b1 case 2 => b2 case 3 => b3 case _ => b4
    }
  }

  /** What KHI computes for one row y out of its five lanes; every row uses its own mix of the two forms. */
  function KhiRow(y: nat, b0: Lane, b1: Lane, b2: Lane, b3: Lane, b4: Lane): Row {
    match y
    case 0 => Row(KhiXO(b0, b1, b2), KhiXO(b1, Not(b2), b3), KhiXA(b2, b3, b4), KhiXO(b3, b4, b0), KhiXA(b4, b0, b1))
    case 1 => Row(KhiXO(b0, b1, b2), KhiXA(b1, b2, b3), KhiXO(b2, b3, Not(b4)), KhiXO(b3, b4, b0), KhiXA(b4, b0, b1))
    case 2 => Row(KhiXO(b0, b1, b2), KhiXA(b1, b2, b3), KhiXA(b2, Not(b3), b4), KhiXO(Not(b3), b4, b0),
      KhiXA(b4, b0, b1))
    case 3 => Row(KhiXA(b0, b1, b2), KhiXO(b1, b2, b3), KhiXO(b2, Not(b3), b4), KhiXA(Not(b3), b4, b0),
      KhiXO(b4, b0, b1))
    case _ => Row(KhiXA(b0, Not(b1), b2), KhiXO(Not(b1), b2, b3), KhiXA(b2, b3, b4), KhiXO(b3, b4, b0),
      KhiXA(b4, b0, b1))
  }

  /** The five lanes of row y. */
  function RowOf(A: State, y: nat): Row
    requires y < 5
  {
    Row(A[y], A[5 + y], A[10 + y], A[15 + y], A[20 + y])
  }

  function KhiOf(y: nat, r: Row): Row {
    KhiRow(y, r.b0, r.b1, r.b2, r.b3, r.b4)
  }

  function Khi(A: State): State {
    seq(25, q requires 0 <= q < 25 => KhiOf(q % 5, RowOf(A, q % 5)).At(q / 5))
  }

  /** The OR form: with c received complemented and b plain it yields chi, complemented once more than a. */
  lemma KhiXOLaw(a: Lane, b: Lane, c: Lane, m: bool)
    ensures KhiXO(Xor(a, Flip(m)), Xor(b, Flip(false)), Xor(c, Flip(true))) == Xor(ChiLane(a, b, c), Flip(!m))
  {
    hide Or, And, Not, Xor;
    XorNothing(b);
    OrComplement(b, c);
    XorSwap(a, Flip(m), And(Not(b), c), ONES);
    FlipXor(m, true);
  }

  /** The AND form: with b received complemented and c plain it yields chi, complemented like a. */
  lemma KhiXALaw(a: Lane, b: Lane, c: Lane, m: bool)
    ensures KhiXA(Xor(a, Flip(m)), Xor(b, Flip(true)), Xor(c, Flip(false))) == Xor(ChiLane(a, b, c), Flip(m))
  {
    hide And, Not, Xor;
    NotIsXor(b);
    XorNothing(c);
    XorNothing(And(Not(b), c));
    XorSwap(a, Flip(m), And(Not(b), c), ZERO);
    FlipXor(m, false);
  }

  lemma NotFlips(a: Lane, m: bool)
    ensures Not(Xor(a, Flip(m))) == Xor(a, Flip(!m))
  {
    hide Not, Xor;
    NotIsXor(Xor(a, Flip(m)));
    XorAssociates(a, Flip(m), Flip(true));
    FlipXor(m, true);
  }

  // Row by row, KHI on the complemented lanes it receives is chi up to the kept complement.

  lemma KhiRow0(a0: Lane, a1: Lane, a2: Lane, a3: Lane, a4: Lane)
    ensures KhiRow(0, Xor(a0, Flip(true)), Xor(a1, Flip(false)), Xor(a2, Flip(true)), Xor(a3, Flip(true)),
        Xor(a4, Flip(false))) ==
      Row(Xor(ChiLane(a0, a1, a2), Flip(false)), Xor(ChiLane(a1, a2, a3), Flip(true)),
        Xor(ChiLane(a2, a3, a4), Flip(true)),
       Xor(ChiLane(a3, a4, a0), Flip(false)), Xor(ChiLane(a4, a0, a1), Flip(false)))
  {
    hide Xor, Not, KhiXO, KhiXA, ChiLane, Flip;
    NotFlips(a2, true);
    KhiXOLaw(a0, a1, a2, true); KhiXOLaw(a1, a2, a3, false); KhiXALaw(a2, a3, a4, true);
    KhiXOLaw(a3, a4, a0, true); KhiXALaw(a4, a0, a1, false);
  }

  lemma KhiRow1(a0: Lane, a1: Lane, a2: Lane, a3: Lane, a4: Lane)
    ensures KhiRow(1, Xor(a0, Flip(true)), Xor(a1, Flip(false)), Xor(a2, Flip(true)), Xor(a3, Flip(false)),
        Xor(a4, Flip(false))) ==
      Row(Xor(ChiLane(a0, a1, a2), Flip(false)), Xor(ChiLane(a1, a2, a3), Flip(false)),
        Xor(ChiLane(a2, a3, a4), Flip(false)),
       Xor(ChiLane(a3, a4, a0), Flip(true)), Xor(ChiLane(a4, a0, a1), Flip(false)))
  {
    hide Xor, Not, KhiXO, KhiXA, ChiLane, Flip;
    NotFlips(a4, false);
    KhiXOLaw(a0, a1, a2, true); KhiXALaw(a1, a2, a3, false); KhiXOLaw(a2, a3, a4, true);
    KhiXOLaw(a3, a4, a0, false); KhiXALaw(a4, a0, a1, false);
  }

  lemma KhiRow2(a0: Lane, a1: Lane, a2: Lane, a3: Lane, a4: Lane)
    ensures KhiRow(2, Xor(a0, Flip(true)), Xor(a1, Flip(false)), Xor(a2, Flip(true)), Xor(a3, Flip(false)),
        Xor(a4, Flip(false))) ==
      Row(Xor(ChiLane(a0, a1, a2), Flip(false)), Xor(ChiLane(a1, a2, a3), Flip(false)),
        Xor(ChiLane(a2, a3, a4), Flip(true)),
       Xor(ChiLane(a3, a4, a0), Flip(false)), Xor(ChiLane(a4, a0, a1), Flip(false)))
  {
    hide Xor, Not, KhiXO, KhiXA, ChiLane, Flip;
    NotFlips(a3, false);
    KhiXOLaw(a0, a1, a2, true); KhiXALaw(a1, a2, a3, false); KhiXALaw(a2, a3, a4, true);
    KhiXOLaw(a3, a4, a0, true); KhiXALaw(a4, a0, a1, false);
  }

  lemma KhiRow3(a0: Lane, a1: Lane, a2: Lane, a3: Lane, a4: Lane)
    ensures KhiRow(3, Xor(a0, Flip(false)), Xor(a1, Flip(true)), Xor(a2, Flip(false)), Xor(a3, Flip(true)),
        Xor(a4, Flip(true))) ==
      Row(Xor(ChiLane(a0, a1, a2), Flip(false)), Xor(ChiLane(a1, a2, a3), Flip(false)),
        Xor(ChiLane(a2, a3, a4), Flip(true)),
       Xor(ChiLane(a3, a4, a0), Flip(false)), Xor(ChiLane(a4, a0, a1), Flip(false)))
  {
    hide Xor, Not, KhiXO, KhiXA, ChiLane, Flip;
    NotFlips(a3, true);
    KhiXALaw(a0, a1, a2, false); KhiXOLaw(a1, a2, a3, true); KhiXOLaw(a2, a3, a4, false);
    KhiXALaw(a3, a4, a0, false); KhiXOLaw(a4, a0, a1, true);
  }

  lemma KhiRow4(a0: Lane, a1: Lane, a2: Lane, a3: Lane, a4: Lane)
    ensures KhiRow(4, Xor(a0, Flip(true)), Xor(a1, Flip(false)), Xor(a2, Flip(false)), Xor(a3, Flip(true)),
        Xor(a4, Flip(false))) ==
      Row(Xor(ChiLane(a0, a1, a2), Flip(true)), Xor(ChiLane(a1, a2, a3), Flip(false)),
        Xor(ChiLane(a2, a3, a4), Flip(false)),
       Xor(ChiLane(a3, a4, a0), Flip(false)), Xor(ChiLane(a4, a0, a1), Flip(false)))
  {
    hide Xor, Not, KhiXO, KhiXA, ChiLane, Flip;
    NotFlips(a1, false);
    KhiXALaw(a0, a1, a2, true); KhiXOLaw(a1, a2, a3, true); KhiXALaw(a2, a3, a4, false);
    KhiXOLaw(a3, a4, a0, true); KhiXALaw(a4, a0, a1, false);
  }

  lemma LanesAt(A: State, q: nat)
    requires q < 25
    ensures KhiMasked(A)[q] == Xor(A[q], Flip(BeforeKhi(q)))
    ensures Masked(Chi(A))[q] == Xor(ChiLane(A[q], A[Next(q)], A[Next(Next(q))]), Flip(Kept(q)))
  {
    hide Xor, Flip, BeforeKhi, Kept, ChiLane, Next;
  }

  /** Which lanes of row y KHI receives complemented, which it keeps complemented, and who is next to whom. */
  lemma RowFlips(y: nat)
    requires y < 5
    ensures Next(y) == 5 + y && Next(5 + y) == 10 + y && Next(10 + y) == 15 + y && Next(15 + y) == 20 + y
        && Next(20 + y) == y
  {
  }

  lemma Row0IsChi(A: State)
    ensures KhiOf(0, RowOf(KhiMasked(A), 0)) == RowOf(Masked(Chi(A)), 0)
  {
    hide Xor, Flip, KhiRow, ChiLane, KhiMasked, Masked, Chi, Next;
    RowFlips(0);
    LanesAt(A, 0); LanesAt(A, 5); LanesAt(A, 10); LanesAt(A, 15); LanesAt(A, 20);
    KhiRow0(A[0], A[5], A[10], A[15], A[20]);
  }

  lemma Row1IsChi(A: State)
    ensures KhiOf(1, RowOf(KhiMasked(A), 1)) == RowOf(Masked(Chi(A)), 1)
  {
    hide Xor, Flip, KhiRow, ChiLane, KhiMasked, Masked, Chi, Next;
    RowFlips(1);
    LanesAt(A, 1); LanesAt(A, 6); LanesAt(A, 11); LanesAt(A, 16); LanesAt(A, 21);
    KhiRow1(A[1], A[6], A[11], A[16], A[21]);
  }

  lemma Row2IsChi(A: State)
    ensures KhiOf(2, RowOf(KhiMasked(A), 2)) == RowOf(Masked(Chi(A)), 2)
  {
    hide Xor, Flip, KhiRow, ChiLane, KhiMasked, Masked, Chi, Next;
    RowFlips(2);
    LanesAt(A, 2); LanesAt(A, 7); LanesAt(A, 12); LanesAt(A, 17); LanesAt(A, 22);
    KhiRow2(A[2], A[7], A[12], A[17], A[22]);
  }

  lemma Row3IsChi(A: State)
    ensures KhiOf(3, RowOf(KhiMasked(A), 3)) == RowOf(Masked(Chi(A)), 3)
  {
    hide Xor, Flip, KhiRow, ChiLane, KhiMasked, Masked, Chi, Next;
    RowFlips(3);
    LanesAt(A, 3); LanesAt(A, 8); LanesAt(A, 13); LanesAt(A, 18); LanesAt(A, 23);
    KhiRow3(A[3], A[8], A[13], A[18], A[23]);
  }

  lemma Row4IsChi(A: State)
    ensures KhiOf(4, RowOf(KhiMasked(A), 4)) == RowOf(Masked(Chi(A)), 4)
  {
    hide Xor, Flip, KhiRow, ChiLane, KhiMasked, Masked, Chi, Next;
    RowFlips(4);
    LanesAt(A, 4); LanesAt(A, 9); LanesAt(A, 14); LanesAt(A, 19); LanesAt(A, 24);
    KhiRow4(A[4], A[9], A[14], A[19], A[24]);
  }

  lemma RowAt(A: State, q: nat)
    requires q < 25
    ensures RowOf(A, q % 5).At(q / 5) == A[q]
  {
  }

  lemma KhiAt(A: State, q: nat)
    requires q < 25
    ensures Khi(A)[q] == KhiOf(q % 5, RowOf(A, q % 5)).At(q / 5)
  {
    hide KhiOf;
  }

  lemma KhiOnMasked(A: State)
    ensures Khi(KhiMasked(A)) == Masked(Chi(A))
  {
    hide *;
    Row0IsChi(A);
    Row1IsChi(A);
    Row2IsChi(A);
    Row3IsChi(A);
    Row4IsChi(A);
    forall q | 0 <= q < 25
      ensures Khi(KhiMasked(A))[q] == Masked(Chi(A))[q]
    {
      KhiAt(KhiMasked(A), q);
      RowAt(Masked(Chi(A)), q);
      assert q % 5 == 0 || q % 5 == 1 || q % 5 == 2 || q % 5 == 3 || q % 5 == 4;
    }
  }

  /** Lane-complement simulation of one round: THETA, RHO, renaming, KHI and IOTA on the masked state. */
  lemma RoundOnMasked(A: State, rc: Lane)
    ensures Iota(Khi(Pi(Rho(Theta(Masked(A))))), rc) == Masked(Round(A, rc))
  {
    hide Theta, Rho, Pi, Khi, Chi, ThetaMasked, KhiMasked;
    ThetaOnMasked(A);
    RhoOnMasked(Theta(A));
    PiOnMasked(Rho(Theta(A)));
    KhiOnMasked(Pi(Rho(Theta(A))));
    IotaOnMasked(Chi(Pi(Rho(Theta(A)))), rc);
  }

  lemma IotaOnMasked(A: State, rc: Lane)
    ensures Iota(Masked(A), rc) == Masked(Iota(A, rc))
  {
    hide Xor;
    XorNothing(A[0]);
    XorNothing(Xor(A[0], rc));
  }
}
