/**
 Keccak-f[1600] as xptMiner/keccak.c runs it: macros that overwrite 25 named words in place,
 rounds unrolled by eight or four under changing names, and a cyclic move-back of the words.
 */
module KeccakPermutation {
  import opened Lanes
  import opened KeccakSpec
  import opened KeccakWords
  import opened KeccakRound

  // ----- the argument lists of the unrolled rounds -----

  const P0: seq<nat> := [
    a00, a01, a02, a03, a04,
    a10, a11, a12, a13, a14,
    a20, a21, a22, a23, a24,
    a30, a31, a32, a33, a34,
    a40, a41, a42, a43, a44
  ]

  const P1: seq<nat> := [
    a00, a30, a10, a40, a20,
    a11, a41, a21, a01, a31,
    a22, a02, a32, a12, a42,
    a33, a13, a43, a23, a03,
    a44, a24, a04, a34, a14
  ]

  const P2: seq<nat> := [
    a00, a33, a11, a44, a22,
    a41, a24, a02, a30, a13,
    a32, a10, a43, a21, a04,
    a23, a01, a34, a12, a40,
    a14, a42, a20, a03, a31
  ]

  const P3: seq<nat> := [
    a00, a23, a41, a14, a32,
    a24, a42, a10, a33, a01,
    a43, a11, a34, a02, a20,
    a12, a30, a03, a21, a44,
    a31, a04, a22, a40, a13
  ]

  const P4: seq<nat> := [
    a00, a12, a24, a31, a43,
    a42, a04, a11, a23, a30,
    a34, a41, a03, a10, a22,
    a21, a33, a40, a02, a14,
    a13, a20, a32, a44, a01
  ]

  const P5: seq<nat> := [
    a00, a21, a42, a13, a34,
    a04, a20, a41, a12, a33,
    a03, a24, a40, a11, a32,
    a02, a23, a44, a10, a31,
    a01, a22, a43, a14, a30
  ]

  const P6: seq<nat> := [
    a00, a02, a04, a01, a03,
    a20, a22, a24, a21, a23,
    a40, a42, a44, a41, a43,
    a10, a12, a14, a11, a13,
    a30, a32, a34, a31, a33
  ]

  const P7: seq<nat> := [
    a00, a10, a20, a30, a40,
    a22, a32, a42, a02, a12,
    a44, a04, a14, a24, a34,
    a11, a21, a31, a41, a01,
    a33, a43, a03, a13, a23
  ]

  const P8: seq<nat> := [
    a00, a11, a22, a33, a44,
    a32, a43, a04, a10, a21,
    a14, a20, a31, a42, a03,
    a41, a02, a13, a24, a30,
    a23, a34, a40, a01, a12
  ]

  /** The lane that pi fills from lane r. */
  function PiTarget(r: nat): nat {
    5 * (r % 5) + (2 * (r / 5 + 5 - r % 5)) % 5
  }

  lemma PiSourceInjective(q: nat)
    requires q < 25
    ensures PiTarget(PiSource(q)) == q
  {
    PiTable();
    hide PiSource;
    assert q == 0 || q == 1 || q == 2 || q == 3 || q == 4 || q == 5 || q == 6 || q == 7 || q == 8 || q == 9 || q == 10
      || q == 11 || q == 12
      || q == 13 || q == 14 || q == 15 || q == 16 || q == 17 || q == 18 || q == 19 || q == 20 || q == 21 || q == 22
        || q == 23 || q == 24;
  }

  /** A pi step turns a naming into a naming. */
  lemma RenamingIsNaming(r: seq<nat>, s: seq<nat>)
    requires IsNaming(r) && |s| == 25 && PiRenames(r, s)
    ensures IsNaming(s)
  {
    assert PiSource(0) == 0;
    forall q, q' | 0 <= q < q' < 25
      ensures s[q] != s[q']
    {
      PiSourceInjective(q);
      PiSourceInjective(q');
      hide PiSource, PiTarget;
    }
    hide PiSource;
    forall q | 0 <= q < 25
      ensures s[q] < 25
    {
      assert s[q] == r[PiSource(q)];
    }
  }

  lemma FirstNaming()
    ensures IsNaming(P0)
  {
    // P0 transposes the state, so it is its own inverse
    assert forall q :: 0 <= q < 25 ==> P0[q] < 25 && P0[P0[q]] == q;
  }

  lemma Renaming0()
    ensures |P1| == 25 && PiRenames(P0, P1)
  {
    PiTable();
    hide PiSource;
  }

  lemma Renaming1()
    ensures |P2| == 25 && PiRenames(P1, P2)
  {
    PiTable();
    hide PiSource;
  }

  lemma Renaming2()
    ensures |P3| == 25 && PiRenames(P2, P3)
  {
    PiTable();
    hide PiSource;
  }

  lemma Renaming3()
    ensures |P4| == 25 && PiRenames(P3, P4)
  {
    PiTable();
    hide PiSource;
  }

  lemma Renaming4()
    ensures |P5| == 25 && PiRenames(P4, P5)
  {
    PiTable();
    hide PiSource;
  }

  lemma Renaming5()
    ensures |P6| == 25 && PiRenames(P5, P6)
  {
    PiTable();
    hide PiSource;
  }

  lemma Renaming6()
    ensures |P7| == 25 && PiRenames(P6, P7)
  {
    PiTable();
    hide PiSource;
  }

  lemma Renaming7()
    ensures |P8| == 25 && PiRenames(P7, P8)
  {
    PiTable();
    hide PiSource;
  }

  /** Nine naming lists, each the last one with its names moved by pi. */
  lemma Namings()
    ensures IsNaming(P0) && IsNaming(P1) && IsNaming(P2) && IsNaming(P3) && IsNaming(P4)
    ensures IsNaming(P5) && IsNaming(P6) && IsNaming(P7) && IsNaming(P8)
    ensures PiRenames(P0, P1) && PiRenames(P1, P2) && PiRenames(P2, P3) && PiRenames(P3, P4)
    ensures PiRenames(P4, P5) && PiRenames(P5, P6) && PiRenames(P6, P7) && PiRenames(P7, P8)
  {
    hide *;
    FirstNaming();
    Renaming0(); RenamingIsNaming(P0, P1);
    Renaming1(); RenamingIsNaming(P1, P2);
    Renaming2(); RenamingIsNaming(P2, P3);
    Renaming3(); RenamingIsNaming(P3, P4);
    Renaming4(); RenamingIsNaming(P4, P5);
    Renaming5(); RenamingIsNaming(P5, P6);
    Renaming6(); RenamingIsNaming(P6, P7);
    Renaming7(); RenamingIsNaming(P7, P8);
  }

  // ----- the macros -----

  /** TH_ELT: the theta effect from the columns to the left (c) and to the right (d). */
  function ThElt(c0: Lane, c1: Lane, c2: Lane, c3: Lane, c4: Lane, d0: Lane, d1: Lane, d2: Lane, d3: Lane,
                 d4: Lane): Lane {
    var tt0 := Xor(d0, d1);
    var tt1 := Xor(d2, d3);
    var tt0' := Rot(Xor(Xor(tt0, d4), tt1), 1);
    var tt2 := Xor(c0, c1);
    var tt3 := Xor(c2, c3);
    Xor(Xor(tt0', c4), Xor(tt2, tt3))
  }

  lemma ThEltIsEffect(A: State, x: nat, l: nat, r: nat)
    requires x < 5 && l == (x + 4) % 5 && r == (x + 1) % 5
    ensures ThElt(A[5 * l], A[5 * l + 1], A[5 * l + 2], A[5 * l + 3], A[5 * l + 4],
                  A[5 * r], A[5 * r + 1], A[5 * r + 2], A[5 * r + 3], A[5 * r + 4]) == ColumnEffect(A, x)
  {
    hide Xor, Rot;
    RegroupColumn(A[5 * r], A[5 * r + 1], A[5 * r + 2], A[5 * r + 3], A[5 * r + 4]);
    RegroupEffect(A[5 * l], A[5 * l + 1], A[5 * l + 2], A[5 * l + 3], A[5 * l + 4], Rot(Column(A, r), 1));
  }

  lemma RegroupColumn(a: Lane, b: Lane, c: Lane, d: Lane, e: Lane)
    ensures Xor(Xor(Xor(a, b), e), Xor(c, d)) == Xor(Xor(Xor(Xor(a, b), c), d), e)
  {
    hide *;
    XorSwap(Xor(a, b), e, c, d);
    XorCommutes(e, d);
    XorAssociates(Xor(Xor(a, b), c), d, e);
  }

  lemma RegroupEffect(a: Lane, b: Lane, c: Lane, d: Lane, e: Lane, t: Lane)
    ensures Xor(Xor(t, e), Xor(Xor(a, b), Xor(c, d))) == Xor(Xor(Xor(Xor(Xor(a, b), c), d), e), t)
  {
    hide *;
    XorAssociates(Xor(a, b), c, d);
    XorCommutes(Xor(t, e), Xor(Xor(Xor(a, b), c), d));
    XorCommutes(t, e);
    XorAssociates(Xor(Xor(Xor(a, b), c), d), e, t);
  }

  /** ThElt on two columns of the state, as THETA calls it. */
  function ThColumns(A: State, l: nat, r: nat): Lane
    requires l < 5 && r < 5
  {
    ThElt(A[5 * l], A[5 * l + 1], A[5 * l + 2], A[5 * l + 3], A[5 * l + 4],
          A[5 * r], A[5 * r + 1], A[5 * r + 2], A[5 * r + 3], A[5 * r + 4])
  }

  /** The five theta effects t0..t4 of the words that p names. */
  method ThetaEffects(a: array<Lane>, p: seq<nat>) returns (t: seq<Lane>)
    requires a.Length == 25 && IsNaming(p)
    ensures |t| == 5
    ensures forall x :: 0 <= x < 5 ==> t[x] == ColumnEffect(View(a[..], p), x)
  {
    hide ThElt, ColumnEffect;
    var t0 := ThElt(a[p[20]], a[p[21]], a[p[22]], a[p[23]], a[p[24]], a[p[5]], a[p[6]], a[p[7]], a[p[8]], a[p[9]]);
    var t1 := ThElt(a[p[0]], a[p[1]], a[p[2]], a[p[3]], a[p[4]], a[p[10]], a[p[11]], a[p[12]], a[p[13]], a[p[14]]);
    var t2 := ThElt(a[p[5]], a[p[6]], a[p[7]], a[p[8]], a[p[9]], a[p[15]], a[p[16]], a[p[17]], a[p[18]], a[p[19]]);
    var t3 := ThElt(a[p[10]], a[p[11]], a[p[12]], a[p[13]], a[p[14]], a[p[20]], a[p[21]], a[p[22]], a[p[23]], a[p[24]]);
    var t4 := ThElt(a[p[15]], a[p[16]], a[p[17]], a[p[18]], a[p[19]], a[p[0]], a[p[1]], a[p[2]], a[p[3]], a[p[4]]);
    t := [t0, t1, t2, t3, t4];
    ghost var A := View(a[..], p);
    assert t0 == ThColumns(A, 4, 1) && t1 == ThColumns(A, 0, 2) && t2 == ThColumns(A, 1, 3);
    assert t3 == ThColumns(A, 2, 4) && t4 == ThColumns(A, 3, 0);
    hide ThColumns, IsNaming, View;
    ColumnsGiveEffects(A);
  }

  lemma ColumnsGiveEffects(A: State)
    ensures ThColumns(A, 4, 1) == ColumnEffect(A, 0) && ThColumns(A, 0, 2) == ColumnEffect(A, 1)
    ensures ThColumns(A, 1, 3) == ColumnEffect(A, 2) && ThColumns(A, 2, 4) == ColumnEffect(A, 3)
    ensures ThColumns(A, 3, 0) == ColumnEffect(A, 4)
  {
    hide ThElt, ColumnEffect;
    ThEltIsEffect(A, 0, 4, 1);
    ThEltIsEffect(A, 1, 0, 2);
    ThEltIsEffect(A, 2, 1, 3);
    ThEltIsEffect(A, 3, 2, 4);
    ThEltIsEffect(A, 4, 3, 0);
  }

  /** THETA on the words that p names. */
  method ThetaMacro(a: array<Lane>, p: seq<nat>)
    requires a.Length == 25 && IsNaming(p)
    modifies a
    ensures View(a[..], p) == Theta(View(old(a[..]), p))
  {
    hide Xor, ColumnEffect;
    var t := ThetaEffects(a, p);
    forall q | 0 <= q < 25 {
      a[p[q]] := Xor(a[p[q]], t[q / 5]);
    }
  }

  /** RHO on the words that p names. */
  method RhoMacro(a: array<Lane>, p: seq<nat>)
    requires a.Length == 25 && IsNaming(p)
    modifies a
    ensures View(a[..], p) == Rho(View(old(a[..]), p))
  {
    hide Rot, Offset;
    forall q | 0 <= q < 25 {
      a[p[q]] := Rot(a[p[q]], Offset(q));
    }
  }

  /** The state with row y replaced. */
  function WithRow(A: State, y: nat, r: Row): State {
    seq(25, q requires 0 <= q < 25 => if q % 5 == y then r.At(q / 5) else A[q])
  }

  lemma OtherRowsStay(A: State, y: nat, r: Row, z: nat)
    requires y < 5 && z < 5 && y != z
    ensures RowOf(WithRow(A, y, r), z) == RowOf(A, z)
  {
  }

  /** One row of KHI: five words are read, combined and written back. */
  method KhiRowMacro(a: array<Lane>, p: seq<nat>, y: nat)
    requires a.Length == 25 && IsNaming(p) && y < 5
    modifies a
    ensures View(a[..], p) == WithRow(View(old(a[..]), p), y, KhiOf(y, RowOf(View(old(a[..]), p), y)))
  {
    hide KhiRow;
    var r := KhiRow(y, a[p[y]], a[p[5 + y]], a[p[10 + y]], a[p[15 + y]], a[p[20 + y]]);
    assert r == KhiOf(y, RowOf(View(a[..], p), y));
    hide KhiOf, RowOf;
    a[p[y]], a[p[5 + y]], a[p[10 + y]], a[p[15 + y]], a[p[20 + y]] := r.b0, r.b1, r.b2, r.b3, r.b4;
  }

  lemma RowsGiveKhi(A: State, B0: State, B1: State, B2: State, B3: State, B4: State)
    requires B0 == WithRow(A, 0, KhiOf(0, RowOf(A, 0))) && B1 == WithRow(B0, 1, KhiOf(1, RowOf(B0, 1)))
    requires B2 == WithRow(B1, 2, KhiOf(2, RowOf(B1, 2))) && B3 == WithRow(B2, 3, KhiOf(3, RowOf(B2, 3)))
    requires B4 == WithRow(B3, 4, KhiOf(4, RowOf(B3, 4)))
    ensures B4 == Khi(A)
  {
    var r0, r1, r2, r3 := KhiOf(0, RowOf(A, 0)), KhiOf(1, RowOf(B0, 1)), KhiOf(2, RowOf(B1, 2)), KhiOf(3, RowOf(B2, 3));
    OtherRowsStay(A, 0, r0, 1); OtherRowsStay(A, 0, r0, 2); OtherRowsStay(A, 0, r0, 3); OtherRowsStay(A, 0, r0, 4);
    OtherRowsStay(B0, 1, r1, 2); OtherRowsStay(B0, 1, r1, 3); OtherRowsStay(B0, 1, r1, 4);
    OtherRowsStay(B1, 2, r2, 3); OtherRowsStay(B1, 2, r2, 4);
    OtherRowsStay(B2, 3, r3, 4);
    hide KhiOf, RowOf;
  }

  /** KHI on the words that p names. */
  method KhiMacro(a: array<Lane>, p: seq<nat>)
    requires a.Length == 25 && IsNaming(p)
    modifies a
    ensures View(a[..], p) == Khi(View(old(a[..]), p))
  {
    hide *;
    ghost var A := View(a[..], p);
    KhiRowMacro(a, p, 0);
    ghost var B0 := View(a[..], p);
    KhiRowMacro(a, p, 1);
    ghost var B1 := View(a[..], p);
    KhiRowMacro(a, p, 2);
    ghost var B2 := View(a[..], p);
    KhiRowMacro(a, p, 3);
    ghost var B3 := View(a[..], p);
    KhiRowMacro(a, p, 4);
    RowsGiveKhi(A, B0, B1, B2, B3, View(a[..], p));
  }

  /** The Keccak state that the words represent under a naming: the kept lanes are complemented back. */
  ghost function StateOf(words: seq<Lane>, p: seq<nat>): State
    requires |words| == 25 && IsNaming(p)
  {
    Masked(View(words, p))
  }

  /** KF_ELT(r, s, k): one round, leaving the state under the next naming. */
  method KfElt(a: array<Lane>, r: seq<nat>, s: seq<nat>, k: Lane)
    requires a.Length == 25 && IsNaming(r) && IsNaming(s) && PiRenames(r, s)
    modifies a
    ensures StateOf(a[..], s) == Round(StateOf(old(a[..]), r), k)
  {
    hide *;
    ghost var A := StateOf(a[..], r);
    RepresentsMasked(a[..], r);
    ThetaMacro(a, r);
    RhoMacro(a, r);
    RenamingIsPi(a[..], r, s);
    KhiMacro(a, s);
    IotaMacro(a, s, k);
    RoundOnMasked(A, k);
    MaskedTwice(Round(A, k));
    StateUnfolds(a[..], s);
  }

  lemma StateUnfolds(words: seq<Lane>, p: seq<nat>)
    requires |words| == 25 && IsNaming(p)
    ensures StateOf(words, p) == Masked(View(words, p))
  {
  }

  lemma RepresentsMasked(words: seq<Lane>, p: seq<nat>)
    requires |words| == 25 && IsNaming(p)
    ensures View(words, p) == Masked(StateOf(words, p))
  {
    MaskedTwice(View(words, p));
  }

  /** IOTA: the round constant goes into a00, which every naming puts first. */
  method IotaMacro(a: array<Lane>, p: seq<nat>, k: Lane)
    requires a.Length == 25 && IsNaming(p)
    modifies a
    ensures View(a[..], p) == Iota(View(old(a[..]), p), k)
  {
    hide Xor;
    a[a00] := Xor(a[a00], k);
  }

  // ----- moving the words back -----

  lemma MovedBackToP0From1(now: seq<Lane>, was: seq<Lane>)
    requires |now| == 25 && |was| == 25 && IsNaming(P0) && IsNaming(P1) && MovedBack1(now, was)
    ensures View(now, P0) == View(was, P1)
  {
    hide IsNaming;
  }

  lemma MovedBackToP0From4(now: seq<Lane>, was: seq<Lane>)
    requires |now| == 25 && |was| == 25 && IsNaming(P0) && IsNaming(P4) && MovedBack4(now, was)
    ensures View(now, P0) == View(was, P4)
  {
    hide IsNaming;
  }

  lemma MovedBackToP0From8(now: seq<Lane>, was: seq<Lane>)
    requires |now| == 25 && |was| == 25 && IsNaming(P0) && IsNaming(P8) && MovedBack8(now, was)
    ensures View(now, P0) == View(was, P8)
  {
    hide IsNaming;
  }

  // ----- the permutation -----

  /** The Keccak state that 25 words in their own places represent. */
  ghost function Represented(words: seq<Lane>): State
    requires |words| == 25
  {
    FirstNaming();
    StateOf(words, P0)
  }

  lemma RepresentedAtP0(words: seq<Lane>)
    requires |words| == 25
    ensures IsNaming(P0) && Represented(words) == StateOf(words, P0)
  {
    FirstNaming();
  }

  lemma Returned(now: seq<Lane>, was: seq<Lane>, p: seq<nat>)
    requires |now| == 25 && |was| == 25 && IsNaming(P0) && IsNaming(p)
    requires View(now, P0) == View(was, p)
    ensures Represented(now) == StateOf(was, p)
  {
    hide *;
    RepresentedAtP0(now);
    StateUnfolds(now, P0);
    StateUnfolds(was, p);
  }

  lemma RoundsStep(A: State, n: nat)
    requires n < 24
    ensures |RC| == 24 && Rounds(A, n + 1) == Round(Rounds(A, n), Lane(RC[n]))
  {
  }

  lemma NoRounds(A: State)
    ensures |RC| == 24 && Rounds(A, 0) == A
  {
  }

  /** KF_ELT inside a run of rounds: the state under s is one FIPS 202 round further than under r. */
  method KfRound(a: array<Lane>, r: seq<nat>, s: seq<nat>, n: nat, ghost A: State)
    requires a.Length == 25 && IsNaming(r) && IsNaming(s) && PiRenames(r, s) && n < 24
    requires StateOf(a[..], r) == Rounds(A, n)
    modifies a
    ensures StateOf(a[..], s) == Rounds(A, n + 1)
  {
    KfElt(a, r, s, Lane(RC[n]));
    hide *;
    RoundsStep(A, n);
  }

  /** KECCAK_F_1600 with SPH_KECCAK_UNROLL == 8. */
  method KeccakF1600(a: array<Lane>)
    requires a.Length == 25
    modifies a
    ensures Represented(a[..]) == KeccakF(Represented(old(a[..])))
  {
    hide *;
    ghost var A := Represented(a[..]);
    Namings();
    NoRounds(A);
    var j := 0;
    while j < 24
      invariant j == 0 || j == 8 || j == 16 || j == 24
      invariant Represented(a[..]) == Rounds(A, j)
      decreases 24 - j
    {
      RepresentedAtP0(a[..]);
      KfRound(a, P0, P1, j + 0, A);
      KfRound(a, P1, P2, j + 1, A);
      KfRound(a, P2, P3, j + 2, A);
      KfRound(a, P3, P4, j + 3, A);
      KfRound(a, P4, P5, j + 4, A);
      KfRound(a, P5, P6, j + 5, A);
      KfRound(a, P6, P7, j + 6, A);
      KfRound(a, P7, P8, j + 7, A);
      ghost var was := a[..];
      MoveBack8(a);
      MovedBackToP0From8(a[..], was);
      Returned(a[..], was, P8);
      j := j + 8;
    }
    AllRounds(A);
  }

  lemma AllRounds(A: State)
    ensures |RC| == 24 && KeccakF(A) == Rounds(A, 24)
  {
  }

  /** The permutation as keccak_core_opt inlines it, four rounds at a time. */
  method KeccakF1600By4(a: array<Lane>)
    requires a.Length == 25
    modifies a
    ensures Represented(a[..]) == KeccakF(Represented(old(a[..])))
  {
    hide *;
    ghost var A := Represented(a[..]);
    Namings();
    NoRounds(A);
    var j := 0;
    while j < 24
      invariant 0 <= j <= 24 && j % 4 == 0
      invariant Represented(a[..]) == Rounds(A, j)
    {
      RepresentedAtP0(a[..]);
      KfRound(a, P0, P1, j + 0, A);
      KfRound(a, P1, P2, j + 1, A);
      KfRound(a, P2, P3, j + 2, A);
      KfRound(a, P3, P4, j + 3, A);
      ghost var was := a[..];
      MoveBack4(a);
      MovedBackToP0From4(a[..], was);
      Returned(a[..], was, P4);
      j := j + 4;
    }
    AllRounds(A);
  }
}
