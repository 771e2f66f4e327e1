/**
 Rotating roles: instead of moving the 36 words, the code of xptMiner/metis.c lets their names move.
 A macro applied to renamed words does to the renamed view what it does to the plain state.
 */
module MetisRoles {
  import opened Words
  import opened MetisMix
  import opened MetisSpec

  predicate IsNaming(n: seq<nat>) {
    && |n| == SIZE
    && (forall i :: 0 <= i < SIZE ==> n[i] < SIZE)
    && (forall i, j :: 0 <= i < j < SIZE ==> n[i] != n[j])
  }

  /** The state that words a stand for when the word at place i is called n[i]. */
  function View(a: State, n: seq<nat>): State
    requires IsNaming(n)
  {
    seq(SIZE, i requires 0 <= i < SIZE => a[n[i]])
  }

  /** The names after a rotation by r places. */
  function Moved(r: nat): (n: seq<nat>)
    requires r <= 36
    ensures IsNaming(n)
  {
    seq(SIZE, i requires 0 <= i < SIZE => if i < r then i + 36 - r else i - r)
  }

  /** The names after m rotations by three. */
  function Names(m: nat): (n: seq<nat>)
    requires m <= 12
    ensures IsNaming(n)
  {
    Moved(3 * m)
  }

  lemma ViewXorInto(a: State, n: seq<nat>, i: nat, j: nat)
    requires IsNaming(n) && i < SIZE && j < SIZE
    ensures View(XorInto(a, n[i], n[j]), n) == XorInto(View(a, n), i, j)
  {
  }

  lemma ViewSet(a: State, n: seq<nat>, i: nat, v: Word)
    requires IsNaming(n) && i < SIZE
    ensures View(a[n[i] := v], n) == View(a, n)[i := v]
  {
  }

  lemma ViewTix(a: State, n: seq<nat>, q: Word)
    requires IsNaming(n)
    ensures View(TixAt(a, q, n[0], n[1], n[4], n[7], n[8], n[22], n[24], n[27], n[30]), n)
         == TixAt(View(a, n), q, 0, 1, 4, 7, 8, 22, 24, 27, 30)
  {
    hide View, XorInto;
    var s1 := XorInto(a, n[22], n[0]);
    var s2 := s1[n[0] := q];
    var s3 := XorInto(s2, n[8], n[0]);
    var s4 := XorInto(s3, n[1], n[24]);
    var s5 := XorInto(s4, n[4], n[27]);
    ViewXorInto(a, n, 22, 0);
    ViewSet(s1, n, 0, q);
    ViewXorInto(s2, n, 8, 0);
    ViewXorInto(s3, n, 1, 24);
    ViewXorInto(s4, n, 4, 27);
    ViewXorInto(s5, n, 7, 30);
  }

  lemma ViewCmix(a: State, n: seq<nat>)
    requires IsNaming(n)
    ensures View(CmixAt(a, n[0], n[1], n[2], n[4], n[5], n[6], n[18], n[19], n[20]), n)
         == CmixAt(View(a, n), 0, 1, 2, 4, 5, 6, 18, 19, 20)
  {
    hide View, XorInto;
    var s1 := XorInto(a, n[0], n[4]);
    var s2 := XorInto(s1, n[1], n[5]);
    var s3 := XorInto(s2, n[2], n[6]);
    var s4 := XorInto(s3, n[18], n[4]);
    var s5 := XorInto(s4, n[19], n[5]);
    ViewXorInto(a, n, 0, 4);
    ViewXorInto(s1, n, 1, 5);
    ViewXorInto(s2, n, 2, 6);
    ViewXorInto(s3, n, 18, 4);
    ViewXorInto(s4, n, 19, 5);
    ViewXorInto(s5, n, 20, 6);
  }

  lemma ViewSpread(a: State, n: seq<nat>, i: nat, j: nat, k: nat, l: nat)
    requires IsNaming(n) && i < SIZE && j < SIZE && k < SIZE && l < SIZE
    ensures View(SpreadAt(a, n[0], n[i], n[j], n[k], n[l]), n) == SpreadAt(View(a, n), 0, i, j, k, l)
  {
    hide View, XorInto;
    var s1 := XorInto(a, n[i], n[0]);
    var s2 := XorInto(s1, n[j], n[0]);
    var s3 := XorInto(s2, n[k], n[0]);
    ViewXorInto(a, n, i, 0);
    ViewXorInto(s1, n, j, 0);
    ViewXorInto(s2, n, k, 0);
    ViewXorInto(s3, n, l, 0);
  }

  lemma ViewSmix(t: Tables, a: State, n: seq<nat>)
    requires IsNaming(n)
    ensures View(SmixAt(t, a, n[0], n[1], n[2], n[3]), n) == SmixAt(t, View(a, n), 0, 1, 2, 3)
  {
    hide Mix;
    var y := Mix(t, Quad(a[n[0]], a[n[1]], a[n[2]], a[n[3]]));
    var s1 := a[n[0] := y.x0];
    var s2 := s1[n[1] := y.x1];
    var s3 := s2[n[2] := y.x2];
    ViewSet(a, n, 0, y.x0);
    ViewSet(s1, n, 1, y.x1);
    ViewSet(s2, n, 2, y.x2);
    ViewSet(s3, n, 3, y.x3);
  }

  /** Moving the names by k more places is a rotation of the state by k. */
  lemma MovedRotates(a: State, r: nat, k: nat)
    requires r + k <= 36
    ensures View(a, Moved(r + k)) == Ror(View(a, Moved(r)), k)
  {
  }

  lemma NamesRotate(a: State, m: nat)
    requires m < 12
    ensures View(a, Names(m + 1)) == Ror(View(a, Names(m)), 3)
  {
    MovedRotates(a, 3 * m, 3);
    hide Moved;
  }

  lemma NamesReturn(a: State)
    ensures View(a, Names(0)) == a && View(a, Names(12)) == a
  {
  }

  /** Step m on renamed words is a rotating step on the state they stand for. */
  lemma ViewStep(t: Tables, a: State, m: nat)
    requires m < 12
    ensures var n := Names(m + 1);
            View(SmixAt(t, CmixAt(a, n[0], n[1], n[2], n[4], n[5], n[6], n[18], n[19], n[20]),
                        n[0], n[1], n[2], n[3]), n)
            == Step(t, View(a, Names(m)))
  {
    hide View, SmixAt, CmixAt, Names, Ror;
    var n := Names(m + 1);
    NamesRotate(a, m);
    ViewCmix(a, n);
    ViewSmix(t, CmixAt(a, n[0], n[1], n[2], n[4], n[5], n[6], n[18], n[19], n[20]), n);
  }

  // ----- the macros, in place -----

  method XorAssign(s: array<Word>, i: nat, j: nat)
    requires s.Length == SIZE && i < SIZE && j < SIZE
    modifies s
    ensures s[..] == XorInto(old(s[..]), i, j)
  {
    s[i] := Xor(s[i], s[j]);
  }

  method Tix4(s: array<Word>, q: Word, x00: nat, x01: nat, x04: nat, x07: nat, x08: nat, x22: nat, x24: nat, x27: nat,
              x30: nat)
    requires s.Length == SIZE
    requires x00 < SIZE && x01 < SIZE && x04 < SIZE && x07 < SIZE && x08 < SIZE && x22 < SIZE && x24 < SIZE
        && x27 < SIZE && x30 < SIZE
    modifies s
    ensures s[..] == TixAt(old(s[..]), q, x00, x01, x04, x07, x08, x22, x24, x27, x30)
  {
    hide XorInto;
    XorAssign(s, x22, x00);
    ghost var a := s[..];
    s[x00] := q;
    assert s[..] == a[x00 := q];
    XorAssign(s, x08, x00);
    XorAssign(s, x01, x24);
    XorAssign(s, x04, x27);
    XorAssign(s, x07, x30);
  }

  method Cmix36(s: array<Word>, x00: nat, x01: nat, x02: nat, x04: nat, x05: nat, x06: nat, x18: nat, x19: nat,
                x20: nat)
    requires s.Length == SIZE
    requires x00 < SIZE && x01 < SIZE && x02 < SIZE && x04 < SIZE && x05 < SIZE && x06 < SIZE && x18 < SIZE
        && x19 < SIZE && x20 < SIZE
    modifies s
    ensures s[..] == CmixAt(old(s[..]), x00, x01, x02, x04, x05, x06, x18, x19, x20)
  {
    hide XorInto;
    XorAssign(s, x00, x04);
    XorAssign(s, x01, x05);
    XorAssign(s, x02, x06);
    XorAssign(s, x18, x04);
    XorAssign(s, x19, x05);
    XorAssign(s, x20, x06);
  }

  /** SMIX on four named words. */
  method SmixWords(t: Tables, s: array<Word>, x0: nat, x1: nat, x2: nat, x3: nat)
    requires s.Length == SIZE && x0 < SIZE && x1 < SIZE && x2 < SIZE && x3 < SIZE
    modifies s
    ensures s[..] == SmixAt(t, old(s[..]), x0, x1, x2, x3)
  {
    hide Mix;
    var y := Smix(t, s[x0], s[x1], s[x2], s[x3]);
    s[x0] := y.x0;
    s[x1] := y.x1;
    s[x2] := y.x2;
    s[x3] := y.x3;
  }

  /** SMIX_2 on four named words. */
  method Smix2Words(t: Tables, s: array<Word>, x0: nat, x1: nat, x2: nat, x3: nat)
    requires s.Length == SIZE && x0 < SIZE && x1 < SIZE && x2 < SIZE && x3 < SIZE
    modifies s
    ensures s[..] == SmixAt(t, old(s[..]), x0, x1, x2, x3)
  {
    hide Mix;
    var y := Smix2(t, s[x0], s[x1], s[x2], s[x3]);
    s[x0] := y.x0;
    s[x1] := y.x1;
    s[x2] := y.x2;
    s[x3] := y.x3;
  }

  // The names that the macros of the three cases use.

  lemma NamedPlaces0()
    ensures var n := Names(0);
            && n[0] == 0 && n[1] == 1 && n[4] == 4 && n[7] == 7 && n[8] == 8 && n[22] == 22 && n[24] == 24
            && n[27] == 27
            && n[30] == 30
  {
  }

  lemma NamedPlaces1()
    ensures var n := Names(1);
            && n[0] == 33 && n[1] == 34 && n[2] == 35 && n[3] == 0 && n[4] == 1 && n[5] == 2 && n[6] == 3 && n[18] == 15
            && n[19] == 16 && n[20] == 17
  {
  }

  lemma NamedPlaces2()
    ensures var n := Names(2);
            && n[0] == 30 && n[1] == 31 && n[2] == 32 && n[3] == 33 && n[4] == 34 && n[5] == 35 && n[6] == 0
            && n[18] == 12
            && n[19] == 13 && n[20] == 14
  {
  }

  lemma NamedPlaces3()
    ensures var n := Names(3);
            && n[0] == 27 && n[1] == 28 && n[2] == 29 && n[3] == 30 && n[4] == 31 && n[5] == 32 && n[6] == 33
            && n[18] == 9
            && n[19] == 10 && n[20] == 11
  {
  }

  lemma NamedPlaces4()
    ensures var n := Names(4);
            && n[0] == 24 && n[1] == 25 && n[2] == 26 && n[3] == 27 && n[4] == 28 && n[5] == 29 && n[6] == 30
            && n[7] == 31
            && n[8] == 32 && n[18] == 6 && n[19] == 7 && n[20] == 8 && n[22] == 10 && n[24] == 12 && n[27] == 15
            && n[30] == 18
  {
  }

  lemma NamedPlaces5()
    ensures var n := Names(5);
            && n[0] == 21 && n[1] == 22 && n[2] == 23 && n[3] == 24 && n[4] == 25 && n[5] == 26 && n[6] == 27
            && n[18] == 3
            && n[19] == 4 && n[20] == 5
  {
  }

  lemma NamedPlaces6()
    ensures var n := Names(6);
            && n[0] == 18 && n[1] == 19 && n[2] == 20 && n[3] == 21 && n[4] == 22 && n[5] == 23 && n[6] == 24
            && n[18] == 0
            && n[19] == 1 && n[20] == 2
  {
  }

  lemma NamedPlaces7()
    ensures var n := Names(7);
            && n[0] == 15 && n[1] == 16 && n[2] == 17 && n[3] == 18 && n[4] == 19 && n[5] == 20 && n[6] == 21
            && n[18] == 33
            && n[19] == 34 && n[20] == 35
  {
  }

  lemma NamedPlaces8()
    ensures var n := Names(8);
            && n[0] == 12 && n[1] == 13 && n[2] == 14 && n[3] == 15 && n[4] == 16 && n[5] == 17 && n[6] == 18
            && n[7] == 19
            && n[8] == 20 && n[18] == 30 && n[19] == 31 && n[20] == 32 && n[22] == 34 && n[24] == 0 && n[27] == 3
            && n[30] == 6
  {
  }

  lemma NamedPlaces9()
    ensures var n := Names(9);
            && n[0] == 9 && n[1] == 10 && n[2] == 11 && n[3] == 12 && n[4] == 13 && n[5] == 14 && n[6] == 15
            && n[18] == 27
            && n[19] == 28 && n[20] == 29
  {
  }

  lemma NamedPlaces10()
    ensures var n := Names(10);
            && n[0] == 6 && n[1] == 7 && n[2] == 8 && n[3] == 9 && n[4] == 10 && n[5] == 11 && n[6] == 12 && n[18] == 24
            && n[19] == 25 && n[20] == 26
  {
  }

  lemma NamedPlaces11()
    ensures var n := Names(11);
            && n[0] == 3 && n[1] == 4 && n[2] == 5 && n[3] == 6 && n[4] == 7 && n[5] == 8 && n[6] == 9 && n[18] == 21
            && n[19] == 22 && n[20] == 23
  {
  }

  lemma NamedPlaces12()
    ensures var n := Names(12);
            && n[0] == 0 && n[1] == 1 && n[2] == 2 && n[3] == 3 && n[4] == 4 && n[5] == 5 && n[6] == 6 && n[18] == 18
            && n[19] == 19 && n[20] == 20
  {
  }
}
