/**
 metis4_core_opt: the hash of a 64-byte block in one go. The state never leaves its 36 variables,
 the last closing round rotates nothing, and only one digest word is computed.
 */
module MetisOpt {
  import opened Words
  import opened ByteStrings
  import opened MetisMix
  import opened MetisSpec
  import opened MetisRoles
  import opened MetisCore

  // ----- the rotations, one assignment after another -----

  /** From place k on the words have moved up by n; below it they are untouched. */
  ghost predicate Rotated(s: State, was: State, n: nat, k: nat) {
    && n <= SIZE
    && (forall i :: k <= i < SIZE ==> s[i] == if i < n then was[SIZE - n + i] else was[i - n])
    && (forall i :: 0 <= i < k && i < SIZE ==> s[i] == was[i])
  }

  lemma NothingRotated(was: State, n: nat)
    requires n <= SIZE
    ensures Rotated(was, was, n, SIZE)
  {
  }

  /** An assignment s[i] = s[j] of a rotation. */
  method Move(s: array<Word>, i: nat, j: nat, ghost was: State, ghost n: nat)
    requires s.Length == SIZE && j + n == i < SIZE && Rotated(s[..], was, n, i + 1)
    modifies s
    ensures Rotated(s[..], was, n, i)
  {
    s[i] := s[j];
  }

  /** A saved word put in front. */
  method Put(s: array<Word>, i: nat, v: Word, ghost was: State, ghost n: nat)
    requires s.Length == SIZE && i < n <= SIZE && Rotated(s[..], was, n, i + 1) && v == was[SIZE - n + i]
    modifies s
    ensures Rotated(s[..], was, n, i)
    ensures i == 0 ==> s[..] == Ror(was, n)
  {
    s[i] := v;
  }

  method Rotate3(s: array<Word>)
    requires s.Length == SIZE
    modifies s
    ensures s[..] == Ror(old(s[..]), 3)
  {
    hide Rotated, Ror;
    ghost var was := s[..];
    NothingRotated(was, 3);
    var tmp0, tmp1, tmp2 := s[35], s[34], s[33];
    Move(s, 35, 32, was, 3); Move(s, 34, 31, was, 3); Move(s, 33, 30, was, 3); Move(s, 32, 29, was, 3);
    Move(s, 31, 28, was, 3); Move(s, 30, 27, was, 3); Move(s, 29, 26, was, 3); Move(s, 28, 25, was, 3);
    Move(s, 27, 24, was, 3); Move(s, 26, 23, was, 3); Move(s, 25, 22, was, 3); Move(s, 24, 21, was, 3);
    Move(s, 23, 20, was, 3); Move(s, 22, 19, was, 3); Move(s, 21, 18, was, 3); Move(s, 20, 17, was, 3);
    Move(s, 19, 16, was, 3); Move(s, 18, 15, was, 3); Move(s, 17, 14, was, 3); Move(s, 16, 13, was, 3);
    Move(s, 15, 12, was, 3); Move(s, 14, 11, was, 3); Move(s, 13, 10, was, 3); Move(s, 12, 9, was, 3);
    Move(s, 11, 8, was, 3); Move(s, 10, 7, was, 3); Move(s, 9, 6, was, 3); Move(s, 8, 5, was, 3);
    Move(s, 7, 4, was, 3); Move(s, 6, 3, was, 3); Move(s, 5, 2, was, 3); Move(s, 4, 1, was, 3);
    Move(s, 3, 0, was, 3); Put(s, 2, tmp0, was, 3); Put(s, 1, tmp1, was, 3); Put(s, 0, tmp2, was, 3);
  }

  method Rotate8(s: array<Word>)
    requires s.Length == SIZE
    modifies s
    ensures s[..] == Ror(old(s[..]), 8)
  {
    hide Rotated, Ror;
    ghost var was := s[..];
    NothingRotated(was, 8);
    var tmp0, tmp1, tmp2, tmp3, tmp4, tmp5, tmp6, tmp7 := s[35], s[34], s[33], s[32], s[31], s[30], s[29], s[28];
    Move(s, 35, 27, was, 8); Move(s, 34, 26, was, 8); Move(s, 33, 25, was, 8); Move(s, 32, 24, was, 8);
    Move(s, 31, 23, was, 8); Move(s, 30, 22, was, 8); Move(s, 29, 21, was, 8); Move(s, 28, 20, was, 8);
    Move(s, 27, 19, was, 8); Move(s, 26, 18, was, 8); Move(s, 25, 17, was, 8); Move(s, 24, 16, was, 8);
    Move(s, 23, 15, was, 8); Move(s, 22, 14, was, 8); Move(s, 21, 13, was, 8); Move(s, 20, 12, was, 8);
    Move(s, 19, 11, was, 8); Move(s, 18, 10, was, 8); Move(s, 17, 9, was, 8); Move(s, 16, 8, was, 8);
    Move(s, 15, 7, was, 8); Move(s, 14, 6, was, 8); Move(s, 13, 5, was, 8); Move(s, 12, 4, was, 8);
    Move(s, 11, 3, was, 8); Move(s, 10, 2, was, 8); Move(s, 9, 1, was, 8); Move(s, 8, 0, was, 8);
    Put(s, 7, tmp0, was, 8); Put(s, 6, tmp1, was, 8); Put(s, 5, tmp2, was, 8); Put(s, 4, tmp3, was, 8);
    Put(s, 3, tmp4, was, 8); Put(s, 2, tmp5, was, 8); Put(s, 1, tmp6, was, 8); Put(s, 0, tmp7, was, 8);
  }

  method Rotate9(s: array<Word>)
    requires s.Length == SIZE
    modifies s
    ensures s[..] == Ror(old(s[..]), 9)
  {
    hide Rotated, Ror;
    ghost var was := s[..];
    NothingRotated(was, 9);
    var tmp0, tmp1, tmp2, tmp3, tmp4, tmp5, tmp6, tmp7, tmp8 := s[35], s[34], s[33], s[32], s[31], s[30], s[29],
      s[28], s[27];
    Move(s, 35, 26, was, 9); Move(s, 34, 25, was, 9); Move(s, 33, 24, was, 9); Move(s, 32, 23, was, 9);
    Move(s, 31, 22, was, 9); Move(s, 30, 21, was, 9); Move(s, 29, 20, was, 9); Move(s, 28, 19, was, 9);
    Move(s, 27, 18, was, 9); Move(s, 26, 17, was, 9); Move(s, 25, 16, was, 9); Move(s, 24, 15, was, 9);
    Move(s, 23, 14, was, 9); Move(s, 22, 13, was, 9); Move(s, 21, 12, was, 9); Move(s, 20, 11, was, 9);
    Move(s, 19, 10, was, 9); Move(s, 18, 9, was, 9); Move(s, 17, 8, was, 9); Move(s, 16, 7, was, 9);
    Move(s, 15, 6, was, 9); Move(s, 14, 5, was, 9); Move(s, 13, 4, was, 9); Move(s, 12, 3, was, 9);
    Move(s, 11, 2, was, 9); Move(s, 10, 1, was, 9); Move(s, 9, 0, was, 9); Put(s, 8, tmp0, was, 9);
    Put(s, 7, tmp1, was, 9); Put(s, 6, tmp2, was, 9); Put(s, 5, tmp3, was, 9); Put(s, 4, tmp4, was, 9);
    Put(s, 3, tmp5, was, 9); Put(s, 2, tmp6, was, 9); Put(s, 1, tmp7, was, 9); Put(s, 0, tmp8, was, 9);
  }

  // ----- absorbing -----

  /** The three rounds of one pass of the loop: after them every name is back in place. */
  method ThreeRounds(t: Tables, s: array<Word>, p: Word, q: Word, r: Word)
    requires s.Length == SIZE
    modifies s
    ensures s[..] == Round(t, Round(t, Round(t, old(s[..]), p), q), r)
  {
    hide View, Names, Step, TixAt, CmixAt, SmixAt, Ror;
    ghost var a := s[..];
    NamesReturn(a);
    a := s[..];
    NamedPlaces0();
    Tix4(s, p, 0, 1, 4, 7, 8, 22, 24, 27, 30);
    ViewTix(a, Names(0), p);
    a := s[..];
    NamedPlaces1();
    Cmix36(s, 33, 34, 35, 1, 2, 3, 15, 16, 17);
    Smix2Words(t, s, 33, 34, 35, 0);
    ViewStep(t, a, 0);
    a := s[..];
    NamedPlaces2();
    Cmix36(s, 30, 31, 32, 34, 35, 0, 12, 13, 14);
    Smix2Words(t, s, 30, 31, 32, 33);
    ViewStep(t, a, 1);
    a := s[..];
    NamedPlaces3();
    Cmix36(s, 27, 28, 29, 31, 32, 33, 9, 10, 11);
    Smix2Words(t, s, 27, 28, 29, 30);
    ViewStep(t, a, 2);
    a := s[..];
    NamedPlaces4();
    Cmix36(s, 24, 25, 26, 28, 29, 30, 6, 7, 8);
    Smix2Words(t, s, 24, 25, 26, 27);
    ViewStep(t, a, 3);
    a := s[..];
    NamedPlaces4();
    Tix4(s, q, 24, 25, 28, 31, 32, 10, 12, 15, 18);
    ViewTix(a, Names(4), q);
    a := s[..];
    NamedPlaces5();
    Cmix36(s, 21, 22, 23, 25, 26, 27, 3, 4, 5);
    Smix2Words(t, s, 21, 22, 23, 24);
    ViewStep(t, a, 4);
    a := s[..];
    NamedPlaces6();
    Cmix36(s, 18, 19, 20, 22, 23, 24, 0, 1, 2);
    Smix2Words(t, s, 18, 19, 20, 21);
    ViewStep(t, a, 5);
    a := s[..];
    NamedPlaces7();
    Cmix36(s, 15, 16, 17, 19, 20, 21, 33, 34, 35);
    Smix2Words(t, s, 15, 16, 17, 18);
    ViewStep(t, a, 6);
    a := s[..];
    NamedPlaces8();
    Cmix36(s, 12, 13, 14, 16, 17, 18, 30, 31, 32);
    Smix2Words(t, s, 12, 13, 14, 15);
    ViewStep(t, a, 7);
    a := s[..];
    NamedPlaces8();
    Tix4(s, r, 12, 13, 16, 19, 20, 34, 0, 3, 6);
    ViewTix(a, Names(8), r);
    a := s[..];
    NamedPlaces9();
    Cmix36(s, 9, 10, 11, 13, 14, 15, 27, 28, 29);
    Smix2Words(t, s, 9, 10, 11, 12);
    ViewStep(t, a, 8);
    a := s[..];
    NamedPlaces10();
    Cmix36(s, 6, 7, 8, 10, 11, 12, 24, 25, 26);
    Smix2Words(t, s, 6, 7, 8, 9);
    ViewStep(t, a, 9);
    a := s[..];
    NamedPlaces11();
    Cmix36(s, 3, 4, 5, 7, 8, 9, 21, 22, 23);
    Smix2Words(t, s, 3, 4, 5, 6);
    ViewStep(t, a, 10);
    a := s[..];
    NamedPlaces12();
    Cmix36(s, 0, 1, 2, 4, 5, 6, 18, 19, 20);
    Smix2Words(t, s, 0, 1, 2, 3);
    ViewStep(t, a, 11);
    NamesReturn(s[..]);
  }

  /** The sixteen input words as the hash reads them. */
  function Swapped(data: seq<Word>): (r: seq<Word>)
    ensures |r| == |data|
  {
    seq(|data|, i requires 0 <= i < |data| => Swap(data[i]))
  }

  lemma RoundsOfThree(t: Tables, words: seq<Word>, k: nat)
    requires k + 3 <= |words|
    ensures Rounds(t, Initial(), words[..k + 3]) ==
            Round(t, Round(t, Round(t, Rounds(t, Initial(), words[..k]), words[k]), words[k + 1]), words[k + 2])
  {
    hide Rounds, Round, Initial;
    RoundsNext(t, words[..k], words[k]);
    RoundsNext(t, words[..k + 1], words[k + 1]);
    RoundsNext(t, words[..k + 2], words[k + 2]);
    assert words[..k] + [words[k]] == words[..k + 1];
    assert words[..k + 1] + [words[k + 1]] == words[..k + 2];
    assert words[..k + 2] + [words[k + 2]] == words[..k + 3];
  }

  /** metis4_core_opt_p1: the block and its length are absorbed. */
  method OptP1(t: Tables, data: seq<Word>) returns (s: array<Word>)
    requires |data| == 16
    ensures fresh(s) && s.Length == SIZE
    ensures s[..] == Rounds(t, Initial(), Swapped(data) + [Word(0), Word(0x200)])
  {
    hide Round, Rounds, Swap, Initial;
    ghost var words := Swapped(data) + [Word(0), Word(0x200)];
    var next := 0;
    var p := Swap(data[next]);
    next := next + 1;
    s := InitialVariables();
    NoRounds(t, words);
    var i := 0;
    while i < 5
      invariant i <= 5 && next == 3 * i + 1 && p == words[3 * i]
      invariant s[..] == Rounds(t, Initial(), words[..3 * i])
    {
      RoundsOfThree(t, words, 3 * i);
      var q, r := Swap(data[next]), Swap(data[next + 1]);
      ThreeRounds(t, s, p, q, r);
      p := Swap(data[next + 2]);
      next := next + 3;
      i := i + 1;
    }
    RoundsOfThree(t, words, 15);
    ThreeRounds(t, s, p, Word(0), Word(0x200));
    assert words[..18] == words;
  }

  /** The 36 variables at the start. */
  method InitialVariables() returns (s: array<Word>)
    ensures fresh(s) && s.Length == SIZE && s[..] == Initial()
  {
    hide Initial;
    s := new Word[SIZE];
    forall u | 0 <= u < 20 {
      s[u] := ZERO;
    }
    assert forall u :: 0 <= u < 20 ==> s[..20][u] == ZERO;
    StoreFirstIv(s);
    assert s[..28][..20] == s[..20] && s[..28][20..] == s[20..28];
    StoreLastIv(s);
    assert s[..28][..20] == s[..20] && s[..28][20..] == s[20..28];
    forall u | 0 <= u < 16
      ensures s[20 + u] == IV512[u]
    {
      assert s[20 + u] == if u < 8 then s[20..28][u] else s[28..36][u - 8];
    }
    InitialWords(s[..]);
  }

  method StoreFirstIv(s: array<Word>)
    requires s.Length == SIZE
    modifies s
    ensures s[..20] == old(s[..20]) && s[20..28] == IV512[..8]
  {
    s[20], s[21], s[22], s[23] := Word(0x8807a57e), Word(0xe616af75), Word(0xc5d3e4db), Word(0xac9ab027);
    s[24], s[25], s[26], s[27] := Word(0xd915f117), Word(0xb6eecc54), Word(0x06e8020b), Word(0x4a92efd1);
  }

  method StoreLastIv(s: array<Word>)
    requires s.Length == SIZE
    modifies s
    ensures s[..28] == old(s[..28]) && s[28..36] == IV512[8..]
  {
    s[28], s[29], s[30], s[31] := Word(0xaac6e2c9), Word(0xddb21398), Word(0xcae65838), Word(0x437f203f);
    s[32], s[33], s[34], s[35] := Word(0x25ea78e7), Word(0x951fddd6), Word(0xda6ed11d), Word(0xe13e3567);
  }

  lemma NoRounds(t: Tables, words: seq<Word>)
    ensures Rounds(t, Initial(), words[..0]) == Initial()
  {
  }

  // ----- the pruned last round -----

  /** One quarter of a closing round with the rotation left to the names. */
  lemma ViewQuarter(t: Tables, a: State, r: nat, i: nat, j: nat, k: nat, l: nat, m: nat)
    requires r + m <= 36 && i < SIZE && j < SIZE && k < SIZE && l < SIZE
    ensures var n, n' := Moved(r), Moved(r + m);
            View(SmixAt(t, SpreadAt(a, n[0], n[i], n[j], n[k], n[l]), n'[0], n'[1], n'[2], n'[3]), n')
            == Quarter(t, View(a, n), i, j, k, l, m)
  {
    hide View, Moved, SmixAt, SpreadAt, Ror;
    var n, n' := Moved(r), Moved(r + m);
    var b := SpreadAt(a, n[0], n[i], n[j], n[k], n[l]);
    ViewSpread(a, n, i, j, k, l);
    MovedRotates(b, r, m);
    ViewSmix(t, b, n');
  }

  /** The state after the four quarters, on words that stay where they are. */
  function Unrotated(t: Tables, s: State): State {
    var s1 := SmixAt(t, SpreadAt(s, 0, 4, 9, 18, 27), 27, 28, 29, 30);
    var s2 := SmixAt(t, SpreadAt(s1, 27, 31, 1, 9, 18), 18, 19, 20, 21);
    var s3 := SmixAt(t, SpreadAt(s2, 18, 22, 28, 1, 9), 9, 10, 11, 12);
    SmixAt(t, SpreadAt(s3, 9, 13, 19, 28, 1), 1, 2, 3, 4)
  }

  lemma MovedBy0(a: State)
    ensures View(a, Moved(0)) == a
    ensures var n := Moved(0); n[0] == 0 && n[4] == 4 && n[9] == 9 && n[18] == 18 && n[27] == 27
  {
  }

  lemma MovedBy9()
    ensures var n := Moved(9);
            && n[0] == 27 && n[1] == 28 && n[2] == 29 && n[3] == 30 && n[4] == 31 && n[10] == 1 && n[18] == 9
            && n[27] == 18
  {
  }

  lemma MovedBy18()
    ensures var n := Moved(18);
            && n[0] == 18 && n[1] == 19 && n[2] == 20 && n[3] == 21 && n[4] == 22 && n[10] == 28 && n[19] == 1
            && n[27] == 9
  {
  }

  lemma MovedBy27()
    ensures var n := Moved(27);
            && n[0] == 9 && n[1] == 10 && n[2] == 11 && n[3] == 12 && n[4] == 13 && n[10] == 19 && n[19] == 28
            && n[28] == 1
  {
  }

  lemma MovedBy35(a: State)
    ensures var n := Moved(35); n[0] == 1 && n[1] == 2 && n[2] == 3 && n[3] == 4
    ensures View(a, Moved(35))[12] == a[13]
  {
  }

  /** The whole round is the unrotated one under names moved by 9 + 9 + 9 + 8 places. */
  lemma UnrotatedIsClosingRound(t: Tables, s: State)
    ensures View(Unrotated(t, s), Moved(35)) == ClosingRound(t, s)
  {
    hide View, Moved, SmixAt, SpreadAt, Quarter;
    var s1 := SmixAt(t, SpreadAt(s, 0, 4, 9, 18, 27), 27, 28, 29, 30);
    var s2 := SmixAt(t, SpreadAt(s1, 27, 31, 1, 9, 18), 18, 19, 20, 21);
    var s3 := SmixAt(t, SpreadAt(s2, 18, 22, 28, 1, 9), 9, 10, 11, 12);
    MovedBy0(s);
    MovedBy9();
    MovedBy18();
    MovedBy27();
    MovedBy35(s);
    ViewQuarter(t, s, 0, 4, 9, 18, 27, 9);
    ViewQuarter(t, s1, 9, 4, 10, 18, 27, 9);
    ViewQuarter(t, s2, 18, 4, 10, 19, 27, 9);
    ViewQuarter(t, s3, 27, 4, 10, 19, 28, 8);
  }

  /** What the isolated last round computes: word 13 after far fewer updates. */
  function Pruned(t: Tables, s: State): Word {
    var s1 := SmixAt(t, SpreadAt(s, 0, 4, 9, 18, 27), 27, 28, 29, 30);
    var s2 := SmixAt(t, SpreadAt(s1, 27, 31, 1, 9, 18), 18, 19, 20, 21);
    var s3 := XorInto(XorInto(s2, 22, 18), 9, 18);
    Xor(s3[13], Mix(t, Quad(s3[9], s3[10], s3[11], s3[12])).x0)
  }

  lemma PrunedWord(t: Tables, s: State)
    ensures Unrotated(t, s)[13] == Pruned(t, s)
  {
    hide Mix, Xor;
    var s1 := SmixAt(t, SpreadAt(s, 0, 4, 9, 18, 27), 27, 28, 29, 30);
    var s2 := SmixAt(t, SpreadAt(s1, 27, 31, 1, 9, 18), 18, 19, 20, 21);
    LastQuarters(t, s2);
  }

  lemma LastQuarters(t: Tables, s: State)
    ensures var s3 := SmixAt(t, SpreadAt(s, 18, 22, 28, 1, 9), 9, 10, 11, 12);
            SmixAt(t, SpreadAt(s3, 9, 13, 19, 28, 1), 1, 2, 3, 4)[13]
            == Xor(s[13], Mix(t, Quad(Xor(s[9], s[18]), s[10], s[11], s[12])).x0)
  {
    hide Mix, Xor;
  }

  /** The pruned word is digest word 7 of the closed state. */
  lemma PrunedIsDigestWord(t: Tables, s: State)
    ensures Pruned(t, s) == DigestOf(SpreadAt(ClosingRound(t, s), 0, 4, 9, 18, 27))[7]
  {
    UnrotatedIsClosingRound(t, s);
    PrunedWord(t, s);
    MovedBy35(Unrotated(t, s));
    hide Pruned, Unrotated, ClosingRound, View, Moved, Xor;
  }

  /** Digest word 7 of what closing makes of a state. */
  function Word7(t: Tables, s: State): Word {
    DigestOf(Closed(t, s))[7]
  }

  /** metis4_core_opt_p2: the closing rounds, the last of them pruned. */
  method OptP2(t: Tables, s: array<Word>) returns (r: Word)
    requires s.Length == SIZE
    modifies s
    ensures r == Swap(Word7(t, old(s[..])))
  {
    hide SmixAt, CmixAt, Ror, SpreadAt, Swap, DigestOf;
    ghost var s0 := s[..];
    var i := 0;
    while i < 32
      invariant i <= 32 && s[..] == Steps(t, s0, i)
    {
      Rotate3(s);
      Cmix36(s, 0, 1, 2, 4, 5, 6, 18, 19, 20);
      Smix2Words(t, s, 0, 1, 2, 3);
      i := i + 1;
    }
    ghost var s1 := s[..];
    i := 0;
    while i < 12
      invariant i <= 12 && s[..] == ClosingRounds(t, s1, i)
    {
      SpreadInPlace(s, 4, 9, 18, 27);
      Rotate9(s);
      Smix2Words(t, s, 0, 1, 2, 3);
      SpreadInPlace(s, 4, 10, 18, 27);
      Rotate9(s);
      Smix2Words(t, s, 0, 1, 2, 3);
      SpreadInPlace(s, 4, 10, 19, 27);
      Rotate9(s);
      Smix2Words(t, s, 0, 1, 2, 3);
      SpreadInPlace(s, 4, 10, 19, 28);
      Rotate8(s);
      Smix2Words(t, s, 0, 1, 2, 3);
      i := i + 1;
    }
    PrunedIsDigestWord(t, s[..]);
    r := LastRound(t, s);
  }

  /** The isolated last round. */
  method LastRound(t: Tables, s: array<Word>) returns (r: Word)
    requires s.Length == SIZE
    modifies s
    ensures r == Swap(Pruned(t, old(s[..])))
  {
    hide SmixAt, XorInto, Mix, Swap;
    SpreadInPlace(s, 4, 9, 18, 27);
    Smix2Words(t, s, 27, 28, 29, 30);
    XorAssign(s, 31, 27);
    XorAssign(s, 1, 27);
    XorAssign(s, 9, 27);
    XorAssign(s, 18, 27);
    Smix2Words(t, s, 18, 19, 20, 21);
    XorAssign(s, 22, 18);
    XorAssign(s, 9, 18);
    var first := SmixFirst(t, s[9], s[10], s[11], s[12]);
    s[9] := first;
    s[13] := Xor(s[13], s[9]);
    r := Swap(s[13]);
  }

  // ----- the whole -----

  /** The padded block is the block, an empty word and its length of 0x200 bits. */
  lemma PaddedBlock(block: seq<bv8>)
    requires |block| == 64
    ensures WordsOf(Padded(block, 0, 0)) == Swapped(LittleWords(block)) + [Word(0), Word(0x200)]
  {
    hide BeWord, Padded, Swapped, LittleWords, WordsOf;
    var padded := Padded(block, 0, 0);
    PaddedBytes(block);
    var words := Swapped(LittleWords(block));
    forall i | 0 <= i < 16
      ensures WordsOf(padded)[i] == words[i]
    {
      PaddedWord(block, padded, i);
    }
    TrailingWords(block, padded);
  }

  lemma PaddedBytes(block: seq<bv8>)
    requires |block| == 64
    ensures Padded(block, 0, 0) == block + [0, 0, 0, 0, 0, 0, 2, 0]
  {
    CounterOfBlock();
    hide Counter;
  }

  lemma PaddedWord(block: seq<bv8>, padded: seq<bv8>, i: nat)
    requires |block| == 64 && padded == block + [0, 0, 0, 0, 0, 0, 2, 0] && i < 16
    ensures WordsOf(padded)[i] == Swapped(LittleWords(block))[i]
  {
    hide LeWord, BeWord, Swap;
    assert padded[4 * i..4 * i + 4] == block[4 * i..4 * i + 4];
    SwapLittle(block[4 * i..4 * i + 4]);
  }

  lemma TrailingWords(block: seq<bv8>, padded: seq<bv8>)
    requires |block| == 64 && padded == block + [0, 0, 0, 0, 0, 0, 2, 0]
    ensures WordsOf(padded)[16] == Word(0) && WordsOf(padded)[17] == Word(0x200)
  {
    hide BeWord;
    assert padded[64..68] == [0, 0, 0, 0] && padded[68..72] == [0, 0, 2, 0];
    LengthWords();
  }

  lemma LengthWords()
    ensures BeWord([0, 0, 0, 0]) == Word(0) && BeWord([0, 0, 2, 0]) == Word(0x200)
  {
  }

  lemma CounterOfBlock()
    ensures Counter(512, 8) == [0, 0, 0, 0, 0, 0, 2, 0]
  {
    assert Counter(0, 6) == [0, 0, 0, 0, 0, 0];
    assert Counter(2, 7) == Counter(0, 6) + [2];
  }

  /** The word at bytes 28 to 31 of a digest, as a little-endian machine reads it. */
  function WordAt28(out: seq<bv8>): Word
    requires |out| == 64
  {
    LeWord(out[28..32])
  }

  /** r is the word that a little-endian machine reads from bytes 28 to 31 of the digest of a block. */
  ghost predicate IsDigestWord7(t: Tables, block: seq<bv8>, r: Word) {
    forall out :: |out| == 64 && IsEncoded(out, Hash(t, block, 0, 0)) ==> r == WordAt28(out)
  }

  lemma DigestWord7(t: Tables, block: seq<bv8>, s: State)
    requires |block| == 64
    requires s == Rounds(t, Initial(), Swapped(LittleWords(block)) + [Word(0), Word(0x200)])
    ensures IsDigestWord7(t, block, Swap(Word7(t, s)))
  {
    hide Rounds, Closed, DigestOf, Initial, Padded, Swapped, LittleWords, WordsOf, IsEncoded, WordAt28, Swap;
    PaddedBlock(block);
    var words := Hash(t, block, 0, 0);
    forall out | |out| == 64 && IsEncoded(out, words)
      ensures Swap(words[7]) == WordAt28(out)
    {
      EncodedWord7(out, words);
    }
  }

  /** metis4_core_opt: for every block, digest word 7 of what init, core and close compute. */
  method CoreOpt(t: Tables, block: seq<bv8>) returns (r: Word)
    requires |block| == 64
    ensures IsDigestWord7(t, block, r)
  {
    hide IsDigestWord7, Rounds, Word7, Initial, Swapped, LittleWords, Swap;
    var s := OptP1(t, LittleWords(block));
    ghost var absorbed := s[..];
    r := OptP2(t, s);
    DigestWord7(t, block, absorbed);
  }

  /** metis4_core_opt_interleaved: two blocks at once, each in its own variables. */
  method CoreOptInterleaved(t: Tables, block1: seq<bv8>, block2: seq<bv8>) returns (v1: Word, v2: Word)
    requires |block1| == 64 && |block2| == 64
    ensures IsDigestWord7(t, block1, v1) && IsDigestWord7(t, block2, v2)
  {
    hide IsDigestWord7, Rounds, Word7, Initial, Swapped, LittleWords, Swap;
    var a, b := AbsorbTwo(t, LittleWords(block1), LittleWords(block2));
    ghost var s1, s2 := a[..], b[..];
    v1, v2 := CloseTwo(t, a, b);
    DigestWord7(t, block1, s1);
    DigestWord7(t, block2, s2);
  }

  method AbsorbTwo(t: Tables, data1: seq<Word>, data2: seq<Word>) returns (a: array<Word>, b: array<Word>)
    requires |data1| == 16 && |data2| == 16
    ensures fresh(a) && fresh(b) && a != b && a.Length == SIZE && b.Length == SIZE
    ensures a[..] == Rounds(t, Initial(), Swapped(data1) + [Word(0), Word(0x200)])
    ensures b[..] == Rounds(t, Initial(), Swapped(data2) + [Word(0), Word(0x200)])
  {
    hide Round, Rounds, Swap, Initial;
    ghost var words1 := Swapped(data1) + [Word(0), Word(0x200)];
    ghost var words2 := Swapped(data2) + [Word(0), Word(0x200)];
    a := InitialVariables();
    b := InitialVariables();
    NoRounds(t, words1);
    NoRounds(t, words2);
    var i := 0;
    while i < 5
      invariant i <= 5
      invariant a[..] == Rounds(t, Initial(), words1[..3 * i])
      invariant b[..] == Rounds(t, Initial(), words2[..3 * i])
    {
      RoundsOfThree(t, words1, 3 * i);
      RoundsOfThree(t, words2, 3 * i);
      ThreeRounds(t, a, Swap(data1[3 * i]), Swap(data1[3 * i + 1]), Swap(data1[3 * i + 2]));
      ThreeRounds(t, b, Swap(data2[3 * i]), Swap(data2[3 * i + 1]), Swap(data2[3 * i + 2]));
      i := i + 1;
    }
    RoundsOfThree(t, words1, 15);
    RoundsOfThree(t, words2, 15);
    ThreeRounds(t, a, Swap(data1[15]), Word(0), Word(0x200));
    ThreeRounds(t, b, Swap(data2[15]), Word(0), Word(0x200));
    assert words1[..18] == words1 && words2[..18] == words2;
  }

  /** The closing loops, with the macros for the two blocks taking turns. */
  method CloseTwo(t: Tables, a: array<Word>, b: array<Word>) returns (v1: Word, v2: Word)
    requires a.Length == SIZE && b.Length == SIZE && a != b
    modifies a, b
    ensures v1 == Swap(Word7(t, old(a[..])))
    ensures v2 == Swap(Word7(t, old(b[..])))
  {
    hide SmixAt, CmixAt, Ror, SpreadAt, Swap, DigestOf;
    ghost var a0, b0 := a[..], b[..];
    var i := 0;
    while i < 32
      invariant i <= 32 && a[..] == Steps(t, a0, i) && b[..] == Steps(t, b0, i)
    {
      Rotate3(a);
      Cmix36(a, 0, 1, 2, 4, 5, 6, 18, 19, 20);
      Smix2Words(t, a, 0, 1, 2, 3);
      Rotate3(b);
      Cmix36(b, 0, 1, 2, 4, 5, 6, 18, 19, 20);
      Smix2Words(t, b, 0, 1, 2, 3);
      i := i + 1;
    }
    ghost var a1, b1 := a[..], b[..];
    i := 0;
    while i < 12
      invariant i <= 12 && a[..] == ClosingRounds(t, a1, i) && b[..] == ClosingRounds(t, b1, i)
    {
      QuarterOfTwo(t, a, b, 4, 9, 18, 27);
      QuarterOfTwo(t, a, b, 4, 10, 18, 27);
      QuarterOfTwo(t, a, b, 4, 10, 19, 27);
      SpreadInPlace(a, 4, 10, 19, 28);
      SpreadInPlace(b, 4, 10, 19, 28);
      Rotate8(a);
      Rotate8(b);
      Smix2Words(t, a, 0, 1, 2, 3);
      Smix2Words(t, b, 0, 1, 2, 3);
      i := i + 1;
    }
    PrunedIsDigestWord(t, a[..]);
    PrunedIsDigestWord(t, b[..]);
    v1 := LastRound(t, a);
    v2 := LastRound(t, b);
  }

  method QuarterOfTwo(t: Tables, a: array<Word>, b: array<Word>, i: nat, j: nat, k: nat, l: nat)
    requires a.Length == SIZE && b.Length == SIZE && a != b && i < SIZE && j < SIZE && k < SIZE && l < SIZE
    modifies a, b
    ensures a[..] == Quarter(t, old(a[..]), i, j, k, l, 9) && b[..] == Quarter(t, old(b[..]), i, j, k, l, 9)
  {
    hide SmixAt, Ror, SpreadAt;
    SpreadInPlace(a, i, j, k, l);
    SpreadInPlace(b, i, j, k, l);
    Rotate9(a);
    Rotate9(b);
    Smix2Words(t, a, 0, 1, 2, 3);
    Smix2Words(t, b, 0, 1, 2, 3);
  }

  lemma EncodedWord7(out: seq<bv8>, words: seq<Word>)
    requires |words| == 16 && IsEncoded(out, words)
    ensures |out| == 64 && WordAt28(out) == Swap(words[7])
  {
    assert out[4 * 7..4 * 7 + 4] == BeBytes(words[7]);
    LittleOfBig(words[7]);
    hide BeBytes, LeWord, Swap;
  }
}
