/**
 The plain form of the Metis hash word by word and byte by byte: what every step leaves at each place of the
 state, in terms of the bytes of the words and of the table entries alone.
 */
module MetisLaws {
  import opened Words
  import opened ByteStrings
  import opened MetisMix
  import opened MetisSpec

  // ----- the mix, byte by byte -----

  lemma OctetsAreBytes(w: Word)
    ensures BeBytes(w)[0] == Octet3(w) && BeBytes(w)[1] == Octet2(w)
    ensures BeBytes(w)[2] == Octet1(w) && BeBytes(w)[3] == Octet0(w)
  {
  }

  lemma XorByte0(a: Word, b: Word)
    ensures BeBytes(Xor(a, b))[0] == BeBytes(a)[0] ^ BeBytes(b)[0]
  {
  }

  lemma XorByte1(a: Word, b: Word)
    ensures BeBytes(Xor(a, b))[1] == BeBytes(a)[1] ^ BeBytes(b)[1]
  {
  }

  lemma XorByte2(a: Word, b: Word)
    ensures BeBytes(Xor(a, b))[2] == BeBytes(a)[2] ^ BeBytes(b)[2]
  {
  }

  lemma XorByte3(a: Word, b: Word)
    ensures BeBytes(Xor(a, b))[3] == BeBytes(a)[3] ^ BeBytes(b)[3]
  {
  }

  lemma LeftByte01(c: Word, r: Word)
    ensures BeBytes(Xor(c, Left(r, 8)))[0] == BeBytes(c)[0] ^ BeBytes(r)[1]
  {
  }

  lemma LeftByte02(c: Word, r: Word)
    ensures BeBytes(Xor(c, Left(r, 16)))[0] == BeBytes(c)[0] ^ BeBytes(r)[2]
  {
  }

  lemma LeftByte03(c: Word, r: Word)
    ensures BeBytes(Xor(c, Left(r, 24)))[0] == BeBytes(c)[0] ^ BeBytes(r)[3]
  {
  }

  lemma LeftByte11(c: Word, r: Word)
    ensures BeBytes(Xor(c, Left(r, 8)))[1] == BeBytes(c)[1] ^ BeBytes(r)[2]
  {
  }

  lemma LeftByte12(c: Word, r: Word)
    ensures BeBytes(Xor(c, Left(r, 16)))[1] == BeBytes(c)[1] ^ BeBytes(r)[3]
  {
  }

  lemma RightByte11(c: Word, r: Word)
    ensures BeBytes(Xor(c, Right(r, 8)))[1] == BeBytes(c)[1] ^ BeBytes(r)[0]
  {
  }

  lemma LeftByte21(c: Word, r: Word)
    ensures BeBytes(Xor(c, Left(r, 8)))[2] == BeBytes(c)[2] ^ BeBytes(r)[3]
  {
  }

  lemma RightByte22(c: Word, r: Word)
    ensures BeBytes(Xor(c, Right(r, 16)))[2] == BeBytes(c)[2] ^ BeBytes(r)[0]
  {
  }

  lemma RightByte21(c: Word, r: Word)
    ensures BeBytes(Xor(c, Right(r, 8)))[2] == BeBytes(c)[2] ^ BeBytes(r)[1]
  {
  }

  lemma RightByte33(c: Word, r: Word)
    ensures BeBytes(Xor(c, Right(r, 24)))[3] == BeBytes(c)[3] ^ BeBytes(r)[0]
  {
  }

  lemma RightByte32(c: Word, r: Word)
    ensures BeBytes(Xor(c, Right(r, 16)))[3] == BeBytes(c)[3] ^ BeBytes(r)[1]
  {
  }

  lemma RightByte31(c: Word, r: Word)
    ensures BeBytes(Xor(c, Right(r, 8)))[3] == BeBytes(c)[3] ^ BeBytes(r)[2]
  {
  }

  lemma AssembledBytes(a: Word, b: Word, c: Word, d: Word)
    ensures BeBytes(Assemble(a, b, c, d)) == [BeBytes(a)[0], BeBytes(b)[1], BeBytes(c)[2], BeBytes(d)[3]]
  {
  }

  lemma FirstWord(c0: Word, c1: Word, c2: Word, c3: Word, r0: Word, r1: Word, r2: Word, r3: Word)
    ensures BeBytes(Assemble(Xor(c0, r0), Xor(c1, r1),
                             Xor(c2, r2), Xor(c3, r3))) ==
            [BeBytes(c0)[0] ^ BeBytes(r0)[0], BeBytes(c1)[1] ^ BeBytes(r1)[1],
             BeBytes(c2)[2] ^ BeBytes(r2)[2], BeBytes(c3)[3] ^ BeBytes(r3)[3]]
  {
    hide BeBytes, Xor, Left, Right, Assemble;
    AssembledBytes(Xor(c0, r0), Xor(c1, r1), Xor(c2, r2), Xor(c3, r3));
    XorByte0(c0, r0);
    XorByte1(c1, r1);
    XorByte2(c2, r2);
    XorByte3(c3, r3);
  }

  lemma SecondWord(c0: Word, c1: Word, c2: Word, c3: Word, r0: Word, r1: Word, r2: Word, r3: Word)
    ensures BeBytes(Assemble(Xor(c1, Left(r0, 8)), Xor(c2, Left(r1, 8)),
                             Xor(c3, Left(r2, 8)), Xor(c0, Right(r3, 24)))) ==
            [BeBytes(c1)[0] ^ BeBytes(r0)[1], BeBytes(c2)[1] ^ BeBytes(r1)[2],
             BeBytes(c3)[2] ^ BeBytes(r2)[3], BeBytes(c0)[3] ^ BeBytes(r3)[0]]
  {
    hide BeBytes, Xor, Left, Right, Assemble;
    AssembledBytes(Xor(c1, Left(r0, 8)), Xor(c2, Left(r1, 8)), Xor(c3, Left(r2, 8)), Xor(c0, Right(r3, 24)));
    LeftByte01(c1, r0);
    LeftByte11(c2, r1);
    LeftByte21(c3, r2);
    RightByte33(c0, r3);
  }

  lemma ThirdWord(c0: Word, c1: Word, c2: Word, c3: Word, r0: Word, r1: Word, r2: Word, r3: Word)
    ensures BeBytes(Assemble(Xor(c2, Left(r0, 16)), Xor(c3, Left(r1, 16)),
                             Xor(c0, Right(r2, 16)), Xor(c1, Right(r3, 16)))) ==
            [BeBytes(c2)[0] ^ BeBytes(r0)[2], BeBytes(c3)[1] ^ BeBytes(r1)[3],
             BeBytes(c0)[2] ^ BeBytes(r2)[0], BeBytes(c1)[3] ^ BeBytes(r3)[1]]
  {
    hide BeBytes, Xor, Left, Right, Assemble;
    AssembledBytes(Xor(c2, Left(r0, 16)), Xor(c3, Left(r1, 16)), Xor(c0, Right(r2, 16)), Xor(c1, Right(r3, 16)));
    LeftByte02(c2, r0);
    LeftByte12(c3, r1);
    RightByte22(c0, r2);
    RightByte32(c1, r3);
  }

  lemma FourthWord(c0: Word, c1: Word, c2: Word, c3: Word, r0: Word, r1: Word, r2: Word, r3: Word)
    ensures BeBytes(Assemble(Xor(c3, Left(r0, 24)), Xor(c0, Right(r1, 8)),
                             Xor(c1, Right(r2, 8)), Xor(c2, Right(r3, 8)))) ==
            [BeBytes(c3)[0] ^ BeBytes(r0)[3], BeBytes(c0)[1] ^ BeBytes(r1)[0],
             BeBytes(c1)[2] ^ BeBytes(r2)[1], BeBytes(c2)[3] ^ BeBytes(r3)[2]]
  {
    hide BeBytes, Xor, Left, Right, Assemble;
    AssembledBytes(Xor(c3, Left(r0, 24)), Xor(c0, Right(r1, 8)), Xor(c1, Right(r2, 8)), Xor(c2, Right(r3, 8)));
    LeftByte03(c3, r0);
    RightByte11(c0, r1);
    RightByte21(c1, r2);
    RightByte31(c2, r3);
  }

  /**
   SMIX on four words: ci is the sum of the table words of the bytes of word i, rj that of the table words of byte j
   of the words other than word j. Byte j of output word i is that of c(i + j), plus byte i + j of rj.
   */
  lemma MixBytes(t: Tables, x: Quad, c0: Word, c1: Word, c2: Word, c3: Word, r0: Word, r1: Word, r2: Word, r3: Word)
    requires var b0, b1, b2, b3 := BeBytes(x.x0), BeBytes(x.x1), BeBytes(x.x2), BeBytes(x.x3);
             && c0 == Xor(Xor(Xor(t.mixtab0(b0[0]), t.mixtab1(b0[1])), t.mixtab2(b0[2])), t.mixtab3(b0[3]))
             && c1 == Xor(Xor(Xor(t.mixtab0(b1[0]), t.mixtab1(b1[1])), t.mixtab2(b1[2])), t.mixtab3(b1[3]))
             && c2 == Xor(Xor(Xor(t.mixtab0(b2[0]), t.mixtab1(b2[1])), t.mixtab2(b2[2])), t.mixtab3(b2[3]))
             && c3 == Xor(Xor(Xor(t.mixtab0(b3[0]), t.mixtab1(b3[1])), t.mixtab2(b3[2])), t.mixtab3(b3[3]))
             && r0 == Xor(Xor(t.mixtab0(b1[0]), t.mixtab0(b2[0])), t.mixtab0(b3[0]))
             && r1 == Xor(Xor(t.mixtab1(b0[1]), t.mixtab1(b2[1])), t.mixtab1(b3[1]))
             && r2 == Xor(Xor(t.mixtab2(b0[2]), t.mixtab2(b1[2])), t.mixtab2(b3[2]))
             && r3 == Xor(Xor(t.mixtab3(b0[3]), t.mixtab3(b1[3])), t.mixtab3(b2[3]))
    ensures var y := Mix(t, x);
            && BeBytes(y.x0) == [BeBytes(c0)[0] ^ BeBytes(r0)[0], BeBytes(c1)[1] ^ BeBytes(r1)[1],
                                 BeBytes(c2)[2] ^ BeBytes(r2)[2], BeBytes(c3)[3] ^ BeBytes(r3)[3]]
            && BeBytes(y.x1) == [BeBytes(c1)[0] ^ BeBytes(r0)[1], BeBytes(c2)[1] ^ BeBytes(r1)[2],
                                 BeBytes(c3)[2] ^ BeBytes(r2)[3], BeBytes(c0)[3] ^ BeBytes(r3)[0]]
            && BeBytes(y.x2) == [BeBytes(c2)[0] ^ BeBytes(r0)[2], BeBytes(c3)[1] ^ BeBytes(r1)[3],
                                 BeBytes(c0)[2] ^ BeBytes(r2)[0], BeBytes(c1)[3] ^ BeBytes(r3)[1]]
            && BeBytes(y.x3) == [BeBytes(c3)[0] ^ BeBytes(r0)[3], BeBytes(c0)[1] ^ BeBytes(r1)[0],
                                 BeBytes(c1)[2] ^ BeBytes(r2)[1], BeBytes(c2)[3] ^ BeBytes(r3)[2]]
  {
    hide BeBytes, Octet0, Octet1, Octet2, Octet3, Xor, Mix;
    ColumnIs(t, x.x0);
    ColumnIs(t, x.x1);
    ColumnIs(t, x.x2);
    ColumnIs(t, x.x3);
    hide Column;
    assert c0 == Column(t, x.x0) && c1 == Column(t, x.x1) && c2 == Column(t, x.x2) && c3 == Column(t, x.x3);
    MixFromSums(t, x, c0, c1, c2, c3, r0, r1, r2, r3);
  }

  lemma ColumnIs(t: Tables, w: Word)
    ensures Column(t, w) == Xor(Xor(Xor(t.mixtab0(BeBytes(w)[0]), t.mixtab1(BeBytes(w)[1])), t.mixtab2(BeBytes(w)[2])),
                                t.mixtab3(BeBytes(w)[3]))
    ensures BeBytes(w)[0] == Octet3(w) && BeBytes(w)[1] == Octet2(w)
    ensures BeBytes(w)[2] == Octet1(w) && BeBytes(w)[3] == Octet0(w)
  {
    hide BeBytes, Octet0, Octet1, Octet2, Octet3, Xor;
    OctetsAreBytes(w);
  }

  lemma MixFromSums(t: Tables, x: Quad, c0: Word, c1: Word, c2: Word, c3: Word, r0: Word, r1: Word, r2: Word, r3: Word)
    requires c0 == Column(t, x.x0) && c1 == Column(t, x.x1) && c2 == Column(t, x.x2) && c3 == Column(t, x.x3)
    requires r0 == Sum(t.mixtab0(Octet3(x.x1)), t.mixtab0(Octet3(x.x2)), t.mixtab0(Octet3(x.x3)))
    requires r1 == Sum(t.mixtab1(Octet2(x.x0)), t.mixtab1(Octet2(x.x2)), t.mixtab1(Octet2(x.x3)))
    requires r2 == Sum(t.mixtab2(Octet1(x.x0)), t.mixtab2(Octet1(x.x1)), t.mixtab2(Octet1(x.x3)))
    requires r3 == Sum(t.mixtab3(Octet0(x.x0)), t.mixtab3(Octet0(x.x1)), t.mixtab3(Octet0(x.x2)))
    ensures var y := Mix(t, x);
            && BeBytes(y.x0) == [BeBytes(c0)[0] ^ BeBytes(r0)[0], BeBytes(c1)[1] ^ BeBytes(r1)[1],
                                 BeBytes(c2)[2] ^ BeBytes(r2)[2], BeBytes(c3)[3] ^ BeBytes(r3)[3]]
            && BeBytes(y.x1) == [BeBytes(c1)[0] ^ BeBytes(r0)[1], BeBytes(c2)[1] ^ BeBytes(r1)[2],
                                 BeBytes(c3)[2] ^ BeBytes(r2)[3], BeBytes(c0)[3] ^ BeBytes(r3)[0]]
            && BeBytes(y.x2) == [BeBytes(c2)[0] ^ BeBytes(r0)[2], BeBytes(c3)[1] ^ BeBytes(r1)[3],
                                 BeBytes(c0)[2] ^ BeBytes(r2)[0], BeBytes(c1)[3] ^ BeBytes(r3)[1]]
            && BeBytes(y.x3) == [BeBytes(c3)[0] ^ BeBytes(r0)[3], BeBytes(c0)[1] ^ BeBytes(r1)[0],
                                 BeBytes(c1)[2] ^ BeBytes(r2)[1], BeBytes(c2)[3] ^ BeBytes(r3)[2]]
  {
    hide BeBytes, Octet0, Octet1, Octet2, Octet3, Xor, Left, Right, Assemble, Column, Sum;
    FirstWord(c0, c1, c2, c3, r0, r1, r2, r3);
    SecondWord(c0, c1, c2, c3, r0, r1, r2, r3);
    ThirdWord(c0, c1, c2, c3, r0, r1, r2, r3);
    FourthWord(c0, c1, c2, c3, r0, r1, r2, r3);
  }

  // ----- the steps, place by place -----

  /** TIX4: a message word enters, and four words are added to others. */
  lemma TixPlaces(s: State, q: Word, i: nat)
    requires i < 36
    ensures TixAt(s, q, 0, 1, 4, 7, 8, 22, 24, 27, 30)[i] ==
            if i == 0 then q else if i == 1 then Xor(s[1], s[24]) else if i == 4 then Xor(s[4], s[27])
            else if i == 7 then Xor(s[7], s[30]) else if i == 8 then Xor(s[8], q)
            else if i == 22 then Xor(s[22], s[0]) else s[i]
  {
    hide Xor;
  }

  /** ROR by three, CMIX36 and SMIX: all words move on by three places, three are added to and four are mixed. */
  lemma StepPlaces(t: Tables, s: State, i: nat, y: Quad)
    requires i < 36 && y == Mix(t, Quad(Xor(s[33], s[1]), Xor(s[34], s[2]), Xor(s[35], s[3]), s[0]))
    ensures Step(t, s)[i] ==
            if i == 0 then y.x0 else if i == 1 then y.x1 else if i == 2 then y.x2 else if i == 3 then y.x3
            else if 18 <= i <= 20 then Xor(s[i - 3], s[i - 17]) else s[i - 3]
  {
    hide Xor, Mix;
  }

  /** One quarter of a closing round, for the places it is used at: the first word is added to four others. */
  lemma QuarterPlaces(t: Tables, s: State, b: nat, c: nat, d: nat, n: nat, z: seq<Word>, y: Quad, i: nat)
    requires (b == 9 || b == 10) && (c == 18 || c == 19) && (d == 27 || d == 28) && (n == 8 || n == 9) && i < 36
    requires |z| == 36
    requires forall k :: 0 <= k < 36 ==>
               z[k] == if k == 4 || k == b || k == c || k == d then Xor(s[k], s[0]) else s[k]
    requires y == Mix(t, Quad(z[36 - n], z[37 - n], z[38 - n], z[39 - n]))
    ensures Quarter(t, s, 4, b, c, d, n)[i] ==
            if i == 0 then y.x0 else if i == 1 then y.x1 else if i == 2 then y.x2 else if i == 3 then y.x3
            else z[(i + 36 - n) % 36]
  {
    hide Xor, Mix, SpreadAt, Ror;
    SpreadPlaces(s, b, c, d, z);
    RorPlaces(z, n, i);
    RorPlaces(z, n, 0);
    RorPlaces(z, n, 1);
    RorPlaces(z, n, 2);
    RorPlaces(z, n, 3);
  }

  lemma SpreadPlaces(s: State, b: nat, c: nat, d: nat, z: seq<Word>)
    requires (b == 9 || b == 10) && (c == 18 || c == 19) && (d == 27 || d == 28) && |z| == 36
    requires forall k :: 0 <= k < 36 ==>
               z[k] == if k == 4 || k == b || k == c || k == d then Xor(s[k], s[0]) else s[k]
    ensures SpreadAt(s, 0, 4, b, c, d) == z
  {
    hide Xor;
  }

  lemma RorPlaces(z: State, n: nat, i: nat)
    requires n <= 36 && i < 36
    ensures Ror(z, n)[i] == z[(i + 36 - n) % 36]
  {
  }

  /** Rounds of four steps, and closing rounds of four quarters. */
  lemma StepCounts(t: Tables, s: State, words: seq<Word>, q: Word, i: nat)
    ensures Rounds(t, s, []) == s && Rounds(t, s, words + [q]) == Round(t, Rounds(t, s, words), q)
    ensures Round(t, s, q) == Steps(t, TixAt(s, q, 0, 1, 4, 7, 8, 22, 24, 27, 30), 4)
    ensures Steps(t, s, 0) == s && Steps(t, s, i + 1) == Step(t, Steps(t, s, i))
    ensures ClosingRounds(t, s, 0) == s
    ensures ClosingRounds(t, s, i + 1) ==
            Quarter(t, Quarter(t, Quarter(t, Quarter(t, ClosingRounds(t, s, i), 4, 9, 18, 27, 9), 4, 10, 18, 27, 9),
                               4, 10, 19, 27, 9), 4, 10, 19, 28, 8)
  {
    hide Quarter, Step, TixAt;
    assert (words + [q])[..|words|] == words;
    var x := TixAt(s, q, 0, 1, 4, 7, 8, 22, 24, 27, 30);
    assert Steps(t, x, 2) == Step(t, Steps(t, x, 1)) == Step(t, Step(t, x));
    assert Steps(t, x, 4) == Step(t, Steps(t, x, 3)) == Step(t, Step(t, Steps(t, x, 2)));
  }

  /** The whole: the rounds of the padded message, 32 steps, 13 closing rounds, and sixteen of the words. */
  lemma HashWords(t: Tables, message: seq<bv8>, ub: bv8, n: nat, w: State)
    requires n < 8
    requires w == ClosingRounds(t, Steps(t, Rounds(t, Initial(), WordsOf(Padded(message, ub, n))), 32), 13)
    ensures Hash(t, message, ub, n) ==
            [w[1], w[2], w[3], Xor(w[4], w[0]), Xor(w[9], w[0]), w[10], w[11], w[12],
             Xor(w[18], w[0]), w[19], w[20], w[21], Xor(w[27], w[0]), w[28], w[29], w[30]]
  {
    hide Quarter, ClosingRounds, Steps, Rounds, Xor, Padded, WordsOf, Initial;
    DigestPlaces(w);
  }

  lemma DigestPlaces(w: State)
    ensures DigestOf(SpreadAt(w, 0, 4, 9, 18, 27)) ==
            [w[1], w[2], w[3], Xor(w[4], w[0]), Xor(w[9], w[0]), w[10], w[11], w[12],
             Xor(w[18], w[0]), w[19], w[20], w[21], Xor(w[27], w[0]), w[28], w[29], w[30]]
  {
    hide Xor;
  }

  /** The state begins with twenty zeros and sixteen constants. */
  lemma InitialPlaces(i: nat)
    requires i < 20
    ensures Initial()[i] == Word(0)
    ensures Initial()[20] == Word(0x8807a57e) && Initial()[21] == Word(0xe616af75)
    ensures Initial()[22] == Word(0xc5d3e4db) && Initial()[23] == Word(0xac9ab027)
    ensures Initial()[24] == Word(0xd915f117) && Initial()[25] == Word(0xb6eecc54)
    ensures Initial()[26] == Word(0x06e8020b) && Initial()[27] == Word(0x4a92efd1)
    ensures Initial()[28] == Word(0xaac6e2c9) && Initial()[29] == Word(0xddb21398)
    ensures Initial()[30] == Word(0xcae65838) && Initial()[31] == Word(0x437f203f)
    ensures Initial()[32] == Word(0x25ea78e7) && Initial()[33] == Word(0x951fddd6)
    ensures Initial()[34] == Word(0xda6ed11d) && Initial()[35] == Word(0xe13e3567)
  {
  }

  /** Zero bytes fill up the last word, and eight bytes count the bits, the most significant first. */
  lemma PaddingBytes(message: seq<bv8>, ub: bv8, k: nat)
    ensures var p := Padded(message, ub, 0);
            && |p| % 4 == 0 && |message| + 8 <= |p| < |message| + 12
            && p[..|message|] == message
            && (|message| <= k < |p| - 8 ==> p[k] == 0)
            && p[|p| - 8..] == Counter(8 * |message|, 8)
  {
    hide Counter, Filled;
    FilledBytes(message, k);
    assert message + [] == message;
    var f, c := Filled(message), Counter(8 * |message|, 8);
    assert Padded(message, ub, 0) == f + c;
  }

  lemma FilledBytes(message: seq<bv8>, k: nat)
    ensures var f := Filled(message);
            f[..|message|] == message && (|message| <= k < |f| ==> f[k] == 0)
  {
  }

  /** The last two bytes of the count. */
  lemma CounterEnds(value: nat)
    ensures Counter(value, 8)[7] == (value % 256) as bv8 && Counter(value, 8)[6] == (value / 256 % 256) as bv8
  {
    assert Counter(value, 8) == Counter(value / 256, 7) + [(value % 256) as bv8];
    assert Counter(value / 256, 7) == Counter(value / 256 / 256, 6) + [(value / 256 % 256) as bv8];
  }
}
