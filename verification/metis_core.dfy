/**
 sph_metis_context: metis_init, metis4_core with its three cases, and metis4_close, proved against
 the plain hash.
 */
module MetisCore {
  import opened Words
  import opened ByteStrings
  import opened MetisMix
  import opened MetisSpec
  import opened MetisRoles

  // ----- the cases of the switch -----

  /** Case 0 of the switch. */
  method Case0(t: Tables, s: array<Word>, q: Word)
    requires s.Length == SIZE
    modifies s
    ensures View(s[..], Names(4)) == Round(t, View(old(s[..]), Names(0)), q)
  {
    hide View, Names, Step, TixAt, CmixAt, SmixAt, Ror;
    ghost var a := s[..];
    NamedPlaces0();
    Tix4(s, q, 0, 1, 4, 7, 8, 22, 24, 27, 30);
    ViewTix(a, Names(0), q);
    a := s[..];
    NamedPlaces1();
    Cmix36(s, 33, 34, 35, 1, 2, 3, 15, 16, 17);
    SmixWords(t, s, 33, 34, 35, 0);
    ViewStep(t, a, 0);
    a := s[..];
    NamedPlaces2();
    Cmix36(s, 30, 31, 32, 34, 35, 0, 12, 13, 14);
    SmixWords(t, s, 30, 31, 32, 33);
    ViewStep(t, a, 1);
    a := s[..];
    NamedPlaces3();
    Cmix36(s, 27, 28, 29, 31, 32, 33, 9, 10, 11);
    SmixWords(t, s, 27, 28, 29, 30);
    ViewStep(t, a, 2);
    a := s[..];
    NamedPlaces4();
    Cmix36(s, 24, 25, 26, 28, 29, 30, 6, 7, 8);
    SmixWords(t, s, 24, 25, 26, 27);
    ViewStep(t, a, 3);
  }

  /** Case 1: case 0 on names moved by 12. */
  method Case1(t: Tables, s: array<Word>, q: Word)
    requires s.Length == SIZE
    modifies s
    ensures View(s[..], Names(8)) == Round(t, View(old(s[..]), Names(4)), q)
  {
    hide View, Names, Step, TixAt, CmixAt, SmixAt, Ror;
    ghost var a := s[..];
    NamedPlaces4();
    Tix4(s, q, 24, 25, 28, 31, 32, 10, 12, 15, 18);
    ViewTix(a, Names(4), q);
    a := s[..];
    NamedPlaces5();
    Cmix36(s, 21, 22, 23, 25, 26, 27, 3, 4, 5);
    SmixWords(t, s, 21, 22, 23, 24);
    ViewStep(t, a, 4);
    a := s[..];
    NamedPlaces6();
    Cmix36(s, 18, 19, 20, 22, 23, 24, 0, 1, 2);
    SmixWords(t, s, 18, 19, 20, 21);
    ViewStep(t, a, 5);
    a := s[..];
    NamedPlaces7();
    Cmix36(s, 15, 16, 17, 19, 20, 21, 33, 34, 35);
    SmixWords(t, s, 15, 16, 17, 18);
    ViewStep(t, a, 6);
    a := s[..];
    NamedPlaces8();
    Cmix36(s, 12, 13, 14, 16, 17, 18, 30, 31, 32);
    SmixWords(t, s, 12, 13, 14, 15);
    ViewStep(t, a, 7);
  }

  /** Case 2: case 0 on names moved by 24. */
  method Case2(t: Tables, s: array<Word>, q: Word)
    requires s.Length == SIZE
    modifies s
    ensures View(s[..], Names(12)) == Round(t, View(old(s[..]), Names(8)), q)
  {
    hide View, Names, Step, TixAt, CmixAt, SmixAt, Ror;
    ghost var a := s[..];
    NamedPlaces8();
    Tix4(s, q, 12, 13, 16, 19, 20, 34, 0, 3, 6);
    ViewTix(a, Names(8), q);
    a := s[..];
    NamedPlaces9();
    Cmix36(s, 9, 10, 11, 13, 14, 15, 27, 28, 29);
    SmixWords(t, s, 9, 10, 11, 12);
    ViewStep(t, a, 8);
    a := s[..];
    NamedPlaces10();
    Cmix36(s, 6, 7, 8, 10, 11, 12, 24, 25, 26);
    SmixWords(t, s, 6, 7, 8, 9);
    ViewStep(t, a, 9);
    a := s[..];
    NamedPlaces11();
    Cmix36(s, 3, 4, 5, 7, 8, 9, 21, 22, 23);
    SmixWords(t, s, 3, 4, 5, 6);
    ViewStep(t, a, 10);
    a := s[..];
    NamedPlaces12();
    Cmix36(s, 0, 1, 2, 4, 5, 6, 18, 19, 20);
    SmixWords(t, s, 0, 1, 2, 3);
    ViewStep(t, a, 11);
  }

  // ----- what a context stands for -----

  /** The words a stand, under the names of the shift, for the state after the words of bs. */
  ghost predicate Absorbed(t: Tables, a: State, shift: nat, bs: seq<bv8>) {
    && |bs| % 4 == 0 && shift < 3 && shift == |bs| / 4 % 3
    && View(a, Names(4 * shift)) == Rounds(t, Initial(), WordsOf(bs))
  }

  lemma WordsOfAppend(bs: seq<bv8>, w: seq<bv8>)
    requires |bs| % 4 == 0 && |w| == 4
    ensures WordsOf(bs + w) == WordsOf(bs) + [BeWord(w)]
  {
    hide BeWord;
    var k := |bs| / 4;
    assert (bs + w)[4 * k..4 * k + 4] == w;
    forall i | 0 <= i < k
      ensures (bs + w)[4 * i..4 * i + 4] == bs[4 * i..4 * i + 4]
    {
    }
  }

  lemma AbsorbedStart(t: Tables)
    ensures Absorbed(t, Initial(), 0, [])
  {
    NamesReturn(Initial());
    hide Names, View, Initial;
  }

  lemma AbsorbedNext(t: Tables, a: State, a': State, shift: nat, bs: seq<bv8>, w: seq<bv8>)
    requires Absorbed(t, a, shift, bs) && |w| == 4
    requires View(a', Names(4 * shift + 4)) == Round(t, View(a, Names(4 * shift)), BeWord(w))
    ensures Absorbed(t, a', if shift == 2 then 0 else shift + 1, bs + w)
  {
    hide Round, Rounds, WordsOf, Initial, Names, View, IsNaming, BeWord;
    WordsOfAppend(bs, w);
    RoundsNext(t, WordsOf(bs), BeWord(w));
    NextShift(|bs|, shift);
    if shift == 2 {
      NamesReturn(a');
    }
  }

  lemma NextShift(length: nat, shift: nat)
    requires length % 4 == 0 && shift == length / 4 % 3
    ensures (length + 4) % 4 == 0 && (length + 4) / 4 % 3 == if shift == 2 then 0 else shift + 1
  {
  }

  lemma RoundsNext(t: Tables, words: seq<Word>, q: Word)
    ensures Rounds(t, Initial(), words + [q]) == Round(t, Rounds(t, Initial(), words), q)
  {
    hide Round, Initial;
    assert (words + [q])[..|words|] == words;
  }

  // ----- the loop of metis4_core -----

  /** Inside the loop: full[..done] is absorbed, p is the next word, and rest is what follows. */
  ghost predicate Running(t: Tables, a: State, at: nat, full: seq<bv8>, done: nat, p: Word, rest: seq<bv8>) {
    && done + 4 <= |full| && rest == full[done + 4..]
    && Absorbed(t, a, at, full[..done])
    && p == BeWord(full[done..done + 4])
  }

  lemma RunningStep(t: Tables, a: State, a': State, at: nat, full: seq<bv8>, done: nat, p: Word, rest: seq<bv8>)
    requires Running(t, a, at, full, done, p, rest)
    requires View(a', Names(4 * at + 4)) == Round(t, View(a, Names(4 * at)), p)
    ensures var next := if at == 2 then 0 else at + 1;
            && Absorbed(t, a', next, full[..done + 4])
            && (|rest| > 4 ==> Running(t, a', next, full, done + 4, BeWord(rest[..4]), rest[4..]))
  {
    hide BeWord, Round;
    var w := full[done..done + 4];
    AbsorbedNext(t, a, a', at, full[..done], w);
    assert full[..done] + w == full[..done + 4];
    if |rest| > 4 {
      assert rest[..4] == full[done + 4..done + 8];
      assert rest[4..] == full[done + 8..];
    }
  }

  /** The switch with its endless loop and NEXT: words are absorbed until at most four bytes are left. */
  method Run(t: Tables, s: array<Word>, first: Word, shift: nat, data: seq<bv8>, ghost full: seq<bv8>, ghost start: nat)
    returns (rshift: nat, rest: seq<bv8>)
    requires s.Length == SIZE && shift < 3 && Running(t, s[..], shift, full, start, first, data)
    modifies s
    ensures rshift < 3 && |rest| <= 4 && |rest| <= |full| && (|data| > 0 ==> |rest| > 0)
        && rest == full[|full| - |rest|..]
    ensures Absorbed(t, s[..], rshift, full[..|full| - |rest|])
  {
    hide Absorbed, View, Names, Round, BeWord;
    ghost var done := start;
    var p := first;
    rest := data;
    rshift := shift;
    while true
      invariant rshift < 3 && Running(t, s[..], rshift, full, done, p, rest)
      invariant |data| > 0 ==> |rest| > 0
      decreases |rest|
    {
      ghost var before := |rest|;
      if rshift == 0 {
        ghost var a := s[..];
        Case0(t, s, p);
        RunningStep(t, a, s[..], 0, full, done, p, rest);
        done := done + 4;
        rshift := 1;
        if |rest| <= 4 { break; }
        p, rest := BeWord(rest[..4]), rest[4..];
      }
      // fall through
      if rshift == 1 {
        ghost var a := s[..];
        Case1(t, s, p);
        RunningStep(t, a, s[..], 1, full, done, p, rest);
        done := done + 4;
        rshift := 2;
        if |rest| <= 4 { break; }
        p, rest := BeWord(rest[..4]), rest[4..];
      }
      // fall through
      ghost var a := s[..];
      Case2(t, s, p);
      RunningStep(t, a, s[..], 2, full, done, p, rest);
      done := done + 4;
      rshift := 0;
      if |rest| <= 4 { break; }
      p, rest := BeWord(rest[..4]), rest[4..];
    }
  }

  // ----- padding -----

  /** The count of bits is written modulo 2^64. */
  lemma CounterOfSum(bits: nat, n: nat)
    ensures Counter(bits % 0x1_0000_0000_0000_0000 + n, 8) == Counter(bits + n, 8)
  {
    hide Counter;
    assert Bound(8) == 0x1_0000_0000_0000_0000;
    CounterWraps(bits % 0x1_0000_0000_0000_0000 + n, bits / 0x1_0000_0000_0000_0000, 8);
  }

  /** The bytes that CLOSE_ENTRY puts between the message and the counter. */
  function Fill(plen: nat, ub: bv8, n: nat): seq<bv8>
    requires plen <= 4 && n < 8
  {
    if plen == 0 && n == 0 then []
    else if plen < 4 || n != 0 then
      var k := if plen == 4 then 0 else plen;
      [ExtraBits(ub, n)] + Zeros(3 - k)
    else []
  }

  lemma FillPads(message: seq<bv8>, plen: nat, ub: bv8, n: nat)
    requires plen <= 4 && n < 8 && (|message| - plen) % 4 == 0
    ensures message + Fill(plen, ub, n) == Filled(message + if n == 0 then [] else [ExtraBits(ub, n)])
  {
    assert ExtraBits(ub, 0) == 0 by { NoExtraBits(ub); }
    hide ExtraBits;
    var filled := Filled(message + if n == 0 then [] else [ExtraBits(ub, n)]);
    assert |message| % 4 == plen % 4;
    assert |message + Fill(plen, ub, n)| == |filled|;
  }

  lemma PaddedIsWhole(message: seq<bv8>, ub: bv8, n: nat)
    requires n < 8
    ensures |Padded(message, ub, n)| % 4 == 0
  {
    hide Counter, Filled, ExtraBits;
  }

  lemma NoExtraBits(ub: bv8)
    ensures ExtraBits(ub, 0) == 0
  {
  }

  // ----- the context -----

  /** ROR(n, 36): the last n words are saved, the others moved up, the saved ones put in front. */
  method RorInPlace(s: array<Word>, n: nat)
    requires s.Length == SIZE && n <= SIZE
    modifies s
    ensures s[..] == Ror(old(s[..]), n)
  {
    var tmp := s[SIZE - n..];
    forall i | n <= i < SIZE {
      s[i] := s[i - n];
    }
    forall i | 0 <= i < n {
      s[i] := tmp[i];
    }
  }

  /** The first word is added to four others. */
  method SpreadInPlace(s: array<Word>, a: nat, b: nat, c: nat, d: nat)
    requires s.Length == SIZE && a < SIZE && b < SIZE && c < SIZE && d < SIZE
    modifies s
    ensures s[..] == SpreadAt(old(s[..]), 0, a, b, c, d)
  {
    hide XorInto;
    XorAssign(s, a, 0);
    XorAssign(s, b, 0);
    XorAssign(s, c, 0);
    XorAssign(s, d, 0);
  }

  /** The two closing loops of metis4_close. */
  method CloseRounds(t: Tables, s: array<Word>)
    requires s.Length == SIZE
    modifies s
    ensures s[..] == Closed(t, old(s[..]))
  {
    hide SmixAt, CmixAt, Ror, SpreadAt;
    ghost var s0 := s[..];
    var i := 0;
    while i < 32
      invariant i <= 32 && s[..] == Steps(t, s0, i)
    {
      RorInPlace(s, 3);
      Cmix36(s, 0, 1, 2, 4, 5, 6, 18, 19, 20);
      SmixWords(t, s, 0, 1, 2, 3);
      i := i + 1;
    }
    ghost var s1 := s[..];
    i := 0;
    while i < 13
      invariant i <= 13 && s[..] == ClosingRounds(t, s1, i)
    {
      SpreadInPlace(s, 4, 9, 18, 27);
      RorInPlace(s, 9);
      SmixWords(t, s, 0, 1, 2, 3);
      SpreadInPlace(s, 4, 10, 18, 27);
      RorInPlace(s, 9);
      SmixWords(t, s, 0, 1, 2, 3);
      SpreadInPlace(s, 4, 10, 19, 27);
      RorInPlace(s, 9);
      SmixWords(t, s, 0, 1, 2, 3);
      SpreadInPlace(s, 4, 10, 19, 28);
      RorInPlace(s, 8);
      SmixWords(t, s, 0, 1, 2, 3);
      i := i + 1;
    }
    SpreadInPlace(s, 4, 9, 18, 27);
  }

  /** The copy made by CLOSE_ENTRY: the names of the shift are undone. */
  lemma RotationUndone(a: State, shift: nat, s: State)
    requires shift < 3
    requires forall i :: 0 <= i < 12 * shift ==> s[i] == a[SIZE - 12 * shift + i]
    requires forall i :: 12 * shift <= i < SIZE ==> s[i] == a[i - 12 * shift]
    ensures s == View(a, Names(4 * shift))
  {
    forall i | 0 <= i < SIZE
      ensures s[i] == View(a, Names(4 * shift))[i]
    {
    }
  }

  lemma InitialWords(s: State)
    requires forall u :: 0 <= u < 20 ==> s[u] == ZERO
    requires forall u :: 0 <= u < 16 ==> s[20 + u] == IV512[u]
    ensures s == Initial()
  {
    forall u | 20 <= u < SIZE
      ensures s[u] == Initial()[u]
    {
      assert s[u] == s[20 + (u - 20)];
    }
  }

  /** full[start..start + plen] has been shifted into p, and rest is what follows. */
  ghost predicate Pending(full: seq<bv8>, start: nat, p: Word, plen: nat, rest: seq<bv8>) {
    start + plen <= |full| && p == PushAll(ZERO, full[start..start + plen]) && rest == full[start + plen..]
  }

  lemma PendingStart(message: seq<bv8>, data: seq<bv8>, plen: nat)
    requires plen <= |message|
    ensures Pending(message + data, |message| - plen, PushAll(ZERO, message[|message| - plen..]), plen, data)
    ensures (message + data)[..|message| - plen] == message[..|message| - plen]
  {
    hide PushAll;
    var start := |message| - plen;
    assert (message + data)[start..start + plen] == message[start..];
  }

  lemma PendingMore(full: seq<bv8>, start: nat, p: Word, plen: nat, rest: seq<bv8>, count: nat)
    requires Pending(full, start, p, plen, rest) && count <= |rest|
    ensures Pending(full, start, PushAll(p, rest[..count]), plen + count, rest[count..])
  {
    hide PushAll;
    var so := full[start..start + plen];
    PushAllAppend(ZERO, so, rest[..count]);
    assert so + rest[..count] == full[start..start + plen + count];
    assert rest[count..] == full[start + (plen + count)..];
  }

  lemma PendingAll(full: seq<bv8>, start: nat, p: Word, plen: nat)
    requires Pending(full, start, p, plen, [])
    ensures start + plen == |full| && p == PushAll(ZERO, full[start..])
  {
    hide PushAll;
    assert |full[start + plen..]| == 0;
    assert full[start..start + plen] == full[start..];
  }

  lemma PendingWord(t: Tables, a: State, at: nat, full: seq<bv8>, start: nat, p: Word, rest: seq<bv8>)
    requires Pending(full, start, p, 4, rest) && Absorbed(t, a, at, full[..start])
    ensures Running(t, a, at, full, start, p, rest)
  {
    hide Absorbed;
    PushFour(ZERO, full[start..start + 4]);
  }

  /** The 64-bit count of message bits. */
  function BitCount(bytes: nat): nat {
    8 * bytes % 0x1_0000_0000_0000_0000
  }

  lemma BitCountAdds(a: nat, b: nat)
    ensures (BitCount(a) + 8 * b) % 0x1_0000_0000_0000_0000 == BitCount(a + b)
  {
  }

  class MetisContext {
    const S: array<Word>
    var partial: Word
    var partialLen: nat
    var bitCount: nat
    var roundShift: nat

    /** The context stands for the bytes of message. */
    ghost predicate Holds(t: Tables, message: seq<bv8>)
      reads this, S
    {
      && S.Length == SIZE && roundShift < 3 && partialLen <= 4 && partialLen <= |message|
      && bitCount == BitCount(|message|)
      && partial == PushAll(ZERO, message[|message| - partialLen..])
      && Absorbed(t, S[..], roundShift, message[..|message| - partialLen])
    }

    /** sph_metis512_init. */
    constructor ()
      ensures fresh(S) && forall t :: Holds(t, [])
    {
      hide Absorbed, Initial, PushAll;
      S := new Word[SIZE];
      partial, partialLen, roundShift, bitCount := ZERO, 0, 0, 0;
      new;
      forall u | 0 <= u < 20 {
        S[u] := ZERO;
      }
      forall u | 0 <= u < 16 {
        S[20 + u] := IV512[u];
      }
      InitialWords(S[..]);
      NothingPushed(ZERO);
      forall t
        ensures Absorbed(t, S[..], 0, [])
      {
        AbsorbedStart(t);
      }
    }

    /** metis4_core: whatever the chunks, the context holds their concatenation. */
    method Core(t: Tables, data: seq<bv8>, ghost message: seq<bv8>)
      requires Holds(t, message)
      modifies this, S
      ensures Holds(t, message + data) && (|data| > 0 ==> partialLen > 0)
    {
      hide Absorbed, BeWord, PushAll, Pending, Running, BitCount;
      ghost var full := message + data;
      ghost var start := |message| - partialLen;
      ghost var a := S[..];
      PendingStart(message, data, partialLen);
      BitCountAdds(|message|, |data|);
      bitCount := (bitCount + 8 * |data|) % 0x1_0000_0000_0000_0000;
      var p, plen, rest := partial, partialLen, data;
      if plen < 4 {
        var count := if |rest| < 4 - plen then |rest| else 4 - plen;
        PendingMore(full, start, p, plen, rest, count);
        plen := plen + count;
        p, rest := PushBytes(p, rest, count);
        if |rest| == 0 {
          partial := p;
          partialLen := plen;
          PendingAll(full, start, p, plen);
          return;
        }
      }
      PendingWord(t, a, roundShift, full, start, p, rest);
      Blocks(t, p, rest, full, start);
    }

    /** metis4_core from READ_STATE on: the state is copied, words are absorbed, what is left is kept. */
    method Blocks(t: Tables, first: Word, data: seq<bv8>, ghost full: seq<bv8>, ghost start: nat)
      requires S.Length == SIZE && roundShift < 3 && Running(t, S[..], roundShift, full, start, first, data)
      requires bitCount == BitCount(|full|)
      modifies this, S
      ensures Holds(t, full) && (|data| > 0 ==> partialLen > 0)
    {
      hide Absorbed, Running, BeWord, PushAll, BitCount;
      ghost var a := S[..];
      var s := new Word[SIZE];
      forall i | 0 <= i < SIZE {
        s[i] := S[i];
      }
      assert s[..] == a;
      var shift, left := Run(t, s, first, roundShift, data, full, start);
      ghost var b := s[..];
      assert left[..|left|] == left;
      partialLen := |left|;
      var p, rest := PushBytes(ZERO, left, |left|);
      partial := p;
      roundShift := shift;
      forall i | 0 <= i < SIZE {
        S[i] := s[i];
      }
      assert S[..] == b;
    }

    /**
     metis4_close: the digest, encoded word by word, is that of the plain hash. leftover is whatever
     the last four bytes of the buffer on the stack happened to hold.
     */
    method Close(t: Tables, ub: bv8, n: nat, leftover: seq<bv8>, ghost message: seq<bv8>) returns (out: seq<bv8>)
      requires n < 8 && |leftover| == 4 && Holds(t, message)
      modifies this, S
      ensures IsEncoded(out, Hash(t, message, ub, n))
    {
      hide Absorbed, Rounds, Closed, IsEncoded, Padded, View, Names, WordsOf, Initial, DigestOf, Holds;
      LastWords(t, ub, n, leftover, message);
      AbsorbedIs(t, S[..], roundShift, Padded(message, ub, n));
      var s := Unrotated();
      CloseRounds(t, s);
      out := Emit(s);
    }

    /** The first part of CLOSE_ENTRY: padding and counter go through the core. */
    method LastWords(t: Tables, ub: bv8, n: nat, leftover: seq<bv8>, ghost message: seq<bv8>)
      requires n < 8 && |leftover| == 4 && Holds(t, message)
      modifies this, S
      ensures S.Length == SIZE && roundShift < 3 && Absorbed(t, S[..], roundShift, Padded(message, ub, n))
    {
      hide Absorbed, Padded, Fill, Counter, PushAll, ExtraBits, BitCount;
      AbsorbedLength(t, S[..], roundShift, message[..|message| - partialLen]);
      var rest := Fill(partialLen, ub, n) + (Counter(bitCount + n, 8) + leftover);
      ClosingBytes(message, partialLen, ub, n, bitCount, leftover);
      Core(t, rest, message);
      PaddedIsWhole(message, ub, n);
      AllButLeftover(t, S[..], roundShift, message + rest, partialLen, Padded(message, ub, n), leftover);
    }

    /** The end of CLOSE_ENTRY: a copy of the words in which the rotation of the roles is undone. */
    method Unrotated() returns (s: array<Word>)
      requires S.Length == SIZE && roundShift < 3
      ensures fresh(s) && s.Length == SIZE && s[..] == View(S[..], Names(4 * roundShift))
    {
      hide View, Names;
      var rms := roundShift * 12;
      s := new Word[SIZE];
      forall i | 0 <= i < rms {
        s[i] := S[SIZE - rms + i];
      }
      forall i | rms <= i < SIZE {
        s[i] := S[i - rms];
      }
      RotationUndone(S[..], roundShift, s[..]);
    }
  }

  /** The bytes the last call of the core receives complete the padded message. */
  lemma ClosingBytes(message: seq<bv8>, plen: nat, ub: bv8, n: nat, count: nat, leftover: seq<bv8>)
    requires n < 8 && plen <= 4 && plen <= |message| && (|message| - plen) % 4 == 0
    requires count == BitCount(|message|)
    ensures message + (Fill(plen, ub, n) + (Counter(count + n, 8) + leftover)) == Padded(message, ub, n) + leftover
  {
    hide Fill, Counter, ExtraBits, Filled;
    FillPads(message, plen, ub, n);
    CounterOfSum(8 * |message|, n);
  }

  /** After a whole number of words, the last of them pending, all but the last is absorbed. */
  lemma AllButLeftover(t: Tables, a: State, shift: nat, bs: seq<bv8>, partialLen: nat, padded: seq<bv8>,
                       leftover: seq<bv8>)
    requires bs == padded + leftover && |padded| % 4 == 0 && |leftover| == 4
    requires 0 < partialLen <= 4 && Absorbed(t, a, shift, bs[..|bs| - partialLen])
    ensures Absorbed(t, a, shift, padded)
  {
    hide Absorbed;
    AbsorbedLength(t, a, shift, bs[..|bs| - partialLen]);
    assert (|padded| + 4 - partialLen) % 4 == 0;
    assert bs[..|padded|] == padded;
  }

  lemma AbsorbedLength(t: Tables, a: State, shift: nat, bs: seq<bv8>)
    requires Absorbed(t, a, shift, bs)
    ensures |bs| % 4 == 0
  {
  }

  lemma AbsorbedIs(t: Tables, a: State, shift: nat, bs: seq<bv8>)
    requires Absorbed(t, a, shift, bs)
    ensures |bs| % 4 == 0 && View(a, Names(4 * shift)) == Rounds(t, Initial(), WordsOf(bs))
  {
  }

  /** Sixteen words in big-endian bytes. */
  predicate IsEncoded(out: seq<bv8>, words: seq<Word>) {
    |out| == 4 * |words| && forall i :: 0 <= i < |words| ==> out[4 * i..4 * i + 4] == BeBytes(words[i])
  }

  lemma EncodedAppend(out: seq<bv8>, words: seq<Word>, w: Word)
    requires IsEncoded(out, words)
    ensures IsEncoded(out + BeBytes(w), words + [w])
  {
    hide BeBytes;
    forall i | 0 <= i < |words| + 1
      ensures (out + BeBytes(w))[4 * i..4 * i + 4] == BeBytes((words + [w])[i])
    {
      if i < |words| {
        assert (out + BeBytes(w))[4 * i..4 * i + 4] == out[4 * i..4 * i + 4];
      }
    }
  }

  method EncodeNext(out: seq<bv8>, w: Word, ghost words: seq<Word>, ghost k: nat) returns (longer: seq<bv8>)
    requires k < |words| && w == words[k] && IsEncoded(out, words[..k])
    ensures IsEncoded(longer, words[..k + 1])
  {
    EncodedAppend(out, words[..k], w);
    assert words[..k] + [w] == words[..k + 1];
    longer := out + BeBytes(w);
  }

  lemma FirstDigestPlaces(c: State)
    ensures var ws := DigestOf(c);
            && ws[0] == c[1] && ws[1] == c[2] && ws[2] == c[3] && ws[3] == c[4]
            && ws[4] == c[9] && ws[5] == c[10] && ws[6] == c[11] && ws[7] == c[12]
  {
  }

  lemma LastDigestPlaces(c: State)
    ensures var ws := DigestOf(c);
            && ws[8] == c[18] && ws[9] == c[19] && ws[10] == c[20] && ws[11] == c[21]
            && ws[12] == c[27] && ws[13] == c[28] && ws[14] == c[29] && ws[15] == c[30]
  {
  }

  /** The digest words of a closed state, written out in order. */
  method Emit(s: array<Word>) returns (out: seq<bv8>)
    requires s.Length == SIZE
    ensures IsEncoded(out, DigestOf(s[..]))
  {
    hide IsEncoded, DigestOf;
    out := [];
    ghost var ws := DigestOf(s[..]);
    FirstDigestPlaces(s[..]);
    LastDigestPlaces(s[..]);
    NothingEncoded();
    assert ws[..0] == [];
    out := EncodeNext(out, s[1], ws, 0);
    out := EncodeNext(out, s[2], ws, 1);
    out := EncodeNext(out, s[3], ws, 2);
    out := EncodeNext(out, s[4], ws, 3);
    out := EncodeNext(out, s[9], ws, 4);
    out := EncodeNext(out, s[10], ws, 5);
    out := EncodeNext(out, s[11], ws, 6);
    out := EncodeNext(out, s[12], ws, 7);
    out := EncodeNext(out, s[18], ws, 8);
    out := EncodeNext(out, s[19], ws, 9);
    out := EncodeNext(out, s[20], ws, 10);
    out := EncodeNext(out, s[21], ws, 11);
    out := EncodeNext(out, s[27], ws, 12);
    out := EncodeNext(out, s[28], ws, 13);
    out := EncodeNext(out, s[29], ws, 14);
    out := EncodeNext(out, s[30], ws, 15);
    assert ws[..16] == ws;
  }

  lemma NothingEncoded()
    ensures IsEncoded([], [])
  {
  }

  /** The byte loops of CORE_ENTRY and CORE_EXIT. */
  method PushBytes(start: Word, data: seq<bv8>, bytes: nat) returns (p: Word, rest: seq<bv8>)
    requires bytes <= |data|
    ensures p == PushAll(start, data[..bytes]) && rest == data[bytes..]
  {
    hide PushAll;
    p, rest := start, data;
    var count := bytes;
    assert data[..0] == [];
    assert p == PushAll(start, []) by { NothingPushed(start); }
    while count > 0
      invariant 0 <= count <= bytes && rest == data[bytes - count..]
      invariant p == PushAll(start, data[..bytes - count])
    {
      PushNext(start, data[..bytes - count], rest[0]);
      assert data[..bytes - count + 1] == data[..bytes - count] + [rest[0]];
      p := Push(p, rest[0]);
      rest := rest[1..];
      count := count - 1;
    }
  }

  lemma NothingPushed(p: Word)
    ensures PushAll(p, []) == p
  {
  }

  lemma PushNext(p: Word, bs: seq<bv8>, b: bv8)
    ensures PushAll(p, bs + [b]) == Push(PushAll(p, bs), b)
  {
    PushAllAppend(p, bs, [b]);
    hide Push;
    assert PushAll(PushAll(p, bs), [b]) == PushAll(Push(PushAll(p, bs), b), [b][1..]);
  }
}
