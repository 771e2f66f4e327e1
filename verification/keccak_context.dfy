/**
 sph_keccak_context: keccak_init, keccak_core and the close functions, proved against the sponge.
 */
module KeccakContexts {
  import opened ByteStrings
  import opened Lanes
  import opened KeccakSpec
  import opened KeccakWords
  import opened KeccakRound
  import opened KeccakPermutation
  import opened KeccakSponge
  import opened KeccakPadding

  // ----- the words of a context -----

  lemma WordTable()
    ensures Word(0) == 0 && Word(1) == 5 && Word(2) == 10 && Word(3) == 15 && Word(4) == 20
    ensures Word(5) == 1 && Word(6) == 6 && Word(7) == 11 && Word(8) == 16 && Word(9) == 21
    ensures Word(10) == 2 && Word(11) == 7 && Word(12) == 12 && Word(13) == 17 && Word(14) == 22
    ensures Word(15) == 3 && Word(16) == 8 && Word(17) == 13 && Word(18) == 18 && Word(19) == 23
    ensures Word(20) == 4 && Word(21) == 9 && Word(22) == 14 && Word(23) == 19 && Word(24) == 24
  {
  }

  /** Word i holds lane (i % 5, i / 5): the transposition of places undoes itself. */
  lemma WordOfWord(q: nat)
    requires q < 25
    ensures Word(Word(q)) == q && P0[q] == Word(q)
  {
    hide Word;
    WordTable();
    assert q == 0 || q == 1 || q == 2 || q == 3 || q == 4 || q == 5 || q == 6 || q == 7 || q == 8 || q == 9
      || q == 10 || q == 11 || q == 12 || q == 13 || q == 14 || q == 15 || q == 16 || q == 17 || q == 18 || q == 19
      || q == 20 || q == 21 || q == 22 || q == 23 || q == 24;
  }

  lemma RepresentedAt(words: seq<Lane>, q: nat)
    requires |words| == 25 && q < 25
    ensures Represented(words)[q] == Xor(words[Word(q)], Flip(Kept(q)))
  {
    WordOfWord(q);
    FirstNaming();
    hide Xor, Flip, Kept, Word, IsNaming;
  }

  lemma XorExchange(w: Lane, d: Lane, m: Lane)
    ensures Xor(Xor(w, d), m) == Xor(Xor(w, m), d)
  {
    hide *;
    XorAssociates(w, d, m);
    XorCommutes(d, m);
    XorAssociates(w, m, d);
  }

  /** Combining a block into the stored words combines it into the represented state. */
  lemma CombineWords(was: seq<Lane>, now: seq<Lane>, block: seq<bv8>)
    requires |was| == 25 && |now| == 25
    requires forall i :: 0 <= i < 25 ==> now[i] == CombineLane(was[i], block, i)
    ensures Represented(now) == Combine(Represented(was), block)
  {
    hide Xor, Flip, Kept, Word, LaneOf, Represented;
    forall q | 0 <= q < 25
      ensures Represented(now)[q] == Combine(Represented(was), block)[q]
    {
      RepresentedAt(was, q);
      RepresentedAt(now, q);
      var i := Word(q);
      if 8 * i + 8 <= |block| {
        XorExchange(was[i], LaneOf(block[8 * i..8 * i + 8]), Flip(Kept(q)));
      }
    }
  }

  /** The words of a fresh context: zero, except for the complemented ones. */
  lemma FreshWords(words: seq<Lane>)
    requires |words| == 25
    requires forall i :: 0 <= i < 25 ==>
        words[i] == if i == 1 || i == 2 || i == 8 || i == 12 || i == 17 || i == 20 then ONES else ZERO
    ensures Represented(words) == Empty()
  {
    forall q | 0 <= q < 25
      ensures Represented(words)[q] == ZERO
    {
      RepresentedAt(words, q);
      KeptWords(q);
      FlipXor(Kept(q), Kept(q));
      hide Xor, Kept, Represented, Word;
    }
  }

  lemma KeptWords(q: nat)
    requires q < 25
    ensures Kept(q) == (Word(q) == 1 || Word(q) == 2 || Word(q) == 8 || Word(q) == 12 || Word(q) == 17 || Word(q) == 20)
  {
    assert q == 0 || q == 1 || q == 2 || q == 3 || q == 4 || q == 5 || q == 6 || q == 7 || q == 8 || q == 9 || q == 10
      || q == 11 || q == 12
      || q == 13 || q == 14 || q == 15 || q == 16 || q == 17 || q == 18 || q == 19 || q == 20 || q == 21 || q == 22
        || q == 23 || q == 24;
  }

  /** Complementing the six words back yields the lanes of the represented state. */
  lemma FinalWord(words: seq<Lane>, i: nat)
    requires |words| == 25 && i < 25
    ensures OutputLane(Represented(words), i) ==
      if i == 1 || i == 2 || i == 8 || i == 12 || i == 17 || i == 20 then Not(words[i]) else words[i]
  {
    hide Xor, Not, Kept, Represented, Word;
    var q := Word(i);
    WordOfWord(i);
    WordOfWord(q);
    RepresentedAt(words, q);
    KeptWords(q);
    NotIsXor(words[i]);
    XorNothing(words[i]);
  }

  // ----- splitting messages into blocks -----

  /** Bytes that do not complete a block change nothing. */
  lemma {:induction false} SplitIncomplete(m: seq<bv8>, c: seq<bv8>, rate: nat)
    requires rate > 0 && |Rest(m, rate)| + |c| < rate
    ensures Split(m + c, rate) == Split(m, rate) && Rest(m + c, rate) == Rest(m, rate) + c
  {
    if |m| >= rate {
      assert (m + c)[..rate] == m[..rate] && (m + c)[rate..] == m[rate..] + c;
      SplitIncomplete(m[rate..], c, rate);
    }
  }

  /** Bytes that complete a block add it. */
  lemma {:induction false} SplitComplete(m: seq<bv8>, c: seq<bv8>, rate: nat)
    requires rate > 0 && |Rest(m, rate)| + |c| == rate
    ensures Split(m + c, rate) == Split(m, rate) + [Rest(m, rate) + c] && Rest(m + c, rate) == []
  {
    if |m| < rate {
      var b := m + c;
      assert b[..rate] == b && b[rate..] == [];
      assert Split(b, rate) == [b] + Split([], rate);
    } else {
      assert (m + c)[..rate] == m[..rate] && (m + c)[rate..] == m[rate..] + c;
      SplitComplete(m[rate..], c, rate);
    }
  }

  lemma {:induction false} RestLength(m: seq<bv8>, rate: nat)
    requires rate > 0
    ensures |Rest(m, rate)| == |m| % rate
  {
    if |m| >= rate {
      RestLength(m[rate..], rate);
      DropBlock(|m|, rate);
    }
  }

  lemma DropBlock(len: nat, rate: nat)
    requires 0 < rate <= len
    ensures (len - rate) % rate == len % rate
  {
    var k := len / rate;
    assert len - rate == rate * (k - 1) + len % rate;
    Remainder(len - rate, rate, k - 1, len % rate);
  }

  lemma AbsorbOne(blocks: seq<seq<bv8>>, b: seq<bv8>)
    ensures Absorb(blocks + [b]) == KeccakF(Combine(Absorb(blocks), b))
  {
    assert (blocks + [b])[..|blocks|] == blocks;
    hide KeccakF, Combine;
  }

  /** INPUT_BUF. */
  method InputBuf(wide: array<Lane>, buf: array<bv8>, lim: nat)
    requires wide.Length == 25 && lim <= buf.Length && lim <= 200 && lim % 8 == 0 && wide as object != buf
    modifies wide
    ensures Represented(wide[..]) == Combine(Represented(old(wide[..])), buf[..lim])
  {
    hide Xor, LaneOf, Represented, Combine;
    ghost var was, block := wide[..], buf[..lim];
    var j := 0;
    while j < lim
      invariant 0 <= j <= lim && j % 8 == 0
      invariant buf[..lim] == block
      invariant forall i :: 0 <= i < 25 ==>
        wide[i] == if 8 * i < j then CombineLane(was[i], block, i) else was[i]
    {
      assert block[8 * (j / 8)..8 * (j / 8) + 8] == buf[j..j + 8];
      wide[j / 8] := Xor(wide[j / 8], LaneOf(buf[j..j + 8]));
      j := j + 8;
    }
    CombineWords(was, wide[..], block);
  }

  // ----- the context -----

  class KeccakContext {
    var buf: array<bv8>
    var ptr: nat
    var wide: array<Lane>
    // the rate in bytes, which the callers also pass to keccak_core
    var lim: nat
    // the bytes absorbed since initialisation
    ghost var message: seq<bv8>

    ghost predicate Valid()
      reads this, buf, wide
    {
      && buf.Length == 144 && wide.Length == 25 && wide as object != buf
      && 0 < lim <= 144 && lim % 8 == 0
      && ptr < lim && buf[..ptr] == Rest(message, lim)
      && Represented(wide[..]) == Absorb(Split(message, lim))
    }

    /** keccak_init with an output size in bits. */
    constructor (outSize: nat)
      requires outSize % 32 == 0 && 224 <= outSize < 800
      ensures Valid() && fresh(buf) && fresh(wide)
      ensures message == [] && lim == 200 - outSize / 4
    {
      buf := new bv8[144];
      wide := new Lane[25];
      ptr := 0;
      message := [];
      lim := 200 - outSize / 4;
      new;
      Reset();
    }

    /** The assignments of keccak_init to an existing context. */
    method Reset()
      requires buf.Length == 144 && wide.Length == 25 && wide as object != buf && 0 < lim <= 144 && lim % 8 == 0
      modifies this, wide
      ensures Valid() && message == [] && lim == old(lim) && buf == old(buf) && wide == old(wide)
    {
      hide Represented, Absorb;
      var i := 0;
      while i < 25
        invariant 0 <= i <= 25
        invariant forall k :: 0 <= k < i ==> wide[k] == ZERO
        modifies wide
      {
        wide[i] := ZERO;
        i := i + 1;
      }
      wide[1] := ONES;
      wide[2] := ONES;
      wide[8] := ONES;
      wide[12] := ONES;
      wide[17] := ONES;
      wide[20] := ONES;
      ptr := 0;
      message := [];
      FreshWords(wide[..]);
      AbsorbNothing();
    }

    /** keccak_core: absorb data with the context's rate. */
    method Core(data: seq<bv8>)
      requires Valid()
      modifies this, buf, wide
      ensures Valid() && message == old(message) + data
      ensures lim == old(lim) && buf == old(buf) && wide == old(wide)
    {
      hide Represented, Absorb, Split, Rest, KeccakF, Combine;
      var p := ptr;
      if |data| < lim - p {
        // not enough for a block: the bytes wait in the buffer
        SplitIncomplete(message, data, lim);
        forall i | 0 <= i < |data| {
          buf[p + i] := data[i];
        }
        assert buf[..p + |data|] == old(buf[..p]) + data;
        ptr := p + |data|;
        message := message + data;
        assert wide[..] == old(wide[..]);
        return;
      }
      var pos := 0;
      ghost var m := message;
      assert m + data[..0] == m;
      while pos < |data|
        invariant 0 <= pos <= |data| && 0 <= p < lim
        invariant buf[..p] == Rest(m + data[..pos], lim)
        invariant Represented(wide[..]) == Absorb(Split(m + data[..pos], lim))
        decreases |data| - pos
        modifies buf, wide
      {
        var clen := if lim - p > |data| - pos then |data| - pos else lim - p;
        var chunk := data[pos..pos + clen];
        ghost var done, rest, words := m + data[..pos], buf[..p], wide[..];
        forall i | 0 <= i < clen {
          buf[p + i] := chunk[i];
        }
        p := p + clen;
        assert buf[..p] == rest + chunk && wide[..] == words;
        pos := pos + clen;
        assert m + data[..pos] == done + chunk;
        if p == lim {
          SplitComplete(done, chunk, lim);
          AbsorbOne(Split(done, lim), rest + chunk);
          InputBuf(wide, buf, lim);
          assert Represented(wide[..]) == Combine(Absorb(Split(done, lim)), rest + chunk);
          KeccakF1600(wide);
          p := 0;
        } else {
          SplitIncomplete(done, chunk, lim);
        }
      }
      assert data[..pos] == data;
      ptr := p;
      message := message + data;
    }

    /** The end of keccak_close: complement the kept words back and encode d bytes. */
    method Finalize(d: nat) returns (dst: seq<bv8>)
      requires wide.Length == 25 && d <= 193
      modifies wide
      ensures dst == Squeeze(Represented(old(wide[..])), d)
    {
      hide Represented, Not, Squeeze, OutputLane, BytesOf, Word;
      ghost var A, words := Represented(wide[..]), wide[..];
      wide[1] := Not(wide[1]);
      wide[2] := Not(wide[2]);
      wide[8] := Not(wide[8]);
      wide[12] := Not(wide[12]);
      wide[17] := Not(wide[17]);
      wide[20] := Not(wide[20]);
      FinalWords(words, wide[..]);
      dst := [];
      var j := 0;
      while j < d
        invariant 0 <= j && j % 8 == 0 && j <= d + 7 && dst == OutputBytes(A, j / 8)
      {
        dst := dst + BytesOf(wide[j / 8]);
        j := j + 8;
      }
      SqueezePrefix(A, j / 8, d);
      dst := dst[..d];
    }

    /** keccak_close: pad with n extra bits from ub, squeeze d bytes, and start over. */
    method Close(ub: bv8, n: nat, d: nat) returns (dst: seq<bv8>)
      requires Valid() && n < 8 && lim == 200 - 2 * d
      modifies this, buf, wide
      ensures dst == Digest(old(message), old(lim), d, ub, n)
      ensures Valid() && message == [] && lim == old(lim) && buf == old(buf) && wide == old(wide)
    {
      hide Represented, Absorb, Split, Rest, ExtraByte, OnlyByte, Squeeze;
      ghost var m := message;
      RestLength(m, lim);
      // eb = (0x100 | (ub & 0xFF)) >> (8 - n)
      var eb := ExtraByte(ub, n);
      var tmp: seq<bv8>;
      if ptr == lim - 1 {
        if n == 7 {
          tmp := [eb] + Zeros(lim - 1) + [0x80];
        } else {
          tmp := [OnlyByte(ub, n)];
        }
      } else {
        var j := lim - ptr;
        tmp := [eb] + Zeros(j - 2) + [0x80];
      }
      assert tmp == Tail(lim - |m| % lim, lim, ub, n);
      Core(tmp);
      assert message == Padded(m, lim, ub, n);
      dst := Finalize(d);
      Reset();
    }
  }

  lemma FinalWords(was: seq<Lane>, now: seq<Lane>)
    requires |was| == 25 && |now| == 25
    requires forall i :: 0 <= i < 25 ==>
      now[i] == if i == 1 || i == 2 || i == 8 || i == 12 || i == 17 || i == 20 then Not(was[i]) else was[i]
    ensures forall i :: 0 <= i < 25 ==> now[i] == OutputLane(Represented(was), i)
  {
    hide Not, Represented;
    forall i | 0 <= i < 25
      ensures now[i] == OutputLane(Represented(was), i)
    {
      FinalWord(was, i);
    }
  }

  lemma {:induction false} OutputBytesPrefix(A: State, k: nat, l: nat)
    requires k <= l <= 25
    ensures OutputBytes(A, l)[..8 * k] == OutputBytes(A, k)
  {
    if k < l {
      OutputBytesPrefix(A, k, l - 1);
      assert OutputBytes(A, l)[..8 * k] == OutputBytes(A, l - 1)[..8 * k];
    }
  }

  lemma SqueezePrefix(A: State, k: nat, d: nat)
    requires k <= 25 && d <= 8 * k
    ensures OutputBytes(A, k)[..d] == Squeeze(A, d)
  {
    OutputBytesPrefix(A, k, 25);
    assert OutputBytes(A, 25)[..8 * k][..d] == OutputBytes(A, 25)[..d];
  }

  lemma AbsorbNothing()
    ensures Absorb([]) == Empty()
  {
  }
}
