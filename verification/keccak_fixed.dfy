/**
 The fixed-size forms of xptMiner/keccak.c for 80-byte block headers: keccak256_maxcoin_opt_v, which
 computes one lane of Keccak-256, and keccak_core_prepare with keccak_core_opt, which split Keccak-512
 into a part that is independent of the last eight bytes and a part that is not.
 */
module KeccakFixed {
  import opened ByteStrings
  import opened Lanes
  import opened KeccakSpec
  import opened KeccakWords
  import opened KeccakRound
  import opened KeccakPermutation
  import opened KeccakSponge
  import opened KeccakPadding
  import opened KeccakContexts

  predicate KeptWord(i: nat) {
    i == 1 || i == 2 || i == 8 || i == 12 || i == 17 || i == 20
  }

  /** Words that hold the lanes of a state, six of them complemented, represent it. */
  lemma WordsRepresent(words: seq<Lane>, A: State)
    requires |words| == 25
    requires forall i :: 0 <= i < 25 ==> words[i] == if KeptWord(i) then Not(OutputLane(A, i)) else OutputLane(A, i)
    ensures Represented(words) == A
  {
    hide Xor, Not, Kept, Represented, Word, Flip;
    forall q | 0 <= q < 25
      ensures Represented(words)[q] == A[q]
    {
      var i := Word(q);
      RepresentedAt(words, q);
      KeptWords(q);
      WordOfWord(q);
      assert OutputLane(A, i) == A[q];
      FlipKept(A[q], Kept(q), words[i]);
    }
  }

  lemma FlipKept(l: Lane, kept: bool, w: Lane)
    requires w == if kept then Not(l) else l
    ensures Xor(w, Flip(kept)) == l
  {
    hide Xor, Not;
    NotIsXor(l);
    XorCancels(l, ONES);
    XorNothing(l);
  }

  lemma CombinedWord(A: State, block: seq<bv8>, i: nat)
    requires i < 25
    ensures OutputLane(Combine(A, block), i) == CombineLane(OutputLane(A, i), block, i)
  {
    hide CombineLane;
    WordOfWord(i);
    hide Word;
  }

  lemma EmptyLane(i: nat)
    requires i < 25
    ensures OutputLane(Empty(), i) == ZERO
  {
  }

  // ----- the padded 80-byte header -----

  /** The single block of Keccak-256. */
  function MaxcoinBlock(header: seq<bv8>): seq<bv8>
    requires |header| == 80
  {
    header + [1] + Zeros(54) + [0x80]
  }

  lemma MaxcoinDigest(header: seq<bv8>)
    requires |header| == 80
    ensures Keccak256(header) == Squeeze(KeccakF(Combine(Empty(), MaxcoinBlock(header))), 32)
  {
    hide KeccakF, Combine, Squeeze;
    var b := MaxcoinBlock(header);
    FirstPaddingByte();
    assert Padded(header, 136, 0, 0) == b;
    assert b[..136] == b && b[136..] == [];
    assert Split(b, 136) == [b] + Split([], 136);
    AbsorbOne([], b);
    AbsorbNothing();
  }

  lemma FirstPaddingByte()
    ensures ExtraByte(0, 0) == 1
  {
  }

  /** The lanes of the two padding bytes. */
  lemma PaddingLanes()
    ensures LaneOf([1, 0, 0, 0, 0, 0, 0, 0]) == Lane(1)
    ensures LaneOf([0, 0, 0, 0, 0, 0, 0, 0x80]) == Lane(0x8000000000000000)
    ensures LaneOf([0, 0, 0, 0, 0, 0, 0, 0]) == ZERO
  {
  }

  lemma XorZero(l: Lane)
    ensures Xor(ZERO, l) == l
  {
  }

  /** The lanes that absorbing the Keccak-256 block into the empty state gives. */
  lemma MaxcoinLanes(header: seq<bv8>, i: nat)
    requires |header| == 80 && i < 25
    ensures OutputLane(Combine(Empty(), MaxcoinBlock(header)), i) ==
      if i < 10 then LaneOf(header[8 * i..8 * i + 8])
      else if i == 10 then Lane(1)
      else if i == 16 then Lane(0x8000000000000000)
      else ZERO
  {
    hide LaneOf, Xor, Combine, Empty;
    var b := MaxcoinBlock(header);
    CombinedWord(Empty(), b, i);
    EmptyLane(i);
    PaddingLanes();
    if i < 17 {
      XorZero(LaneOf(b[8 * i..8 * i + 8]));
    }
    if i < 10 {
      assert b[8 * i..8 * i + 8] == header[8 * i..8 * i + 8];
    } else if i == 10 {
      assert b[80..88] == [1, 0, 0, 0, 0, 0, 0, 0];
    } else if i < 16 {
      assert b[8 * i..8 * i + 8] == [0, 0, 0, 0, 0, 0, 0, 0];
    } else if i == 16 {
      assert b[128..136] == [0, 0, 0, 0, 0, 0, 0, 0x80];
    }
  }

  // ----- keccak256_maxcoin_opt_v -----

  /** The ten 64-bit words of a header in memory. */
  function HeaderWords(header: seq<bv8>): (data: seq<Lane>)
    requires |header| == 80
    ensures |data| == 10
  {
    seq(10, i requires 0 <= i < 10 => LaneOf(header[8 * i..8 * i + 8]))
  }

  /** The state setup: the header, the padding bits in lanes 10 and 16, and six lanes complemented. */
  method LoadMaxcoin(data: seq<Lane>, ghost header: seq<bv8>) returns (a: array<Lane>)
    requires |header| == 80 && data == HeaderWords(header)
    ensures fresh(a) && a.Length == 25 && Represented(a[..]) == Combine(Empty(), MaxcoinBlock(header))
  {
    hide LaneOf, Combine, Empty, Represented, MaxcoinBlock;
    a := new Lane[] [
      data[0], Not(data[1]), Not(data[2]), data[3], data[4],
      data[5], data[6], data[7], Not(data[8]), data[9],
      Lane(1), ZERO, ONES, ZERO, ZERO,
      ZERO, Lane(0x8000000000000000), ONES, ZERO, ZERO,
      ONES, ZERO, ZERO, ZERO, ZERO
    ];
    LoadedWords(a[..], data, header);
  }

  lemma LoadedWords(words: seq<Lane>, data: seq<Lane>, header: seq<bv8>)
    requires |words| == 25 && |header| == 80 && data == HeaderWords(header)
    requires words[0] == data[0] && words[1] == Not(data[1]) && words[2] == Not(data[2]) && words[3] == data[3]
        && words[4] == data[4]
    requires words[5] == data[5] && words[6] == data[6] && words[7] == data[7] && words[8] == Not(data[8])
        && words[9] == data[9]
    requires words[10] == Lane(1) && words[11] == ZERO && words[12] == ONES && words[13] == ZERO && words[14] == ZERO
    requires words[15] == ZERO && words[16] == Lane(0x8000000000000000) && words[17] == ONES && words[18] == ZERO
        && words[19] == ZERO
    requires words[20] == ONES && words[21] == ZERO && words[22] == ZERO && words[23] == ZERO && words[24] == ZERO
    ensures Represented(words) == Combine(Empty(), MaxcoinBlock(header))
  {
    hide LaneOf, Combine, Empty, Represented, MaxcoinBlock, Not, OutputLane;
    var A := Combine(Empty(), MaxcoinBlock(header));
    NotZero();
    forall i | 0 <= i < 25
      ensures words[i] == if KeptWord(i) then Not(OutputLane(A, i)) else OutputLane(A, i)
    {
      MaxcoinLanes(header, i);
    }
    WordsRepresent(words, A);
  }

  lemma NotZero()
    ensures Not(ZERO) == ONES
  {
  }

  /** The three lanes that the last round of keccak256_maxcoin_opt_v keeps, against the whole round. */
  lemma LastRoundLane(B: State, rc: Lane)
    ensures var V := Masked(B);
      KhiXO(Rot(Xor(V[18], ColumnEffect(V, 3)), 21), Rot(Xor(V[24], ColumnEffect(V, 4)), 14),
        Xor(V[0], ColumnEffect(V, 0)))
        == Round(B, rc)[15]
  {
    hide *;
    var V := Masked(B);
    var T := Theta(V);
    var R := Rho(T);
    var K := Pi(R);
    ThetaAt(V, 18); ThetaAt(V, 24); ThetaAt(V, 0);
    RhoAt(T);
    PiAt(R);
    KhiLane15(K);
    RoundOnMasked(B, rc);
    UnmaskedLane15(Khi(K), B, rc);
  }

  lemma ThetaAt(V: State, q: nat)
    requires q < 25
    ensures Theta(V)[q] == Xor(V[q], ColumnEffect(V, q / 5))
    ensures 18 / 5 == 3 && 24 / 5 == 4 && 0 / 5 == 0
  {
    hide Xor, ColumnEffect;
  }

  lemma RhoAt(T: State)
    ensures Rho(T)[18] == Rot(T[18], 21) && Rho(T)[24] == Rot(T[24], 14) && Rho(T)[0] == T[0]
  {
    hide Rot;
    RotNone(T[0]);
  }

  lemma RotNone(l: Lane)
    ensures Rot(l, 0) == l
  {
  }

  lemma PiAt(R: State)
    ensures Pi(R)[15] == R[18] && Pi(R)[20] == R[24] && Pi(R)[0] == R[0]
  {
    PiTable();
    hide PiSource;
  }

  lemma KhiLane15(K: State)
    ensures Khi(K)[15] == KhiXO(K[15], K[20], K[0])
  {
    hide KhiXO, KhiXA;
    KhiAt(K, 15);
  }

  lemma UnmaskedLane15(K: State, B: State, rc: Lane)
    requires Iota(K, rc) == Masked(Round(B, rc))
    ensures K[15] == Round(B, rc)[15]
  {
    hide Round, Xor;
    MaskedAt(Round(B, rc), 15);
    XorNothing(Round(B, rc)[15]);
  }

  lemma DigestLane3(A: State)
    ensures Squeeze(A, 32)[24..32] == BytesOf(A[15])
  {
    hide BytesOf;
    OutputBytesPrefix(A, 4, 25);
    assert OutputBytes(A, 4) == OutputBytes(A, 3) + BytesOf(A[15]);
    assert Squeeze(A, 32) == OutputBytes(A, 4);
  }

  /**
   keccak256_maxcoin_opt_v: 23 rounds with the words moved back after each, and a last round
   that computes no more than lane 3.
   */
  method Keccak256MaxcoinOptV(header: seq<bv8>) returns (r: Lane)
    requires |header| == 80
    ensures BytesOf(r) == Keccak256(header)[24..32]
  {
    hide *;
    var a := LoadMaxcoin(HeaderWords(header), header);
    ghost var A := Represented(a[..]);
    Namings();
    Renaming0();
    NoRounds(A);
    var j := 0;
    while j < 24 - 1
      invariant 0 <= j <= 23
      invariant Represented(a[..]) == Rounds(A, j)
    {
      RepresentedAtP0(a[..]);
      KfRound(a, P0, P1, j, A);
      ghost var was := a[..];
      MoveBack1(a);
      MovedBackToP0From1(a[..], was);
      Returned(a[..], was, P1);
      j := j + 1;
    }
    r := LastRound(a, Rounds(A, 23));
    RoundsStep(A, 23);
    AllRounds(A);
    MaxcoinDigest(header);
    DigestLane3(KeccakF(A));
  }

  /** The isolated last round: three theta effects, two rotations and one combination. */
  method LastRound(a: array<Lane>, ghost B: State) returns (r: Lane)
    requires a.Length == 25 && Represented(a[..]) == B
    ensures |RC| == 24 && r == Round(B, Lane(RC[23]))[15]
  {
    hide ThElt, ColumnEffect, Rot, Represented, Round;
    var c0 := ThElt(a[a40], a[a41], a[a42], a[a43], a[a44], a[a10], a[a11], a[a12], a[a13], a[a14]);
    var c3 := ThElt(a[a20], a[a21], a[a22], a[a23], a[a24], a[a40], a[a41], a[a42], a[a43], a[a44]);
    var c4 := ThElt(a[a30], a[a31], a[a32], a[a33], a[a34], a[a00], a[a01], a[a02], a[a03], a[a04]);
    var x00 := Xor(a[a00], c0);
    var x33 := Xor(a[a33], c3);
    var x44 := Xor(a[a44], c4);
    x33 := Rot(x33, 21);
    x44 := Rot(x44, 14);
    r := Xor(x33, Or(x44, x00));
    ghost var V := Masked(B);
    WordsInPlace(a[..]);
    assert c0 == ThColumns(V, 4, 1) && c3 == ThColumns(V, 2, 4) && c4 == ThColumns(V, 3, 0);
    ColumnsGiveEffects(V);
    LastRoundLane(B, Lane(RC[23]));
  }

  /** The words in their own places are the masked lanes of the state. */
  lemma WordsInPlace(words: seq<Lane>)
    requires |words| == 25
    ensures forall q :: 0 <= q < 25 ==> Masked(Represented(words))[q] == words[P0[q]]
  {
    hide Masked;
    RepresentedAtP0(words);
    RepresentsMasked(words, P0);
  }

  // ----- keccak_core_prepare and keccak_core_opt -----

  /** The second block of Keccak-512 of a header, without the header bytes in its first lane. */
  function PaddingBlock512(): seq<bv8> {
    Zeros(8) + [1] + Zeros(62) + [0x80]
  }

  /** The state that depends on the first 72 header bytes only: one permutation, and the padding combined. */
  function Prepared(front: seq<bv8>): State {
    Combine(KeccakF(Combine(Empty(), front)), PaddingBlock512())
  }

  /** Combines the nine lanes of the first block and keeps the other words. */
  method CombineFront(wide: array<Lane>, data: seq<bv8>)
    requires wide.Length == 25 && |data| >= 72
    modifies wide
    ensures Represented(wide[..]) == Combine(Represented(old(wide[..])), data[..72])
  {
    hide Xor, LaneOf, Represented, Combine;
    ghost var was := wide[..];
    wide[a00] := Xor(wide[a00], LaneOf(data[0..8]));
    wide[a10] := Xor(wide[a10], LaneOf(data[8..16]));
    wide[a20] := Xor(wide[a20], LaneOf(data[16..24]));
    wide[a30] := Xor(wide[a30], LaneOf(data[24..32]));
    wide[a40] := Xor(wide[a40], LaneOf(data[32..40]));
    wide[a01] := Xor(wide[a01], LaneOf(data[40..48]));
    wide[a11] := Xor(wide[a11], LaneOf(data[48..56]));
    wide[a21] := Xor(wide[a21], LaneOf(data[56..64]));
    wide[a31] := Xor(wide[a31], LaneOf(data[64..72]));
    ghost var block, now := data[..72], wide[..];
    forall i | 0 <= i < 25
      ensures now[i] == CombineLane(was[i], block, i)
    {
      if i < 9 {
        assert block[8 * i..8 * i + 8] == data[8 * i..8 * i + 8];
        assert i == 0 || i == 1 || i == 2 || i == 3 || i == 4 || i == 5 || i == 6 || i == 7 || i == 8;
      }
    }
    CombineWords(was, now, block);
  }

  /** The padding bits of the second block, combined into words 1 and 8. */
  method CombinePadding(wide: array<Lane>)
    requires wide.Length == 25
    modifies wide
    ensures Represented(wide[..]) == Combine(Represented(old(wide[..])), PaddingBlock512())
  {
    hide Xor, LaneOf, Represented, Combine;
    ghost var was, block := wide[..], PaddingBlock512();
    wide[a10] := Xor(wide[a10], Lane(0x1));
    wide[a31] := Xor(wide[a31], Lane(0x8000000000000000));
    ghost var now := wide[..];
    PaddingLanes();
    forall i | 0 <= i < 25
      ensures now[i] == CombineLane(was[i], block, i)
    {
      if i == 1 {
        assert block[8..16] == [1, 0, 0, 0, 0, 0, 0, 0];
      } else if i == 8 {
        assert block[64..72] == [0, 0, 0, 0, 0, 0, 0, 0x80];
      } else if i < 9 {
        assert block[8 * i..8 * i + 8] == [0, 0, 0, 0, 0, 0, 0, 0];
        XorNothing(was[i]);
      }
    }
    CombineWords(was, now, block);
  }

  /** keccak_core_prepare on a fresh Keccak-512 context; the context's own words are used up. */
  method CorePrepare(kc: KeccakContext, data: seq<bv8>) returns (stateOut: seq<Lane>)
    requires kc.Valid() && kc.message == [] && |data| >= 72
    modifies kc.wide
    ensures |stateOut| == 25 && Represented(stateOut) == Prepared(data[..72])
  {
    hide Represented, Combine, KeccakF;
    AbsorbNothing();
    CombineFront(kc.wide, data);
    KeccakF1600(kc.wide);
    CombinePadding(kc.wide);
    stateOut := kc.wide[..];
  }

  /** The state with w combined into its first lane. */
  function WithNonce(A: State, w: Lane): State {
    A[0 := Xor(A[0], w)]
  }

  /** The state from which the digest is read. */
  function FinalState(front: seq<bv8>, w: Lane): State {
    KeccakF(WithNonce(Prepared(front), w))
  }

  /** keccak_core_opt: the last header word w1 joins the prepared state; eight lanes come out. */
  method CoreOpt(wide: array<Lane>, keccakPre: seq<Lane>, w1: Lane) returns (dst: seq<Lane>)
    requires wide.Length == 25 && |keccakPre| == 25
    modifies wide
    ensures |dst| == 8
    ensures forall i :: 0 <= i < 8 ==> dst[i] == OutputLane(KeccakF(WithNonce(Represented(keccakPre), w1)), i)
  {
    hide Xor, Not, Represented, KeccakF, WithNonce, OutputLane;
    forall i | 0 <= i < 25 {
      wide[i] := keccakPre[i];
    }
    assert wide[..] == keccakPre;
    wide[a00] := Xor(wide[a00], w1);
    NonceJoins(keccakPre, wide[..], w1);
    KeccakF1600By4(wide);
    ghost var words := wide[..];
    dst := [wide[a00], Not(wide[a10]), Not(wide[a20]), wide[a30], wide[a40], wide[a01], wide[a11], wide[a21]];
    forall i | 0 <= i < 8
      ensures dst[i] == OutputLane(Represented(words), i)
    {
      FinalWord(words, i);
    }
  }

  lemma NonceJoins(was: seq<Lane>, now: seq<Lane>, w: Lane)
    requires |was| == 25 && now == was[0 := Xor(was[0], w)]
    ensures Represented(now) == WithNonce(Represented(was), w)
  {
    hide Xor, Represented, Word;
    WordOfWord(0);
    forall q | 0 <= q < 25
      ensures Represented(now)[q] == WithNonce(Represented(was), w)[q]
    {
      RepresentedAt(was, q);
      RepresentedAt(now, q);
      WordOfWord(q);
      WordZero(q);
      XorNothing(was[0]);
      XorNothing(Xor(was[0], w));
    }
  }

  lemma WordZero(q: nat)
    requires q < 25
    ensures Word(q) == 0 <==> q == 0
    ensures !Kept(0) && Flip(false) == ZERO
  {
  }

  /** The second block of Keccak-512 of a header combines as the prepared padding and the last header word. */
  lemma SecondBlock(A: State, header: seq<bv8>)
    requires |header| == 80
    ensures Combine(A, header[72..] + [1] + Zeros(62) + [0x80]) ==
        WithNonce(Combine(A, PaddingBlock512()), LaneOf(header[72..80]))
  {
    hide Xor, LaneOf, Word;
    var b, p, w := header[72..] + [1] + Zeros(62) + [0x80], PaddingBlock512(), LaneOf(header[72..80]);
    PaddingLanes();
    assert b[0..8] == header[72..80] && p[0..8] == [0, 0, 0, 0, 0, 0, 0, 0];
    XorNothing(A[0]);
    forall q | 0 <= q < 25
      ensures Combine(A, b)[q] == WithNonce(Combine(A, p), w)[q]
    {
      var i := Word(q);
      WordOfWord(q);
      WordZero(q);
      if 0 < i < 9 {
        assert b[8 * i..8 * i + 8] == p[8 * i..8 * i + 8];
      }
    }
  }

  /** Keccak-512 of an 80-byte header absorbs two blocks. */
  lemma HeaderDigest512(header: seq<bv8>)
    requires |header| == 80
    ensures Keccak512(header) == Squeeze(FinalState(header[..72], LaneOf(header[72..80])), 64)
  {
    hide KeccakF, Combine, Squeeze, LaneOf, WithNonce, Absorb;
    var m := Padded(header, 72, 0, 0);
    var b0, b1 := header[..72], header[72..] + [1] + Zeros(62) + [0x80];
    FirstPaddingByte();
    assert 80 % 72 == 8;
    assert m == b0 + b1;
    assert m[..72] == b0 && m[72..] == b1 && b1[..72] == b1 && b1[72..] == [];
    assert Split(b1, 72) == [b1] + Split([], 72);
    assert Split(m, 72) == [b0] + [b1];
    AbsorbNothing();
    AbsorbOne([], b0);
    assert [] + [b0] == [b0];
    AbsorbOne([b0], b1);
    SecondBlock(KeccakF(Combine(Empty(), b0)), header);
  }

  /** keccak_core_prepare followed by keccak_core_opt is Keccak-512 of the header. */
  method Keccak512OfHeader(header: seq<bv8>) returns (digest: seq<bv8>)
    requires |header| == 80
    ensures digest == Keccak512(header)
  {
    hide *;
    var kc := new KeccakContext(512);
    FreshIsValid(kc);
    var pre := CorePrepare(kc, header);
    var dst := CoreOpt(kc.wide, pre, LaneOf(header[72..80]));
    ghost var A := KeccakF(WithNonce(Represented(pre), LaneOf(header[72..80])));
    digest := [];
    NoBytes(A);
    var i := 0;
    while i < 8
      invariant 0 <= i <= 8 && digest == OutputBytes(A, i)
    {
      NextBytes(A, i);
      digest := digest + BytesOf(dst[i]);
      i := i + 1;
    }
    SqueezePrefix(A, 8, 64);
    assert digest[..64] == digest;
    HeaderDigest512(header);
    FinalStateUnfolds(header[..72], LaneOf(header[72..80]));
  }

  lemma FinalStateUnfolds(front: seq<bv8>, w: Lane)
    ensures FinalState(front, w) == KeccakF(WithNonce(Prepared(front), w))
  {
  }

  lemma NoBytes(A: State)
    ensures OutputBytes(A, 0) == []
  {
  }

  lemma NextBytes(A: State, i: nat)
    requires i < 25
    ensures OutputBytes(A, i + 1) == OutputBytes(A, i) + BytesOf(OutputLane(A, i))
  {
  }

  lemma FreshIsValid(kc: KeccakContext)
    requires kc.Valid()
    ensures kc.wide.Length == 25
  {
  }
}
