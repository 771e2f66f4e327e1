/**
 The memory-hard middle of scrypt_1024_1_1_256_sp in xptMiner/scrypt.cpp: scryptBlockMix and scryptROMix
 of sections 4 and 5 of RFC 7914 with N = 1024 and r = 1, for an arbitrary ROTL.
 */
module ScryptMix {
  import opened Words
  import opened Salsa

  const N: nat := 1024

  /** The 32 words of X. */
  type Wide = s: seq<Word> | |s| == 32 witness seq(32, _ => ZERO)

  // ----- the specification -----

  /** scryptBlockMix for r = 1: two blocks, each mixed with the one before. */
  function BlockMix(rotl: Rotl, x: Wide): Wide {
    var y0 := XorSalsa(rotl, x[..16], x[16..]);
    y0 + XorSalsa(rotl, x[16..], y0)
  }

  function Iterated(rotl: Rotl, x: Wide, i: nat): Wide {
    if i == 0 then x else BlockMix(rotl, Iterated(rotl, x, i - 1))
  }

  /** w & 1023. */
  function LowTen(w: Word): (j: nat)
    ensures j < N
  {
    (w.bits & 1023) as nat
  }

  /** The first word of the last block modulo N. */
  function Integerify(x: Wide): (j: nat)
    ensures j < N
  {
    LowTen(x[16])
  }

  function XorWide(a: Wide, b: Wide): (r: Wide)
    ensures forall k :: 0 <= k < 32 ==> r[k] == Xor(a[k], b[k])
  {
    seq(32, k requires 0 <= k < 32 => Xor(a[k], b[k]))
  }

  /** Step i of the second loop of scryptROMix, V[j] being the j-fold mix of b. */
  function Revisited(rotl: Rotl, b: Wide, x: Wide, i: nat): Wide {
    if i == 0 then x
    else
      var y := Revisited(rotl, b, x, i - 1);
      BlockMix(rotl, XorWide(y, Iterated(rotl, b, Integerify(y))))
  }

  function ROMix(rotl: Rotl, b: Wide): Wide {
    Revisited(rotl, b, Iterated(rotl, b, N), N)
  }

  // ----- the salsa functions, on halves of X -----

  /** The first statements of xor_salsa8: B ^= Bx, and a copy in the permuted layout. */
  method LoadDiagonal(xs: array<Word>, b: nat, bx: nat, x: array<Word>)
    requires xs.Length == 32 && x.Length == 16 && xs != x && (b == 0 || b == 16) && bx == 16 - b
    modifies xs, x
    ensures |old(xs[b..b + 16])| == 16 && |old(xs[bx..bx + 16])| == 16
    ensures xs[b..b + 16] == XorBlocks(old(xs[b..b + 16]), old(xs[bx..bx + 16]))
    ensures xs[bx..bx + 16] == old(xs[bx..bx + 16])
    ensures x[..] == Diagonal(xs[b..b + 16])
  {
    hide Xor, Diagonal;
    XorHalf(xs, b, bx);
    LayoutMeetsAll();
    forall i | 0 <= i < 16 {
      x[LAYOUT[i]] := xs[b + i];
    }
    DiagonalByLayout(xs[b..b + 16], x[..]);
  }

  // Where xor_salsa8 keeps word i.
  const LAYOUT: seq<nat> := [0, 1, 2, 3, 7, 4, 5, 6, 10, 11, 8, 9, 13, 14, 15, 12]

  lemma LayoutMeetsAll()
    ensures forall i :: 0 <= i < 16 ==> LAYOUT[i] < 16
    ensures forall i, j :: 0 <= i < j < 16 ==> LAYOUT[i] != LAYOUT[j]
  {
  }

  lemma DiagonalByLayout(v: Block, x: Block)
    ensures x == Diagonal(v) <==> forall i :: 0 <= i < 16 ==> x[LAYOUT[i]] == v[i]
  {
    if forall i :: 0 <= i < 16 ==> x[LAYOUT[i]] == v[i] {
      assert x[LAYOUT[0]] == v[0] && x[LAYOUT[1]] == v[1] && x[LAYOUT[2]] == v[2] && x[LAYOUT[3]] == v[3];
      assert x[LAYOUT[4]] == v[4] && x[LAYOUT[5]] == v[5] && x[LAYOUT[6]] == v[6] && x[LAYOUT[7]] == v[7];
      assert x[LAYOUT[8]] == v[8] && x[LAYOUT[9]] == v[9] && x[LAYOUT[10]] == v[10] && x[LAYOUT[11]] == v[11];
      assert x[LAYOUT[12]] == v[12] && x[LAYOUT[13]] == v[13] && x[LAYOUT[14]] == v[14] && x[LAYOUT[15]] == v[15];
    }
    if x == Diagonal(v) {
      forall i | 0 <= i < 16
        ensures x[LAYOUT[i]] == v[i]
      {
        assert i == 0 || i == 1 || i == 2 || i == 3 || i == 4 || i == 5 || i == 6 || i == 7
          || i == 8 || i == 9 || i == 10 || i == 11 || i == 12 || i == 13 || i == 14 || i == 15;
      }
    }
  }

  /** B ^= Bx, word by word. */
  method XorHalf(xs: array<Word>, b: nat, bx: nat)
    requires xs.Length == 32 && (b == 0 || b == 16) && bx == 16 - b
    modifies xs
    ensures |old(xs[b..b + 16])| == 16 && |old(xs[bx..bx + 16])| == 16
    ensures xs[b..b + 16] == XorBlocks(old(xs[b..b + 16]), old(xs[bx..bx + 16]))
    ensures xs[bx..bx + 16] == old(xs[bx..bx + 16])
  {
    hide Xor;
    forall i | 0 <= i < 16 {
      xs[b + i] := Xor(xs[b + i], xs[bx + i]);
    }
  }

  /** The last statements of xor_salsa8: the words are added back from the permuted layout. */
  method AddDiagonal(xs: array<Word>, b: nat, x: array<Word>, ghost v: Block)
    requires xs.Length == 32 && x.Length == 16 && xs != x && (b == 0 || b == 16) && x[..] == Diagonal(v)
    modifies xs
    ensures xs[b..b + 16] == AddBlocks(old(xs[b..b + 16]), v)
    ensures xs[16 - b..32 - b] == old(xs[16 - b..32 - b])
  {
    hide Add, Diagonal;
    LayoutMeetsAll();
    DiagonalByLayout(v, x[..]);
    forall i | 0 <= i < 16 {
      xs[b + i] := Add(xs[b + i], x[LAYOUT[i]]);
    }
  }

  /** xor_salsa8(B, Bx) where B and Bx are the halves of X that start at b and bx. */
  method XorSalsa8(rotl: Rotl, xs: array<Word>, b: nat, bx: nat)
    requires xs.Length == 32 && (b == 0 || b == 16) && bx == 16 - b
    modifies xs
    ensures |old(xs[b..b + 16])| == 16 && |old(xs[bx..bx + 16])| == 16
    ensures xs[b..b + 16] == XorSalsa(rotl, old(xs[b..b + 16]), old(xs[bx..bx + 16]))
    ensures xs[bx..bx + 16] == old(xs[bx..bx + 16])
  {
    hide XorBlocks, AddBlocks, Diagonal, DoubleRounds;
    var x := new Word[16](_ => ZERO);
    LoadDiagonal(xs, b, bx, x);
    ghost var v := xs[b..b + 16];
    FourDoubleRounds(rotl, x, v);
    AddDiagonal(xs, b, x, DoubleRounds(rotl, v, 4));
  }

  /** xor_salsa8_org on the same halves, with one variable a word. */
  method XorSalsa8Org(rotl: Rotl, xs: array<Word>, b: nat, bx: nat)
    requires xs.Length == 32 && (b == 0 || b == 16) && bx == 16 - b
    modifies xs
    ensures |old(xs[b..b + 16])| == 16 && |old(xs[bx..bx + 16])| == 16
    ensures xs[b..b + 16] == XorSalsa(rotl, old(xs[b..b + 16]), old(xs[bx..bx + 16]))
    ensures xs[bx..bx + 16] == old(xs[bx..bx + 16])
  {
    hide XorBlocks, AddBlocks, DoubleRounds;
    ghost var mine, theirs := xs[b..b + 16], xs[bx..bx + 16];
    XorHalf(xs, b, bx);
    ghost var v := XorBlocks(mine, theirs);
    var x := new Word[16](i requires 0 <= i < 16 && b + 16 <= xs.Length reads xs => xs[b + i]);
    assert x[..] == v;
    FourPlainDoubleRounds(rotl, x);
    assert x[..] == DoubleRounds(rotl, v, 4);
    ghost var other := xs[16 - b..32 - b];
    assert xs[b..b + 16] == v && other == theirs;
    AddHalf(xs, b, x);
    assert xs[bx..bx + 16] == other;
    assert xs[b..b + 16] == AddBlocks(v, DoubleRounds(rotl, v, 4));
  }

  method FourPlainDoubleRounds(rotl: Rotl, x: array<Word>)
    requires x.Length == 16
    modifies x
    ensures x[..] == DoubleRounds(rotl, old(x[..]), 4)
  {
    hide RowRound, ColumnRound;
    ghost var v := x[..];
    var i := 0;
    while i < 8
      invariant i <= 8 && i % 2 == 0 && x[..] == DoubleRounds(rotl, v, i / 2)
    {
      PlainDoubleRound(rotl, x);
      i := i + 2;
    }
  }

  /** B += x, word by word. */
  method AddHalf(xs: array<Word>, b: nat, x: array<Word>)
    requires xs.Length == 32 && x.Length == 16 && xs != x && (b == 0 || b == 16)
    modifies xs
    ensures xs[b..b + 16] == AddBlocks(old(xs[b..b + 16]), x[..])
    ensures xs[16 - b..32 - b] == old(xs[16 - b..32 - b])
  {
    hide Add;
    forall i | 0 <= i < 16 {
      xs[b + i] := Add(xs[b + i], x[i]);
    }
  }

  /** xor_salsa8_doubleround: both halves in one function. */
  method XorSalsa8DoubleRound(rotl: Rotl, xs: array<Word>)
    requires xs.Length == 32
    modifies xs
    ensures xs[..] == BlockMix(rotl, old(xs[..]))
  {
    hide XorBlocks, AddBlocks, Diagonal, RowRound, ColumnRound, DoubleRounds;
    ghost var was := xs[..];
    assert was[..16] == xs[0..16] && was[16..] == xs[16..32];
    var x := new Word[16](_ => ZERO);
    // round 1
    LoadDiagonal(xs, 0, 16, x);
    FourDoubleRounds(rotl, x, xs[0..16]);
    AddDiagonal(xs, 0, x, DoubleRounds(rotl, xs[0..16], 4));
    // round 2
    LoadDiagonal(xs, 16, 0, x);
    FourDoubleRounds(rotl, x, xs[16..32]);
    AddDiagonal(xs, 16, x, DoubleRounds(rotl, xs[16..32], 4));
    assert xs[..] == xs[0..16] + xs[16..32];
  }

  /** The loop of xor_salsa8 and of either half of xor_salsa8_doubleround. */
  method FourDoubleRounds(rotl: Rotl, x: array<Word>, ghost v: Block)
    requires x.Length == 16 && x[..] == Diagonal(v)
    modifies x
    ensures x[..] == Diagonal(DoubleRounds(rotl, v, 4))
  {
    hide Diagonal, RowRound, ColumnRound;
    var i := 0;
    while i < 8
      invariant i <= 8 && i % 2 == 0 && x[..] == Diagonal(DoubleRounds(rotl, v, i / 2))
    {
      DiagonalDoubleRound(rotl, x, DoubleRounds(rotl, v, i / 2));
      i := i + 2;
    }
  }

  /** Two calls of xor_salsa8 do the same as one of xor_salsa8_doubleround. */
  method XorSalsa8Twice(rotl: Rotl, xs: array<Word>)
    requires xs.Length == 32
    modifies xs
    ensures xs[..] == BlockMix(rotl, old(xs[..]))
  {
    hide XorSalsa;
    ghost var was := xs[..];
    assert was[..16] == xs[0..16] && was[16..] == xs[16..32];
    XorSalsa8(rotl, xs, 0, 16);
    XorSalsa8(rotl, xs, 16, 0);
    assert xs[..] == xs[0..16] + xs[16..32];
  }

  // ----- the two loops -----

  /** V[0..i] holds the first i iterates. */
  ghost predicate Stored(rotl: Rotl, b: Wide, vs: seq<Word>, i: nat) {
    32 * i <= |vs| && forall j: nat, k: nat :: j < i && k < 32 ==> vs[32 * j + k] == Iterated(rotl, b, j)[k]
  }

  lemma StoredNext(rotl: Rotl, b: Wide, vs: seq<Word>, vs': seq<Word>, i: nat)
    requires Stored(rotl, b, vs, i) && |vs'| == |vs| && 32 * i + 32 <= |vs|
    requires forall k :: 0 <= k < 32 * i ==> vs'[k] == vs[k]
    requires forall k :: 0 <= k < 32 ==> vs'[32 * i + k] == Iterated(rotl, b, i)[k]
    ensures Stored(rotl, b, vs', i + 1)
  {
    hide Iterated;
    forall j: nat, k: nat | j < i + 1 && k < 32
      ensures vs'[32 * j + k] == Iterated(rotl, b, j)[k]
    {
      if j < i {
        assert 32 * j + k < 32 * i;
        assert vs[32 * j + k] == Iterated(rotl, b, j)[k];
      }
    }
  }

  lemma StoredAt(rotl: Rotl, b: Wide, vs: seq<Word>, i: nat, j: nat)
    requires Stored(rotl, b, vs, i) && j < i
    ensures 32 * j + 32 <= |vs| && vs[32 * j..32 * j + 32] == Iterated(rotl, b, j)
  {
    hide Iterated;
    assert 32 * (j + 1) <= 32 * i;
    forall k: nat | k < 32
      ensures vs[32 * j..32 * j + 32][k] == Iterated(rotl, b, j)[k]
    {
    }
  }

  /** The first loop: X is saved and mixed 1024 times. */
  method FillScratchpad(rotl: Rotl, xs: array<Word>, vs: array<Word>)
    requires xs.Length == 32 && vs.Length >= 32 * N && xs != vs
    modifies xs, vs
    ensures xs[..] == Iterated(rotl, old(xs[..]), N) && Stored(rotl, old(xs[..]), vs[..], N)
  {
    hide BlockMix, Stored;
    ghost var b := xs[..];
    var i := 0;
    assert Stored(rotl, b, vs[..], 0) by { NothingStored(rotl, b, vs[..]); }
    while i < N
      invariant i <= N && xs[..] == Iterated(rotl, b, i) && Stored(rotl, b, vs[..], i)
    {
      ghost var before, x := vs[..], xs[..];
      forall k | 0 <= k < 32 {
        vs[i * 32 + k] := xs[k];
      }
      assert xs[..] == x;
      StoredNext(rotl, b, before, vs[..], i);
      XorSalsa8DoubleRound(rotl, xs);
      i := i + 1;
    }
  }

  lemma NothingStored(rotl: Rotl, b: Wide, vs: seq<Word>)
    ensures Stored(rotl, b, vs, 0)
  {
  }

  /** The second loop: X is combined with a saved one that it names itself, and mixed. */
  method Revisit(rotl: Rotl, xs: array<Word>, vs: array<Word>, ghost b: Wide)
    requires xs.Length == 32 && vs.Length >= 32 * N && xs != vs && Stored(rotl, b, vs[..], N)
    modifies xs
    ensures xs[..] == Revisited(rotl, b, old(xs[..]), N)
  {
    hide BlockMix, Stored, Iterated, Xor, LowTen;
    ghost var x0 := xs[..];
    var i := 0;
    while i < N
      invariant i <= N && xs[..] == Revisited(rotl, b, x0, i)
    {
      var j := LowTen(xs[16]);
      StoredAt(rotl, b, vs[..], N, j);
      ghost var y, saved := xs[..], vs[..];
      forall k | 0 <= k < 32 {
        xs[k] := Xor(xs[k], vs[32 * j + k]);
      }
      forall k | 0 <= k < 32
        ensures saved[32 * j + k] == Iterated(rotl, b, j)[k]
      {
        assert saved[32 * j..32 * j + 32][k] == saved[32 * j + k];
      }
      assert xs[..] == XorWide(y, Iterated(rotl, b, j));
      XorSalsa8Twice(rotl, xs);
      i := i + 1;
    }
  }
}
