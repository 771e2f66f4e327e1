/**
 The Salsa20/8 core of xptMiner/scrypt.cpp in its three forms, for an arbitrary function in the place
 of the rotation: the macro ROTL is defined as _rotl, and _rotl as nothing.
 */
module Salsa {
  import opened Words

  /** ROTL: a word and a number of places. */
  type Rotl = (Word, nat) -> Word

  type Block = s: seq<Word> | |s| == 16 witness seq(16, _ => ZERO)

  function Add(a: Word, b: Word): Word {
    Word(a.bits + b.bits)
  }

  // ----- the specification (section 3 of RFC 7914 and the Salsa20 specification it cites) -----

  datatype Quarter = Quarter(y0: Word, y1: Word, y2: Word, y3: Word)

  function QuarterRound(rotl: Rotl, y: Quarter): Quarter {
    var z1 := Xor(y.y1, rotl(Add(y.y0, y.y3), 7));
    var z2 := Xor(y.y2, rotl(Add(z1, y.y0), 9));
    var z3 := Xor(y.y3, rotl(Add(z2, z1), 13));
    Quarter(Xor(y.y0, rotl(Add(z3, z2), 18)), z1, z2, z3)
  }

  /** Every row, rotated to start on the diagonal. */
  function RowRound(rotl: Rotl, y: Block): Block {
    var a := QuarterRound(rotl, Quarter(y[0], y[1], y[2], y[3]));
    var b := QuarterRound(rotl, Quarter(y[5], y[6], y[7], y[4]));
    var c := QuarterRound(rotl, Quarter(y[10], y[11], y[8], y[9]));
    var d := QuarterRound(rotl, Quarter(y[15], y[12], y[13], y[14]));
    [a.y0, a.y1, a.y2, a.y3, b.y3, b.y0, b.y1, b.y2, c.y2, c.y3, c.y0, c.y1, d.y1, d.y2, d.y3, d.y0]
  }

  /** Every column, rotated to start on the diagonal. */
  function ColumnRound(rotl: Rotl, x: Block): Block {
    var a := QuarterRound(rotl, Quarter(x[0], x[4], x[8], x[12]));
    var b := QuarterRound(rotl, Quarter(x[5], x[9], x[13], x[1]));
    var c := QuarterRound(rotl, Quarter(x[10], x[14], x[2], x[6]));
    var d := QuarterRound(rotl, Quarter(x[15], x[3], x[7], x[11]));
    [a.y0, b.y3, c.y2, d.y1, a.y1, b.y0, c.y3, d.y2, a.y2, b.y1, c.y0, d.y3, a.y3, b.y2, c.y1, d.y0]
  }

  function DoubleRounds(rotl: Rotl, x: Block, n: nat): Block {
    if n == 0 then x else RowRound(rotl, ColumnRound(rotl, DoubleRounds(rotl, x, n - 1)))
  }

  function XorBlocks(a: Block, b: Block): (r: Block)
    ensures forall i :: 0 <= i < 16 ==> r[i] == Xor(a[i], b[i])
  {
    seq(16, i requires 0 <= i < 16 => Xor(a[i], b[i]))
  }

  function AddBlocks(a: Block, b: Block): (r: Block)
    ensures forall i :: 0 <= i < 16 ==> r[i] == Add(a[i], b[i])
  {
    seq(16, i requires 0 <= i < 16 => Add(a[i], b[i]))
  }

  /** Salsa20/8 of a xor b. */
  function XorSalsa(rotl: Rotl, a: Block, b: Block): Block {
    var x := XorBlocks(a, b);
    AddBlocks(x, DoubleRounds(rotl, x, 4))
  }

  // ----- one assignment of the code -----

  /** x[d] ^= ROTL(x[a] + x[b], n). */
  function MixAt(rotl: Rotl, x: Block, d: nat, a: nat, b: nat, n: nat): Block
    requires d < 16 && a < 16 && b < 16
  {
    x[d := Xor(x[d], rotl(Add(x[a], x[b]), n))]
  }

  method Mix(rotl: Rotl, x: array<Word>, d: nat, a: nat, b: nat, n: nat)
    requires x.Length == 16 && d < 16 && a < 16 && b < 16
    modifies x
    ensures x[..] == MixAt(rotl, old(x[..]), d, a, b, n)
  {
    x[d] := Xor(x[d], rotl(Add(x[a], x[b]), n));
  }

  // ----- the eight groups of four independent assignments, in the plain layout -----

  function Group0(rotl: Rotl, x: Block): Block {
    MixAt(rotl, MixAt(rotl, MixAt(rotl, MixAt(rotl, x, 4, 0, 12, 7), 9, 5, 1, 7), 14, 10, 6, 7), 3, 15, 11, 7)
  }

  function Group1(rotl: Rotl, x: Block): Block {
    MixAt(rotl, MixAt(rotl, MixAt(rotl, MixAt(rotl, x, 8, 4, 0, 9), 13, 9, 5, 9), 2, 14, 10, 9), 7, 3, 15, 9)
  }

  function Group2(rotl: Rotl, x: Block): Block {
    MixAt(rotl, MixAt(rotl, MixAt(rotl, MixAt(rotl, x, 12, 8, 4, 13), 1, 13, 9, 13), 6, 2, 14, 13), 11, 7, 3, 13)
  }

  function Group3(rotl: Rotl, x: Block): Block {
    MixAt(rotl, MixAt(rotl, MixAt(rotl, MixAt(rotl, x, 0, 12, 8, 18), 5, 1, 13, 18), 10, 6, 2, 18), 15, 11, 7, 18)
  }

  function Group4(rotl: Rotl, x: Block): Block {
    MixAt(rotl, MixAt(rotl, MixAt(rotl, MixAt(rotl, x, 1, 0, 3, 7), 6, 5, 4, 7), 11, 10, 9, 7), 12, 15, 14, 7)
  }

  function Group5(rotl: Rotl, x: Block): Block {
    MixAt(rotl, MixAt(rotl, MixAt(rotl, MixAt(rotl, x, 2, 1, 0, 9), 7, 6, 5, 9), 8, 11, 10, 9), 13, 12, 15, 9)
  }

  function Group6(rotl: Rotl, x: Block): Block {
    MixAt(rotl, MixAt(rotl, MixAt(rotl, MixAt(rotl, x, 3, 2, 1, 13), 4, 7, 6, 13), 9, 8, 11, 13), 14, 13, 12, 13)
  }

  function Group7(rotl: Rotl, x: Block): Block {
    MixAt(rotl, MixAt(rotl, MixAt(rotl, MixAt(rotl, x, 0, 3, 2, 18), 5, 4, 7, 18), 10, 9, 8, 18), 15, 14, 13, 18)
  }

  // what a group makes of every word: each of its assignments reads words the others leave alone

  lemma Group0Is(rotl: Rotl, x: Block)
    ensures Group0(rotl, x) ==
      [x[0], x[1], x[2], Xor(x[3], rotl(Add(x[15], x[11]), 7)),
       Xor(x[4], rotl(Add(x[0], x[12]), 7)), x[5], x[6], x[7],
       x[8], Xor(x[9], rotl(Add(x[5], x[1]), 7)), x[10], x[11],
       x[12], x[13], Xor(x[14], rotl(Add(x[10], x[6]), 7)), x[15]]
  {
    hide Xor, Add;
  }

  lemma Group1Is(rotl: Rotl, x: Block)
    ensures Group1(rotl, x) ==
      [x[0], x[1], Xor(x[2], rotl(Add(x[14], x[10]), 9)), x[3],
       x[4], x[5], x[6], Xor(x[7], rotl(Add(x[3], x[15]), 9)),
       Xor(x[8], rotl(Add(x[4], x[0]), 9)), x[9], x[10], x[11],
       x[12], Xor(x[13], rotl(Add(x[9], x[5]), 9)), x[14], x[15]]
  {
    hide Xor, Add;
  }

  lemma Group2Is(rotl: Rotl, x: Block)
    ensures Group2(rotl, x) ==
      [x[0], Xor(x[1], rotl(Add(x[13], x[9]), 13)), x[2], x[3],
       x[4], x[5], Xor(x[6], rotl(Add(x[2], x[14]), 13)), x[7],
       x[8], x[9], x[10], Xor(x[11], rotl(Add(x[7], x[3]), 13)),
       Xor(x[12], rotl(Add(x[8], x[4]), 13)), x[13], x[14], x[15]]
  {
    hide Xor, Add;
  }

  lemma Group3Is(rotl: Rotl, x: Block)
    ensures Group3(rotl, x) ==
      [Xor(x[0], rotl(Add(x[12], x[8]), 18)), x[1], x[2], x[3],
       x[4], Xor(x[5], rotl(Add(x[1], x[13]), 18)), x[6], x[7],
       x[8], x[9], Xor(x[10], rotl(Add(x[6], x[2]), 18)), x[11],
       x[12], x[13], x[14], Xor(x[15], rotl(Add(x[11], x[7]), 18))]
  {
    hide Xor, Add;
  }

  lemma Group4Is(rotl: Rotl, x: Block)
    ensures Group4(rotl, x) ==
      [x[0], Xor(x[1], rotl(Add(x[0], x[3]), 7)), x[2], x[3],
       x[4], x[5], Xor(x[6], rotl(Add(x[5], x[4]), 7)), x[7],
       x[8], x[9], x[10], Xor(x[11], rotl(Add(x[10], x[9]), 7)),
       Xor(x[12], rotl(Add(x[15], x[14]), 7)), x[13], x[14], x[15]]
  {
    hide Xor, Add;
  }

  lemma Group5Is(rotl: Rotl, x: Block)
    ensures Group5(rotl, x) ==
      [x[0], x[1], Xor(x[2], rotl(Add(x[1], x[0]), 9)), x[3],
       x[4], x[5], x[6], Xor(x[7], rotl(Add(x[6], x[5]), 9)),
       Xor(x[8], rotl(Add(x[11], x[10]), 9)), x[9], x[10], x[11],
       x[12], Xor(x[13], rotl(Add(x[12], x[15]), 9)), x[14], x[15]]
  {
    hide Xor, Add;
  }

  lemma Group6Is(rotl: Rotl, x: Block)
    ensures Group6(rotl, x) ==
      [x[0], x[1], x[2], Xor(x[3], rotl(Add(x[2], x[1]), 13)),
       Xor(x[4], rotl(Add(x[7], x[6]), 13)), x[5], x[6], x[7],
       x[8], Xor(x[9], rotl(Add(x[8], x[11]), 13)), x[10], x[11],
       x[12], x[13], Xor(x[14], rotl(Add(x[13], x[12]), 13)), x[15]]
  {
    hide Xor, Add;
  }

  lemma Group7Is(rotl: Rotl, x: Block)
    ensures Group7(rotl, x) ==
      [Xor(x[0], rotl(Add(x[3], x[2]), 18)), x[1], x[2], x[3],
       x[4], Xor(x[5], rotl(Add(x[4], x[7]), 18)), x[6], x[7],
       x[8], x[9], Xor(x[10], rotl(Add(x[9], x[8]), 18)), x[11],
       x[12], x[13], x[14], Xor(x[15], rotl(Add(x[14], x[13]), 18))]
  {
    hide Xor, Add;
  }

  function ColumnGroups(rotl: Rotl, x: Block): Block {
    Group3(rotl, Group2(rotl, Group1(rotl, Group0(rotl, x))))
  }

  function RowGroups(rotl: Rotl, x: Block): Block {
    Group7(rotl, Group6(rotl, Group5(rotl, Group4(rotl, x))))
  }

  lemma GroupsAreColumns(rotl: Rotl, x: Block)
    ensures ColumnGroups(rotl, x) == ColumnRound(rotl, x)
  {
    hide Xor, Add, Group0, Group1, Group2, Group3;
    Group0Is(rotl, x);
    Group1Is(rotl, Group0(rotl, x));
    Group2Is(rotl, Group1(rotl, Group0(rotl, x)));
    Group3Is(rotl, Group2(rotl, Group1(rotl, Group0(rotl, x))));
  }

  lemma GroupsAreRows(rotl: Rotl, x: Block)
    ensures RowGroups(rotl, x) == RowRound(rotl, x)
  {
    hide Xor, Add, Group4, Group5, Group6, Group7;
    Group4Is(rotl, x);
    Group5Is(rotl, Group4(rotl, x));
    Group6Is(rotl, Group5(rotl, Group4(rotl, x)));
    Group7Is(rotl, Group6(rotl, Group5(rotl, Group4(rotl, x))));
  }

  // ----- the permuted layout -----

  /** The layout of xor_salsa8: every row is rotated so that the diagonal comes first. */
  function Diagonal(x: Block): Block {
    [x[0], x[1], x[2], x[3], x[5], x[6], x[7], x[4], x[10], x[11], x[8], x[9], x[15], x[12], x[13], x[14]]
  }

  lemma Diagonal0(rotl: Rotl, x: Block)
    ensures var y := Diagonal(x);
            MixAt(rotl, MixAt(rotl, MixAt(rotl, MixAt(rotl, y, 3, 12, 9, 7), 7, 0, 13, 7), 11, 4, 1, 7), 15, 8, 5, 7)
            == Diagonal(Group0(rotl, x))
  {
    hide Xor, Add;
    AddCommutes();
    Group0Is(rotl, x);
    hide Group0;
  }

  lemma Diagonal1(rotl: Rotl, x: Block)
    ensures var y := Diagonal(x);
            MixAt(rotl, MixAt(rotl, MixAt(rotl, MixAt(rotl, y, 2, 15, 8, 9), 6, 3, 12, 9), 10, 7, 0, 9), 14, 11, 4, 9)
            == Diagonal(Group1(rotl, x))
  {
    hide Xor, Add;
    AddCommutes();
    Group1Is(rotl, x);
    hide Group1;
  }

  lemma Diagonal2(rotl: Rotl, x: Block)
    ensures var y := Diagonal(x);
            MixAt(rotl, MixAt(rotl, MixAt(rotl, MixAt(rotl, y, 1, 14, 11, 13), 5, 2, 15, 13), 9, 6, 3, 13),
                  13, 10, 7, 13)
            == Diagonal(Group2(rotl, x))
  {
    hide Xor, Add;
    AddCommutes();
    Group2Is(rotl, x);
    hide Group2;
  }

  lemma Diagonal3(rotl: Rotl, x: Block)
    ensures var y := Diagonal(x);
            MixAt(rotl, MixAt(rotl, MixAt(rotl, MixAt(rotl, y, 0, 13, 10, 18), 4, 1, 14, 18), 8, 5, 2, 18),
                  12, 9, 6, 18)
            == Diagonal(Group3(rotl, x))
  {
    hide Xor, Add;
    AddCommutes();
    Group3Is(rotl, x);
    hide Group3;
  }

  lemma Diagonal4(rotl: Rotl, x: Block)
    ensures var y := Diagonal(x);
            MixAt(rotl, MixAt(rotl, MixAt(rotl, MixAt(rotl, y, 1, 0, 3, 7), 5, 4, 7, 7), 9, 8, 11, 7), 13, 12, 15, 7)
            == Diagonal(Group4(rotl, x))
  {
    hide Xor, Add;
    AddCommutes();
    Group4Is(rotl, x);
    hide Group4;
  }

  lemma Diagonal5(rotl: Rotl, x: Block)
    ensures var y := Diagonal(x);
            MixAt(rotl, MixAt(rotl, MixAt(rotl, MixAt(rotl, y, 2, 1, 0, 9), 6, 5, 4, 9), 10, 9, 8, 9), 14, 13, 12, 9)
            == Diagonal(Group5(rotl, x))
  {
    hide Xor, Add;
    AddCommutes();
    Group5Is(rotl, x);
    hide Group5;
  }

  lemma Diagonal6(rotl: Rotl, x: Block)
    ensures var y := Diagonal(x);
            MixAt(rotl, MixAt(rotl, MixAt(rotl, MixAt(rotl, y, 3, 2, 1, 13), 7, 6, 5, 13), 11, 10, 9, 13),
                  15, 14, 13, 13)
            == Diagonal(Group6(rotl, x))
  {
    hide Xor, Add;
    AddCommutes();
    Group6Is(rotl, x);
    hide Group6;
  }

  lemma Diagonal7(rotl: Rotl, x: Block)
    ensures var y := Diagonal(x);
            MixAt(rotl, MixAt(rotl, MixAt(rotl, MixAt(rotl, y, 0, 3, 2, 18), 4, 7, 6, 18), 8, 11, 10, 18),
                  12, 15, 14, 18)
            == Diagonal(Group7(rotl, x))
  {
    hide Xor, Add;
    AddCommutes();
    Group7Is(rotl, x);
    hide Group7;
  }

  lemma AddCommutes()
    ensures forall a, b :: Add(a, b) == Add(b, a)
  {
  }

  // ----- the code -----

  /** The body of the loop of xor_salsa8_org. */
  method PlainDoubleRound(rotl: Rotl, x: array<Word>)
    requires x.Length == 16
    modifies x
    ensures x[..] == RowRound(rotl, ColumnRound(rotl, old(x[..])))
  {
    hide MixAt, ColumnRound, RowRound;
    ghost var x0 := x[..];
    Mix(rotl, x, 4, 0, 12, 7);  Mix(rotl, x, 9, 5, 1, 7);  Mix(rotl, x, 14, 10, 6, 7);  Mix(rotl, x, 3, 15, 11, 7);
    Mix(rotl, x, 8, 4, 0, 9);  Mix(rotl, x, 13, 9, 5, 9);  Mix(rotl, x, 2, 14, 10, 9);  Mix(rotl, x, 7, 3, 15, 9);
    Mix(rotl, x, 12, 8, 4, 13);  Mix(rotl, x, 1, 13, 9, 13);  Mix(rotl, x, 6, 2, 14, 13);  Mix(rotl, x, 11, 7, 3, 13);
    Mix(rotl, x, 0, 12, 8, 18);  Mix(rotl, x, 5, 1, 13, 18);  Mix(rotl, x, 10, 6, 2, 18);  Mix(rotl, x, 15, 11, 7, 18);
    GroupsAreColumns(rotl, x0);
    ghost var x1 := x[..];
    Mix(rotl, x, 1, 0, 3, 7);  Mix(rotl, x, 6, 5, 4, 7);  Mix(rotl, x, 11, 10, 9, 7);  Mix(rotl, x, 12, 15, 14, 7);
    Mix(rotl, x, 2, 1, 0, 9);  Mix(rotl, x, 7, 6, 5, 9);  Mix(rotl, x, 8, 11, 10, 9);  Mix(rotl, x, 13, 12, 15, 9);
    Mix(rotl, x, 3, 2, 1, 13);  Mix(rotl, x, 4, 7, 6, 13);  Mix(rotl, x, 9, 8, 11, 13);  Mix(rotl, x, 14, 13, 12, 13);
    Mix(rotl, x, 0, 3, 2, 18);  Mix(rotl, x, 5, 4, 7, 18);  Mix(rotl, x, 10, 9, 8, 18);  Mix(rotl, x, 15, 14, 13, 18);
    GroupsAreRows(rotl, x1);
  }

  /** The body of the loop of xor_salsa8, on the permuted layout. */
  method DiagonalDoubleRound(rotl: Rotl, x: array<Word>, ghost v: Block)
    requires x.Length == 16 && x[..] == Diagonal(v)
    modifies x
    ensures x[..] == Diagonal(RowRound(rotl, ColumnRound(rotl, v)))
  {
    hide MixAt, ColumnRound, RowRound, Diagonal, Group0, Group1, Group2, Group3, Group4, Group5, Group6, Group7;
    ghost var w := v;
    Diagonal0(rotl, w);
    w := Group0(rotl, w);
    Mix(rotl, x, 3, 12, 9, 7);  Mix(rotl, x, 7, 0, 13, 7);  Mix(rotl, x, 11, 4, 1, 7);  Mix(rotl, x, 15, 8, 5, 7);
    Diagonal1(rotl, w);
    w := Group1(rotl, w);
    Mix(rotl, x, 2, 15, 8, 9);  Mix(rotl, x, 6, 3, 12, 9);  Mix(rotl, x, 10, 7, 0, 9);  Mix(rotl, x, 14, 11, 4, 9);
    Diagonal2(rotl, w);
    w := Group2(rotl, w);
    Mix(rotl, x, 1, 14, 11, 13);  Mix(rotl, x, 5, 2, 15, 13);  Mix(rotl, x, 9, 6, 3, 13);  Mix(rotl, x, 13, 10, 7, 13);
    Diagonal3(rotl, w);
    w := Group3(rotl, w);
    Mix(rotl, x, 0, 13, 10, 18);  Mix(rotl, x, 4, 1, 14, 18);  Mix(rotl, x, 8, 5, 2, 18);  Mix(rotl, x, 12, 9, 6, 18);
    GroupsAreColumns(rotl, v);
    ghost var u := w;
    Diagonal4(rotl, w);
    w := Group4(rotl, w);
    Mix(rotl, x, 1, 0, 3, 7);  Mix(rotl, x, 5, 4, 7, 7);  Mix(rotl, x, 9, 8, 11, 7);  Mix(rotl, x, 13, 12, 15, 7);
    Diagonal5(rotl, w);
    w := Group5(rotl, w);
    Mix(rotl, x, 2, 1, 0, 9);  Mix(rotl, x, 6, 5, 4, 9);  Mix(rotl, x, 10, 9, 8, 9);  Mix(rotl, x, 14, 13, 12, 9);
    Diagonal6(rotl, w);
    w := Group6(rotl, w);
    Mix(rotl, x, 3, 2, 1, 13);  Mix(rotl, x, 7, 6, 5, 13);  Mix(rotl, x, 11, 10, 9, 13);  Mix(rotl, x, 15, 14, 13, 13);
    Diagonal7(rotl, w);
    w := Group7(rotl, w);
    Mix(rotl, x, 0, 3, 2, 18);  Mix(rotl, x, 4, 7, 6, 18);  Mix(rotl, x, 8, 11, 10, 18);  Mix(rotl, x, 12, 15, 14, 18);
    GroupsAreRows(rotl, u);
  }
}
