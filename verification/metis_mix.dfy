/**
 SMIX of xptMiner/metis.c: the column mix of the Fugue state, for arbitrary mixing tables, and the
 three ways in which the code computes it.
 */
module MetisMix {
  import opened Words

  /** mixtab0 to mixtab3. */
  datatype Tables = Tables(mixtab0: bv8 -> Word, mixtab1: bv8 -> Word, mixtab2: bv8 -> Word, mixtab3: bv8 -> Word)

  datatype Quad = Quad(x0: Word, x1: Word, x2: Word, x3: Word)

  function Octet0(x: Word): bv8 {
    (x.bits & 0xFF) as bv8
  }

  function Octet1(x: Word): bv8 {
    ((x.bits >> 8) & 0xFF) as bv8
  }

  function Octet2(x: Word): bv8 {
    ((x.bits >> 16) & 0xFF) as bv8
  }

  function Octet3(x: Word): bv8 {
    ((x.bits >> 24) & 0xFF) as bv8
  }

  /** One word looked up byte by byte: its column of the four-by-four matrix of table words. */
  function Column(t: Tables, x: Word): Word {
    Xor(Xor(Xor(t.mixtab0(Octet3(x)), t.mixtab1(Octet2(x))), t.mixtab2(Octet1(x))), t.mixtab3(Octet0(x)))
  }

  function Sum(a: Word, b: Word, c: Word): Word {
    Xor(Xor(a, b), c)
  }

  function Left(x: Word, n: bv8): Word
    requires n < 32
  {
    Word(x.bits << n)
  }

  function Right(x: Word, n: bv8): Word
    requires n < 32
  {
    Word(x.bits >> n)
  }

  /** The bytes of four words, from the most significant down. */
  function Assemble(a: Word, b: Word, c: Word, d: Word): Word {
    Word((a.bits & 0xFF00_0000) | (b.bits & 0x00FF_0000) | (c.bits & 0x0000_FF00) | (d.bits & 0x0000_00FF))
  }

  /**
   The mix of four words: columns are summed, and so is each row without its diagonal element; row
   j reaches output word i turned by i - j bytes.
   */
  function Mix(t: Tables, x: Quad): Quad {
    var c0, c1, c2, c3 := Column(t, x.x0), Column(t, x.x1), Column(t, x.x2), Column(t, x.x3);
    var r0 := Sum(t.mixtab0(Octet3(x.x1)), t.mixtab0(Octet3(x.x2)), t.mixtab0(Octet3(x.x3)));
    var r1 := Sum(t.mixtab1(Octet2(x.x0)), t.mixtab1(Octet2(x.x2)), t.mixtab1(Octet2(x.x3)));
    var r2 := Sum(t.mixtab2(Octet1(x.x0)), t.mixtab2(Octet1(x.x1)), t.mixtab2(Octet1(x.x3)));
    var r3 := Sum(t.mixtab3(Octet0(x.x0)), t.mixtab3(Octet0(x.x1)), t.mixtab3(Octet0(x.x2)));
    Quad(Assemble(Xor(c0, r0), Xor(c1, r1), Xor(c2, r2), Xor(c3, r3)),
         Assemble(Xor(c1, Left(r0, 8)), Xor(c2, Left(r1, 8)), Xor(c3, Left(r2, 8)), Xor(c0, Right(r3, 24))),
         Assemble(Xor(c2, Left(r0, 16)), Xor(c3, Left(r1, 16)), Xor(c0, Right(r2, 16)), Xor(c1, Right(r3, 16))),
         Assemble(Xor(c3, Left(r0, 24)), Xor(c0, Right(r1, 8)), Xor(c1, Right(r2, 8)), Xor(c2, Right(r3, 8))))
  }

  lemma SumsFromZero()
    ensures forall a :: Xor(ZERO, a) == a
  {
  }

  /** The macro SMIX: the row sums start from zero. */
  method Smix(t: Tables, x0: Word, x1: Word, x2: Word, x3: Word) returns (q: Quad)
    ensures q == Mix(t, Quad(x0, x1, x2, x3))
  {
    hide Octet0, Octet1, Octet2, Octet3, Xor, Assemble, Left, Right;
    SumsFromZero();
    var c0, c1, c2, c3 := ZERO, ZERO, ZERO, ZERO;
    var r0, r1, r2, r3 := ZERO, ZERO, ZERO, ZERO;
    var tmp: Word;
    tmp := t.mixtab0(Octet3(x0));
    c0 := tmp;
    tmp := t.mixtab1(Octet2(x0));
    c0 := Xor(c0, tmp);
    r1 := tmp;
    tmp := t.mixtab2(Octet1(x0));
    c0 := Xor(c0, tmp);
    r2 := tmp;
    tmp := t.mixtab3(Octet0(x0));
    c0 := Xor(c0, tmp);
    r3 := tmp;
    tmp := t.mixtab0(Octet3(x1));
    c1 := tmp;
    r0 := Xor(r0, tmp);
    tmp := t.mixtab1(Octet2(x1));
    c1 := Xor(c1, tmp);
    tmp := t.mixtab2(Octet1(x1));
    c1 := Xor(c1, tmp);
    r2 := Xor(r2, tmp);
    tmp := t.mixtab3(Octet0(x1));
    c1 := Xor(c1, tmp);
    r3 := Xor(r3, tmp);
    tmp := t.mixtab0(Octet3(x2));
    c2 := tmp;
    r0 := Xor(r0, tmp);
    tmp := t.mixtab1(Octet2(x2));
    c2 := Xor(c2, tmp);
    r1 := Xor(r1, tmp);
    tmp := t.mixtab2(Octet1(x2));
    c2 := Xor(c2, tmp);
    tmp := t.mixtab3(Octet0(x2));
    c2 := Xor(c2, tmp);
    r3 := Xor(r3, tmp);
    tmp := t.mixtab0(Octet3(x3));
    c3 := tmp;
    r0 := Xor(r0, tmp);
    tmp := t.mixtab1(Octet2(x3));
    c3 := Xor(c3, tmp);
    r1 := Xor(r1, tmp);
    tmp := t.mixtab2(Octet1(x3));
    c3 := Xor(c3, tmp);
    r2 := Xor(r2, tmp);
    tmp := t.mixtab3(Octet0(x3));
    c3 := Xor(c3, tmp);
    q := Quad(Assemble(Xor(c0, r0), Xor(c1, r1), Xor(c2, r2), Xor(c3, r3)),
              Assemble(Xor(c1, Left(r0, 8)), Xor(c2, Left(r1, 8)), Xor(c3, Left(r2, 8)), Xor(c0, Right(r3, 24))),
              Assemble(Xor(c2, Left(r0, 16)), Xor(c3, Left(r1, 16)), Xor(c0, Right(r2, 16)), Xor(c1, Right(r3, 16))),
              Assemble(Xor(c3, Left(r0, 24)), Xor(c0, Right(r1, 8)), Xor(c1, Right(r2, 8)), Xor(c2, Right(r3, 8))));
  }

  /** The macro SMIX_2: the first table word of each sum is assigned instead of added. */
  method Smix2(t: Tables, x0: Word, x1: Word, x2: Word, x3: Word) returns (q: Quad)
    ensures q == Mix(t, Quad(x0, x1, x2, x3))
  {
    hide Octet0, Octet1, Octet2, Octet3, Xor, Assemble, Left, Right;
    SumsFromZero();
    var c0, c1, c2, c3 := ZERO, ZERO, ZERO, ZERO;
    var r0, r1, r2, r3 := ZERO, ZERO, ZERO, ZERO;
    var tmp: Word;
    tmp := t.mixtab0(Octet3(x0));
    c0 := tmp;
    tmp := t.mixtab1(Octet2(x0));
    c0 := Xor(c0, tmp);
    r1 := tmp;
    tmp := t.mixtab2(Octet1(x0));
    c0 := Xor(c0, tmp);
    r2 := tmp;
    tmp := t.mixtab3(Octet0(x0));
    c0 := Xor(c0, tmp);
    r3 := tmp;
    tmp := t.mixtab0(Octet3(x1));
    c1 := tmp;
    r0 := tmp;
    tmp := t.mixtab1(Octet2(x1));
    c1 := Xor(c1, tmp);
    tmp := t.mixtab2(Octet1(x1));
    c1 := Xor(c1, tmp);
    r2 := Xor(r2, tmp);
    tmp := t.mixtab3(Octet0(x1));
    c1 := Xor(c1, tmp);
    r3 := Xor(r3, tmp);
    tmp := t.mixtab0(Octet3(x2));
    c2 := tmp;
    r0 := Xor(r0, tmp);
    tmp := t.mixtab1(Octet2(x2));
    c2 := Xor(c2, tmp);
    r1 := Xor(r1, tmp);
    tmp := t.mixtab2(Octet1(x2));
    c2 := Xor(c2, tmp);
    tmp := t.mixtab3(Octet0(x2));
    c2 := Xor(c2, tmp);
    r3 := Xor(r3, tmp);
    tmp := t.mixtab0(Octet3(x3));
    c3 := tmp;
    r0 := Xor(r0, tmp);
    tmp := t.mixtab1(Octet2(x3));
    c3 := Xor(c3, tmp);
    r1 := Xor(r1, tmp);
    tmp := t.mixtab2(Octet1(x3));
    c3 := Xor(c3, tmp);
    r2 := Xor(r2, tmp);
    tmp := t.mixtab3(Octet0(x3));
    c3 := Xor(c3, tmp);
    q := Quad(Assemble(Xor(c0, r0), Xor(c1, r1), Xor(c2, r2), Xor(c3, r3)),
              Assemble(Xor(c1, Left(r0, 8)), Xor(c2, Left(r1, 8)), Xor(c3, Left(r2, 8)), Xor(c0, Right(r3, 24))),
              Assemble(Xor(c2, Left(r0, 16)), Xor(c3, Left(r1, 16)), Xor(c0, Right(r2, 16)), Xor(c1, Right(r3, 16))),
              Assemble(Xor(c3, Left(r0, 24)), Xor(c0, Right(r1, 8)), Xor(c1, Right(r2, 8)), Xor(c2, Right(r3, 8))));
  }

  /** The block that ends metis4_core_opt: only the first word of the mix is assembled. */
  method SmixFirst(t: Tables, x0: Word, x1: Word, x2: Word, x3: Word) returns (y0: Word)
    ensures y0 == Mix(t, Quad(x0, x1, x2, x3)).x0
  {
    hide Octet0, Octet1, Octet2, Octet3, Xor, Assemble, Left, Right;
    SumsFromZero();
    var c0, c1, c2, c3 := ZERO, ZERO, ZERO, ZERO;
    var r0, r1, r2, r3 := ZERO, ZERO, ZERO, ZERO;
    var tmp: Word;
    tmp := t.mixtab0(Octet3(x0));
    c0 := Xor(c0, tmp);
    tmp := t.mixtab1(Octet2(x0));
    c0 := Xor(c0, tmp);
    r1 := Xor(r1, tmp);
    tmp := t.mixtab2(Octet1(x0));
    c0 := Xor(c0, tmp);
    r2 := Xor(r2, tmp);
    tmp := t.mixtab3(Octet0(x0));
    c0 := Xor(c0, tmp);
    r3 := Xor(r3, tmp);
    tmp := t.mixtab0(Octet3(x1));
    c1 := Xor(c1, tmp);
    r0 := Xor(r0, tmp);
    tmp := t.mixtab1(Octet2(x1));
    c1 := Xor(c1, tmp);
    tmp := t.mixtab2(Octet1(x1));
    c1 := Xor(c1, tmp);
    r2 := Xor(r2, tmp);
    tmp := t.mixtab3(Octet0(x1));
    c1 := Xor(c1, tmp);
    r3 := Xor(r3, tmp);
    tmp := t.mixtab0(Octet3(x2));
    c2 := Xor(c2, tmp);
    r0 := Xor(r0, tmp);
    tmp := t.mixtab1(Octet2(x2));
    c2 := Xor(c2, tmp);
    r1 := Xor(r1, tmp);
    tmp := t.mixtab2(Octet1(x2));
    c2 := Xor(c2, tmp);
    tmp := t.mixtab3(Octet0(x2));
    c2 := Xor(c2, tmp);
    r3 := Xor(r3, tmp);
    tmp := t.mixtab0(Octet3(x3));
    c3 := Xor(c3, tmp);
    r0 := Xor(r0, tmp);
    tmp := t.mixtab1(Octet2(x3));
    c3 := Xor(c3, tmp);
    r1 := Xor(r1, tmp);
    tmp := t.mixtab2(Octet1(x3));
    c3 := Xor(c3, tmp);
    r2 := Xor(r2, tmp);
    tmp := t.mixtab3(Octet0(x3));
    c3 := Xor(c3, tmp);
    y0 := Assemble(Xor(c0, r0), Xor(c1, r1), Xor(c2, r2), Xor(c3, r3));
  }
}
