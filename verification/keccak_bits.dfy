/**
 The state as the three-dimensional array of bits of FIPS 202: the step mappings of sections 3.2.1 to 3.2.5
 bit by bit, and the bit strings of sections 3.1.2 and 3.1.3.
 */
module KeccakBits {
  import opened BitTable
  import opened Lanes
  import opened KeccakSpec
  import opened KeccakSponge
  import opened KeccakPadding
  import opened KeccakTables

  // ----- bits of lanes -----

  function Twice(m: bv64): bv64 {
    m << 1
  }

  /** The z-th power of two. */
  function Power(z: nat): bv64 {
    if z == 0 then 1 else Twice(Power(z - 1))
  }

  predicate Meets(v: bv64, m: bv64) {
    v & m != 0
  }

  /** Bit z of a lane. */
  predicate LaneBit(l: Lane, z: nat)
    requires z < 64
  {
    Meets(l.bits, Power(z))
  }

  predicate IsPower(m: bv64) {
    m != 0 && m & (m - 1) == 0
  }

  lemma HalfPower(m: bv64)
    requires IsPower(m)
    ensures m << 1 != 0 ==> IsPower(m << 1) && m & 0x8000_0000_0000_0000 == 0
  {
  }

  lemma TopPower()
    ensures Power(63) == 0x8000_0000_0000_0000
  {
    assert Power(8) == 0x100;
    assert Power(16) == 0x1_0000;
    assert Power(24) == 0x100_0000;
    assert Power(32) == 0x1_0000_0000;
    assert Power(40) == 0x100_0000_0000;
    assert Power(48) == 0x1_0000_0000_0000;
    assert Power(56) == 0x100_0000_0000_0000;
  }

  lemma {:induction false} PowerIsNotZero(z: nat, w: nat)
    requires z <= w && Power(w) != 0
    ensures Power(z) != 0
    decreases w
  {
    if z < w {
      PowerIsNotZero(z, w - 1);
    }
  }

  lemma {:induction false} PowerIsPower(z: nat)
    requires z < 64
    ensures IsPower(Power(z)) && (z < 63 ==> Power(z) & 0x8000_0000_0000_0000 == 0)
  {
    TopPower();
    PowerIsNotZero(z, 63);
    if z > 0 {
      PowerIsPower(z - 1);
      HalfPower(Power(z - 1));
    }
    if z < 63 {
      PowerIsNotZero(z + 1, 63);
      HalfPower(Power(z));
    }
  }

  function Half(l: Lane): Lane {
    Lane(l.bits >> 1)
  }

  lemma MeetsHalf(l: Lane, m: bv64)
    requires m & 0x8000_0000_0000_0000 == 0
    ensures Meets(l.bits, m << 1) == Meets(Half(l).bits, m)
  {
  }

  lemma HalfBit(l: Lane, z: nat)
    requires z < 63
    ensures LaneBit(l, z + 1) == LaneBit(Half(l), z)
  {
    hide Meets, Half, IsPower;
    PowerIsPower(z);
    MeetsHalf(l, Power(z));
  }

  lemma HalfOfXor(a: Lane, b: Lane)
    ensures Half(Xor(a, b)) == Xor(Half(a), Half(b))
  {
  }

  lemma LowestOfXor(a: Lane, b: Lane)
    ensures Meets(Xor(a, b).bits, 1) == (Meets(a.bits, 1) != Meets(b.bits, 1))
  {
  }

  lemma {:induction false} XorBit(a: Lane, b: Lane, z: nat)
    requires z < 64
    ensures LaneBit(Xor(a, b), z) == (LaneBit(a, z) != LaneBit(b, z))
    decreases z
  {
    hide Meets, Xor, Half;
    if z == 0 {
      LowestOfXor(a, b);
    } else {
      HalfBit(Xor(a, b), z - 1);
      HalfBit(a, z - 1);
      HalfBit(b, z - 1);
      HalfOfXor(a, b);
      XorBit(Half(a), Half(b), z - 1);
    }
  }

  lemma HalfOfChi(a: Lane, b: Lane, c: Lane)
    ensures Half(ChiLane(a, b, c)) == ChiLane(Half(a), Half(b), Half(c))
  {
  }

  lemma LowestOfChi(a: Lane, b: Lane, c: Lane)
    ensures Meets(ChiLane(a, b, c).bits, 1) == (Meets(a.bits, 1) != (!Meets(b.bits, 1) && Meets(c.bits, 1)))
  {
  }

  lemma {:induction false} ChiBit(a: Lane, b: Lane, c: Lane, z: nat)
    requires z < 64
    ensures LaneBit(ChiLane(a, b, c), z) == (LaneBit(a, z) != (!LaneBit(b, z) && LaneBit(c, z)))
    decreases z
  {
    hide Meets, ChiLane, Half;
    if z == 0 {
      LowestOfChi(a, b, c);
    } else {
      HalfBit(ChiLane(a, b, c), z - 1);
      HalfBit(a, z - 1);
      HalfBit(b, z - 1);
      HalfBit(c, z - 1);
      HalfOfChi(a, b, c);
      ChiBit(Half(a), Half(b), Half(c), z - 1);
    }
  }

  // ----- rotations -----

  lemma RotMeets(v: bv64, m: bv64)
    requires IsPower(m) && m & 0x8000_0000_0000_0000 == 0
    ensures Meets(Rot(Lane(v), 1).bits, m << 1) == Meets(v, m)
  {
  }

  lemma RotTop(v: bv64)
    ensures Meets(Rot(Lane(v), 1).bits, 1) == Meets(v, 0x8000_0000_0000_0000)
  {
  }

  lemma RotBit1(v: Lane, z: nat)
    requires z < 64
    ensures LaneBit(Rot(v, 1), z) == LaneBit(v, (z + 63) % 64)
  {
    hide IsPower, Meets, Rot;
    if z == 0 {
      TopPower();
      RotTop(v.bits);
    } else {
      PowerIsPower(z - 1);
      RotMeets(v.bits, Power(z - 1));
    }
  }

  /** n rotations by one place. */
  function Turned(v: Lane, n: nat): Lane {
    if n == 0 then v else Rot(Turned(v, n - 1), 1)
  }

  lemma {:induction false} TurnedBit(v: Lane, n: nat, z: nat)
    requires z < 64
    ensures LaneBit(Turned(v, n), z) == LaneBit(v, (z - n) % 64)
  {
    hide LaneBit, Rot;
    if n > 0 {
      RotBit1(Turned(v, n - 1), z);
      TurnedBit(v, n - 1, (z + 63) % 64);
    }
  }

  lemma {:induction false} TurnedSum(v: Lane, m: nat, n: nat)
    ensures Turned(v, m + n) == Turned(Turned(v, m), n)
  {
    hide Rot;
    if n > 0 {
      TurnedSum(v, m, n - 1);
    }
  }

  ghost predicate IsTurn(a: bv8, m: nat)
    requires a < 64
  {
    forall v :: Rot(v, a) == Turned(v, m)
  }

  lemma Compose(a: bv8, b: bv8, c: bv8, m: nat, n: nat)
    requires a < 64 && b < 64 && c < 64 && IsTurn(a, m) && IsTurn(b, n)
    requires forall v :: Rot(Rot(v, a), b) == Rot(v, c)
    ensures IsTurn(c, m + n)
  {
    hide Rot;
    forall v
      ensures Rot(v, c) == Turned(v, m + n)
    {
      TurnedSum(v, m, n);
    }
  }

  lemma Turn2()
    requires IsTurn(1, 1)
    ensures IsTurn(2, 2)
  {
    hide IsTurn;
    assert forall v :: Rot(Rot(v, 1), 1) == Rot(v, 2);
    Compose(1, 1, 2, 1, 1);
  }

  lemma Turn3()
    requires IsTurn(2, 2) && IsTurn(1, 1)
    ensures IsTurn(3, 3)
  {
    hide IsTurn;
    assert forall v :: Rot(Rot(v, 2), 1) == Rot(v, 3);
    Compose(2, 1, 3, 2, 1);
  }

  lemma Turn6()
    requires IsTurn(3, 3)
    ensures IsTurn(6, 6)
  {
    hide IsTurn;
    assert forall v :: Rot(Rot(v, 3), 3) == Rot(v, 6);
    Compose(3, 3, 6, 3, 3);
  }

  lemma Turn8()
    requires IsTurn(6, 6) && IsTurn(2, 2)
    ensures IsTurn(8, 8)
  {
    hide IsTurn;
    assert forall v :: Rot(Rot(v, 6), 2) == Rot(v, 8);
    Compose(6, 2, 8, 6, 2);
  }

  lemma Turn10()
    requires IsTurn(8, 8) && IsTurn(2, 2)
    ensures IsTurn(10, 10)
  {
    hide IsTurn;
    assert forall v :: Rot(Rot(v, 8), 2) == Rot(v, 10);
    Compose(8, 2, 10, 8, 2);
  }

  lemma Turn14()
    requires IsTurn(8, 8) && IsTurn(6, 6)
    ensures IsTurn(14, 14)
  {
    hide IsTurn;
    assert forall v :: Rot(Rot(v, 8), 6) == Rot(v, 14);
    Compose(8, 6, 14, 8, 6);
  }

  lemma Turn15()
    requires IsTurn(14, 14) && IsTurn(1, 1)
    ensures IsTurn(15, 15)
  {
    hide IsTurn;
    assert forall v :: Rot(Rot(v, 14), 1) == Rot(v, 15);
    Compose(14, 1, 15, 14, 1);
  }

  lemma Turn18()
    requires IsTurn(15, 15) && IsTurn(3, 3)
    ensures IsTurn(18, 18)
  {
    hide IsTurn;
    assert forall v :: Rot(Rot(v, 15), 3) == Rot(v, 18);
    Compose(15, 3, 18, 15, 3);
  }

  lemma Turn20()
    requires IsTurn(18, 18) && IsTurn(2, 2)
    ensures IsTurn(20, 20)
  {
    hide IsTurn;
    assert forall v :: Rot(Rot(v, 18), 2) == Rot(v, 20);
    Compose(18, 2, 20, 18, 2);
  }

  lemma Turn21()
    requires IsTurn(20, 20) && IsTurn(1, 1)
    ensures IsTurn(21, 21)
  {
    hide IsTurn;
    assert forall v :: Rot(Rot(v, 20), 1) == Rot(v, 21);
    Compose(20, 1, 21, 20, 1);
  }

  lemma Turn25()
    requires IsTurn(15, 15) && IsTurn(10, 10)
    ensures IsTurn(25, 25)
  {
    hide IsTurn;
    assert forall v :: Rot(Rot(v, 15), 10) == Rot(v, 25);
    Compose(15, 10, 25, 15, 10);
  }

  lemma Turn27()
    requires IsTurn(25, 25) && IsTurn(2, 2)
    ensures IsTurn(27, 27)
  {
    hide IsTurn;
    assert forall v :: Rot(Rot(v, 25), 2) == Rot(v, 27);
    Compose(25, 2, 27, 25, 2);
  }

  lemma Turn28()
    requires IsTurn(27, 27) && IsTurn(1, 1)
    ensures IsTurn(28, 28)
  {
    hide IsTurn;
    assert forall v :: Rot(Rot(v, 27), 1) == Rot(v, 28);
    Compose(27, 1, 28, 27, 1);
  }

  lemma Turn36()
    requires IsTurn(28, 28) && IsTurn(8, 8)
    ensures IsTurn(36, 36)
  {
    hide IsTurn;
    assert forall v :: Rot(Rot(v, 28), 8) == Rot(v, 36);
    Compose(28, 8, 36, 28, 8);
  }

  lemma Turn39()
    requires IsTurn(36, 36) && IsTurn(3, 3)
    ensures IsTurn(39, 39)
  {
    hide IsTurn;
    assert forall v :: Rot(Rot(v, 36), 3) == Rot(v, 39);
    Compose(36, 3, 39, 36, 3);
  }

  lemma Turn41()
    requires IsTurn(39, 39) && IsTurn(2, 2)
    ensures IsTurn(41, 41)
  {
    hide IsTurn;
    assert forall v :: Rot(Rot(v, 39), 2) == Rot(v, 41);
    Compose(39, 2, 41, 39, 2);
  }

  lemma Turn43()
    requires IsTurn(41, 41) && IsTurn(2, 2)
    ensures IsTurn(43, 43)
  {
    hide IsTurn;
    assert forall v :: Rot(Rot(v, 41), 2) == Rot(v, 43);
    Compose(41, 2, 43, 41, 2);
  }

  lemma Turn44()
    requires IsTurn(43, 43) && IsTurn(1, 1)
    ensures IsTurn(44, 44)
  {
    hide IsTurn;
    assert forall v :: Rot(Rot(v, 43), 1) == Rot(v, 44);
    Compose(43, 1, 44, 43, 1);
  }

  lemma Turn45()
    requires IsTurn(44, 44) && IsTurn(1, 1)
    ensures IsTurn(45, 45)
  {
    hide IsTurn;
    assert forall v :: Rot(Rot(v, 44), 1) == Rot(v, 45);
    Compose(44, 1, 45, 44, 1);
  }

  lemma Turn55()
    requires IsTurn(45, 45) && IsTurn(10, 10)
    ensures IsTurn(55, 55)
  {
    hide IsTurn;
    assert forall v :: Rot(Rot(v, 45), 10) == Rot(v, 55);
    Compose(45, 10, 55, 45, 10);
  }

  lemma Turn56()
    requires IsTurn(55, 55) && IsTurn(1, 1)
    ensures IsTurn(56, 56)
  {
    hide IsTurn;
    assert forall v :: Rot(Rot(v, 55), 1) == Rot(v, 56);
    Compose(55, 1, 56, 55, 1);
  }

  lemma Turn61()
    requires IsTurn(55, 55) && IsTurn(6, 6)
    ensures IsTurn(61, 61)
  {
    hide IsTurn;
    assert forall v :: Rot(Rot(v, 55), 6) == Rot(v, 61);
    Compose(55, 6, 61, 55, 6);
  }

  lemma Turn62()
    requires IsTurn(61, 61) && IsTurn(1, 1)
    ensures IsTurn(62, 62)
  {
    hide IsTurn;
    assert forall v :: Rot(Rot(v, 61), 1) == Rot(v, 62);
    Compose(61, 1, 62, 61, 1);
  }

  lemma NoTurn()
    ensures IsTurn(0, 0) && IsTurn(1, 1)
  {
    forall v
      ensures Rot(v, 1) == Turned(v, 1)
    {
      assert Turned(v, 1) == Rot(Turned(v, 0), 1);
    }
  }

  /** The rotation by an offset of rho is as many rotations by one place. */
  lemma OffsetsAreTurns()
    ensures IsTurn(0, 0) && IsTurn(1, 1)
    ensures IsTurn(2, 2) && IsTurn(3, 3) && IsTurn(6, 6) && IsTurn(8, 8) && IsTurn(10, 10)
    ensures IsTurn(14, 14) && IsTurn(15, 15) && IsTurn(18, 18) && IsTurn(20, 20) && IsTurn(21, 21)
    ensures IsTurn(25, 25) && IsTurn(27, 27) && IsTurn(28, 28) && IsTurn(36, 36) && IsTurn(39, 39)
    ensures IsTurn(41, 41) && IsTurn(43, 43) && IsTurn(44, 44) && IsTurn(45, 45) && IsTurn(55, 55)
    ensures IsTurn(56, 56) && IsTurn(61, 61) && IsTurn(62, 62)
  {
    hide IsTurn;
    NoTurn();
    Turn2(); Turn3(); Turn6(); Turn8(); Turn10(); Turn14(); Turn15(); Turn18();
    Turn20(); Turn21(); Turn25(); Turn27(); Turn28(); Turn36(); Turn39(); Turn41();
    Turn43(); Turn44(); Turn45(); Turn55(); Turn56(); Turn61(); Turn62();
  }

  lemma OffsetIsTurn(q: nat)
    requires q < 25
    ensures IsTurn(Offset(q), Offset(q) as nat)
  {
    hide IsTurn;
    OffsetsAreTurns();
    if q == 0 {} else if q == 1 {} else if q == 2 {} else if q == 3 {} else if q == 4 {} else if q == 5 {} else
    if q == 6 {} else if q == 7 {} else if q == 8 {} else if q == 9 {} else if q == 10 {} else
    if q == 11 {} else if q == 12 {} else if q == 13 {} else if q == 14 {} else if q == 15 {} else
    if q == 16 {} else if q == 17 {} else if q == 18 {} else if q == 19 {} else if q == 20 {} else
    if q == 21 {} else if q == 22 {} else if q == 23 {} else {}
  }

  // ----- the step mappings, bit by bit -----

  /** A[x, y, z]. */
  predicate At(A: State, x: nat, y: nat, z: nat)
    requires x < 5 && y < 5 && z < 64
  {
    LaneBit(A[5 * x + y], z)
  }

  lemma ColumnBit(A: State, x: nat, z: nat)
    requires x < 5 && z < 64
    ensures LaneBit(Column(A, x), z) ==
            ((((At(A, x, 0, z) != At(A, x, 1, z)) != At(A, x, 2, z)) != At(A, x, 3, z)) != At(A, x, 4, z))
  {
    hide LaneBit, Xor;
    var s1 := Xor(A[5 * x], A[5 * x + 1]);
    var s2 := Xor(s1, A[5 * x + 2]);
    var s3 := Xor(s2, A[5 * x + 3]);
    XorBit(A[5 * x], A[5 * x + 1], z);
    XorBit(s1, A[5 * x + 2], z);
    XorBit(s2, A[5 * x + 3], z);
    XorBit(s3, A[5 * x + 4], z);
  }

  /** Section 3.2.1: every bit is added to the parities of two columns. */
  lemma ThetaBits(A: State, x: nat, y: nat, z: nat)
    requires x < 5 && y < 5 && z < 64
    ensures At(Theta(A), x, y, z) ==
            (At(A, x, y, z) !=
             (((((At(A, (x + 4) % 5, 0, z) != At(A, (x + 4) % 5, 1, z)) != At(A, (x + 4) % 5, 2, z))
                != At(A, (x + 4) % 5, 3, z)) != At(A, (x + 4) % 5, 4, z)) !=
              ((((At(A, (x + 1) % 5, 0, (z + 63) % 64) != At(A, (x + 1) % 5, 1, (z + 63) % 64))
                 != At(A, (x + 1) % 5, 2, (z + 63) % 64)) != At(A, (x + 1) % 5, 3, (z + 63) % 64))
               != At(A, (x + 1) % 5, 4, (z + 63) % 64))))
  {
    hide LaneBit, Xor, Rot, Column;
    var l, r := (x + 4) % 5, (x + 1) % 5;
    var right := Rot(Column(A, r), 1);
    assert (5 * x + y) / 5 == x;
    XorBit(A[5 * x + y], ColumnEffect(A, x), z);
    XorBit(Column(A, l), right, z);
    RotBit1(Column(A, r), z);
    ColumnBit(A, l, z);
    ColumnBit(A, r, (z + 63) % 64);
  }

  /** Section 3.2.2: along the walk, lane t is rotated by (t + 1)(t + 2)/2 places; lane (0, 0) stays. */
  lemma RhoBits(A: State, t: nat, z: nat)
    requires t < 24 && z < 64
    ensures Walk(t).0 < 5 && Walk(t).1 < 5
    ensures At(Rho(A), Walk(t).0, Walk(t).1, z) == At(A, Walk(t).0, Walk(t).1, (z - (t + 1) * (t + 2) / 2) % 64)
  {
    hide LaneBit, Rot, Rho, Walk;
    var m := (t + 1) * (t + 2) / 2;
    RhoAlongWalk(A, t);
    TurnedBit(A[5 * Walk(t).0 + Walk(t).1], m % 64, z);
    Modulo64(z, m);
  }

  lemma RhoAlongWalk(A: State, t: nat)
    requires t < 24
    ensures Walk(t).0 < 5 && Walk(t).1 < 5
    ensures Rho(A)[5 * Walk(t).0 + Walk(t).1] == Turned(A[5 * Walk(t).0 + Walk(t).1], (t + 1) * (t + 2) / 2 % 64)
  {
    OffsetsFollowWalk(t);
    hide Rot, Offset, Walk, IsTurn;
    var q := 5 * Walk(t).0 + Walk(t).1;
    OffsetIsTurn(q);
    TurnOf(A[q], Offset(q), Offset(q) as nat);
  }

  lemma TurnOf(v: Lane, a: bv8, m: nat)
    requires a < 64 && IsTurn(a, m)
    ensures Rot(v, a) == Turned(v, m)
  {
  }

  lemma Modulo64(z: nat, m: nat)
    ensures (z - m % 64) % 64 == (z - m) % 64
  {
  }

  lemma RhoOrigin(A: State, z: nat)
    requires z < 64
    ensures At(Rho(A), 0, 0, z) == At(A, 0, 0, z)
  {
    hide LaneBit, Rot;
    NoTurn();
    assert Rot(A[0], 0) == Turned(A[0], 0);
  }

  /** Section 3.2.3. */
  lemma PiBits(A: State, x: nat, y: nat, z: nat)
    requires x < 5 && y < 5 && z < 64
    ensures At(Pi(A), x, y, z) == At(A, (x + 3 * y) % 5, x, z)
  {
    hide LaneBit;
    assert (5 * x + y) / 5 == x && (5 * x + y) % 5 == y;
  }

  /** Section 3.2.4. */
  lemma ChiBits(A: State, x: nat, y: nat, z: nat)
    requires x < 5 && y < 5 && z < 64
    ensures At(Chi(A), x, y, z) ==
            (At(A, x, y, z) != (!At(A, (x + 1) % 5, y, z) && At(A, (x + 2) % 5, y, z)))
  {
    hide LaneBit, ChiLane;
    var q := 5 * x + y;
    assert Next(q) == 5 * ((x + 1) % 5) + y && Next(Next(q)) == 5 * ((x + 2) % 5) + y;
    ChiBit(A[q], A[Next(q)], A[Next(Next(q))], z);
  }

  /** Section 3.2.5. */
  lemma IotaBits(A: State, rc: Lane, x: nat, y: nat, z: nat)
    requires x < 5 && y < 5 && z < 64
    ensures At(Iota(A, rc), x, y, z) == if x == 0 && y == 0 then At(A, x, y, z) != LaneBit(rc, z) else At(A, x, y, z)
  {
    hide LaneBit, Xor;
    XorBit(A[0], rc, z);
  }

  // ----- bit strings -----

  predicate ByteMeets(b: bv8, m: bv64) {
    b & (m & 0xFF) as bv8 != 0
  }

  predicate IsLow(m: bv64) {
    m & 0xFFFF_FFFF_FFFF_FF00 == 0
  }

  lemma LowPower(j: nat)
    requires j < 8
    ensures IsLow(Power(j))
    ensures forall b: bv8 :: BitOf(b, j) == ByteMeets(b, Power(j))
  {
    assert Power(0) == 1 && Power(1) == 2 && Power(2) == 4 && Power(3) == 8;
    assert Power(4) == 16 && Power(5) == 32 && Power(6) == 64 && Power(7) == 128;
    if j == 0 {} else if j == 1 {} else if j == 2 {} else if j == 3 {} else if j == 4 {} else if j == 5 {}
    else if j == 6 {} else {}
  }

  lemma FirstByte(l: Lane, m: bv64)
    requires IsLow(m)
    ensures Meets(l.bits, m) == ByteMeets(BytesOf(l)[0], m)
  {
  }

  function NextByte(l: Lane): Lane {
    Lane(l.bits >> 8)
  }

  lemma EightHalves(l: Lane)
    ensures Half(Half(Half(Half(Half(Half(Half(Half(l)))))))) == NextByte(l)
  {
  }

  lemma NextBit(l: Lane, n: nat)
    requires n + 8 < 64
    ensures LaneBit(l, n + 8) == LaneBit(NextByte(l), n)
  {
    EightHalves(l);
    hide LaneBit, Half, NextByte;
    var l4 := Half(Half(Half(Half(l))));
    HalfBit(l, n + 7);
    HalfBit(Half(l), n + 6);
    HalfBit(Half(Half(l)), n + 5);
    HalfBit(Half(Half(Half(l))), n + 4);
    HalfBit(l4, n + 3);
    HalfBit(Half(l4), n + 2);
    HalfBit(Half(Half(l4)), n + 1);
    HalfBit(Half(Half(Half(l4))), n);
  }

  lemma NextByte0(l: Lane)
    ensures BytesOf(NextByte(l))[0] == BytesOf(l)[1]
  {
  }

  lemma NextByte1(l: Lane)
    ensures BytesOf(NextByte(l))[1] == BytesOf(l)[2]
  {
  }

  lemma NextByte2(l: Lane)
    ensures BytesOf(NextByte(l))[2] == BytesOf(l)[3]
  {
  }

  lemma NextByte3(l: Lane)
    ensures BytesOf(NextByte(l))[3] == BytesOf(l)[4]
  {
  }

  lemma NextByte4(l: Lane)
    ensures BytesOf(NextByte(l))[4] == BytesOf(l)[5]
  {
  }

  lemma NextByte5(l: Lane)
    ensures BytesOf(NextByte(l))[5] == BytesOf(l)[6]
  {
  }

  lemma NextByte6(l: Lane)
    ensures BytesOf(NextByte(l))[6] == BytesOf(l)[7]
  {
  }

  /** Section B.1: bit j of byte i of a lane is its bit 8 * i + j. */
  lemma {:induction false} ByteBit(l: Lane, i: nat, j: nat)
    requires i < 8 && j < 8
    ensures BitOf(BytesOf(l)[i], j) == LaneBit(l, 8 * i + j)
    decreases i
  {
    hide BitOf, BytesOf, Meets, ByteMeets, IsLow, Power, NextByte;
    if i == 0 {
      LowPower(j);
      FirstByte(l, Power(j));
    } else {
      ByteBit(NextByte(l), i - 1, j);
      NextBit(l, 8 * (i - 1) + j);
      if i == 1 { NextByte0(l); } else if i == 2 { NextByte1(l); } else if i == 3 { NextByte2(l); }
      else if i == 4 { NextByte3(l); } else if i == 5 { NextByte4(l); } else if i == 6 { NextByte5(l); }
      else { NextByte6(l); }
    }
  }

  lemma BytesOfLane(b: seq<bv8>)
    requires |b| == 8
    ensures BytesOf(LaneOf(b)) == b
  {
  }

  lemma LaneOfBit(b: seq<bv8>, i: nat, j: nat)
    requires |b| == 8 && i < 8 && j < 8
    ensures LaneBit(LaneOf(b), 8 * i + j) == BitOf(b[i], j)
  {
    hide BitOf, BytesOf, LaneOf, LaneBit;
    BytesOfLane(b);
    ByteBit(LaneOf(b), i, j);
  }

  lemma {:induction false} OutputByte(A: State, lanes: nat, i: nat, k: nat)
    requires i < lanes <= 25 && k < 8
    ensures OutputBytes(A, lanes)[8 * i + k] == BytesOf(OutputLane(A, i))[k]
  {
    hide BytesOf, OutputLane;
    if i < lanes - 1 {
      OutputByte(A, lanes - 1, i, k);
    }
  }

  /** Section 3.1.3: bit 64 * (5 * y + x) + z of the string of a state is A[x, y, z]. */
  lemma StringBits(A: State, x: nat, y: nat, z: nat)
    requires x < 5 && y < 5 && z < 64
    ensures Bit(OutputBytes(A, 25), 64 * (5 * y + x) + z) == At(A, x, y, z)
  {
    hide BitOf, LaneBit, OutputBytes;
    var i, k, j := 5 * y + x, z / 8, z % 8;
    var n := 64 * i + z;
    assert n / 8 == 8 * i + k && n % 8 == j;
    OutputByte(A, 25, i, k);
    assert Word(i) == 5 * x + y;
    ByteBit(A[5 * x + y], k, j);
  }

  /** Section 3.1.2, for the sponge: the bits of a block are added to the first bits of the string of the state. */
  lemma CombineBits(A: State, block: seq<bv8>, x: nat, y: nat, z: nat)
    requires x < 5 && y < 5 && z < 64 && |block| % 8 == 0
    ensures var n := 64 * (5 * y + x) + z;
            At(Combine(A, block), x, y, z) == (At(A, x, y, z) != (n < 8 * |block| && Bit(block, n)))
  {
    hide BitOf, LaneBit, LaneOf, Xor;
    var i, k, j := 5 * y + x, z / 8, z % 8;
    var n := 64 * i + z;
    assert n / 8 == 8 * i + k && n % 8 == j;
    assert Word(5 * x + y) == i;
    if 8 * i + 8 <= |block| {
      var b := block[8 * i..8 * i + 8];
      assert b[k] == block[8 * i + k];
      XorBit(A[5 * x + y], LaneOf(b), z);
      LaneOfBit(b, k, j);
    }
  }

  // ----- the rounds (section 3.3) -----

  /** Twenty-four rounds of the five mappings, with the constant of each round. */
  lemma TwentyFourRounds(A: State, n: nat)
    requires n < 24
    ensures |RC| == 24 && KeccakF(A) == Rounds(A, 24) && Rounds(A, 0) == A
    ensures Rounds(A, n + 1) == Iota(Chi(Pi(Rho(Theta(Rounds(A, n))))), Lane(RC[n]))
  {
    hide Theta, Rho, Pi, Chi, Iota;
  }

  /** The sponge and its two instances, step by step. */
  lemma SpongeSteps(m: seq<bv8>, blocks: seq<seq<bv8>>, block: seq<bv8>, rate: nat, A: State, d: nat)
    requires rate > 0 && |block| == rate && d <= 200
    ensures Keccak256(m) == Squeeze(Absorb(Split(Padded(m, 136, 0, 0), 136)), 32)
    ensures Keccak512(m) == Squeeze(Absorb(Split(Padded(m, 72, 0, 0), 72)), 64)
    ensures forall q :: 0 <= q < 25 ==> Absorb([])[q] == Lane(0)
    ensures Absorb(blocks + [block]) == KeccakF(Combine(Absorb(blocks), block))
    ensures Split(block + m, rate) == [block] + Split(m, rate) && (|m| < rate ==> Split(m, rate) == [])
    ensures Squeeze(A, d) == OutputBytes(A, 25)[..d]
  {
    hide KeccakF, Combine, Padded, OutputBytes;
    assert (blocks + [block])[..|blocks|] == blocks;
    assert (block + m)[..rate] == block && (block + m)[rate..] == m;
  }
}
