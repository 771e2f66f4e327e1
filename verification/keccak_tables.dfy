/**
 Where the tables of the Keccak code come from: the rotation offsets and the round constants
 against their defining procedures in sections 3.2.2 and 3.2.5 of FIPS 202.
 */
module KeccakTables {
  import opened KeccakSpec

  /** The walk over the lanes of section 3.2.2: the lane reached after t steps. */
  function Walk(t: nat): (nat, nat) {
    if t == 0 then (1, 0) else var (x, y) := Walk(t - 1); (y, (2 * x + 3 * y) % 5)
  }

  lemma WalkTable()
    ensures Walk(0) == (1, 0) && Walk(1) == (0, 2) && Walk(2) == (2, 1) && Walk(3) == (1, 2)
    ensures Walk(4) == (2, 3) && Walk(5) == (3, 3) && Walk(6) == (3, 0) && Walk(7) == (0, 1)
    ensures Walk(8) == (1, 3) && Walk(9) == (3, 1) && Walk(10) == (1, 4) && Walk(11) == (4, 4)
    ensures Walk(12) == (4, 0) && Walk(13) == (0, 3) && Walk(14) == (3, 4) && Walk(15) == (4, 3)
    ensures Walk(16) == (3, 2) && Walk(17) == (2, 2) && Walk(18) == (2, 0) && Walk(19) == (0, 4)
    ensures Walk(20) == (4, 2) && Walk(21) == (2, 4) && Walk(22) == (4, 1) && Walk(23) == (1, 1)
  {
  }

  function Triangle(t: nat): nat {
    (t + 1) * (t + 2) / 2
  }

  lemma TriangleTable()
    ensures Triangle(0) == 1 && Triangle(1) == 3 && Triangle(2) == 6 && Triangle(3) == 10 && Triangle(4) == 15
      && Triangle(5) == 21
    ensures Triangle(6) == 28 && Triangle(7) == 36 && Triangle(8) == 45 && Triangle(9) == 55 && Triangle(10) == 66
      && Triangle(11) == 78
    ensures Triangle(12) == 91 && Triangle(13) == 105 && Triangle(14) == 120 && Triangle(15) == 136
      && Triangle(16) == 153 && Triangle(17) == 171
    ensures Triangle(18) == 190 && Triangle(19) == 210 && Triangle(20) == 231 && Triangle(21) == 253
      && Triangle(22) == 276 && Triangle(23) == 300
  {
  }

  lemma FirstOffsets(t: nat)
    requires t < 8
    ensures Walk(t).0 < 5 && Walk(t).1 < 5 && Offset(5 * Walk(t).0 + Walk(t).1) as nat == Triangle(t) % 64
  {
    hide Walk, Triangle;
    WalkTable();
    TriangleTable();
    if t == 0 {} else if t == 1 {} else if t == 2 {} else if t == 3 {} else if t == 4 {} else
    if t == 5 {} else if t == 6 {} else {}
  }

  lemma MiddleOffsets(t: nat)
    requires 8 <= t < 16
    ensures Walk(t).0 < 5 && Walk(t).1 < 5 && Offset(5 * Walk(t).0 + Walk(t).1) as nat == Triangle(t) % 64
  {
    hide Walk, Triangle;
    WalkTable();
    TriangleTable();
    if t == 8 {} else if t == 9 {} else if t == 10 {} else if t == 11 {} else if t == 12 {} else
    if t == 13 {} else if t == 14 {} else {}
  }

  lemma LastOffsets(t: nat)
    requires 16 <= t < 24
    ensures Walk(t).0 < 5 && Walk(t).1 < 5 && Offset(5 * Walk(t).0 + Walk(t).1) as nat == Triangle(t) % 64
  {
    hide Walk, Triangle;
    WalkTable();
    TriangleTable();
    if t == 16 {} else if t == 17 {} else if t == 18 {} else if t == 19 {} else if t == 20 {} else
    if t == 21 {} else if t == 22 {} else {}
  }

  /** The rotation offsets are the triangular numbers that the walk of section 3.2.2 assigns. */
  lemma OffsetsFollowWalk(t: nat)
    requires t < 24
    ensures Walk(t).0 < 5 && Walk(t).1 < 5 && Offset(5 * Walk(t).0 + Walk(t).1) as nat == Triangle(t) % 64
  {
    hide Walk, Triangle, Offset;
    if t < 8 {
      FirstOffsets(t);
    } else if t < 16 {
      MiddleOffsets(t);
    } else {
      LastOffsets(t);
    }
  }

  /** One step of the feedback shift register of algorithm 5, section 3.2.5. */
  function Shift(r: bv8): bv8 {
    (r << 1) ^ (if r & 0x80 != 0 then 0x71 else 0)
  }

  function ShiftSeven(r: bv8): bv8 {
    Shift(Shift(Shift(Shift(Shift(Shift(Shift(r)))))))
  }

  function Tap(r: bv8, bit: bv64): bv64 {
    if r & 1 != 0 then bit else 0
  }

  /** The seven bits 2^j - 1 of a round constant, from the register at the start of the round. */
  function ConstantFrom(r: bv8): bv64 {
    var r1 := Shift(r);
    var r2 := Shift(r1);
    var r3 := Shift(r2);
    var r4 := Shift(r3);
    var r5 := Shift(r4);
    var r6 := Shift(r5);
    Tap(r, 0x1) | Tap(r1, 0x2) | Tap(r2, 0x8) | Tap(r3, 0x80) | Tap(r4, 0x8000) | Tap(r5, 0x8000_0000)
      | Tap(r6, 0x8000_0000_0000_0000)
  }

  /** The register at the start of round n. */
  function Register(n: nat): bv8 {
    if n == 0 then 1 else ShiftSeven(Register(n - 1))
  }

  lemma RegisterTable()
    ensures Register(0) == 0x1 && Register(1) == 0x80 && Register(2) == 0xd8 && Register(3) == 0x1a
    ensures Register(4) == 0xdf && Register(5) == 0x9 && Register(6) == 0x35 && Register(7) == 0x4f
    ensures Register(8) == 0xca && Register(9) == 0x70 && Register(10) == 0x41 && Register(11) == 0xec
    ensures Register(12) == 0xd5 && Register(13) == 0xcd && Register(14) == 0x63 && Register(15) == 0xab
    ensures Register(16) == 0xaa && Register(17) == 0x2a && Register(18) == 0xf2 && Register(19) == 0xe8
    ensures Register(20) == 0x37 && Register(21) == 0x3e && Register(22) == 0xb && Register(23) == 0x44
  {
  }

  lemma Constants0()
    ensures ConstantFrom(0x1) == RC[0]
    ensures ConstantFrom(0x80) == RC[1]
    ensures ConstantFrom(0xd8) == RC[2]
  {
  }

  lemma Constants3()
    ensures ConstantFrom(0x1a) == RC[3]
    ensures ConstantFrom(0xdf) == RC[4]
    ensures ConstantFrom(0x9) == RC[5]
  {
  }

  lemma Constants6()
    ensures ConstantFrom(0x35) == RC[6]
    ensures ConstantFrom(0x4f) == RC[7]
    ensures ConstantFrom(0xca) == RC[8]
  {
  }

  lemma Constants9()
    ensures ConstantFrom(0x70) == RC[9]
    ensures ConstantFrom(0x41) == RC[10]
    ensures ConstantFrom(0xec) == RC[11]
  {
  }

  lemma Constants12()
    ensures ConstantFrom(0xd5) == RC[12]
    ensures ConstantFrom(0xcd) == RC[13]
    ensures ConstantFrom(0x63) == RC[14]
  {
  }

  lemma Constants15()
    ensures ConstantFrom(0xab) == RC[15]
    ensures ConstantFrom(0xaa) == RC[16]
    ensures ConstantFrom(0x2a) == RC[17]
  {
  }

  lemma Constants18()
    ensures ConstantFrom(0xf2) == RC[18]
    ensures ConstantFrom(0xe8) == RC[19]
    ensures ConstantFrom(0x37) == RC[20]
  {
  }

  lemma Constants21()
    ensures ConstantFrom(0x3e) == RC[21]
    ensures ConstantFrom(0xb) == RC[22]
    ensures ConstantFrom(0x44) == RC[23]
  {
  }

  lemma FirstConstants(n: nat)
    requires n < 12
    ensures ConstantFrom(Register(n)) == RC[n]
  {
    hide Register, ConstantFrom, RC;
    RegisterTable();
    Constants0();
    Constants3();
    Constants6();
    Constants9();
    if n == 0 {} else if n == 1 {} else if n == 2 {} else if n == 3 {} else if n == 4 {} else if n == 5 {}
    else if n == 6 {} else if n == 7 {} else if n == 8 {} else if n == 9 {} else if n == 10 {} else {}
  }

  lemma LastConstants(n: nat)
    requires 12 <= n < 24
    ensures ConstantFrom(Register(n)) == RC[n]
  {
    hide Register, ConstantFrom, RC;
    RegisterTable();
    Constants12();
    Constants15();
    Constants18();
    Constants21();
    if n == 12 {} else if n == 13 {} else if n == 14 {} else if n == 15 {} else if n == 16 {} else if n == 17 {}
    else if n == 18 {} else if n == 19 {} else if n == 20 {} else if n == 21 {} else if n == 22 {} else {}
  }

  /** The 24 round constants are the ones that the shift register of section 3.2.5 generates. */
  lemma ConstantsFollowRegister(n: nat)
    requires n < 24
    ensures ConstantFrom(Register(n)) == RC[n]
  {
    hide Register, ConstantFrom, RC;
    if n < 12 {
      FirstConstants(n);
    } else {
      LastConstants(n);
    }
  }
}
