/**
 The 64-bit words that the Keccak code and its specification work on, with the algebraic laws the
 proofs use. Proofs about whole states hide these definitions and work with the laws alone.
 */
module Lanes {

  datatype Lane = Lane(bits: bv64)

  const ONES: Lane := Lane(0xFFFF_FFFF_FFFF_FFFF)
  const ZERO: Lane := Lane(0)

  function Xor(a: Lane, b: Lane): Lane {
    Lane(a.bits ^ b.bits)
  }

  function And(a: Lane, b: Lane): Lane {
    Lane(a.bits & b.bits)
  }

  function Or(a: Lane, b: Lane): Lane {
    Lane(a.bits | b.bits)
  }

  function Not(a: Lane): Lane {
    Lane(!a.bits)
  }

  /** SPH_ROTL64: rotation by n positions towards the most significant bit. */
  function Rot(v: Lane, n: bv8): Lane
    requires n < 64
  {
    Lane((v.bits << n) | (v.bits >> (64 - n)))
  }

  /** A mask of all zeros or all ones: leave a lane alone or complement it. */
  function Flip(complemented: bool): Lane {
    if complemented then ONES else ZERO
  }

  lemma XorCancels(v: Lane, m: Lane)
    ensures Xor(Xor(v, m), m) == v
  {
  }

  lemma XorCommutes(a: Lane, b: Lane)
    ensures Xor(a, b) == Xor(b, a)
  {
  }

  lemma XorAssociates(a: Lane, b: Lane, c: Lane)
    ensures Xor(Xor(a, b), c) == Xor(a, Xor(b, c))
  {
  }

  lemma XorSwap(a: Lane, m: Lane, e: Lane, n: Lane)
    ensures Xor(Xor(a, m), Xor(e, n)) == Xor(Xor(a, e), Xor(m, n))
  {
    hide *;
    XorAssociates(a, m, Xor(e, n));
    XorAssociates(m, e, n);
    XorCommutes(m, e);
    XorAssociates(e, m, n);
    XorAssociates(a, e, Xor(m, n));
  }

  lemma FlipXor(p: bool, q: bool)
    ensures Xor(Flip(p), Flip(q)) == Flip(p != q)
  {
  }

  lemma XorNothing(v: Lane)
    ensures Xor(v, ZERO) == v
  {
  }

  lemma NotIsXor(a: Lane)
    ensures Not(a) == Xor(a, ONES)
  {
  }

  /** De Morgan: a disjunction with one complemented operand. */
  lemma OrComplement(b: Lane, c: Lane)
    ensures Or(b, Xor(c, ONES)) == Xor(And(Not(b), c), ONES)
  {
  }
}
