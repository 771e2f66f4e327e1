/**
 Bit-packed flag tables: bit k of a table lives in byte k>>3 under the mask 1<<(k&7), as in
 the composite table and the candidate sieve of xptMiner/riecoinMiner.cpp.
 */
module BitTable {

  predicate BitOf(b: bv8, j: nat)
    requires j < 8
  {
    b & (1 << j) != 0
  }

  /** Bit j is the binary digit of weight 2^j. */
  lemma BitMasks(b: bv8)
    ensures BitOf(b, 0) == (b & 0x01 == 0x01) && BitOf(b, 1) == (b & 0x02 == 0x02)
    ensures BitOf(b, 2) == (b & 0x04 == 0x04) && BitOf(b, 3) == (b & 0x08 == 0x08)
    ensures BitOf(b, 4) == (b & 0x10 == 0x10) && BitOf(b, 5) == (b & 0x20 == 0x20)
    ensures BitOf(b, 6) == (b & 0x40 == 0x40) && BitOf(b, 7) == (b & 0x80 == 0x80)
  {
  }

  predicate Bit(t: seq<bv8>, k: nat)
    requires k < 8 * |t|
  {
    BitOf(t[k / 8], k % 8)
  }

  lemma BitOfByte(t: seq<bv8>, i: nat, j: nat)
    requires i < |t| && j < 8
    ensures Bit(t, 8 * i + j) == BitOf(t[i], j)
  {
    assert (8 * i + j) / 8 == i && (8 * i + j) % 8 == j;
  }

  /** The bit string of a byte string: the low bit of each byte first. */
  function BitsOf(bs: seq<bv8>): (r: seq<bool>)
    ensures |r| == 8 * |bs|
  {
    seq(8 * |bs|, k requires 0 <= k < 8 * |bs| => Bit(bs, k))
  }

  /** after is before with bit k set. */
  ghost predicate IsBitSet(after: seq<bv8>, before: seq<bv8>, k: nat) {
    |after| == |before| && forall i: nat :: i < 8 * |after| ==> Bit(after, i) == (i == k || Bit(before, i))
  }

  lemma SetBitOf(b: bv8, i: nat, j: nat)
    requires i < 8 && j < 8
    ensures BitOf(b | (1 << i), j) == (i == j || BitOf(b, j))
  {
  }

  lemma ClearTable(t: seq<bv8>)
    requires forall i :: 0 <= i < |t| ==> t[i] == 0
    ensures forall k :: 0 <= k < 8 * |t| ==> !Bit(t, k)
  {
  }

  /** The table after `t[k>>3] |= 1<<(k&7)`. */
  method SetBit(t: array<bv8>, k: nat)
    requires k < 8 * t.Length
    modifies t
    ensures IsBitSet(t[..], old(t[..]), k)
  {
    ghost var before := t[..];
    t[k / 8] := t[k / 8] | (1 << (k % 8));
    forall i: nat | i < 8 * t.Length
      ensures Bit(t[..], i) == (i == k || Bit(before, i))
    {
      SetBitOf(before[k / 8], k % 8, i % 8);
    }
  }

  lemma ClearBitOf(b: bv8, i: nat, j: nat)
    requires i < 8 && j < 8
    ensures BitOf(b & !(1 << i), j) == (i != j && BitOf(b, j))
  {
  }

  /** after is before with bit k put to v. */
  ghost predicate IsBitPut(after: seq<bv8>, before: seq<bv8>, k: nat, v: bool) {
    |after| == |before| && forall i: nat :: i < 8 * |after| ==> Bit(after, i) == if i == k then v else Bit(before, i)
  }

  /** The table after bit k is set or cleared. */
  method PutBit(t: array<bv8>, k: nat, v: bool)
    requires k < 8 * t.Length
    modifies t
    ensures IsBitPut(t[..], old(t[..]), k, v)
  {
    ghost var before := t[..];
    if v {
      SetBit(t, k);
    } else {
      t[k / 8] := t[k / 8] & !(1 << (k % 8));
      forall i: nat | i < 8 * t.Length
        ensures Bit(t[..], i) == (i != k && Bit(before, i))
      {
        ClearBitOf(before[k / 8], k % 8, i % 8);
      }
    }
  }
}
