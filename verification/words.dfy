/**
 32-bit words and their bytes. Proofs about whole states hide these definitions and work with the
 laws alone.
 */
module Words {

  datatype Word = Word(bits: bv32)

  const ZERO: Word := Word(0)

  function Xor(a: Word, b: Word): Word {
    Word(a.bits ^ b.bits)
  }

  lemma XorZero(a: Word)
    ensures Xor(a, ZERO) == a && Xor(ZERO, a) == a
  {
  }

  // ----- bytes -----

  /** One byte shifted into a word from the right. */
  function Push(p: Word, b: bv8): Word {
    Word((p.bits << 8) | (b as bv32))
  }

  function PushAll(p: Word, bs: seq<bv8>): Word
    decreases |bs|
  {
    if bs == [] then p else PushAll(Push(p, bs[0]), bs[1..])
  }

  /** sph_dec32be: the word of four bytes, the most significant byte first. */
  function BeWord(bs: seq<bv8>): Word
    requires |bs| == 4
  {
    Word(((bs[0] as bv32) << 24) | ((bs[1] as bv32) << 16) | ((bs[2] as bv32) << 8) | (bs[3] as bv32))
  }

  /** A word read from memory on a little-endian machine. */
  function LeWord(bs: seq<bv8>): Word
    requires |bs| == 4
  {
    Word(((bs[3] as bv32) << 24) | ((bs[2] as bv32) << 16) | ((bs[1] as bv32) << 8) | (bs[0] as bv32))
  }

  /** sph_enc32be. */
  function BeBytes(w: Word): (bs: seq<bv8>)
    ensures |bs| == 4
  {
    [((w.bits >> 24) & 0xFF) as bv8, ((w.bits >> 16) & 0xFF) as bv8,
     ((w.bits >> 8) & 0xFF) as bv8, (w.bits & 0xFF) as bv8]
  }

  /** le32enc. */
  function LeBytes(w: Word): (bs: seq<bv8>)
    ensures |bs| == 4
  {
    [(w.bits & 0xFF) as bv8, ((w.bits >> 8) & 0xFF) as bv8,
     ((w.bits >> 16) & 0xFF) as bv8, ((w.bits >> 24) & 0xFF) as bv8]
  }

  /** Which byte comes first. */
  lemma ByteOrders()
    ensures BeBytes(Word(0x0102_0304)) == [1, 2, 3, 4] && BeWord([1, 2, 3, 4]) == Word(0x0102_0304)
    ensures LeBytes(Word(0x0102_0304)) == [4, 3, 2, 1] && LeWord([4, 3, 2, 1]) == Word(0x0102_0304)
    ensures Push(Word(0x0102_0304), 5) == Word(0x0203_0405)
  {
  }

  lemma LeRoundTrip(w: Word)
    ensures LeWord(LeBytes(w)) == w
  {
  }

  /** The little-endian words of a byte string. */
  function LittleWords(bs: seq<bv8>): (r: seq<Word>)
    ensures |r| == |bs| / 4
  {
    seq(|bs| / 4, i requires 0 <= i < |bs| / 4 => LeWord(bs[4 * i..4 * i + 4]))
  }

  /** metis4_u32ToBE. */
  function Swap(p: Word): Word {
    Word((p.bits >> 24) | ((p.bits >> 8) & 0xFF00) | ((p.bits << 8) & 0xFF_0000) | (p.bits << 24))
  }

  lemma {:induction false} PushAllAppend(p: Word, a: seq<bv8>, b: seq<bv8>)
    ensures PushAll(p, a + b) == PushAll(PushAll(p, a), b)
    decreases |a|
  {
    hide Push;
    if a == [] {
      assert a + b == b;
    } else {
      assert (a + b)[1..] == a[1..] + b;
      PushAllAppend(Push(p, a[0]), a[1..], b);
    }
  }

  /** Whatever a word held, four bytes push it out. */
  lemma PushFour(p: Word, bs: seq<bv8>)
    requires |bs| == 4
    ensures PushAll(p, bs) == BeWord(bs)
  {
    assert PushAll(p, bs) == Push(Push(Push(Push(p, bs[0]), bs[1]), bs[2]), bs[3]) by {
      hide Push;
      var p1, p2, p3 := Push(p, bs[0]), Push(Push(p, bs[0]), bs[1]), Push(Push(Push(p, bs[0]), bs[1]), bs[2]);
      assert bs[1..][1..] == bs[2..] && bs[2..][1..] == bs[3..] && bs[3..][1..] == [];
      assert PushAll(p, bs) == PushAll(p1, bs[1..]);
      assert PushAll(p1, bs[1..]) == PushAll(p2, bs[2..]);
      assert PushAll(p2, bs[2..]) == PushAll(p3, bs[3..]);
      assert PushAll(p3, bs[3..]) == Push(p3, bs[3]);
    }
    PushFourBits(p.bits, bs[0] as bv32, bs[1] as bv32, bs[2] as bv32, bs[3] as bv32);
  }

  lemma PushFourBits(p: bv32, a: bv32, b: bv32, c: bv32, d: bv32)
    ensures ((((((((p << 8) | a) << 8) | b) << 8) | c) << 8) | d) == (a << 24) | (b << 16) | (c << 8) | d
  {
  }

  lemma SwapLittle(bs: seq<bv8>)
    requires |bs| == 4
    ensures Swap(LeWord(bs)) == BeWord(bs)
  {
  }

  lemma LittleOfBig(w: Word)
    ensures LeWord(BeBytes(w)) == Swap(w)
  {
  }
}
