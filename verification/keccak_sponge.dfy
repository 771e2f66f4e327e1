/**
 The sponge construction of sections 4 and 5.1 of FIPS 202 over Keccak-f[1600], byte by byte, with
 the original Keccak padding: pad10*1 directly behind the message and no domain suffix.
 */
module KeccakSponge {
  import opened BitTable
  import opened Lanes
  import opened KeccakSpec

  // ----- bytes, lanes and bits (sections 3.1.2 and B.1) -----

  /** sph_dec64le_aligned: the lane of eight bytes, the least significant byte first. */
  function LaneOf(b: seq<bv8>): Lane
    requires |b| == 8
  {
    Lane((b[0] as bv64) | ((b[1] as bv64) << 8) | ((b[2] as bv64) << 16) | ((b[3] as bv64) << 24)
       | ((b[4] as bv64) << 32) | ((b[5] as bv64) << 40) | ((b[6] as bv64) << 48) | ((b[7] as bv64) << 56))
  }

  /** sph_enc64le_aligned: the eight bytes of a lane. */
  function BytesOf(l: Lane): (b: seq<bv8>)
    ensures |b| == 8
  {
    [(l.bits & 0xFF) as bv8, ((l.bits >> 8) & 0xFF) as bv8,
     ((l.bits >> 16) & 0xFF) as bv8, ((l.bits >> 24) & 0xFF) as bv8,
     ((l.bits >> 32) & 0xFF) as bv8, ((l.bits >> 40) & 0xFF) as bv8,
     ((l.bits >> 48) & 0xFF) as bv8, ((l.bits >> 56) & 0xFF) as bv8]
  }

  /** The place 5*y + x of lane (x, y) in the byte string of a state; equally, the lane kept at a place. */
  function Word(q: nat): (i: nat)
    requires q < 25
    ensures i < 25
  {
    5 * (q % 5) + q / 5
  }

  // ----- padding (section 5.1) -----

  function ZeroBits(n: nat): seq<bool> {
    seq(n, _ => false)
  }

  /** pad10*1(x, m) of section 5.1. */
  function Pad101(x: nat, m: nat): seq<bool>
    requires x > 0
  {
    [true] + ZeroBits((x - (m + 2) % x) % x) + [true]
  }

  /** The n extra bits that the close functions take from the top of ub. */
  function ExtraBits(ub: bv8, n: nat): seq<bool>
    requires n < 8
  {
    seq(n, i requires 0 <= i < n => BitOf(ub, 8 - n + i))
  }

  /** The byte string whose bits are the message, n extra bits and the padding for a rate in bytes. */
  ghost predicate IsPadded(padded: seq<bv8>, message: seq<bv8>, ub: bv8, n: nat, rate: nat)
    requires n < 8 && rate > 0
  {
    && |padded| % rate == 0
    && BitsOf(padded) == BitsOf(message) + ExtraBits(ub, n) + Pad101(8 * rate, 8 * |message| + n)
  }

  // ----- the sponge (section 4) -----

  /** A lane combined with the i-th eight bytes of a block, if the block reaches that far. */
  function CombineLane(l: Lane, block: seq<bv8>, i: nat): Lane {
    if 8 * i + 8 <= |block| then Xor(l, LaneOf(block[8 * i..8 * i + 8])) else l
  }

  /** The state with one block of bytes combined into its first lanes. */
  function Combine(A: State, block: seq<bv8>): State {
    seq(25, q requires 0 <= q < 25 => CombineLane(A[q], block, Word(q)))
  }

  function Empty(): State {
    seq(25, _ => ZERO)
  }

  /** The state after absorbing a sequence of blocks. */
  function Absorb(blocks: seq<seq<bv8>>): State {
    if blocks == [] then Empty()
    else KeccakF(Combine(Absorb(blocks[..|blocks| - 1]), blocks[|blocks| - 1]))
  }

  /** A byte string cut into blocks; bytes behind the last whole block are dropped. */
  function Split(m: seq<bv8>, rate: nat): seq<seq<bv8>>
    requires rate > 0
  {
    if |m| < rate then [] else [m[..rate]] + Split(m[rate..], rate)
  }

  /** The bytes behind the last whole block. */
  function Rest(m: seq<bv8>, rate: nat): (r: seq<bv8>)
    requires rate > 0
    ensures |r| < rate
  {
    if |m| < rate then m else Rest(m[rate..], rate)
  }

  /** The i-th lane of the byte string of a state. */
  function OutputLane(A: State, i: nat): Lane
    requires i < 25
  {
    A[Word(i)]
  }

  function OutputBytes(A: State, lanes: nat): (s: seq<bv8>)
    requires lanes <= 25
    ensures |s| == 8 * lanes
  {
    if lanes == 0 then [] else OutputBytes(A, lanes - 1) + BytesOf(OutputLane(A, lanes - 1))
  }

  /** The first d bytes of the state; every digest here fits into one block. */
  function Squeeze(A: State, d: nat): seq<bv8>
    requires d <= 200
  {
    OutputBytes(A, 25)[..d]
  }
}
