/**
 The hash computation of sections 5.1, 6.2.2 and 6.4.2 of FIPS 180-4, for any word type and any
 functions and constants on it; SHA-256 and SHA-512 are two instances.
 */
module Sha2Suite {
  import opened ByteStrings
  import opened NumberTheory

  /** The word operations and constants of one hash: f1 to f4 are the macros SHA*_F1 to SHA*_F4. */
  datatype Suite<!W> = Suite(
    wordBytes: nat,
    add: (W, W) -> W,
    ch: (W, W, W) -> W,
    maj: (W, W, W) -> W,
    f1: W -> W,
    f2: W -> W,
    f3: W -> W,
    f4: W -> W,
    pack: seq<bv8> -> W,
    unpack: W -> seq<bv8>,
    h0: seq<W>,
    k: seq<W>)

  ghost predicate IsSuite<W(!new)>(s: Suite<W>) {
    && s.wordBytes >= 4 && |s.h0| == 8 && |s.k| >= 16 && |s.k| % 8 == 0
    && forall w :: |s.unpack(w)| == s.wordBytes
  }

  function BlockBytes<W>(s: Suite<W>): nat {
    16 * s.wordBytes
  }

  // ----- the message schedule -----

  /** W_t for t from 16 on, from the words before it. */
  function Extension<W>(s: Suite<W>, w: seq<W>): W
    requires |w| >= 16
  {
    var t := |w|;
    s.add(s.add(s.add(s.f4(w[t - 2]), w[t - 7]), s.f3(w[t - 15])), w[t - 16])
  }

  function BlockWords<W>(s: Suite<W>, block: seq<bv8>, n: nat): (r: seq<W>)
    ensures |r| == n
  {
    seq(n, i requires 0 <= i < n => WordAt(s, block, i))
  }

  function WordAt<W>(s: Suite<W>, block: seq<bv8>, i: nat): W {
    var at := i * s.wordBytes;
    if at + s.wordBytes <= |block| then s.pack(block[at..at + s.wordBytes]) else s.pack([])
  }

  /** The first n words of the schedule. */
  function Schedule<W>(s: Suite<W>, block: seq<bv8>, n: nat): (r: seq<W>)
    requires |block| == BlockBytes(s) && n >= 16
    ensures |r| == n
  {
    if n == 16 then BlockWords(s, block, 16)
    else
      var w := Schedule(s, block, n - 1);
      w + [Extension(s, w)]
  }

  // ----- the rounds -----

  /** One round on the eight working variables a to h. */
  function Next<W>(s: Suite<W>, v: seq<W>, k: W, w: W): (r: seq<W>)
    requires |v| == 8
    ensures |r| == 8
  {
    var t1 := s.add(s.add(s.add(s.add(v[7], s.f2(v[4])), s.ch(v[4], v[5], v[6])), k), w);
    var t2 := s.add(s.f1(v[0]), s.maj(v[0], v[1], v[2]));
    [s.add(t1, t2), v[0], v[1], v[2], s.add(v[3], t1), v[4], v[5], v[6]]
  }

  function Rounds<W>(s: Suite<W>, v: seq<W>, w: seq<W>, n: nat): (r: seq<W>)
    requires |v| == 8 && n <= |s.k| && n <= |w|
    ensures |r| == 8
  {
    if n == 0 then v else Next(s, Rounds(s, v, w, n - 1), s.k[n - 1], w[n - 1])
  }

  function AddAll<W>(s: Suite<W>, h: seq<W>, v: seq<W>): (r: seq<W>)
    requires |h| == 8 && |v| == 8
    ensures |r| == 8
  {
    [s.add(h[0], v[0]), s.add(h[1], v[1]), s.add(h[2], v[2]), s.add(h[3], v[3]),
     s.add(h[4], v[4]), s.add(h[5], v[5]), s.add(h[6], v[6]), s.add(h[7], v[7])]
  }

  /** One block. */
  function Compress<W>(s: Suite<W>, h: seq<W>, block: seq<bv8>): (r: seq<W>)
    requires |h| == 8 && |block| == BlockBytes(s) && |s.k| >= 16
    ensures |r| == 8
  {
    AddAll(s, h, Rounds(s, h, Schedule(s, block, |s.k|), |s.k|))
  }

  /** The blocks of a byte string in turn; an incomplete last one is left out. */
  function Blocks<W>(s: Suite<W>, h: seq<W>, bytes: seq<bv8>): (r: seq<W>)
    requires |h| == 8 && |s.k| >= 16 && s.wordBytes > 0
    ensures |r| == 8
    decreases |bytes|
  {
    if |bytes| < BlockBytes(s) then h
    else Blocks(s, Compress(s, h, bytes[..BlockBytes(s)]), bytes[BlockBytes(s)..])
  }

  /** A length that is a number of whole blocks. */
  predicate Whole(len: nat, n: nat) {
    n > 0 && len % n == 0
  }

  lemma WholeSum(a: nat, b: nat, n: nat)
    requires Whole(a, n) && Whole(b, n)
    ensures Whole(a + b, n)
  {
    var p, q := a / n, b / n;
    assert a == p * n && b == q * n && a + b == (p + q) * n;
    DivisionIsUnique(a + b, p + q, 0, n);
  }

  lemma WholeBlock(n: nat)
    requires n > 0
    ensures Whole(0, n) && Whole(n, n)
  {
    DivisionIsUnique(n, 1, 0, n);
  }

  lemma WholeRest(len: nat, n: nat)
    requires Whole(len, n) && len > 0
    ensures len >= n && Whole(len - n, n)
  {
    if len >= n {
      var q := len / n;
      assert len == q * n && len - n == (q - 1) * n;
      DivisionIsUnique(len - n, q - 1, 0, n);
    }
  }

  /** Whole blocks can be taken first. */
  lemma {:induction false} BlocksAppend<W>(s: Suite<W>, h: seq<W>, a: seq<bv8>, b: seq<bv8>)
    requires |h| == 8 && |s.k| >= 16 && s.wordBytes > 0 && Whole(|a|, BlockBytes(s))
    ensures Blocks(s, h, a + b) == Blocks(s, Blocks(s, h, a), b)
    decreases |a|
  {
    hide Whole, Compress;
    var n := BlockBytes(s);
    if |a| == 0 {
      assert a + b == b;
    } else {
      WholeRest(|a|, n);
      assert (a + b)[..n] == a[..n] && (a + b)[n..] == a[n..] + b;
      BlocksAppend(s, Compress(s, h, a[..n]), a[n..], b);
    }
  }

  // ----- padding -----

  /** Section 5.1: a one bit, zeros up to a whole block, and the count of bits in a double word. */
  function Padded<W>(s: Suite<W>, message: seq<bv8>): seq<bv8>
    requires s.wordBytes > 0
  {
    message + [0x80] + Zeros(Gap(s, |message|)) + Counter(8 * |message|, 2 * s.wordBytes)
  }

  /** The number of zero bytes between the one bit and the count. */
  function Gap<W>(s: Suite<W>, len: nat): nat
    requires s.wordBytes > 0
  {
    (2 * BlockBytes(s) - 1 - 2 * s.wordBytes - len % BlockBytes(s)) % BlockBytes(s)
  }

  function Hash<W>(s: Suite<W>, message: seq<bv8>): (r: seq<W>)
    requires |s.h0| == 8 && |s.k| >= 16 && s.wordBytes > 0
    ensures |r| == 8
  {
    Blocks(s, s.h0, Padded(s, message))
  }
}
