/**
 sha256_ctx and sha512_ctx of xptMiner/sha2.cpp: init, update, final and update_final, proved against
 the hash of the whole message.
 */
module Sha2Contexts {
  import opened MachineWords
  import opened NumberTheory
  import opened ByteStrings
  import opened Sha2Suite
  import opened Sha2Rounds


  // ----- the padding the code writes -----

  /** The code's padding: only the low 32 bits of the count are ever written. */
  function CodePadded<W>(s: Suite<W>, message: seq<bv8>): seq<bv8>
    requires s.wordBytes >= 4
  {
    message + [0x80] + Zeros(Gap(s, |message|) + (2 * s.wordBytes - 4)) + Counter(8 * |message|, 4)
  }

  /** It is the padding of section 5.1 exactly for messages below 2^29 bytes. */
  lemma PaddingIsStandard<W>(s: Suite<W>, message: seq<bv8>)
    requires s.wordBytes >= 4 && 8 * |message| < Bound(2 * s.wordBytes)
    ensures CodePadded(s, message) == Padded(s, message) <==> |message| < 0x2000_0000
  {
    hide Counter, Zeros, Gap, Bound;
    var z, gap := 2 * s.wordBytes - 4, Gap(s, |message|);
    var front := message + [0x80];
    BoundOfFour();
    if 8 * |message| < WRAP {
      CounterWithZeros(8 * |message|, z, 4);
    }
    CounterLeadingZeros(8 * |message|, z, 4);
    assert Zeros(gap + z) == Zeros(gap) + Zeros(z) by { ZerosAdd(gap, z); }
    var long, short := Counter(8 * |message|, z + 4), Zeros(z) + Counter(8 * |message|, 4);
    assert CodePadded(s, message) == front + Zeros(gap) + short;
    assert Padded(s, message) == front + Zeros(gap) + long;
    if CodePadded(s, message) == Padded(s, message) {
      assert (front + Zeros(gap) + short)[|front| + gap..] == short;
      assert (front + Zeros(gap) + long)[|front| + gap..] == long;
    }
  }

  lemma BoundOfFour()
    ensures Bound(4) == WRAP
  {
  }

  lemma ZerosAdd(a: nat, b: nat)
    ensures Zeros(a + b) == Zeros(a) + Zeros(b)
  {
  }

  lemma GapIs<W>(s: Suite<W>, whole: nat, len: nat)
    requires s.wordBytes >= 4 && Whole(whole, BlockBytes(s)) && len < BlockBytes(s)
    ensures (whole + len) % BlockBytes(s) == len
    ensures var n := BlockBytes(s);
            Gap(s, whole + len) == if n - 2 * s.wordBytes - 1 < len then 2 * n - 1 - 2 * s.wordBytes - len
              else n - 1 - 2 * s.wordBytes - len
  {
    var n := BlockBytes(s);
    DivisionIsUnique(whole + len, whole / n, len, n);
    var x := 2 * n - 1 - 2 * s.wordBytes - len;
    if x < n {
      DivisionIsUnique(x, 0, x, n);
    } else {
      DivisionIsUnique(x, 1, x - n, n);
    }
  }

  /**
   What the code hashes for a message of which the last pending bytes are in the block buffer. When they
   fill the whole block there is no second one, and the count overwrites their last four bytes.
   */
  function HashedBytes<W>(s: Suite<W>, message: seq<bv8>, pending: nat): seq<bv8>
    requires s.wordBytes >= 4 && pending <= |message| && pending <= BlockBytes(s)
  {
    if pending < BlockBytes(s) then CodePadded(s, message)
    else message[..|message| - 4] + Counter(8 * |message|, 4)
  }

  /** That is the padded message exactly when the bytes leave room in the block. */
  lemma HashedIsPadded<W>(s: Suite<W>, message: seq<bv8>, pending: nat)
    requires s.wordBytes >= 4 && pending <= |message| && pending <= BlockBytes(s)
    ensures HashedBytes(s, message, pending) == CodePadded(s, message) <==> pending < BlockBytes(s)
  {
    hide Counter, Zeros, Gap;
    assert |CodePadded(s, message)| > |message|;
  }

  /** With an exact fit the last four bytes of the message do not matter. */
  lemma ExactFitIgnoresLastBytes<W>(s: Suite<W>, m1: seq<bv8>, m2: seq<bv8>)
    requires s.wordBytes >= 4 && BlockBytes(s) <= |m1| == |m2| && m1[..|m1| - 4] == m2[..|m2| - 4]
    ensures HashedBytes(s, m1, BlockBytes(s)) == HashedBytes(s, m2, BlockBytes(s))
  {
  }

  // ----- the blocks of a message -----

  /** h is what the whole blocks of done leave. */
  ghost predicate Digested<W>(s: Suite<W>, h: seq<W>, done: seq<bv8>) {
    && |s.h0| == 8 && |s.k| >= 16 && s.wordBytes >= 4
    && Whole(|done|, BlockBytes(s))
    && h == Blocks(s, s.h0, done)
  }

  lemma DigestedBlocks<W>(s: Suite<W>, h: seq<W>, done: seq<bv8>, chunk: seq<bv8>)
    requires Digested(s, h, done) && |h| == 8 && Whole(|chunk|, BlockBytes(s))
    ensures Digested(s, Blocks(s, h, chunk), done + chunk)
  {
    hide Blocks, Whole;
    BlocksAppend(s, s.h0, done, chunk);
    WholeSum(|done|, |chunk|, BlockBytes(s));
  }

  lemma DigestedNothing<W>(s: Suite<W>)
    requires |s.h0| == 8 && |s.k| >= 16 && s.wordBytes >= 4
    ensures Digested(s, s.h0, [])
  {
    WholeBlock(BlockBytes(s));
  }

  /** The last blocks: pending bytes, the one bit, zeros and the count complete the padded message. */
  lemma DigestedAll<W>(s: Suite<W>, h: seq<W>, done: seq<bv8>, pending: seq<bv8>, last: seq<bv8>)
    requires Digested(s, h, done) && |h| == 8
    requires var message := done + pending;
             last == pending + [0x80] + Zeros(Gap(s, |message|) + (2 * s.wordBytes - 4)) + Counter(8 * |message|, 4)
    ensures Blocks(s, h, last) == Blocks(s, s.h0, CodePadded(s, done + pending))
  {
    hide Blocks, Zeros, Counter, Gap, Whole;
    assert CodePadded(s, done + pending) == done + last;
    BlocksAppend(s, s.h0, done, last);
  }

  // ----- the context -----

  class Sha2Context<W(!new)> {
    const s: Suite<W>
    var totLen: nat
    var len: nat
    const block: array<bv8>
    const h: array<W>

    // the bytes of the whole blocks processed so far
    ghost var done: seq<bv8>

    ghost predicate Valid()
      reads this, block, h
    {
      && IsSuite(s) && h.Length == 8 && block.Length == 2 * BlockBytes(s) && len < BlockBytes(s)
      && totLen == |done| % WRAP && Digested(s, h[..], done)
    }

    /** The bytes the context stands for. */
    ghost function Message(): seq<bv8>
      requires Valid()
      reads this, block, h
    {
      done + block[..len]
    }

    /** sha256_init and sha512_init. */
    constructor (suite: Suite<W>)
      requires IsSuite(suite)
      ensures s == suite && fresh(block) && fresh(h) && Valid() && Message() == []
    {
      hide Blocks, Whole, Digested;
      s := suite;
      totLen, len, done := 0, 0, [];
      block := new bv8[32 * suite.wordBytes](_ => 0);
      h := new W[8](i requires 0 <= i < 8 && |suite.h0| == 8 => suite.h0[i]);
      new;
      assert h[..] == s.h0 && block[..0] == [];
      DigestedNothing(s);
    }

    /** A copy of the whole structure. */
    constructor Copy(other: Sha2Context<W>)
      requires other.Valid()
      ensures s == other.s && fresh(block) && fresh(h) && Valid() && Message() == other.Message()
    {
      hide Digested, IsSuite;
      s := other.s;
      totLen, len, done := other.totLen, other.len, other.done;
      block := new bv8[other.block.Length](i requires 0 <= i < other.block.Length reads other.block => other.block[i]);
      h := new W[8](i requires 0 <= i < 8 && other.h.Length == 8 reads other.h => other.h[i]);
      new;
      assert block[..] == other.block[..] && h[..] == other.h[..];
      assert block[..len] == block[..][..len] && other.block[..len] == other.block[..][..len];
    }

    /** sha256_update and sha512_update: whatever the chunks, the context holds their concatenation. */
    method Update(data: seq<bv8>)
      requires Valid() && len + |data| < WRAP
      modifies this, block, h
      ensures Valid() && Message() == old(Message()) + data
    {
      hide Digested, Blocks, IsSuite, Whole;
      var n := BlockBytes(s);
      ghost var pending := block[..len];
      var remLen := if |data| < n - len then |data| else n - len;
      CopyInto(block, len, data[..remLen]);
      assert block[..len + remLen] == pending + data[..remLen];
      if len + |data| < n {
        assert data[..remLen] == data;
        len := len + |data|;
        assert done + (pending + data) == done + pending + data;
        return;
      }
      WholeBlocks(data, remLen, pending);
    }

    /** The second half of update: a full block and then as many as the rest of the data holds. */
    method WholeBlocks(data: seq<bv8>, filled: nat, ghost pending: seq<bv8>)
      requires Valid() && |pending| == len && filled == BlockBytes(s) - len <= |data|
      requires block[..BlockBytes(s)] == pending + data[..filled]
      modifies this, block, h
      ensures Valid() && Message() == old(done) + pending + data
    {
      hide Digested, Blocks, Whole;
      var n := BlockBytes(s);
      var newLen := |data| - filled;
      var blockNb, remLen := Divide(newLen, n);
      var size := blockNb * n;
      var first, rest, tail := block[..n], data[filled..filled + size], data[filled + size..];
      ghost var so, h0 := done, h[..];
      WholeBlock(n);
      DigestedBlocks(s, h0, so, first);
      Transf(s, h, first, 1, true);
      ghost var h1 := h[..];
      DigestedBlocks(s, h1, so + first, rest);
      Transf(s, h, rest, blockNb, true);
      CopyInto(block, 0, tail);
      TotalWraps(|so|, size + n);
      totLen := (totLen + (blockNb + 1) * n) % WRAP;
      len := remLen;
      done := so + first + rest;
      assert block[..len] == tail;
      Regrouped(so, pending, data, filled, size);
    }

    /** The end of final: padding into the block buffer, the last one or two blocks, the digest. */
    method Final() returns (digest: seq<bv8>)
      requires Valid()
      modifies this, block, h
      ensures digest == DigestBytes(s, Blocks(s, s.h0, CodePadded(s, old(Message()))))
    {
      hide Digested, Blocks, Whole, CodePadded, DigestBytes;
      ghost var so, h0, pending := done, h[..], block[..len];
      var blockNb := Pad();
      DigestedAll(s, h0, so, pending, block[..blockNb * BlockBytes(s)]);
      Transf(s, h, block[..blockNb * BlockBytes(s)], blockNb, true);
      digest := DigestBytes(s, h[..]);
    }

    /** The bytes behind the pending ones: the one bit, zeros, and the low 32 bits of the count. */
    method Pad() returns (blockNb: nat)
      requires Valid()
      modifies block
      ensures 1 <= blockNb <= 2
      ensures block[..blockNb * BlockBytes(s)] ==
              old(block[..len]) + [0x80] + Zeros(Gap(s, |old(Message())|) + (2 * s.wordBytes - 4))
                + Counter(8 * |old(Message())|, 4)
    {
      hide Digested, Blocks, Counter, Gap, Whole, Zeros;
      ghost var total := |done| + len;
      DigestedWhole(s, h[..], done);
      GapIs(s, |done|, len);
      blockNb := LastBlocks();
      var lenB := 8 * ((totLen + len) % WRAP) % WRAP;
      CountOfMessage(|done|, len);
      WritePadding(blockNb * BlockBytes(s), lenB);
      assert blockNb * BlockBytes(s) - len - 5 == Gap(s, total) + (2 * s.wordBytes - 4);
    }

    /** block_nb: whether the one bit and the count still fit behind the pending bytes. */
    method LastBlocks() returns (blockNb: nat)
      requires len < BlockBytes(s)
      ensures blockNb == if BlockBytes(s) - 2 * s.wordBytes - 1 < len then 2 else 1
      ensures blockNb * BlockBytes(s) == if blockNb == 2 then 2 * BlockBytes(s) else BlockBytes(s)
    {
      var n := BlockBytes(s);
      Remainder(len, n);
      blockNb := if n - 2 * s.wordBytes - 1 < len % n then 2 else 1;
    }

    method WritePadding(pmLen: nat, lenB: nat)
      requires len + 5 <= pmLen <= block.Length
      modifies block
      ensures block[..pmLen] == old(block[..len]) + [0x80] + Zeros(pmLen - len - 5) + Counter(lenB, 4)
    {
      hide Counter, Zeros;
      ghost var b0 := block[..];
      CopyInto(block, len, Zeros(pmLen - len));
      ghost var b1 := block[..];
      CopyInto(block, len, [0x80]);
      ghost var b2 := block[..];
      CopyInto(block, pmLen - 4, Counter(lenB, 4));
      ZerosAndBit(b0, b1, b2, len, pmLen);
      assert block[..pmLen] == block[..pmLen - 4] + block[pmLen - 4..pmLen];
    }

    static lemma ZerosAndBit(b0: seq<bv8>, b1: seq<bv8>, b2: seq<bv8>, len: nat, pmLen: nat)
      requires len + 5 <= pmLen <= |b0| == |b1| == |b2|
      requires b1[..len] == b0[..len] && b1[len..pmLen] == Zeros(pmLen - len)
      requires b2[..len] == b1[..len] && b2[len..len + 1] == [0x80] && b2[len + 1..] == b1[len + 1..]
      ensures b2[..pmLen - 4] == b0[..len] + [0x80] + Zeros(pmLen - len - 5)
    {
      forall i | len + 1 <= i < pmLen - 4
        ensures b2[i] == 0
      {
        assert b2[i] == b2[len + 1..][i - (len + 1)] == b1[i] == b1[len..pmLen][i - len];
      }
      assert b2[len] == b2[len..len + 1][0];
      assert b2[..pmLen - 4] == b2[..len] + [b2[len]] + b2[len + 1..pmLen - 4];
    }

    /**
     sha512_update_final, for data that fits into the block: update and final in one when there is room to
     spare, and otherwise the digest of a block whose last four bytes are lost.
     */
    method UpdateFinal(data: seq<bv8>) returns (digest: seq<bv8>)
      requires Valid() && len + |data| <= BlockBytes(s)
      modifies this, block, h
      ensures digest == DigestBytes(s, Blocks(s, s.h0, HashedBytes(s, old(Message()) + data, old(len) + |data|)))
    {
      hide Digested, Blocks, Whole, CodePadded, DigestBytes;
      ghost var so, pending, h0 := done, block[..len], h[..];
      CopyInto(block, len, data);
      len := len + |data|;
      assert block[..len] == pending + data;
      assert so + (pending + data) == so + pending + data;
      if len < BlockBytes(s) {
        digest := Final();
      } else {
        assert Digested(s, h0, so);
        digest := FinalOfFullBlock(h0, so);
      }
    }

    /** On a full block nothing is cleared, the one bit lands behind the block, and the count inside it. */
    method WriteCountOnly(pmLen: nat, lenB: nat)
      requires 4 <= len == pmLen < block.Length
      modifies block
      ensures block[..len] == old(block[..len - 4]) + Counter(lenB, 4)
    {
      hide Counter;
      ghost var full := block[..len];
      CopyInto(block, len, Zeros(pmLen - len));
      CopyInto(block, len, [0x80]);
      assert block[..len] == full;
      CopyInto(block, pmLen - 4, Counter(lenB, 4));
      assert block[..len] == block[..len - 4] + block[len - 4..len];
      assert block[..len - 4] == full[..len - 4];
    }

    /** The text of final on a full block: len % BlockBytes is 0, so one block is hashed. */
    method FinalOfFullBlock(ghost h0: seq<W>, ghost so: seq<bv8>) returns (digest: seq<bv8>)
      requires IsSuite(s) && h.Length == 8 && block.Length == 2 * BlockBytes(s) && len == BlockBytes(s)
      requires h[..] == h0 && Digested(s, h0, so) && totLen == |so| % WRAP
      modifies block, h
      ensures digest == DigestBytes(s, Blocks(s, s.h0, HashedBytes(s, so + old(block[..len]), len)))
    {
      hide Digested, Blocks, Whole, CodePadded, DigestBytes, Counter;
      var n := BlockBytes(s);
      ghost var full := block[..len];
      FullBlockRemainder(n);
      var blockNb := if n - 2 * s.wordBytes - 1 < len % n then 2 else 1;
      var lenB := 8 * ((totLen + len) % WRAP) % WRAP;
      CountOfMessage(|so|, len);
      WriteCountOnly(blockNb * n, lenB);
      Transf(s, h, block[..n], blockNb, true);
      digest := DigestBytes(s, h[..]);
      FullBlockHashed(s, h0, so, full, block[..n]);
    }
  }

  lemma FullBlockRemainder(n: nat)
    requires n > 0
    ensures n % n == 0
  {
  }

  lemma FullBlockHashed<W>(s: Suite<W>, h: seq<W>, done: seq<bv8>, full: seq<bv8>, last: seq<bv8>)
    requires Digested(s, h, done) && |h| == 8 && |full| == BlockBytes(s)
    requires last == full[..|full| - 4] + Counter(8 * |done + full|, 4)
    ensures Blocks(s, h, last) == Blocks(s, s.h0, HashedBytes(s, done + full, |full|))
  {
    hide Blocks, Counter, Whole, CodePadded;
    assert HashedBytes(s, done + full, |full|) == done + last;
    BlocksAppend(s, s.h0, done, last);
  }

  function DigestBytes<W>(s: Suite<W>, h: seq<W>): seq<bv8>
    requires |h| == 8
  {
    s.unpack(h[0]) + s.unpack(h[1]) + s.unpack(h[2]) + s.unpack(h[3])
    + s.unpack(h[4]) + s.unpack(h[5]) + s.unpack(h[6]) + s.unpack(h[7])
  }

  lemma DigestedWhole<W>(s: Suite<W>, h: seq<W>, done: seq<bv8>)
    requires Digested(s, h, done)
    ensures Whole(|done|, BlockBytes(s))
  {
  }

  lemma Remainder(a: nat, n: nat)
    requires a < n
    ensures a % n == a
  {
  }

  /** The 32-bit count of bits has the low four bytes of the full count. */
  lemma CountOfMessage(done: nat, len: nat)
    ensures Counter(8 * ((done % WRAP + len) % WRAP) % WRAP, 4) == Counter(8 * (done + len), 4)
  {
    var total := done + len;
    assert (done % WRAP + len) % WRAP == total % WRAP by { TotalWraps(done, len); }
    var low := 8 * (total % WRAP) % WRAP;
    CountLow(total, low);
    var k := (8 * total - low) / WRAP;
    assert 8 * total == low + k * WRAP;
    BoundOfFour();
    CounterWraps(low, k, 4);
    hide Counter;
  }

  lemma CountLow(total: nat, low: nat)
    requires low == 8 * (total % WRAP) % WRAP
    ensures low <= 8 * total && (8 * total - low) % WRAP == 0
  {
  }

  lemma Regrouped(done: seq<bv8>, pending: seq<bv8>, data: seq<bv8>, filled: nat, size: nat)
    requires filled + size <= |data|
    ensures done + (pending + data[..filled]) + data[filled..filled + size] + data[filled + size..] ==
        done + pending + data
  {
    assert data == data[..filled] + data[filled..filled + size] + data[filled + size..];
  }

  /** Quotient and remainder by the block size. */
  method Divide(len: nat, n: nat) returns (q: nat, r: nat)
    requires n > 0
    ensures q == len / n && r == len % n && r < n
    ensures q * n + r == len && (q + 1) * n == q * n + n && Whole(q * n, n)
  {
    q, r := len / n, len % n;
    WholePart(len, n);
  }

  lemma WholePart(len: nat, n: nat)
    requires n > 0
    ensures len / n * n <= len && len / n * n + len % n == len && len / n * n % n == 0
        && (len / n + 1) * n == len / n * n + n
  {
    var q := len / n;
    assert len == q * n + len % n;
    DivisionIsUnique(q * n, q, 0, n);
  }

  lemma TotalWraps(a: nat, b: nat)
    ensures (a % WRAP + b) % WRAP == (a + b) % WRAP
  {
  }
}
