/**
 Bit streams of xptMiner/jhlib.cpp: bits are collected in a small buffer and flushed four bytes at a
 time; a reader keeps one byte ahead.
 */
module BitStreams {
  import opened BitTable

  const FLUSH_BITS: nat := 32

  /** Bit n of a byte string, with zeros behind its end. */
  predicate SourceBit(source: seq<bv8>, n: nat) {
    n < 8 * |source| && Bit(source, n)
  }

  /** The bits of the flushed bytes and of the first pending places of the buffer are those written. */
  ghost predicate Collected(sink: seq<bv8>, buffer: seq<bv8>, pending: nat, bits: seq<bool>) {
    && |buffer| == 8 && pending < FLUSH_BITS && |sink| % 4 == 0
    && 8 * |sink| + pending == |bits|
    && (forall k: nat :: k < 8 * |sink| ==> Bit(sink, k) == bits[k])
    && (forall j: nat :: j < pending ==> Bit(buffer, j) == bits[8 * |sink| + j])
  }

  lemma CollectOne(sink: seq<bv8>, buffer: seq<bv8>, pending: nat, bits: seq<bool>, buffer': seq<bv8>, v: bool)
    requires Collected(sink, buffer, pending, bits) && IsBitPut(buffer', buffer, pending, v)
    ensures pending + 1 < FLUSH_BITS ==> Collected(sink, buffer', pending + 1, bits + [v])
    ensures pending + 1 == FLUSH_BITS ==> Collected(sink + buffer'[..4], buffer', 0, bits + [v])
  {
    var more := bits + [v];
    forall j: nat | j < pending + 1
      ensures Bit(buffer', j) == more[8 * |sink| + j]
    {
    }
    if pending + 1 == FLUSH_BITS {
      var flushed := sink + buffer'[..4];
      forall k: nat | k < 8 * |flushed|
        ensures Bit(flushed, k) == more[k]
      {
        if k < 8 * |sink| {
          assert flushed[k / 8] == sink[k / 8];
        } else {
          var j := k - 8 * |sink|;
          assert flushed[k / 8] == buffer'[j / 8] && k % 8 == j % 8;
          assert Bit(buffer', j) == more[8 * |sink| + j];
        }
      }
    }
  }

  /** After n bits the reader has fetched some bytes, holds the last of them, and has some bits of it left. */
  ghost predicate Fetched(source: seq<bv8>, position: nat, buffer: seq<bv8>, left: nat, index: nat, n: nat) {
    && |buffer| == 8 && left <= 8 && (n + left) % 8 == 0
    && var fetched := (n + left) / 8;
    && position == (if fetched < |source| then fetched else |source|)
    && (left > 0 ==> fetched > 0 && index == 8 - left)
    && (left > 0 ==> buffer[0] == if fetched <= |source| then source[fetched - 1] else 0)
  }

  lemma FetchedBit(source: seq<bv8>, position: nat, buffer: seq<bv8>, left: nat, index: nat, n: nat)
    requires Fetched(source, position, buffer, left, index, n) && left > 0
    ensures index < 8 && Bit(buffer, index) == SourceBit(source, n)
    ensures Fetched(source, position, buffer, left - 1, index + 1, n + 1)
  {
    var fetched := (n + left) / 8;
    assert n == 8 * (fetched - 1) + index;
    assert n / 8 == fetched - 1 && n % 8 == index;
  }

  lemma FetchNext(source: seq<bv8>, position: nat, buffer: seq<bv8>, index: nat, n: nat, buffer': seq<bv8>)
    requires Fetched(source, position, buffer, 0, index, n) && |buffer'| == 8
    requires buffer'[0] == if position < |source| then source[position] else 0
    ensures Fetched(source, if position < |source| then position + 1 else position, buffer', 8, 0, n)
  {
    assert (n + 8) / 8 == n / 8 + 1;
  }

  /** A stream_t: its bit buffers, the bytes written through it, and the bytes it reads. */
  class BitStream {
    const bitBuffer: array<bv8>
    var bitIndex: nat
    const bitReadBuffer: array<bv8>
    var bitReadBufferState: nat
    var bitReadIndex: nat
    var sink: seq<bv8>
    const source: seq<bv8>
    var position: nat

    constructor (bytes: seq<bv8>)
      ensures fresh(bitBuffer) && fresh(bitReadBuffer) && source == bytes
      ensures Written([]) && HasRead(0)
    {
      bitBuffer := new bv8[8](_ => 0);
      bitReadBuffer := new bv8[8](_ => 0);
      bitIndex, bitReadBufferState, bitReadIndex := 0, 0, 0;
      sink, source, position := [], bytes, 0;
    }

    /** As a writer: these bits have been written. */
    ghost predicate Written(bits: seq<bool>)
      reads this, bitBuffer
    {
      bitBuffer.Length == 8 && Collected(sink, bitBuffer[..], bitIndex, bits)
    }

    /** As a reader: so many bits have been read. */
    ghost predicate HasRead(n: nat)
      reads this, bitReadBuffer
    {
      bitReadBuffer.Length == 8 && Fetched(source, position, bitReadBuffer[..], bitReadBufferState, bitReadIndex, n)
    }

    /** stream_writeBits, given that writeData stores all it is handed. */
    method WriteBits(bitData: seq<bv8>, bitCount: nat, ghost bits: seq<bool>)
      requires bitCount <= 8 * |bitData| && Written(bits)
      modifies this, bitBuffer
      ensures Written(bits + BitsOf(bitData)[..bitCount])
    {
      hide Collected, IsBitPut, Bit;
      var i := 0;
      assert bits + BitsOf(bitData)[..0] == bits;
      while i < bitCount
        invariant i <= bitCount && Written(bits + BitsOf(bitData)[..i])
      {
        ghost var so := bits + BitsOf(bitData)[..i];
        ghost var before := bitBuffer[..];
        assert bitIndex < FLUSH_BITS by { CollectedRange(sink, before, bitIndex, so); }
        var v := Bit(bitData, i);
        PutBit(bitBuffer, bitIndex, v);
        CollectOne(sink, before, bitIndex, so, bitBuffer[..], v);
        bitIndex := bitIndex + 1;
        if bitIndex == FLUSH_BITS {
          sink := sink + bitBuffer[..4];
          bitIndex := 0;
        }
        assert so + [v] == bits + BitsOf(bitData)[..i + 1];
        i := i + 1;
      }
    }

    /**
     stream_readBits: the next bits of the source, zeros behind its end, go to the front of bitData.
     It also counts up the write index, so a stream that reads is no writer any more.
     */
    method ReadBits(bitData: array<bv8>, bitCount: nat, ghost n: nat)
      requires bitCount <= 8 * bitData.Length && HasRead(n) && bitData != bitReadBuffer && bitData != bitBuffer
      modifies this, bitData, bitReadBuffer
      ensures HasRead(n + bitCount) && sink == old(sink)
      ensures forall k: nat :: k < bitCount ==> Bit(bitData[..], k) == SourceBit(source, n + k)
      ensures forall k: nat :: bitCount <= k < 8 * bitData.Length ==> Bit(bitData[..], k) == Bit(old(bitData[..]), k)
    {
      hide Fetched, Bit, SourceBit;
      ghost var was := bitData[..];
      var i := 0;
      while i < bitCount
        invariant i <= bitCount && HasRead(n + i) && sink == old(sink)
        invariant Delivered(bitData[..], was, source, n, i)
        decreases bitCount - i, if bitReadBufferState == 0 then 1 else 0
      {
        ghost var start, left := i, bitReadBufferState;
        while bitReadBufferState > 0 && i < bitCount
          invariant i <= bitCount && HasRead(n + i) && sink == old(sink)
          invariant Delivered(bitData[..], was, source, n, i)
          invariant i > start || (i == start && bitReadBufferState == left)
          decreases bitCount - i
        {
          FetchedBit(source, position, bitReadBuffer[..], bitReadBufferState, bitReadIndex, n + i);
          var v := Bit(bitReadBuffer[..], bitReadIndex);
          bitReadIndex := bitReadIndex + 1;
          bitReadBufferState := bitReadBufferState - 1;
          bitIndex := (bitIndex + 1) % 256;
          ghost var before := bitData[..];
          PutBit(bitData, i, v);
          DeliverOne(bitData[..], before, was, source, n, i, v);
          i := i + 1;
        }
        if bitReadBufferState == 0 {
          ghost var before := bitReadBuffer[..];
          bitReadBuffer[0] := 0;
          if position < |source| {
            bitReadBuffer[0] := source[position];
          }
          FetchNext(source, position, before, bitReadIndex, n + i, bitReadBuffer[..]);
          if position < |source| {
            position := position + 1;
          }
          bitReadBufferState := bitReadBufferState + 8;
          bitReadIndex := 0;
        }
      }
      DeliveredAll(bitData[..], was, source, n, bitCount);
    }
  }

  lemma CollectedRange(sink: seq<bv8>, buffer: seq<bv8>, pending: nat, bits: seq<bool>)
    requires Collected(sink, buffer, pending, bits)
    ensures pending < FLUSH_BITS
  {
  }

  /** The first i bits of the destination come from the source, the others are untouched. */
  ghost predicate Delivered(data: seq<bv8>, was: seq<bv8>, source: seq<bv8>, n: nat, i: nat) {
    && |data| == |was| && i <= 8 * |data|
    && forall k: nat :: k < 8 * |data| ==> Bit(data, k) == if k < i then SourceBit(source, n + k) else Bit(was, k)
  }

  lemma DeliverOne(data: seq<bv8>, before: seq<bv8>, was: seq<bv8>, source: seq<bv8>, n: nat, i: nat, v: bool)
    requires Delivered(before, was, source, n, i) && i < 8 * |before| && IsBitPut(data, before, i, v)
        && v == SourceBit(source, n + i)
    ensures Delivered(data, was, source, n, i + 1)
  {
    hide Bit, SourceBit;
  }

  lemma DeliveredAll(data: seq<bv8>, was: seq<bv8>, source: seq<bv8>, n: nat, i: nat)
    requires Delivered(data, was, source, n, i)
    ensures |data| == |was| && i <= 8 * |data|
    ensures forall k: nat :: k < i ==> Bit(data, k) == SourceBit(source, n + k)
    ensures forall k: nat :: i <= k < 8 * |data| ==> Bit(data, k) == Bit(was, k)
  {
  }

  // ----- the round trip -----

  /** What chunks of data, each with a number of bits, add up to. */
  function AllBits(chunks: seq<(seq<bv8>, nat)>): seq<bool>
    requires forall c :: c in chunks ==> c.1 <= 8 * |c.0|
  {
    if chunks == [] then []
    else AllBits(chunks[..|chunks| - 1]) + BitsOf(chunks[|chunks| - 1].0)[..chunks[|chunks| - 1].1]
  }

  /**
   Whatever the chunks on either side, a reader of the flushed bytes gets the bits that were written,
   up to the last whole multiple of 32, and zeros after that.
   */
  method RoundTrip(chunks: seq<(seq<bv8>, nat)>, counts: seq<nat>) returns (read: seq<bool>)
    requires forall c :: c in chunks ==> c.1 <= 8 * |c.0|
    ensures var bits := AllBits(chunks);
            forall k :: 0 <= k < |read| ==> read[k] == (k < |bits| / 32 * 32 && bits[k])
    ensures |read| == Total(counts)
  {
    hide Collected, Fetched, Bit;
    var writer := new BitStream([]);
    var i := 0;
    while i < |chunks|
      invariant i <= |chunks| && fresh(writer.bitBuffer) && fresh(writer) && writer.Written(AllBits(chunks[..i]))
    {
      assert chunks[..i + 1][..i] == chunks[..i] && chunks[i] in chunks;
      writer.WriteBits(chunks[i].0, chunks[i].1, AllBits(chunks[..i]));
      i := i + 1;
    }
    assert chunks[..i] == chunks;
    ghost var bits := AllBits(chunks);
    Flushed(writer.sink, writer.bitBuffer[..], writer.bitIndex, bits);
    var reader := new BitStream(writer.sink);
    read := [];
    i := 0;
    assert counts[..0] == [];
    while i < |counts|
      invariant i <= |counts| && fresh(reader) && fresh(reader.bitReadBuffer) && reader.source == writer.sink
      invariant reader.HasRead(|read|) && |read| == Total(counts[..i])
      invariant forall k :: 0 <= k < |read| ==> read[k] == SourceBit(writer.sink, k)
    {
      assert counts[..i + 1][..i] == counts[..i];
      var bitData := new bv8[counts[i] / 8 + 1];
      reader.ReadBits(bitData, counts[i], |read|);
      read := read + BitsOf(bitData[..])[..counts[i]];
      i := i + 1;
    }
    assert counts[..i] == counts;
  }

  function Total(counts: seq<nat>): nat {
    if counts == [] then 0 else Total(counts[..|counts| - 1]) + counts[|counts| - 1]
  }

  lemma Flushed(sink: seq<bv8>, buffer: seq<bv8>, pending: nat, bits: seq<bool>)
    requires Collected(sink, buffer, pending, bits)
    ensures 8 * |sink| == |bits| / 32 * 32
    ensures forall k: nat :: SourceBit(sink, k) == (k < |bits| / 32 * 32 && bits[k])
  {
  }
}
