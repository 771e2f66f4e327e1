/**
 streamEx_dynamicMemoryRange of xptMiner/jhlib.cpp: a growing buffer that behaves like a file.
 */
module MemoryStream {
  import opened MachineWords
  import opened ByteStrings

  function Min(a: nat, b: nat): nat {
    if a < b then a else b
  }

  // ----- the file a stream stands for -----

  datatype File = File(contents: seq<bv8>, position: nat)

  predicate IsFile(f: File) {
    f.position <= |f.contents|
  }

  /** The bytes a read returns: as many as asked for, or all that are left. */
  function ReadOf(f: File, len: nat): seq<bv8>
    requires IsFile(f)
  {
    f.contents[f.position..f.position + Min(len, |f.contents| - f.position)]
  }

  /** Overwriting from the position on, and appending what goes beyond the end. */
  function WriteOf(f: File, data: seq<bv8>): File
    requires IsFile(f)
  {
    var end := f.position + |data|;
    File(f.contents[..f.position] + data + (if end < |f.contents| then f.contents[end..] else []), end)
  }

  function SeekOf(f: File, seek: nat): File {
    File(f.contents, Min(seek, |f.contents|))
  }

  /** A write changes the bytes it covers and no others, and what was written is read back. */
  lemma WriteThenRead(f: File, data: seq<bv8>)
    requires IsFile(f)
    ensures var g := WriteOf(f, data);
            && IsFile(g)
            && ReadOf(SeekOf(g, f.position), |data|) == data
            && |g.contents| == (if f.position + |data| < |f.contents| then |f.contents| else f.position + |data|)
            && forall k :: 0 <= k < |f.contents| && !(f.position <= k < f.position + |data|) ==>
                 g.contents[k] == f.contents[k]
  {
  }

  /** Writing in two chunks is writing the whole. */
  lemma WriteChunks(f: File, a: seq<bv8>, b: seq<bv8>)
    requires IsFile(f)
    ensures WriteOf(WriteOf(f, a), b) == WriteOf(f, a + b)
  {
    var g := WriteOf(f, a);
    assert g.contents[..g.position] == f.contents[..f.position] + a;
    var end := f.position + |a| + |b|;
    if end < |f.contents| {
      assert g.contents[end..] == f.contents[end..];
    }
  }

  /** Reading in two pieces, even past the end, is reading the whole. */
  lemma ReadChunks(f: File, a: nat, b: nat)
    requires IsFile(f)
    ensures var g := SeekOf(f, f.position + a);
            IsFile(g) && ReadOf(f, a) + ReadOf(g, b) == ReadOf(f, a + b)
  {
  }

  // ----- growth -----

  /** The enlargement the code asks for, in 32-bit arithmetic, before it is cut to the size limit. */
  function Wanted(limit: nat, missing: nat): nat {
    if limit / 4 < missing then (limit / 4 + missing) % WRAP else limit / 4
  }

  function Enlargement(limit: nat, sizeLimit: nat, missing: nat): nat
    requires limit <= sizeLimit
  {
    Min(sizeLimit - limit, Wanted(limit, missing))
  }

  /** The sum of the ideal and the minimal enlargement overflows 32 bits. */
  predicate GrowthWraps(limit: nat, missing: nat) {
    limit / 4 + missing >= WRAP
  }

  /**
   The enlargement suffices, or reaches the size limit, exactly when its computation does not
   overflow or what is left after the overflow still reaches the limit.
   */
  lemma GrowthSuffices(limit: nat, sizeLimit: nat, missing: nat)
    requires limit <= sizeLimit < WRAP && 0 < missing < WRAP
    ensures Enlargement(limit, sizeLimit, missing) >= Min(missing, sizeLimit - limit) <==>
            !(GrowthWraps(limit, missing) && sizeLimit - limit > limit / 4 + missing - WRAP)
  {
  }

  /** A full buffer of 4096 bytes is not enlarged at all for a chunk of 2^32 - 1024 bytes. */
  lemma GrowthCanFail()
    ensures Enlargement(4096, 0xFFFF_FFFF, 0xFFFF_FC00) == 0
  {
  }

  /** Otherwise the buffer grows by a quarter, or by a quarter more than what is missing. */
  lemma GrowthByQuarter(limit: nat, sizeLimit: nat, missing: nat)
    requires limit <= sizeLimit < WRAP && limit / 4 + missing < sizeLimit - limit
    ensures 4 * missing <= limit - limit % 4 ==> Enlargement(limit, sizeLimit, missing) == limit / 4
    ensures 4 * missing > limit ==> Enlargement(limit, sizeLimit, missing) == limit / 4 + missing
  {
  }

  /** By how much the end of a write would pass the capacity. */
  function Missing(limit: nat, position: nat, len: nat): nat {
    if position + len <= limit then 0 else position + len - limit
  }

  /** The capacity after a write of len bytes, when malloc succeeds or fails as given. */
  function CapacityAfter(limit: nat, sizeLimit: nat, position: nat, len: nat, mallocs: bool): (c: nat)
    requires position <= limit <= sizeLimit
    ensures limit <= c <= sizeLimit
  {
    var missing := Missing(limit, position, len);
    if missing == 0 || !mallocs then limit else limit + Enlargement(limit, sizeLimit, missing)
  }

  /** The number of bytes a write stores. */
  function StoredBytes(limit: nat, sizeLimit: nat, position: nat, len: nat, mallocs: bool): (n: nat)
    requires position <= limit <= sizeLimit
    ensures n <= len
  {
    Min(len, CapacityAfter(limit, sizeLimit, position, len, mallocs) - position)
  }

  /** Bytes that fit change no capacity, and the bytes stored before the end do not count for it. */
  lemma CapacityIsSettled(limit: nat, sizeLimit: nat, position: nat, first: nat, len: nat, mallocs: bool)
    requires position + first <= limit <= sizeLimit
    ensures len <= first ==> CapacityAfter(limit, sizeLimit, position, len, mallocs) == limit
                             && StoredBytes(limit, sizeLimit, position, len, mallocs) == len
    ensures len > first ==>
              && Missing(limit, position + first, len - first) == Missing(limit, position, len)
              && CapacityAfter(limit, sizeLimit, position + first, len - first, mallocs)
                 == CapacityAfter(limit, sizeLimit, position, len, mallocs)
              && first + StoredBytes(limit, sizeLimit, position + first, len - first, mallocs)
                 == StoredBytes(limit, sizeLimit, position, len, mallocs)
  {
    hide Enlargement;
  }

  /**
   When malloc succeeds, a write stores all bytes that the size limit allows exactly when the
   enlargement does not overflow or the remainder of the overflow still reaches the limit.
   */
  lemma StoresAllAllowed(limit: nat, sizeLimit: nat, position: nat, len: nat)
    requires position <= limit <= sizeLimit < WRAP && len < WRAP
    ensures var missing := Missing(limit, position, len);
            StoredBytes(limit, sizeLimit, position, len, true) == Min(len, sizeLimit - position) <==>
            !(GrowthWraps(limit, missing) && sizeLimit - limit > limit / 4 + missing - WRAP)
  {
    var missing := Missing(limit, position, len);
    if missing > 0 {
      GrowthSuffices(limit, sizeLimit, missing);
    }
  }

  /**
   The growth cost: the bytes re-copied so far are at most five times the capacity, or six times once
   the size limit is reached, when nothing grows any more.
   */
  predicate IsThrifty(limit: nat, sizeLimit: nat, copied: nat) {
    && (limit >= 1024 || limit == sizeLimit)
    && (copied <= 5 * limit || (limit == sizeLimit && copied <= 6 * limit))
  }

  /** An overflow that leaves a growth by less than a fifth of the capacity, short of the size limit. */
  predicate GrowsWastefully(limit: nat, sizeLimit: nat, missing: nat)
    requires limit <= sizeLimit
  {
    GrowthWraps(limit, missing) &&
    var growth := limit / 4 + missing - WRAP;
    0 < growth < sizeLimit - limit && 5 * growth < limit
  }

  /** The copied bytes after a write that has to enlarge a buffer holding size bytes. */
  function CopiedAfter(limit: nat, sizeLimit: nat, missing: nat, copied: nat, size: nat): nat
    requires limit <= sizeLimit
  {
    copied + if Enlargement(limit, sizeLimit, missing) > 0 then size else 0
  }

  /** Growth that is not wasteful pays for its copy. */
  lemma GrowthPays(limit: nat, sizeLimit: nat, missing: nat, copied: nat, size: nat)
    requires size <= limit <= sizeLimit < WRAP && 0 < missing < WRAP && !GrowsWastefully(limit, sizeLimit, missing)
    requires IsThrifty(limit, sizeLimit, copied)
    ensures IsThrifty(limit + Enlargement(limit, sizeLimit, missing), sizeLimit,
                      CopiedAfter(limit, sizeLimit, missing, copied, size))
  {
  }

  /** An enlargement keeps the cost bound, whatever the state before, exactly when it is not wasteful. */
  lemma CostIsKeptExactly(limit: nat, sizeLimit: nat, missing: nat)
    requires 1024 <= limit <= sizeLimit < WRAP && 0 < missing < WRAP
    ensures (forall copied: nat, size: nat :: size <= limit && IsThrifty(limit, sizeLimit, copied) ==>
               IsThrifty(limit + Enlargement(limit, sizeLimit, missing), sizeLimit,
                         CopiedAfter(limit, sizeLimit, missing, copied, size)))
            <==> !GrowsWastefully(limit, sizeLimit, missing)
  {
    if GrowsWastefully(limit, sizeLimit, missing) {
      var growth := limit / 4 + missing - WRAP;
      assert Enlargement(limit, sizeLimit, missing) == growth;
      assert IsThrifty(limit, sizeLimit, 5 * limit);
      assert !IsThrifty(limit + growth, sizeLimit, CopiedAfter(limit, sizeLimit, missing, 5 * limit, limit));
    } else {
      forall copied: nat, size: nat | size <= limit && IsThrifty(limit, sizeLimit, copied)
        ensures IsThrifty(limit + Enlargement(limit, sizeLimit, missing), sizeLimit,
                          CopiedAfter(limit, sizeLimit, missing, copied, size))
      {
        GrowthPays(limit, sizeLimit, missing, copied, size);
      }
    }
  }

  // ----- runs -----

  /** Everything about a writable stream that its operations depend on. */
  datatype Snapshot = Snapshot(file: File, limit: nat, copied: nat)

  datatype Op = Read(len: nat) | Write(data: seq<bv8>, mallocs: bool) | Seek(seek: nat)

  predicate IsSound(s: Snapshot, sizeLimit: nat) {
    s.file.position <= |s.file.contents| <= s.limit <= sizeLimit < WRAP
  }

  /** What one operation makes of a stream. */
  function Apply(s: Snapshot, sizeLimit: nat, op: Op): (r: Snapshot)
    requires IsSound(s, sizeLimit)
    ensures IsSound(r, sizeLimit)
  {
    match op
    case Read(len) => s.(file := SeekOf(s.file, s.file.position + len))
    case Seek(seek) => s.(file := SeekOf(s.file, seek))
    case Write(data, mallocs) =>
      var capacity := CapacityAfter(s.limit, sizeLimit, s.file.position, |data|, mallocs);
      var written := StoredBytes(s.limit, sizeLimit, s.file.position, |data|, mallocs);
      Snapshot(WriteOf(s.file, data[..written]), capacity,
               s.copied + if capacity > s.limit then |s.file.contents| else 0)
  }

  /** The stream after a run of operations: position <= size <= capacity <= limit throughout. */
  function Run(s: Snapshot, sizeLimit: nat, ops: seq<Op>): (r: Snapshot)
    requires IsSound(s, sizeLimit)
    ensures IsSound(r, sizeLimit)
  {
    if ops == [] then s else Apply(Run(s, sizeLimit, ops[..|ops| - 1]), sizeLimit, ops[|ops| - 1])
  }

  /** A write whose enlargement would be wasteful, malloc willing. */
  predicate IsWasteful(s: Snapshot, sizeLimit: nat, op: Op)
    requires IsSound(s, sizeLimit)
  {
    op.Write? && op.mallocs && GrowsWastefully(s.limit, sizeLimit, Missing(s.limit, s.file.position, |op.data|))
  }

  predicate FitsUnsigned(op: Op) {
    op.Write? ==> |op.data| < WRAP
  }

  /** No operation of the run is wasteful in the state that it meets. */
  predicate NeverWasteful(s: Snapshot, sizeLimit: nat, ops: seq<Op>)
    requires IsSound(s, sizeLimit)
  {
    forall i :: 0 <= i < |ops| ==> FitsUnsigned(ops[i]) && !IsWasteful(Run(s, sizeLimit, ops[..i]), sizeLimit, ops[i])
  }

  /** One operation that is not wasteful keeps the cost bound. */
  lemma ApplyIsThrifty(s: Snapshot, sizeLimit: nat, op: Op)
    requires IsSound(s, sizeLimit) && IsThrifty(s.limit, sizeLimit, s.copied)
    requires FitsUnsigned(op) && !IsWasteful(s, sizeLimit, op)
    ensures var r := Apply(s, sizeLimit, op); IsThrifty(r.limit, sizeLimit, r.copied)
  {
    hide IsThrifty, GrowsWastefully, WriteOf, Enlargement;
    if op.Write? {
      var missing := Missing(s.limit, s.file.position, |op.data|);
      if missing > 0 && op.mallocs {
        GrowthPays(s.limit, sizeLimit, missing, s.copied, |s.file.contents|);
      }
    }
  }

  /**
   Over every run without a wasteful growth, all growth together has re-copied at most six times the
   capacity.
   */
  lemma {:induction false} RunsAreThrifty(s: Snapshot, sizeLimit: nat, ops: seq<Op>)
    requires IsSound(s, sizeLimit) && IsThrifty(s.limit, sizeLimit, s.copied) && NeverWasteful(s, sizeLimit, ops)
    ensures var r := Run(s, sizeLimit, ops); IsThrifty(r.limit, sizeLimit, r.copied) && r.copied <= 6 * r.limit
  {
    hide Apply, IsWasteful;
    if ops != [] {
      var n := |ops| - 1;
      var front := ops[..n];
      assert NeverWasteful(s, sizeLimit, front) by {
        forall i | 0 <= i < n
          ensures FitsUnsigned(front[i]) && !IsWasteful(Run(s, sizeLimit, front[..i]), sizeLimit, front[i])
        {
          assert front[..i] == ops[..i];
        }
      }
      RunsAreThrifty(s, sizeLimit, front);
      ApplyIsThrifty(Run(s, sizeLimit, front), sizeLimit, ops[n]);
    }
  }

  // No chunk of up to three quarters of the 32-bit range makes an enlargement overflow.
  const SAFE_CHUNK: nat := 0xC000_0000

  lemma SafeChunkNeverWraps(limit: nat, position: nat, len: nat)
    requires position <= limit < WRAP && len <= SAFE_CHUNK
    ensures !GrowthWraps(limit, Missing(limit, position, len))
  {
  }

  /** So runs of writes of at most 3 GiB each are thrifty, whatever else they do. */
  lemma SafeRunsAreThrifty(s: Snapshot, sizeLimit: nat, ops: seq<Op>)
    requires IsSound(s, sizeLimit) && IsThrifty(s.limit, sizeLimit, s.copied)
    requires forall op :: op in ops && op.Write? ==> |op.data| <= SAFE_CHUNK
    ensures var r := Run(s, sizeLimit, ops); r.copied <= 6 * r.limit
  {
    hide IsThrifty, Run, GrowthWraps;
    forall i | 0 <= i < |ops|
      ensures FitsUnsigned(ops[i]) && !IsWasteful(Run(s, sizeLimit, ops[..i]), sizeLimit, ops[i])
    {
      var r := Run(s, sizeLimit, ops[..i]);
      if ops[i].Write? {
        SafeChunkNeverWraps(r.limit, r.file.position, |ops[i].data|);
      }
    }
    RunsAreThrifty(s, sizeLimit, ops);
  }

  // ----- a run that breaks the cost bound -----

  /** To a full buffer, the write whose enlargement overflows to a single byte. */
  function OneByteGrowth(limit: nat): Op
    requires 1024 <= limit < WRAP
  {
    Write(Zeros(WRAP - limit / 4 + 1), true)
  }

  predicate IsFull(s: Snapshot, limit: nat) {
    s.file.position == |s.file.contents| == s.limit == limit
  }

  /** It grows the buffer by one byte, stores one byte, and copies all the others. */
  lemma OneByteGrowthCopiesAll(s: Snapshot, limit: nat)
    requires 1024 <= limit < 0xFFFF_FFFF && IsFull(s, limit)
    ensures FitsUnsigned(OneByteGrowth(limit)) && IsSound(s, 0xFFFF_FFFF)
    ensures var r := Apply(s, 0xFFFF_FFFF, OneByteGrowth(limit)); IsFull(r, limit + 1) && r.copied == s.copied + limit
  {
    var op := OneByteGrowth(limit);
    assert Missing(limit, limit, |op.data|) == |op.data|;
    assert Enlargement(limit, 0xFFFF_FFFF, |op.data|) == 1;
  }

  /** A new stream is filled to exactly 4096 bytes and then grown byte by byte. */
  function WastefulRun(k: nat): seq<Op>
    requires k < 0x1000_0000
  {
    if k == 0 then [Write(Zeros(3840), true), Write(Zeros(256), true)]
    else WastefulRun(k - 1) + [OneByteGrowth(4096 + (k - 1))]
  }

  const NEW_STREAM: Snapshot := Snapshot(File([], 0), 1024, 0)

  lemma {:induction false} WastefulRunCopies(k: nat)
    requires k < 0x1000_0000
    ensures forall op :: op in WastefulRun(k) ==> FitsUnsigned(op)
    ensures var r := Run(NEW_STREAM, 0xFFFF_FFFF, WastefulRun(k));
            IsFull(r, 4096 + k) && 2 * r.copied == k * (8191 + k)
  {
    hide Apply, Run, IsFull, OneByteGrowth, Zeros;
    if k == 0 {
      FirstWritesFill();
    } else {
      WastefulRunCopies(k - 1);
      var front := WastefulRun(k - 1);
      OneByteGrowthCopiesAll(Run(NEW_STREAM, 0xFFFF_FFFF, front), 4096 + (k - 1));
      RunOneMore(NEW_STREAM, 0xFFFF_FFFF, front, OneByteGrowth(4096 + (k - 1)));
      NextTriangle(k);
    }
  }

  lemma RunOneMore(s: Snapshot, sizeLimit: nat, ops: seq<Op>, op: Op)
    requires IsSound(s, sizeLimit)
    ensures Run(s, sizeLimit, ops + [op]) == Apply(Run(s, sizeLimit, ops), sizeLimit, op)
  {
    hide Apply;
    assert (ops + [op])[..|ops|] == ops;
  }

  lemma NextTriangle(k: nat)
    requires k > 0
    ensures (k - 1) * (8191 + (k - 1)) + 2 * (4096 + (k - 1)) == k * (8191 + k)
  {
  }

  lemma FirstWritesFill()
    ensures var r := Run(NEW_STREAM, 0xFFFF_FFFF, [Write(Zeros(3840), true), Write(Zeros(256), true)]);
            IsFull(r, 4096) && r.copied == 0
  {
    var w1, w2 := Write(Zeros(3840), true), Write(Zeros(256), true);
    var s1 := Apply(NEW_STREAM, 0xFFFF_FFFF, w1);
    assert [w1, w2][..1] == [w1] && [w1][..0] == [];
    assert Run(NEW_STREAM, 0xFFFF_FFFF, [w1]) == s1;
    assert s1.limit == 4096 && s1.file.position == |s1.file.contents| == 3840 && s1.copied == 0;
  }

  /**
   Overflows break the cost bound: on a stream whose memory limit is 0xFFFFFFFF, nine writes re-copy
   28693 bytes at a capacity of 4103.
   */
  lemma GrowthCanBeWasteful()
    ensures var r := Run(NEW_STREAM, 0xFFFF_FFFF, WastefulRun(7));
            r.limit == 4103 && r.copied == 28693 && r.copied > 6 * r.limit
  {
    WastefulRunCopies(7);
  }

  /** A chunk of at most 3 GiB is stored as far as the limit allows, when malloc succeeds. */
  lemma SafeWriteIsComplete(s: Snapshot, sizeLimit: nat, data: seq<bv8>)
    requires IsSound(s, sizeLimit) && |data| <= SAFE_CHUNK
    ensures var n := Min(|data|, sizeLimit - s.file.position);
            Apply(s, sizeLimit, Write(data, true)).file == WriteOf(s.file, data[..n])
  {
    hide WriteOf, GrowthWraps;
    SafeChunkNeverWraps(s.limit, s.file.position, |data|);
    StoresAllAllowed(s.limit, sizeLimit, s.file.position, |data|);
  }

  // ----- the stream -----

  class DynamicMemoryRange {
    var sizeLimit: nat
    var buffer: array<bv8>
    var bufferPosition: nat
    var bufferSize: nat
    var bufferLimit: nat
    var disallowWrite: bool
    // the number of bytes copied from old buffers to new ones so far
    ghost var copied: nat

    ghost predicate Valid()
      reads this, buffer
    {
      && bufferPosition <= bufferSize <= buffer.Length && sizeLimit < WRAP
      && (!disallowWrite ==> bufferSize <= bufferLimit == buffer.Length && bufferLimit <= sizeLimit)
    }

    ghost function AsFile(): (f: File)
      requires Valid()
      reads this, buffer
      ensures IsFile(f)
    {
      File(buffer[..bufferSize], bufferPosition)
    }

    ghost function Snap(): (s: Snapshot)
      requires Valid() && !disallowWrite
      reads this, buffer
      ensures IsSound(s, sizeLimit)
    {
      Snapshot(AsFile(), bufferLimit, copied)
    }

    ghost predicate Thrifty()
      reads this`bufferLimit, this`sizeLimit, this`copied
    {
      IsThrifty(bufferLimit, sizeLimit, copied)
    }

    /** streamEx_fromDynamicMemoryRange. */
    constructor (memoryLimit: nat)
      requires memoryLimit < WRAP
      ensures fresh(buffer) && Valid() && Thrifty() && sizeLimit == memoryLimit && !disallowWrite
      ensures bufferLimit == Min(memoryLimit, 1024) && copied == 0
      ensures AsFile() == File([], 0)
    {
      sizeLimit := memoryLimit;
      var limit := if memoryLimit < 1024 then memoryLimit else 1024;
      bufferLimit := limit;
      bufferSize, bufferPosition, disallowWrite, copied := 0, 0, false, 0;
      buffer := new bv8[limit](_ => 0);
    }

    /** streamEx_fromMemoryRange: a read-only view of memory that belongs to someone else. */
    constructor FromMemory(mem: array<bv8>)
      ensures buffer == mem && Valid() && Thrifty() && disallowWrite
      ensures AsFile() == File(mem[..], 0)
    {
      sizeLimit, bufferLimit, bufferPosition, copied := 0, 0, 0, 0;
      buffer := mem;
      bufferSize := mem.Length;
      disallowWrite := true;
    }

    /** streamEx_dynamicMemoryRange_readData. */
    method ReadData(len: nat) returns (data: seq<bv8>)
      requires Valid()
      modifies this`bufferPosition
      ensures Valid()
      ensures data == ReadOf(old(AsFile()), len)
      ensures AsFile() == SeekOf(old(AsFile()), old(bufferPosition) + len)
      ensures bufferPosition == if old(bufferPosition) + len < bufferSize then old(bufferPosition) + len else bufferSize
      ensures !disallowWrite ==> Snap() == Apply(old(Snap()), sizeLimit, Read(len))
    {
      var bytesToRead := Min(len, bufferSize - bufferPosition);
      data := buffer[bufferPosition..bufferPosition + bytesToRead];
      assert buffer[..bufferSize][bufferPosition..bufferPosition + bytesToRead] == data;
      bufferPosition := bufferPosition + bytesToRead;
    }

    /** streamEx_dynamicMemoryRange_setSeek: whatever its relative flag says, the seek is absolute. */
    method SetSeek(seek: nat, relative: bool)
      requires Valid() && seek < WRAP
      modifies this`bufferPosition
      ensures Valid() && AsFile() == SeekOf(old(AsFile()), seek)
      ensures bufferPosition == if seek < bufferSize then seek else bufferSize
      ensures !disallowWrite ==> Snap() == Apply(old(Snap()), sizeLimit, Seek(seek))
    {
      bufferPosition := seek;
      if bufferPosition > bufferSize {
        bufferPosition := bufferSize;
      }
    }

    /**
     streamEx_dynamicMemoryRange_setSize: the file is cut, but the position is not moved back, so the
     stream stays usable exactly when the position is not behind the new end.
     */
    method SetSize(size: nat)
      requires Valid()
      modifies this`bufferSize
      ensures Valid() <==> disallowWrite || bufferPosition <= size
      ensures disallowWrite ==> bufferSize == old(bufferSize)
      ensures Valid() && !disallowWrite ==>
                AsFile() == File(old(AsFile().contents)[..Min(size, old(bufferSize))], old(bufferPosition))
    {
      if disallowWrite {
        return;
      }
      if size < bufferSize {
        bufferSize := size;
      }
    }

    /**
     streamEx_dynamicMemoryRange_writeData. mallocs says whether malloc succeeds if it is called. The
     bytes that fit are stored at the position, and all others stay as they were.
     */
    method WriteData(data: seq<bv8>, mallocs: bool) returns (written: nat)
      requires Valid() && |data| < WRAP
      modifies this, buffer
      ensures Valid() && sizeLimit == old(sizeLimit) && disallowWrite == old(disallowWrite)
      ensures buffer == old(buffer) || fresh(buffer)
      ensures disallowWrite ==> written == 0 && AsFile() == old(AsFile())
      ensures !disallowWrite ==>
        bufferLimit == old(CapacityAfter(bufferLimit, sizeLimit, bufferPosition, |data|, mallocs))
      ensures !disallowWrite ==> written == old(StoredBytes(bufferLimit, sizeLimit, bufferPosition, |data|, mallocs))
      ensures !disallowWrite ==> AsFile() == WriteOf(old(AsFile()), data[..written])
      ensures !disallowWrite ==> Snap() == Apply(old(Snap()), sizeLimit, Write(data, mallocs))
      ensures old(!disallowWrite && Thrifty()
                  && !GrowsWastefully(bufferLimit, sizeLimit, Missing(bufferLimit, bufferPosition, |data|)))
              ==> Thrifty()
    {
      hide WriteOf, Enlargement, GrowsWastefully, IsThrifty, CapacityAfter, StoredBytes;
      if disallowWrite {
        return 0;
      }
      CapacityIsSettled(bufferLimit, sizeLimit, bufferPosition, bufferSize - bufferPosition, |data|, mallocs);
      ghost var f := AsFile();
      var first := 0;
      var overwriteSize := bufferSize - bufferPosition;
      if overwriteSize > 0 {
        first := Min(overwriteSize, |data|);
        CopyIn(data[..first]);
      }
      ghost var g := WriteOf(f, data[..first]);
      assert AsFile() == g by { EmptyWrite(f); }
      var nLen := |data| - first;
      if nLen == 0 {
        assert data[..first] == data;
        return |data|;
      }
      var second := Append(data[first..], mallocs);
      WriteChunks(f, data[..first], data[first..][..second]);
      assert data[..first] + data[first..][..second] == data[..first + second];
      return first + second;
    }

    /** The second half of a write: what lies behind the end, in a buffer enlarged if need be. */
    method Append(rest: seq<bv8>, mallocs: bool) returns (written: nat)
      requires Valid() && !disallowWrite && bufferPosition == bufferSize && 0 < |rest| < WRAP
      modifies this`bufferPosition, this`bufferSize, this`buffer, this`bufferLimit, this`copied, buffer
      ensures Valid() && (buffer == old(buffer) || fresh(buffer))
      ensures bufferLimit == old(CapacityAfter(bufferLimit, sizeLimit, bufferPosition, |rest|, mallocs))
      ensures written == old(StoredBytes(bufferLimit, sizeLimit, bufferPosition, |rest|, mallocs))
      ensures AsFile() == WriteOf(old(AsFile()), rest[..written])
      ensures copied == old(copied) + if bufferLimit > old(bufferLimit) then old(bufferSize) else 0
      ensures old(Thrifty() && !GrowsWastefully(bufferLimit, sizeLimit, Missing(bufferLimit, bufferPosition, |rest|)))
              ==> Thrifty()
    {
      hide WriteOf, Enlargement, GrowsWastefully, IsThrifty;
      ghost var g := AsFile();
      var bufferBytesLeft := bufferLimit - bufferPosition;
      if bufferBytesLeft < |rest| {
        Grow(|rest| - bufferBytesLeft, mallocs);
      }
      bufferBytesLeft := bufferLimit - bufferPosition;
      written := Min(bufferBytesLeft, |rest|);
      if written > 0 {
        CopyIn(rest[..written]);
      } else {
        EmptyWrite(g);
      }
    }

    /** A copy to the position that stays inside the buffer; the size follows when it passes the end. */
    method CopyIn(bytes: seq<bv8>)
      requires Valid() && !disallowWrite && bufferPosition + |bytes| <= bufferLimit
      requires bufferPosition + |bytes| <= bufferSize || bufferPosition == bufferSize
      modifies this`bufferPosition, this`bufferSize, buffer
      ensures Valid() && AsFile() == WriteOf(old(AsFile()), bytes)
      ensures bufferPosition == old(bufferPosition) + |bytes|
      ensures bufferSize == if bufferPosition < old(bufferSize) then old(bufferSize) else bufferPosition
    {
      hide WriteOf;
      ghost var was, p, size := buffer[..], bufferPosition, bufferSize;
      assert AsFile() == File(was[..size], p);
      var end := bufferPosition + |bytes|;
      CopyInto(buffer, bufferPosition, bytes);
      ghost var now := buffer[..];
      if bufferPosition == bufferSize {
        bufferSize := bufferSize + |bytes|;
      }
      bufferPosition := end;
      Overwritten(was, now, p, bytes, size, bufferSize);
      assert buffer[..bufferSize] == now[..bufferSize];
    }

    /** The enlargement of the buffer by at least the missing bytes, as far as the size limit allows. */
    method Grow(minimalEnlargeSize: nat, mallocs: bool)
      requires Valid() && !disallowWrite && 0 < minimalEnlargeSize < WRAP
      modifies this`buffer, this`bufferLimit, this`copied
      ensures Valid() && AsFile() == old(AsFile()) && (buffer == old(buffer) || fresh(buffer))
      ensures copied == old(copied) + if bufferLimit > old(bufferLimit) then bufferSize else 0
      ensures bufferLimit == old(bufferLimit)
          + if mallocs then Enlargement(old(bufferLimit), sizeLimit, minimalEnlargeSize) else 0
      ensures old(Thrifty()) && !GrowsWastefully(old(bufferLimit), sizeLimit, minimalEnlargeSize) ==> Thrifty()
    {
      hide IsThrifty, GrowsWastefully;
      var idealEnlargeSize := bufferLimit / 4;
      var enlargeSize := idealEnlargeSize;
      if idealEnlargeSize < minimalEnlargeSize {
        enlargeSize := (idealEnlargeSize + minimalEnlargeSize) % WRAP;
      }
      enlargeSize := Min(sizeLimit - bufferLimit, enlargeSize);
      assert enlargeSize == Enlargement(bufferLimit, sizeLimit, minimalEnlargeSize);
      hide Enlargement;
      if enlargeSize > 0 && mallocs {
        var newLimit := bufferLimit + enlargeSize;
        var newBuffer := new bv8[newLimit](_ => 0);
        forall i | 0 <= i < bufferSize {
          newBuffer[i] := buffer[i];
        }
        assert newBuffer[..bufferSize] == buffer[..bufferSize];
        if Thrifty() && !GrowsWastefully(bufferLimit, sizeLimit, minimalEnlargeSize) {
          GrowthPays(bufferLimit, sizeLimit, minimalEnlargeSize, copied, bufferSize);
        }
        copied := copied + bufferSize;
        buffer := newBuffer;
        bufferLimit := newLimit;
      }
    }
  }

  lemma Overwritten(was: seq<bv8>, now: seq<bv8>, p: nat, bytes: seq<bv8>, size: nat, newSize: nat)
    requires p <= size <= |was| == |now| && p + |bytes| <= |now| && (p + |bytes| <= size || p == size)
    requires newSize == if p == size then p + |bytes| else size
    requires now[..p] == was[..p] && now[p..p + |bytes|] == bytes && now[p + |bytes|..] == was[p + |bytes|..]
    ensures File(now[..newSize], p + |bytes|) == WriteOf(File(was[..size], p), bytes)
  {
    var end := p + |bytes|;
    assert now == was[..p] + bytes + was[end..];
    assert was[..size][..p] == was[..p];
  }

  lemma EmptyWrite(f: File)
    requires IsFile(f)
    ensures WriteOf(f, []) == f
  {
    assert f.contents[..f.position] + [] + f.contents[f.position..] == f.contents;
  }

  /** A run of operations on a new stream: it ends in the state that the run describes. */
  method Replay(memoryLimit: nat, ops: seq<Op>) returns (stream: DynamicMemoryRange)
    requires memoryLimit < WRAP
    requires forall op :: op in ops ==> (op.Write? ==> |op.data| < WRAP) && (op.Seek? ==> op.seek < WRAP)
    ensures stream.Valid() && !stream.disallowWrite
    ensures stream.Snap() == Run(Snapshot(File([], 0), Min(memoryLimit, 1024), 0), memoryLimit, ops)
  {
    hide Apply;
    stream := new DynamicMemoryRange(memoryLimit);
    ghost var start := Snapshot(File([], 0), Min(memoryLimit, 1024), 0);
    var i := 0;
    while i < |ops|
      invariant i <= |ops| && fresh(stream) && fresh(stream.buffer)
      invariant stream.Valid() && !stream.disallowWrite && stream.sizeLimit == memoryLimit
      invariant stream.Snap() == Run(start, memoryLimit, ops[..i])
    {
      assert ops[i] in ops && ops[..i + 1][..i] == ops[..i];
      match ops[i] {
        case Read(len) => var data := stream.ReadData(len);
        case Seek(seek) => stream.SetSeek(seek, false);
        case Write(data, mallocs) => var written := stream.WriteData(data, mallocs);
      }
      i := i + 1;
    }
    assert ops[..i] == ops;
  }
}
