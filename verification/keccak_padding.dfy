/**
 The padding bytes that the close functions of xptMiner/keccak.c feed to the sponge, and why
 they are pad10*1 of FIPS 202.
 */
module KeccakPadding {
  import opened ByteStrings
  import opened BitTable
  import opened KeccakSpec
  import opened NumberTheory
  import opened KeccakSponge

  /** The first padding byte, (0x100 | ub) >> (8 - n): the n extra bits and the 1 that follows them. */
  function ExtraByte(ub: bv8, n: nat): bv8
    requires n < 8
  {
    (1 << n) | (ub >> (8 - n))
  }

  /** The first padding byte when it is also the last byte of its block. */
  function OnlyByte(ub: bv8, n: nat): bv8
    requires n < 8
  {
    ExtraByte(ub, n) | 0x80
  }

  /** What closes a message when room bytes are left in its last block. */
  function Tail(room: nat, rate: nat, ub: bv8, n: nat): (t: seq<bv8>)
    requires 1 <= room <= rate && n < 8
    ensures |t| == if room == 1 && n == 7 then rate + 1 else room
  {
    var eb := ExtraByte(ub, n);
    if room == 1 then
      if n == 7 then [eb] + Zeros(rate - 1) + [0x80] else [OnlyByte(ub, n)]
    else
      [eb] + Zeros(room - 2) + [0x80]
  }

  /** The padded message. */
  function Padded(m: seq<bv8>, rate: nat, ub: bv8, n: nat): seq<bv8>
    requires rate > 0 && n < 8
  {
    m + Tail(rate - |m| % rate, rate, ub, n)
  }

  lemma BitsOfSum(a: seq<bv8>, b: seq<bv8>)
    ensures BitsOf(a + b) == BitsOf(a) + BitsOf(b)
  {
  }

  lemma ExtraByteBits(ub: bv8, n: nat, i: nat)
    requires n < 8 && i < 8
    ensures BitOf(ExtraByte(ub, n), i) == if i < n then BitOf(ub, 8 - n + i) else i == n
  {
    ShiftedBit(ub, n, i);
    UnitBit(n, i);
    OrBit(1 << n, ub >> (8 - n), i);
    hide BitOf, Bit;
  }

  lemma ShiftedBit(ub: bv8, n: nat, i: nat)
    requires n < 8 && i < 8
    ensures BitOf(ub >> (8 - n), i) == (i < n && BitOf(ub, 8 - n + i))
  {
  }

  lemma UnitBit(n: nat, i: nat)
    requires n < 8 && i < 8
    ensures BitOf(1 << n, i) == (i == n)
  {
  }

  lemma OrBit(a: bv8, b: bv8, i: nat)
    requires i < 8
    ensures BitOf(a | b, i) == (BitOf(a, i) || BitOf(b, i))
  {
  }

  lemma LastByteBits(i: nat)
    requires i < 8
    ensures BitOf(0x80, i) == (i == 7) && !BitOf(0, i)
  {
  }

  lemma OnlyByteBits(ub: bv8, n: nat, i: nat)
    requires n < 8 && i < 8
    ensures BitOf(OnlyByte(ub, n), i) == (i == 7 || BitOf(ExtraByte(ub, n), i))
  {
    hide ExtraByte;
  }

  lemma BitsOfZeros(n: nat)
    ensures BitsOf(Zeros(n)) == ZeroBits(8 * n)
  {
    forall i | 0 <= i < 8 * n
      ensures !BitsOf(Zeros(n))[i]
    {
      LastByteBits(i % 8);
    }
  }

  lemma BitsOfExtraByte(ub: bv8, n: nat)
    requires n < 8
    ensures BitsOf([ExtraByte(ub, n)]) == ExtraBits(ub, n) + [true] + ZeroBits(7 - n)
  {
    forall i | 0 <= i < 8
      ensures BitsOf([ExtraByte(ub, n)])[i] == (ExtraBits(ub, n) + [true] + ZeroBits(7 - n))[i]
    {
      ExtraByteBits(ub, n, i);
      hide ExtraByte, BitOf, Bit;
    }
  }

  lemma BitsOfLastByte()
    ensures BitsOf([0x80]) == ZeroBits(7) + [true]
  {
    forall i | 0 <= i < 8
      ensures BitsOf([0x80])[i] == (ZeroBits(7) + [true])[i]
    {
      LastByteBits(i);
      hide BitOf, Bit;
    }
  }

  lemma BitsOfOnlyByte(ub: bv8, n: nat)
    requires n < 7
    ensures BitsOf([OnlyByte(ub, n)]) == ExtraBits(ub, n) + [true] + ZeroBits(6 - n) + [true]
  {
    forall i | 0 <= i < 8
      ensures BitsOf([OnlyByte(ub, n)])[i] == (ExtraBits(ub, n) + [true] + ZeroBits(6 - n) + [true])[i]
    {
      ExtraByteBits(ub, n, i);
      OnlyByteBits(ub, n, i);
      hide ExtraByte, OnlyByte, BitOf, Bit;
    }
  }

  /** The number of zeros between the two ones is the one that pad10*1 asks for. */
  lemma PadLength(rate: nat, len: nat, room: nat, n: nat, zeros: nat)
    requires rate > 0 && room == rate - len % rate && n < 8
    requires zeros == if room == 1 && n == 7 then 8 * rate - 1 else 8 * room - n - 2
    ensures Pad101(8 * rate, 8 * len + n) == [true] + ZeroBits(zeros) + [true]
  {
    var k := RoomUpTo(rate, len, room);
    PadLengthFrom(rate, len, room, n, zeros, k);
  }

  lemma RoomUpTo(rate: nat, len: nat, room: nat) returns (k: nat)
    requires rate > 0 && room == rate - len % rate
    ensures len + room == k * rate + rate
  {
    k := len / rate;
    assert len == k * rate + len % rate;
  }

  lemma PadLengthFrom(rate: nat, len: nat, room: nat, n: nat, zeros: nat, k: nat)
    requires 0 < room <= rate && len + room == k * rate + rate && n < 8
    requires zeros == if room == 1 && n == 7 then 8 * rate - 1 else 8 * room - n - 2
    ensures Pad101(8 * rate, 8 * len + n) == [true] + ZeroBits(zeros) + [true]
  {
    var j := BlocksOfBits(rate, len, room, k, room == 1 && n == 7);
    ZerosFromRemainder(8 * rate, 8 * len + n + 2, zeros, j);
  }

  lemma BlocksOfBits(rate: nat, len: nat, room: nat, k: nat, extra: bool) returns (j: nat)
    requires rate > 0 && len + room == k * rate + rate
    ensures 8 * (len + room) + (if extra then 8 * rate else 0) == 8 * rate * j
  {
    j := if extra then k + 2 else k + 1;
    assert rate * j == k * rate + rate + (if extra then rate else 0);
    assert 8 * rate * j == 8 * (rate * j);
  }

  lemma ZerosFromRemainder(x: nat, y: nat, zeros: nat, k: nat)
    requires zeros < x && y + zeros == x * k
    ensures (x - y % x) % x == zeros
  {
    if zeros == 0 {
      Remainder(y, x, k, 0);
      Remainder(x, x, 1, 0);
    } else {
      assert x * (k - 1) == x * k - x;
      Remainder(y, x, k - 1, x - zeros);
      Remainder(zeros, x, 0, zeros);
    }
  }

  lemma Remainder(y: nat, x: nat, j: int, r: nat)
    requires r < x && y == x * j + r
    ensures y % x == r
  {
    DivisionIsUnique(y, j, r, x);
  }

  /** The closing bytes are the extra bits and pad10*1, and they fill the last block. */
  lemma PaddingIsPad101(m: seq<bv8>, rate: nat, ub: bv8, n: nat)
    requires rate > 0 && n < 8
    ensures IsPadded(Padded(m, rate, ub, n), m, ub, n, rate)
  {
    hide BitOf, Bit, BitsOf, ExtraBits, Pad101, ZeroBits, Tail;
    var room := RoomOf(rate, |m|);
    var tail := Tail(room, rate, ub, n);
    BitsOfSum(m, tail);
    TailLength(|m|, rate, room, |tail|);
    PadLength(rate, |m|, room, n, PadZeros(room, rate, n));
    TailIsPad(room, rate, ub, n);
  }

  lemma RoomOf(rate: nat, len: nat) returns (room: nat)
    requires rate > 0
    ensures room == rate - len % rate && 0 < room <= rate
  {
    room := rate - len % rate;
  }

  /** The number of zero bits between the two ones of the padding. */
  function PadZeros(room: nat, rate: nat, n: nat): nat
    requires 0 < room <= rate && n < 8
  {
    if room == 1 && n == 7 then 8 * rate - 1 else 8 * room - n - 2
  }

  lemma TailIsPad(room: nat, rate: nat, ub: bv8, n: nat)
    requires 0 < room <= rate && n < 8
    ensures BitsOf(Tail(room, rate, ub, n)) == ExtraBits(ub, n) + ([true] + ZeroBits(PadZeros(room, rate, n)) + [true])
  {
    hide ExtraByte, OnlyByte, BitOf, Bit, BitsOf, ExtraBits, ZeroBits;
    if room == 1 && n < 7 {
      BitsOfOnlyByte(ub, n);
    } else {
      TailBits(ub, n, if room == 1 then rate - 1 else room - 2, PadZeros(room, rate, n));
    }
  }

  lemma TailBits(ub: bv8, n: nat, z: nat, zeros: nat)
    requires n < 8 && zeros == 14 - n + 8 * z
    ensures BitsOf([ExtraByte(ub, n)] + Zeros(z) + [0x80]) == ExtraBits(ub, n) + ([true] + ZeroBits(zeros) + [true])
  {
    hide ExtraByte, BitOf, Bit, BitsOf, ExtraBits, Zeros;
    BitsOfSum([ExtraByte(ub, n)] + Zeros(z), [0x80]);
    BitsOfSum([ExtraByte(ub, n)], Zeros(z));
    BitsOfExtraByte(ub, n);
    BitsOfZeros(z);
    BitsOfLastByte();
    assert ZeroBits(zeros) == ZeroBits(7 - n) + ZeroBits(8 * z) + ZeroBits(7);
  }

  lemma TailLength(len: nat, rate: nat, room: nat, t: nat)
    requires rate > 0 && room == rate - len % rate && (t == room || (room == 1 && t == rate + 1))
    ensures (len + t) % rate == 0
  {
    var k := len / rate;
    assert len == rate * k + len % rate;
    if t == room {
      assert len + t == rate * (k + 1) + 0;
      Remainder(len + t, rate, k + 1, 0);
    } else {
      assert len + t == rate * (k + 2) + 0;
      Remainder(len + t, rate, k + 2, 0);
    }
  }

  /** The digest of d bytes of a message and n extra bits at a rate: pad, absorb block by block, squeeze. */
  function Digest(m: seq<bv8>, rate: nat, d: nat, ub: bv8, n: nat): seq<bv8>
    requires rate > 0 && n < 8 && d <= 200
  {
    Squeeze(Absorb(Split(Padded(m, rate, ub, n), rate)), d)
  }

  /** Keccak-256 and Keccak-512 of a byte string, without extra bits. */
  function Keccak256(m: seq<bv8>): seq<bv8> {
    Digest(m, 136, 32, 0, 0)
  }

  function Keccak512(m: seq<bv8>): seq<bv8> {
    Digest(m, 72, 64, 0, 0)
  }
}
