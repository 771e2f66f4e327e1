/**
 scrypt_1024_1_1_256_sp of xptMiner/scrypt.cpp: key derivation, the memory-hard mix, and key derivation
 again, as in section 6 of RFC 7914 with N = 1024, r = 1, p = 1 and 32 bytes of output.
 */
module Scrypt {
  import opened NumberTheory
  import opened Words
  import opened Salsa
  import opened ScryptMix
  import opened ScryptHmac

  // ----- the specification -----

  /** The bytes of the first n words of x. */
  function Encoded(x: Wide, n: nat): (bytes: seq<bv8>)
    requires n <= 32
    ensures |bytes| == 4 * n
  {
    if n == 0 then [] else Encoded(x, n - 1) + LeBytes(x[n - 1])
  }

  /** scrypt with the given ROTL. */
  function ScryptOf(rotl: Rotl, input: seq<bv8>): seq<bv8> {
    var mixed := ROMix(rotl, LittleWords(Pbkdf2(input, input, 1, 4)));
    Pbkdf2(input, Encoded(mixed, 32), 1, 1)
  }

  /** Decoding undoes encoding. */
  lemma {:induction false} DecodeEncoded(x: Wide)
    ensures LittleWords(Encoded(x, 32)) == x
  {
    hide LeWord, LeBytes;
    forall k | 0 <= k < 32
      ensures LittleWords(Encoded(x, 32))[k] == x[k]
    {
      EncodedAt(x, 32, k);
      LeRoundTrip(x[k]);
    }
  }

  lemma {:induction false} EncodedAt(x: Wide, n: nat, k: nat)
    requires k < n <= 32
    ensures Encoded(x, n)[4 * k..4 * k + 4] == LeBytes(x[k])
  {
    hide LeBytes;
    if k < n - 1 {
      EncodedAt(x, n - 1, k);
      assert Encoded(x, n)[4 * k..4 * k + 4] == Encoded(x, n - 1)[4 * k..4 * k + 4];
    }
  }

  // ----- Integerify (section 5 of RFC 7914) -----

  /** A byte string as a little-endian number. */
  function LittleEndian(bytes: seq<bv8>): nat {
    if bytes == [] then 0 else bytes[0] as nat + 256 * LittleEndian(bytes[1..])
  }

  lemma LowOfLittleEndian(bytes: seq<bv8>)
    requires |bytes| >= 2
    ensures LittleEndian(bytes) % 1024 == bytes[0] as nat + 256 * (bytes[1] as nat % 4)
  {
    var rest := LittleEndian(bytes[2..]);
    assert bytes[1..][1..] == bytes[2..];
    assert LittleEndian(bytes) == bytes[0] as nat + 256 * (bytes[1] as nat + 256 * rest);
    LowTenBits(bytes[0] as nat, bytes[1] as nat, rest);
  }

  lemma LowTenBits(a: nat, b: nat, rest: nat)
    requires a < 256 && b < 256
    ensures (a + 256 * (b + 256 * rest)) % 1024 == a + 256 * (b % 4)
  {
    DivisionIsUnique(a + 256 * (b + 256 * rest), b / 4 + 64 * rest, a + 256 * (b % 4), 1024);
  }

  lemma SplitTen(b: bv32)
    ensures b & 1023 == (((((b >> 8) & 0xFF) as bv8 & 3) as bv32) << 8) | (((b & 0xFF) as bv8) as bv32)
  {
  }

  lemma JoinTen(lo: bv8, k: bv8)
    requires k < 4
    ensures (((k as bv32) << 8) | (lo as bv32)) as nat == lo as nat + 256 * k as nat
  {
    if k == 0 {
    } else if k == 1 {
      assert ((1 << 8) | (lo as bv32)) as nat == lo as nat + 256;
    } else if k == 2 {
      assert ((2 << 8) | (lo as bv32)) as nat == lo as nat + 512;
    } else {
      assert ((3 << 8) | (lo as bv32)) as nat == lo as nat + 768;
    }
  }

  lemma LowTwo(b: bv8)
    ensures (b & 3) as nat == b as nat % 4
  {
  }

  lemma LowBytes(w: Word, lo: bv8, hi: bv8)
    requires lo == LeBytes(w)[0] && hi == LeBytes(w)[1]
    ensures LowTen(w) == lo as nat + 256 * (hi as nat % 4)
  {
    SplitTen(w.bits);
    JoinTen(lo, hi & 3);
    LowTwo(hi);
  }

  /** The index is the last block of the bytes of X, read as a little-endian number, modulo 1024. */
  lemma IntegerifyIsStandard(x: Wide)
    ensures Integerify(x) == LittleEndian(Encoded(x, 32)[64..128]) % 1024
  {
    hide LeBytes, LowTen;
    var block := Encoded(x, 32)[64..128];
    EncodedAt(x, 32, 16);
    assert block[..4] == Encoded(x, 32)[64..68] == LeBytes(x[16]);
    assert block[0] == block[..4][0] && block[1] == block[..4][1];
    LowOfLittleEndian(block);
    LowBytes(x[16], block[0], block[1]);
  }

  /**
   scryptROMix of section 5, step by step: 1024 values V, each the mix of the one before, and 1024 steps of which
   each takes up the V that it names itself.
   */
  lemma MixStep(rotl: Rotl, b: Wide, x: Wide, i: nat)
    ensures ROMix(rotl, b) == Revisited(rotl, b, Iterated(rotl, b, 1024), 1024)
    ensures Iterated(rotl, b, 0) == b && Iterated(rotl, b, i + 1) == BlockMix(rotl, Iterated(rotl, b, i))
    ensures Revisited(rotl, b, x, 0) == x
    ensures var y := Revisited(rotl, b, x, i);
            var j := LittleEndian(Encoded(y, 32)[64..128]) % 1024;
            Revisited(rotl, b, x, i + 1) == BlockMix(rotl, XorWide(y, Iterated(rotl, b, j)))
  {
    hide BlockMix, XorWide, Integerify, Encoded;
    IntegerifyIsStandard(Revisited(rotl, b, x, i));
  }

  // ----- the code -----

  method EncodeWords(x: array<Word>) returns (bytes: seq<bv8>)
    requires x.Length == 32
    ensures bytes == Encoded(x[..], 32)
  {
    hide LeBytes;
    bytes := [];
    var k := 0;
    while k < 32
      invariant k <= 32 && bytes == Encoded(x[..], k)
    {
      bytes := bytes + LeBytes(x[k]);
      k := k + 1;
    }
  }

  /** scrypt_1024_1_1_256_sp, with whatever ROTL stands for. */
  method Scrypt1024(rotl: Rotl, input: seq<bv8>, scratchpad: array<Word>) returns (output: seq<bv8>)
    requires |input| == 80 && scratchpad.Length >= 32 * N
    modifies scratchpad
    ensures output == ScryptOf(rotl, input)
    ensures output == Pbkdf2(input, Encoded(ROMix(rotl, LittleWords(Pbkdf2(input, input, 1, 4))), 32), 1, 1)
  {
    hide Pbkdf2, Revisited, Iterated, Stored, LeWord, Encoded;
    var b := Pbkdf2O1(input, input);
    var x := new Word[32](_ => ZERO);
    forall k | 0 <= k < 32 {
      x[k] := LeWord(b[4 * k..4 * k + 4]);
    }
    ghost var x0 := x[..];
    assert x0 == LittleWords(b);
    FillScratchpad(rotl, x, scratchpad);
    Revisit(rotl, x, scratchpad, x0);
    b := EncodeWords(x);
    output := Pbkdf2O2(input, b, 1);
  }
}
