/**
 SHA-256 and SHA-512 as the two instances of the suite in xptMiner/sha2.cpp, with their constants.
 */
module Sha2Hashes {
  import opened MachineWords
  import opened NumberTheory
  import opened ByteStrings
  import opened Words
  import opened Lanes
  import opened Sha2Suite
  import opened Sha2Contexts

  // ----- constants -----

  const K512_A: seq<uint64> := [
    0x428a2f98d728ae22, 0x7137449123ef65cd, 0xb5c0fbcfec4d3b2f, 0xe9b5dba58189dbbc,
    0x3956c25bf348b538, 0x59f111f1b605d019, 0x923f82a4af194f9b, 0xab1c5ed5da6d8118,
    0xd807aa98a3030242, 0x12835b0145706fbe, 0x243185be4ee4b28c, 0x550c7dc3d5ffb4e2,
    0x72be5d74f27b896f, 0x80deb1fe3b1696b1, 0x9bdc06a725c71235, 0xc19bf174cf692694
  ]

  const K512_B: seq<uint64> := [
    0xe49b69c19ef14ad2, 0xefbe4786384f25e3, 0x0fc19dc68b8cd5b5, 0x240ca1cc77ac9c65,
    0x2de92c6f592b0275, 0x4a7484aa6ea6e483, 0x5cb0a9dcbd41fbd4, 0x76f988da831153b5,
    0x983e5152ee66dfab, 0xa831c66d2db43210, 0xb00327c898fb213f, 0xbf597fc7beef0ee4,
    0xc6e00bf33da88fc2, 0xd5a79147930aa725, 0x06ca6351e003826f, 0x142929670a0e6e70
  ]

  const K512_C: seq<uint64> := [
    0x27b70a8546d22ffc, 0x2e1b21385c26c926, 0x4d2c6dfc5ac42aed, 0x53380d139d95b3df,
    0x650a73548baf63de, 0x766a0abb3c77b2a8, 0x81c2c92e47edaee6, 0x92722c851482353b,
    0xa2bfe8a14cf10364, 0xa81a664bbc423001, 0xc24b8b70d0f89791, 0xc76c51a30654be30,
    0xd192e819d6ef5218, 0xd69906245565a910, 0xf40e35855771202a, 0x106aa07032bbd1b8
  ]

  const K512_D: seq<uint64> := [
    0x19a4c116b8d2d0c8, 0x1e376c085141ab53, 0x2748774cdf8eeb99, 0x34b0bcb5e19b48a8,
    0x391c0cb3c5c95a63, 0x4ed8aa4ae3418acb, 0x5b9cca4f7763e373, 0x682e6ff3d6b2b8a3,
    0x748f82ee5defb2fc, 0x78a5636f43172f60, 0x84c87814a1f0ab72, 0x8cc702081a6439ec,
    0x90befffa23631e28, 0xa4506cebde82bde9, 0xbef9a3f7b2c67915, 0xc67178f2e372532b
  ]

  const K512_E: seq<uint64> := [
    0xca273eceea26619c, 0xd186b8c721c0c207, 0xeada7dd6cde0eb1e, 0xf57d4f7fee6ed178,
    0x06f067aa72176fba, 0x0a637dc5a2c898a6, 0x113f9804bef90dae, 0x1b710b35131c471b,
    0x28db77f523047d84, 0x32caab7b40c72493, 0x3c9ebe0a15c9bebc, 0x431d67c49c100d4c,
    0x4cc5d4becb3e42b6, 0x597f299cfc657e2a, 0x5fcb6fab3ad6faec, 0x6c44198c4a475817
  ]

  const K512: seq<uint64> := K512_A + K512_B + K512_C + K512_D + K512_E

  const H512: seq<uint64> := [
    0x6a09e667f3bcc908, 0xbb67ae8584caa73b, 0x3c6ef372fe94f82b, 0xa54ff53a5f1d36f1,
    0x510e527fade682d1, 0x9b05688c2b3e6c1f, 0x1f83d9abfb41bd6b, 0x5be0cd19137e2179
  ]

  const K256_A: seq<uint32> := [
    0x428a2f98, 0x71374491, 0xb5c0fbcf, 0xe9b5dba5, 0x3956c25b, 0x59f111f1, 0x923f82a4, 0xab1c5ed5,
    0xd807aa98, 0x12835b01, 0x243185be, 0x550c7dc3, 0x72be5d74, 0x80deb1fe, 0x9bdc06a7, 0xc19bf174
  ]

  const K256_B: seq<uint32> := [
    0xe49b69c1, 0xefbe4786, 0x0fc19dc6, 0x240ca1cc, 0x2de92c6f, 0x4a7484aa, 0x5cb0a9dc, 0x76f988da,
    0x983e5152, 0xa831c66d, 0xb00327c8, 0xbf597fc7, 0xc6e00bf3, 0xd5a79147, 0x06ca6351, 0x14292967
  ]

  const K256_C: seq<uint32> := [
    0x27b70a85, 0x2e1b2138, 0x4d2c6dfc, 0x53380d13, 0x650a7354, 0x766a0abb, 0x81c2c92e, 0x92722c85,
    0xa2bfe8a1, 0xa81a664b, 0xc24b8b70, 0xc76c51a3, 0xd192e819, 0xd6990624, 0xf40e3585, 0x106aa070
  ]

  const K256_D: seq<uint32> := [
    0x19a4c116, 0x1e376c08, 0x2748774c, 0x34b0bcb5, 0x391c0cb3, 0x4ed8aa4a, 0x5b9cca4f, 0x682e6ff3,
    0x748f82ee, 0x78a5636f, 0x84c87814, 0x8cc70208, 0x90befffa, 0xa4506ceb, 0xbef9a3f7, 0xc67178f2
  ]

  const K256: seq<uint32> := K256_A + K256_B + K256_C + K256_D

  const H256: seq<uint32> := [
    0x6a09e667, 0xbb67ae85, 0x3c6ef372, 0xa54ff53a, 0x510e527f, 0x9b05688c, 0x1f83d9ab, 0x5be0cd19
  ]

  // ----- 32-bit words (section 4.1 of FIPS 180-4) -----

  function Add256(a: Word, b: Word): Word {
    Word(a.bits + b.bits)
  }

  function Ch256(x: Word, y: Word, z: Word): Word {
    Word((x.bits & y.bits) ^ (!x.bits & z.bits))
  }

  function Maj256(x: Word, y: Word, z: Word): Word {
    Word((x.bits & y.bits) ^ (x.bits & z.bits) ^ (y.bits & z.bits))
  }

  function Rotr256(x: Word, n: bv8): bv32
    requires n < 32
  {
    (x.bits >> n) | (x.bits << (32 - n))
  }

  function F1At256(x: Word): Word {
    Word(Rotr256(x, 2) ^ Rotr256(x, 13) ^ Rotr256(x, 22))
  }

  function F2At256(x: Word): Word {
    Word(Rotr256(x, 6) ^ Rotr256(x, 11) ^ Rotr256(x, 25))
  }

  function F3At256(x: Word): Word {
    Word(Rotr256(x, 7) ^ Rotr256(x, 18) ^ (x.bits >> 3))
  }

  function F4At256(x: Word): Word {
    Word(Rotr256(x, 17) ^ Rotr256(x, 19) ^ (x.bits >> 10))
  }

  function Pack256(bs: seq<bv8>): Word {
    if |bs| == 4 then BeWord(bs) else Word(0)
  }

  // ----- 64-bit words (section 4.1 of FIPS 180-4) -----

  function Add512(a: Lane, b: Lane): Lane {
    Lane(a.bits + b.bits)
  }

  function Ch512(x: Lane, y: Lane, z: Lane): Lane {
    Lane((x.bits & y.bits) ^ (!x.bits & z.bits))
  }

  function Maj512(x: Lane, y: Lane, z: Lane): Lane {
    Lane((x.bits & y.bits) ^ (x.bits & z.bits) ^ (y.bits & z.bits))
  }

  function Rotr512(x: Lane, n: bv8): bv64
    requires n < 64
  {
    (x.bits >> n) | (x.bits << (64 - n))
  }

  function F1At512(x: Lane): Lane {
    Lane(Rotr512(x, 28) ^ Rotr512(x, 34) ^ Rotr512(x, 39))
  }

  function F2At512(x: Lane): Lane {
    Lane(Rotr512(x, 14) ^ Rotr512(x, 18) ^ Rotr512(x, 41))
  }

  function F3At512(x: Lane): Lane {
    Lane(Rotr512(x, 1) ^ Rotr512(x, 8) ^ (x.bits >> 7))
  }

  function F4At512(x: Lane): Lane {
    Lane(Rotr512(x, 19) ^ Rotr512(x, 61) ^ (x.bits >> 6))
  }

  function Pack512(bs: seq<bv8>): Lane {
    if |bs| != 8 then Lane(0)
    else
      Lane(((bs[0] as bv64) << 56) | ((bs[1] as bv64) << 48) | ((bs[2] as bv64) << 40) | ((bs[3] as bv64) << 32)
         | ((bs[4] as bv64) << 24) | ((bs[5] as bv64) << 16) | ((bs[6] as bv64) << 8) | (bs[7] as bv64))
  }

  function Unpack512(l: Lane): (bs: seq<bv8>)
    ensures |bs| == 8
  {
    [((l.bits >> 56) & 0xFF) as bv8, ((l.bits >> 48) & 0xFF) as bv8,
     ((l.bits >> 40) & 0xFF) as bv8, ((l.bits >> 32) & 0xFF) as bv8,
     ((l.bits >> 24) & 0xFF) as bv8, ((l.bits >> 16) & 0xFF) as bv8,
     ((l.bits >> 8) & 0xFF) as bv8, (l.bits & 0xFF) as bv8]
  }

  function Bits32(value: uint32): bv32 {
    value as bv32
  }

  function Bits64(value: uint64): bv64 {
    value as bv64
  }

  function WordOf(value: uint32): Word {
    Word(Bits32(value))
  }

  function LaneOf(value: uint64): Lane {
    Lane(Bits64(value))
  }

  function WordsOf(values: seq<uint32>): (r: seq<Word>)
    ensures |r| == |values|
  {
    seq(|values|, i requires 0 <= i < |values| => WordOf(values[i]))
  }

  function LanesOf(values: seq<uint64>): (r: seq<Lane>)
    ensures |r| == |values|
  {
    seq(|values|, i requires 0 <= i < |values| => LaneOf(values[i]))
  }

  // ----- the two suites -----

  function Sha256(): Suite<Word> {
    Suite(4, Add256, Ch256, Maj256, F1At256, F2At256, F3At256, F4At256, Pack256, BeBytes, WordsOf(H256), WordsOf(K256))
  }

  function Sha512(): Suite<Lane> {
    Suite(8, Add512, Ch512, Maj512, F1At512, F2At512, F3At512, F4At512, Pack512, Unpack512, LanesOf(H512),
      LanesOf(K512))
  }

  lemma BothAreSuites()
    ensures IsSuite(Sha256()) && IsSuite(Sha512())
  {
  }

  /** The function sha256: for messages below 2^29 bytes, the digest of FIPS 180-4. */
  method HashSha256(message: seq<bv8>) returns (digest: seq<bv8>)
    requires |message| < 0x2000_0000
    ensures digest == DigestBytes(Sha256(), Hash(Sha256(), message))
  {
    hide Blocks, CodePadded, Padded, DigestBytes;
    BothAreSuites();
    var ctx := new Sha2Context(Sha256());
    ctx.Update(message);
    assert [] + message == message;
    digest := ctx.Final();
    BoundsOfCounts();
    PaddingIsStandard(Sha256(), message);
  }

  /** The function sha512: for messages below 2^29 bytes, the digest of FIPS 180-4. */
  method HashSha512(message: seq<bv8>) returns (digest: seq<bv8>)
    requires |message| < 0x2000_0000
    ensures digest == DigestBytes(Sha512(), Hash(Sha512(), message))
  {
    hide Blocks, CodePadded, Padded, DigestBytes;
    BothAreSuites();
    var ctx := new Sha2Context(Sha512());
    ctx.Update(message);
    assert [] + message == message;
    digest := ctx.Final();
    BoundsOfCounts();
    PaddingIsStandard(Sha512(), message);
  }

  lemma BoundsOfCounts()
    ensures Bound(8) == 0x1_0000_0000_0000_0000
    ensures Bound(16) == 0x1_0000_0000_0000_0000 * 0x1_0000_0000_0000_0000
  {
    assert Bound(4) == 0x1_0000_0000;
    assert Bound(12) == 0x1_0000_0000 * Bound(8);
  }

  // ----- where the constants come from (sections 4.2 and 5.3 of FIPS 180-4) -----

  const TWO64: nat := 0x1_0000_0000_0000_0000

  const PRIMES_A: seq<nat> := [2, 3, 5, 7, 11, 13, 17, 19, 23, 29, 31, 37, 41, 43, 47, 53]
  const PRIMES_B: seq<nat> := [59, 61, 67, 71, 73, 79, 83, 89, 97, 101, 103, 107, 109, 113, 127, 131]
  const PRIMES_C: seq<nat> := [137, 139, 149, 151, 157, 163, 167, 173, 179, 181, 191, 193, 197, 199, 211, 223]
  const PRIMES_D: seq<nat> := [227, 229, 233, 239, 241, 251, 257, 263, 269, 271, 277, 281, 283, 293, 307, 311]
  const PRIMES_E: seq<nat> := [313, 317, 331, 337, 347, 349, 353, 359, 367, 373, 379, 383, 389, 397, 401, 409]
  const FIRST_PRIMES: seq<nat> := PRIMES_A + PRIMES_B + PRIMES_C + PRIMES_D + PRIMES_E

  /** k is the first 64 bits of the fractional part of the cube root of p. */
  predicate CubeRootBits(p: nat, k: nat) {
    var whole := if p < 8 then 1 else if p < 27 then 2 else if p < 64 then 3 else if p < 125 then 4
      else if p < 216 then 5 else if p < 343 then 6 else 7;
    var x := whole * TWO64 + k;
    k < TWO64 && x * x * x <= p * TWO64 * TWO64 * TWO64 < (x + 1) * (x + 1) * (x + 1)
  }

  /** h is the first 64 bits of the fractional part of the square root of p. */
  predicate SquareRootBits(p: nat, h: nat) {
    var whole := if p < 4 then 1 else if p < 9 then 2 else if p < 16 then 3 else 4;
    var x := whole * TWO64 + h;
    h < TWO64 && x * x <= p * TWO64 * TWO64 < (x + 1) * (x + 1)
  }

  lemma AllSixteen(ps: seq<nat>, ks: seq<uint64>)
    requires |ps| == |ks| == 16
    requires CubeRootBits(ps[0], ks[0]) && CubeRootBits(ps[1], ks[1])
    requires CubeRootBits(ps[2], ks[2]) && CubeRootBits(ps[3], ks[3])
    requires CubeRootBits(ps[4], ks[4]) && CubeRootBits(ps[5], ks[5])
    requires CubeRootBits(ps[6], ks[6]) && CubeRootBits(ps[7], ks[7])
    requires CubeRootBits(ps[8], ks[8]) && CubeRootBits(ps[9], ks[9])
    requires CubeRootBits(ps[10], ks[10]) && CubeRootBits(ps[11], ks[11])
    requires CubeRootBits(ps[12], ks[12]) && CubeRootBits(ps[13], ks[13])
    requires CubeRootBits(ps[14], ks[14]) && CubeRootBits(ps[15], ks[15])
    ensures forall i :: 0 <= i < 16 ==> CubeRootBits(ps[i], ks[i])
  {
    hide CubeRootBits;
  }

  lemma CubeRootsA()
    ensures forall i :: 0 <= i < 16 ==> CubeRootBits(PRIMES_A[i], K512_A[i])
  {
    AllSixteen(PRIMES_A, K512_A);
  }

  lemma CubeRootsB()
    ensures forall i :: 0 <= i < 16 ==> CubeRootBits(PRIMES_B[i], K512_B[i])
  {
    AllSixteen(PRIMES_B, K512_B);
  }

  lemma CubeRootsC()
    ensures forall i :: 0 <= i < 16 ==> CubeRootBits(PRIMES_C[i], K512_C[i])
  {
    AllSixteen(PRIMES_C, K512_C);
  }

  lemma CubeRootsD()
    ensures forall i :: 0 <= i < 16 ==> CubeRootBits(PRIMES_D[i], K512_D[i])
  {
    AllSixteen(PRIMES_D, K512_D);
  }

  lemma CubeRootsE()
    ensures forall i :: 0 <= i < 16 ==> CubeRootBits(PRIMES_E[i], K512_E[i])
  {
    AllSixteen(PRIMES_E, K512_E);
  }

  lemma Chunks()
    ensures K512 == K512_A + K512_B + K512_C + K512_D + K512_E
    ensures |K512_A| == 16 && |K512_B| == 16 && |K512_C| == 16 && |K512_D| == 16 && |K512_E| == 16
  {
  }

  lemma PrimeChunks()
    ensures FIRST_PRIMES == PRIMES_A + PRIMES_B + PRIMES_C + PRIMES_D + PRIMES_E
    ensures |PRIMES_A| == 16 && |PRIMES_B| == 16 && |PRIMES_C| == 16 && |PRIMES_D| == 16 && |PRIMES_E| == 16
  {
  }

  /** The round constants are cube roots of the listed numbers. */
  lemma ConstantsAreCubeRoots()
    ensures |K512| == 80 && |FIRST_PRIMES| == 80
    ensures forall i :: 0 <= i < 80 ==> CubeRootBits(FIRST_PRIMES[i], K512[i])
  {
    hide *;
    Chunks();
    PrimeChunks();
    forall i | 0 <= i < 80
      ensures CubeRootBits(FIRST_PRIMES[i], K512[i])
    {
      if i < 16 {
        CubeRootsA();
      } else if i < 32 {
        CubeRootsB();
        assert K512[i] == K512_B[i - 16] && FIRST_PRIMES[i] == PRIMES_B[i - 16];
      } else if i < 48 {
        CubeRootsC();
        assert K512[i] == K512_C[i - 32] && FIRST_PRIMES[i] == PRIMES_C[i - 32];
      } else if i < 64 {
        CubeRootsD();
        assert K512[i] == K512_D[i - 48] && FIRST_PRIMES[i] == PRIMES_D[i - 48];
      } else {
        CubeRootsE();
        assert K512[i] == K512_E[i - 64] && FIRST_PRIMES[i] == PRIMES_E[i - 64];
      }
    }
  }

  /** The initial values are square roots of the first eight of them. */
  lemma InitialValuesAreSquareRoots()
    ensures forall i :: 0 <= i < 8 ==> SquareRootBits(PRIMES_A[i], H512[i])
  {
    assert SquareRootBits(PRIMES_A[0], H512[0]) && SquareRootBits(PRIMES_A[1], H512[1]);
    assert SquareRootBits(PRIMES_A[2], H512[2]) && SquareRootBits(PRIMES_A[3], H512[3]);
    assert SquareRootBits(PRIMES_A[4], H512[4]) && SquareRootBits(PRIMES_A[5], H512[5]);
    assert SquareRootBits(PRIMES_A[6], H512[6]) && SquareRootBits(PRIMES_A[7], H512[7]);
    forall i | 0 <= i < 8
      ensures SquareRootBits(PRIMES_A[i], H512[i])
    {
      assert i == 0 || i == 1 || i == 2 || i == 3 || i == 4 || i == 5 || i == 6 || i == 7;
    }
  }

  /** The constants of SHA-256 are the upper halves of those of SHA-512. */
  lemma ConstantsAreHalves()
    ensures forall i :: 0 <= i < 64 ==> K256[i] == K512[i] / 0x1_0000_0000
    ensures forall i :: 0 <= i < 8 ==> H256[i] == H512[i] / 0x1_0000_0000
  {
    forall i | 0 <= i < 64
      ensures K256[i] == K512[i] / 0x1_0000_0000
    {
      assert i == 0 || i == 1 || i == 2 || i == 3 || i == 4 || i == 5 || i == 6 || i == 7 || i == 8 || i == 9
        || i == 10 || i == 11 || i == 12 || i == 13 || i == 14 || i == 15 || i == 16 || i == 17 || i == 18 || i == 19
        || i == 20 || i == 21 || i == 22 || i == 23 || i == 24 || i == 25 || i == 26 || i == 27 || i == 28 || i == 29
        || i == 30 || i == 31
        || i == 32 || i == 33 || i == 34 || i == 35 || i == 36 || i == 37 || i == 38 || i == 39 || i == 40 || i == 41
          || i == 42 || i == 43 || i == 44 || i == 45 || i == 46 || i == 47 || i == 48 || i == 49 || i == 50
          || i == 51 || i == 52 || i == 53 || i == 54 || i == 55 || i == 56 || i == 57 || i == 58 || i == 59
          || i == 60 || i == 61 || i == 62 || i == 63;
    }
    forall i | 0 <= i < 8
      ensures H256[i] == H512[i] / 0x1_0000_0000
    {
      assert i == 0 || i == 1 || i == 2 || i == 3 || i == 4 || i == 5 || i == 6 || i == 7;
    }
  }
}
