/**
 The published SHA-256 digest of the message "abc", the one-block example for FIPS 180-4, round by round.
 */
module Sha256Example {
  import opened MachineWords
  import opened ByteStrings
  import opened Words
  import opened Sha2Suite
  import opened Sha2Contexts
  import opened Sha2Hashes
  import opened Sha2Evaluation

  /** The round constants as words. */
  function K256At(t: nat): Word {
    if t < 16 then
      Pick(t,
           Word(0x428a2f98), Word(0x71374491), Word(0xb5c0fbcf), Word(0xe9b5dba5), Word(0x3956c25b), Word(0x59f111f1),
           Word(0x923f82a4), Word(0xab1c5ed5), Word(0xd807aa98), Word(0x12835b01), Word(0x243185be), Word(0x550c7dc3),
           Word(0x72be5d74), Word(0x80deb1fe), Word(0x9bdc06a7), Word(0xc19bf174))
    else if t < 32 then
      Pick(t - 16,
           Word(0xe49b69c1), Word(0xefbe4786), Word(0x0fc19dc6), Word(0x240ca1cc), Word(0x2de92c6f), Word(0x4a7484aa),
           Word(0x5cb0a9dc), Word(0x76f988da), Word(0x983e5152), Word(0xa831c66d), Word(0xb00327c8), Word(0xbf597fc7),
           Word(0xc6e00bf3), Word(0xd5a79147), Word(0x06ca6351), Word(0x14292967))
    else if t < 48 then
      Pick(t - 32,
           Word(0x27b70a85), Word(0x2e1b2138), Word(0x4d2c6dfc), Word(0x53380d13), Word(0x650a7354), Word(0x766a0abb),
           Word(0x81c2c92e), Word(0x92722c85), Word(0xa2bfe8a1), Word(0xa81a664b), Word(0xc24b8b70), Word(0xc76c51a3),
           Word(0xd192e819), Word(0xd6990624), Word(0xf40e3585), Word(0x106aa070))
    else
      Pick(t - 48,
           Word(0x19a4c116), Word(0x1e376c08), Word(0x2748774c), Word(0x34b0bcb5), Word(0x391c0cb3), Word(0x4ed8aa4a),
           Word(0x5b9cca4f), Word(0x682e6ff3), Word(0x748f82ee), Word(0x78a5636f), Word(0x84c87814), Word(0x8cc70208),
           Word(0x90befffa), Word(0xa4506ceb), Word(0xbef9a3f7), Word(0xc67178f2))
  }

  /** The schedule of the padded message. */
  function W256(t: nat): Word {
    if t < 16 then
      Pick(t,
           Word(0x61626380), Word(0x00000000), Word(0x00000000), Word(0x00000000), Word(0x00000000), Word(0x00000000),
           Word(0x00000000), Word(0x00000000), Word(0x00000000), Word(0x00000000), Word(0x00000000), Word(0x00000000),
           Word(0x00000000), Word(0x00000000), Word(0x00000000), Word(0x00000018))
    else if t < 32 then
      Pick(t - 16,
           Word(0x61626380), Word(0x000f0000), Word(0x7da86405), Word(0x600003c6), Word(0x3e9d7b78), Word(0x0183fc00),
           Word(0x12dcbfdb), Word(0xe2e2c38e), Word(0xc8215c1a), Word(0xb73679a2), Word(0xe5bc3909), Word(0x32663c5b),
           Word(0x9d209d67), Word(0xec8726cb), Word(0x702138a4), Word(0xd3b7973b))
    else if t < 48 then
      Pick(t - 32,
           Word(0x93f5997f), Word(0x3b68ba73), Word(0xaff4ffc1), Word(0xf10a5c62), Word(0x0a8b3996), Word(0x72af830a),
           Word(0x9409e33e), Word(0x24641522), Word(0x9f47bf94), Word(0xf0a64f5a), Word(0x3e246a79), Word(0x27333ba3),
           Word(0x0c4763f2), Word(0x840abf27), Word(0x7a290d5d), Word(0x065c43da))
    else
      Pick(t - 48,
           Word(0xfb3e89cb), Word(0xcc7617db), Word(0xb9e66c34), Word(0xa9993667), Word(0x84badedd), Word(0xc21462bc),
           Word(0x1487472c), Word(0xb20f7a99), Word(0xef57b9cd), Word(0xebe6b238), Word(0x9fe3095e), Word(0x78bc8d4b),
           Word(0xa43fcf15), Word(0x668b2ff8), Word(0xeeaba2cc), Word(0x12b1edeb))
  }

  /** The registers a and e, from the four initial values of each on. */
  function A256(t: nat): Word {
    if t < 16 then
      Pick(t,
           Word(0xa54ff53a), Word(0x3c6ef372), Word(0xbb67ae85), Word(0x6a09e667), Word(0x5d6aebcd), Word(0x5a6ad9ad),
           Word(0xc8c347a7), Word(0xd550f666), Word(0x04409a6a), Word(0x2b4209f5), Word(0xe5030380), Word(0x85a07b5f),
           Word(0x8e04ecb9), Word(0x8c87346b), Word(0x4798a3f4), Word(0xf71fc5a9))
    else if t < 32 then
      Pick(t - 16,
           Word(0x87912990), Word(0xd932eb16), Word(0xc0645fde), Word(0xb0fa238e), Word(0x21da9a9b), Word(0xc2fbd9d1),
           Word(0xfe777bbf), Word(0xe1f20c33), Word(0x9dc68b63), Word(0xc2606d6d), Word(0xa7a3623f), Word(0xc5d53d8d),
           Word(0x1c2c2838), Word(0xcde8037d), Word(0xb62ec4bc), Word(0x77d37528))
    else if t < 48 then
      Pick(t - 32,
           Word(0x363482c9), Word(0xa0060b30), Word(0xea992a22), Word(0x73b33bf5), Word(0x98e12507), Word(0xfe604df5),
           Word(0xa9a7738c), Word(0x65a0cfe4), Word(0x41a65cb1), Word(0x34df1604), Word(0x6dc57a8a), Word(0x79ea687a),
           Word(0xd6670766), Word(0xdf46652f), Word(0x17aa0dfe), Word(0x9d4baf93))
    else if t < 64 then
      Pick(t - 48,
           Word(0x26628815), Word(0x72ab4b91), Word(0xa14c14b0), Word(0x4172328d), Word(0x05757ceb), Word(0xf11bfaa8),
           Word(0x7a0508a1), Word(0x886e7a22), Word(0x101fd28f), Word(0xf5702fdb), Word(0x3ec45cdb), Word(0x38cc9913),
           Word(0xfcd1887b), Word(0xc062d46f), Word(0xffb70472), Word(0xb6ae8fff))
    else
      Pick(t - 64,
           Word(0xb85e2ce9), Word(0x04d24d6c), Word(0xd39a2165), Word(0x506e3058), Word(0x00000000), Word(0x00000000),
           Word(0x00000000), Word(0x00000000), Word(0x00000000), Word(0x00000000), Word(0x00000000), Word(0x00000000),
           Word(0x00000000), Word(0x00000000), Word(0x00000000), Word(0x00000000))
  }

  function E256(t: nat): Word {
    if t < 16 then
      Pick(t,
           Word(0x5be0cd19), Word(0x1f83d9ab), Word(0x9b05688c), Word(0x510e527f), Word(0xfa2a4622), Word(0x78ce7989),
           Word(0xf92939eb), Word(0x24e00850), Word(0x43ada245), Word(0x714260ad), Word(0x9b27a401), Word(0x0c657a79),
           Word(0x32ca2d8c), Word(0x1cc92596), Word(0x436b23e8), Word(0x816fd6e9))
    else if t < 32 then
      Pick(t - 16,
           Word(0x1e578218), Word(0x745a48de), Word(0x0b92f20c), Word(0x07590dcd), Word(0x8034229c), Word(0x846ee454),
           Word(0xcc899961), Word(0xb0638179), Word(0x8ada8930), Word(0xe1257970), Word(0x49f5114a), Word(0xaa47c347),
           Word(0x2823ef91), Word(0x14383d8e), Word(0xc74c6516), Word(0xedffbff8))
    else if t < 48 then
      Pick(t - 32,
           Word(0x6112a3b7), Word(0xade79437), Word(0x0109ab3a), Word(0xba591112), Word(0x9cd9f5f6), Word(0x59249dd3),
           Word(0x085f3833), Word(0xf4b002d6), Word(0x0772a26b), Word(0xa507a53d), Word(0xf0781bc8), Word(0x1efbc0a0),
           Word(0x26352d63), Word(0x838b2711), Word(0xdecd4715), Word(0xfda24c2e))
    else if t < 64 then
      Pick(t - 48,
           Word(0xa80f11f0), Word(0xb7755da1), Word(0xd57b94a9), Word(0xfecf0bc6), Word(0xbd714038), Word(0x6e5c390c),
           Word(0x52f1ccf7), Word(0x49231c1e), Word(0x529e7d00), Word(0x9f4787c3), Word(0xe50e1b4f), Word(0x54cb266b),
           Word(0x9b5e906c), Word(0x7e44008e), Word(0x6d83bfc6), Word(0xb21bad3d))
    else
      Pick(t - 64,
           Word(0x961f4894), Word(0x948d25b6), Word(0xfb121210), Word(0x5ef50f24), Word(0x00000000), Word(0x00000000),
           Word(0x00000000), Word(0x00000000), Word(0x00000000), Word(0x00000000), Word(0x00000000), Word(0x00000000),
           Word(0x00000000), Word(0x00000000), Word(0x00000000), Word(0x00000000))
  }

  predicate Turn256(t: nat) {
    var sum := Add256(E256(t), F2At256(E256(t + 3)));
    var t1 := Add256(Add256(Add256(sum, Ch256(E256(t + 3), E256(t + 2), E256(t + 1))), K256At(t)), W256(t));
    && A256(t + 4) == Add256(t1, Add256(F1At256(A256(t + 3)), Maj256(A256(t + 3), A256(t + 2), A256(t + 1))))
    && E256(t + 4) == Add256(A256(t), t1)
  }

  predicate Extends256(t: nat)
    requires t >= 16
  {
    W256(t) == Add256(Add256(Add256(F4At256(W256(t - 2)), W256(t - 7)), F3At256(W256(t - 15))), W256(t - 16))
  }

  lemma Turn256_0()
    ensures Turn256(0) && Turn256(1) && Turn256(2) && Turn256(3)
    ensures Turn256(4) && Turn256(5) && Turn256(6) && Turn256(7)
  {
  }

  lemma Turn256_8()
    ensures Turn256(8) && Turn256(9) && Turn256(10) && Turn256(11)
    ensures Turn256(12) && Turn256(13) && Turn256(14) && Turn256(15)
  {
  }

  lemma Turn256_16()
    ensures Turn256(16) && Turn256(17) && Turn256(18) && Turn256(19)
    ensures Turn256(20) && Turn256(21) && Turn256(22) && Turn256(23)
  {
  }

  lemma Turn256_24()
    ensures Turn256(24) && Turn256(25) && Turn256(26) && Turn256(27)
    ensures Turn256(28) && Turn256(29) && Turn256(30) && Turn256(31)
  {
  }

  lemma Turn256_32()
    ensures Turn256(32) && Turn256(33) && Turn256(34) && Turn256(35)
    ensures Turn256(36) && Turn256(37) && Turn256(38) && Turn256(39)
  {
  }

  lemma Turn256_40()
    ensures Turn256(40) && Turn256(41) && Turn256(42) && Turn256(43)
    ensures Turn256(44) && Turn256(45) && Turn256(46) && Turn256(47)
  {
  }

  lemma Turn256_48()
    ensures Turn256(48) && Turn256(49) && Turn256(50) && Turn256(51)
    ensures Turn256(52) && Turn256(53) && Turn256(54) && Turn256(55)
  {
  }

  lemma Turn256_56()
    ensures Turn256(56) && Turn256(57) && Turn256(58) && Turn256(59)
    ensures Turn256(60) && Turn256(61) && Turn256(62) && Turn256(63)
  {
  }

  lemma AllTurn256(t: nat)
    requires t < 64
    ensures Turn256(t)
  {
    hide Turn256;
    if t < 8 {
      Turn256_0();
      if t == 0 {} else if t == 1 {} else if t == 2 {} else if t == 3 {} else if t == 4 {} else
      if t == 5 {} else if t == 6 {} else {}
    } else if t < 16 {
      Turn256_8();
      if t == 8 {} else if t == 9 {} else if t == 10 {} else if t == 11 {} else if t == 12 {} else
      if t == 13 {} else if t == 14 {} else {}
    } else if t < 24 {
      Turn256_16();
      if t == 16 {} else if t == 17 {} else if t == 18 {} else if t == 19 {} else if t == 20 {} else
      if t == 21 {} else if t == 22 {} else {}
    } else if t < 32 {
      Turn256_24();
      if t == 24 {} else if t == 25 {} else if t == 26 {} else if t == 27 {} else if t == 28 {} else
      if t == 29 {} else if t == 30 {} else {}
    } else if t < 40 {
      Turn256_32();
      if t == 32 {} else if t == 33 {} else if t == 34 {} else if t == 35 {} else if t == 36 {} else
      if t == 37 {} else if t == 38 {} else {}
    } else if t < 48 {
      Turn256_40();
      if t == 40 {} else if t == 41 {} else if t == 42 {} else if t == 43 {} else if t == 44 {} else
      if t == 45 {} else if t == 46 {} else {}
    } else if t < 56 {
      Turn256_48();
      if t == 48 {} else if t == 49 {} else if t == 50 {} else if t == 51 {} else if t == 52 {} else
      if t == 53 {} else if t == 54 {} else {}
    } else {
      Turn256_56();
      if t == 56 {} else if t == 57 {} else if t == 58 {} else if t == 59 {} else if t == 60 {} else
      if t == 61 {} else if t == 62 {} else {}
    }
  }

  lemma Extends256_16()
    ensures Extends256(16) && Extends256(17) && Extends256(18) && Extends256(19)
    ensures Extends256(20) && Extends256(21) && Extends256(22) && Extends256(23)
    ensures Extends256(24) && Extends256(25) && Extends256(26) && Extends256(27)
    ensures Extends256(28) && Extends256(29) && Extends256(30) && Extends256(31)
  {
  }

  lemma Extends256_32()
    ensures Extends256(32) && Extends256(33) && Extends256(34) && Extends256(35)
    ensures Extends256(36) && Extends256(37) && Extends256(38) && Extends256(39)
    ensures Extends256(40) && Extends256(41) && Extends256(42) && Extends256(43)
    ensures Extends256(44) && Extends256(45) && Extends256(46) && Extends256(47)
  {
  }

  lemma Extends256_48()
    ensures Extends256(48) && Extends256(49) && Extends256(50) && Extends256(51)
    ensures Extends256(52) && Extends256(53) && Extends256(54) && Extends256(55)
    ensures Extends256(56) && Extends256(57) && Extends256(58) && Extends256(59)
    ensures Extends256(60) && Extends256(61) && Extends256(62) && Extends256(63)
  {
  }

  lemma AllExtends256(t: nat)
    requires 16 <= t < 64
    ensures Extends256(t)
  {
    hide Extends256;
    if t < 32 {
      Extends256_16();
      if t == 16 {} else if t == 17 {} else if t == 18 {} else if t == 19 {} else if t == 20 {} else
      if t == 21 {} else if t == 22 {} else if t == 23 {} else if t == 24 {} else if t == 25 {} else
      if t == 26 {} else if t == 27 {} else if t == 28 {} else if t == 29 {} else if t == 30 {} else {}
    } else if t < 48 {
      Extends256_32();
      if t == 32 {} else if t == 33 {} else if t == 34 {} else if t == 35 {} else if t == 36 {} else
      if t == 37 {} else if t == 38 {} else if t == 39 {} else if t == 40 {} else if t == 41 {} else
      if t == 42 {} else if t == 43 {} else if t == 44 {} else if t == 45 {} else if t == 46 {} else {}
    } else {
      Extends256_48();
      if t == 48 {} else if t == 49 {} else if t == 50 {} else if t == 51 {} else if t == 52 {} else
      if t == 53 {} else if t == 54 {} else if t == 55 {} else if t == 56 {} else if t == 57 {} else
      if t == 58 {} else if t == 59 {} else if t == 60 {} else if t == 61 {} else if t == 62 {} else {}
    }
  }

  lemma Literals256_A0()
    ensures Bits32(0x428a2f98) == 0x428a2f98 && Bits32(0x71374491) == 0x71374491
    ensures Bits32(0xb5c0fbcf) == 0xb5c0fbcf && Bits32(0xe9b5dba5) == 0xe9b5dba5
    ensures Bits32(0x3956c25b) == 0x3956c25b && Bits32(0x59f111f1) == 0x59f111f1
    ensures Bits32(0x923f82a4) == 0x923f82a4 && Bits32(0xab1c5ed5) == 0xab1c5ed5
  {
  }

  lemma Constants256_A0()
    ensures WordOf(K256_A[0]) == K256At(0) && WordOf(K256_A[1]) == K256At(1)
    ensures WordOf(K256_A[2]) == K256At(2) && WordOf(K256_A[3]) == K256At(3)
    ensures WordOf(K256_A[4]) == K256At(4) && WordOf(K256_A[5]) == K256At(5)
    ensures WordOf(K256_A[6]) == K256At(6) && WordOf(K256_A[7]) == K256At(7)
  {
    hide Bits32;
    Literals256_A0();
  }

  lemma Literals256_A8()
    ensures Bits32(0xd807aa98) == 0xd807aa98 && Bits32(0x12835b01) == 0x12835b01
    ensures Bits32(0x243185be) == 0x243185be && Bits32(0x550c7dc3) == 0x550c7dc3
    ensures Bits32(0x72be5d74) == 0x72be5d74 && Bits32(0x80deb1fe) == 0x80deb1fe
    ensures Bits32(0x9bdc06a7) == 0x9bdc06a7 && Bits32(0xc19bf174) == 0xc19bf174
  {
  }

  lemma Constants256_A8()
    ensures WordOf(K256_A[8]) == K256At(8) && WordOf(K256_A[9]) == K256At(9)
    ensures WordOf(K256_A[10]) == K256At(10) && WordOf(K256_A[11]) == K256At(11)
    ensures WordOf(K256_A[12]) == K256At(12) && WordOf(K256_A[13]) == K256At(13)
    ensures WordOf(K256_A[14]) == K256At(14) && WordOf(K256_A[15]) == K256At(15)
  {
    hide Bits32;
    Literals256_A8();
  }

  lemma Literals256_B0()
    ensures Bits32(0xe49b69c1) == 0xe49b69c1 && Bits32(0xefbe4786) == 0xefbe4786
    ensures Bits32(0x0fc19dc6) == 0x0fc19dc6 && Bits32(0x240ca1cc) == 0x240ca1cc
    ensures Bits32(0x2de92c6f) == 0x2de92c6f && Bits32(0x4a7484aa) == 0x4a7484aa
    ensures Bits32(0x5cb0a9dc) == 0x5cb0a9dc && Bits32(0x76f988da) == 0x76f988da
  {
  }

  lemma Constants256_B0()
    ensures WordOf(K256_B[0]) == K256At(16) && WordOf(K256_B[1]) == K256At(17)
    ensures WordOf(K256_B[2]) == K256At(18) && WordOf(K256_B[3]) == K256At(19)
    ensures WordOf(K256_B[4]) == K256At(20) && WordOf(K256_B[5]) == K256At(21)
    ensures WordOf(K256_B[6]) == K256At(22) && WordOf(K256_B[7]) == K256At(23)
  {
    hide Bits32;
    Literals256_B0();
  }

  lemma Literals256_B8()
    ensures Bits32(0x983e5152) == 0x983e5152 && Bits32(0xa831c66d) == 0xa831c66d
    ensures Bits32(0xb00327c8) == 0xb00327c8 && Bits32(0xbf597fc7) == 0xbf597fc7
    ensures Bits32(0xc6e00bf3) == 0xc6e00bf3 && Bits32(0xd5a79147) == 0xd5a79147
    ensures Bits32(0x06ca6351) == 0x06ca6351 && Bits32(0x14292967) == 0x14292967
  {
  }

  lemma Constants256_B8()
    ensures WordOf(K256_B[8]) == K256At(24) && WordOf(K256_B[9]) == K256At(25)
    ensures WordOf(K256_B[10]) == K256At(26) && WordOf(K256_B[11]) == K256At(27)
    ensures WordOf(K256_B[12]) == K256At(28) && WordOf(K256_B[13]) == K256At(29)
    ensures WordOf(K256_B[14]) == K256At(30) && WordOf(K256_B[15]) == K256At(31)
  {
    hide Bits32;
    Literals256_B8();
  }

  lemma Literals256_C0()
    ensures Bits32(0x27b70a85) == 0x27b70a85 && Bits32(0x2e1b2138) == 0x2e1b2138
    ensures Bits32(0x4d2c6dfc) == 0x4d2c6dfc && Bits32(0x53380d13) == 0x53380d13
    ensures Bits32(0x650a7354) == 0x650a7354 && Bits32(0x766a0abb) == 0x766a0abb
    ensures Bits32(0x81c2c92e) == 0x81c2c92e && Bits32(0x92722c85) == 0x92722c85
  {
  }

  lemma Constants256_C0()
    ensures WordOf(K256_C[0]) == K256At(32) && WordOf(K256_C[1]) == K256At(33)
    ensures WordOf(K256_C[2]) == K256At(34) && WordOf(K256_C[3]) == K256At(35)
    ensures WordOf(K256_C[4]) == K256At(36) && WordOf(K256_C[5]) == K256At(37)
    ensures WordOf(K256_C[6]) == K256At(38) && WordOf(K256_C[7]) == K256At(39)
  {
    hide Bits32;
    Literals256_C0();
  }

  lemma Literals256_C8()
    ensures Bits32(0xa2bfe8a1) == 0xa2bfe8a1 && Bits32(0xa81a664b) == 0xa81a664b
    ensures Bits32(0xc24b8b70) == 0xc24b8b70 && Bits32(0xc76c51a3) == 0xc76c51a3
    ensures Bits32(0xd192e819) == 0xd192e819 && Bits32(0xd6990624) == 0xd6990624
    ensures Bits32(0xf40e3585) == 0xf40e3585 && Bits32(0x106aa070) == 0x106aa070
  {
  }

  lemma Constants256_C8()
    ensures WordOf(K256_C[8]) == K256At(40) && WordOf(K256_C[9]) == K256At(41)
    ensures WordOf(K256_C[10]) == K256At(42) && WordOf(K256_C[11]) == K256At(43)
    ensures WordOf(K256_C[12]) == K256At(44) && WordOf(K256_C[13]) == K256At(45)
    ensures WordOf(K256_C[14]) == K256At(46) && WordOf(K256_C[15]) == K256At(47)
  {
    hide Bits32;
    Literals256_C8();
  }

  lemma Literals256_D0()
    ensures Bits32(0x19a4c116) == 0x19a4c116 && Bits32(0x1e376c08) == 0x1e376c08
    ensures Bits32(0x2748774c) == 0x2748774c && Bits32(0x34b0bcb5) == 0x34b0bcb5
    ensures Bits32(0x391c0cb3) == 0x391c0cb3 && Bits32(0x4ed8aa4a) == 0x4ed8aa4a
    ensures Bits32(0x5b9cca4f) == 0x5b9cca4f && Bits32(0x682e6ff3) == 0x682e6ff3
  {
  }

  lemma Constants256_D0()
    ensures WordOf(K256_D[0]) == K256At(48) && WordOf(K256_D[1]) == K256At(49)
    ensures WordOf(K256_D[2]) == K256At(50) && WordOf(K256_D[3]) == K256At(51)
    ensures WordOf(K256_D[4]) == K256At(52) && WordOf(K256_D[5]) == K256At(53)
    ensures WordOf(K256_D[6]) == K256At(54) && WordOf(K256_D[7]) == K256At(55)
  {
    hide Bits32;
    Literals256_D0();
  }

  lemma Literals256_D8()
    ensures Bits32(0x748f82ee) == 0x748f82ee && Bits32(0x78a5636f) == 0x78a5636f
    ensures Bits32(0x84c87814) == 0x84c87814 && Bits32(0x8cc70208) == 0x8cc70208
    ensures Bits32(0x90befffa) == 0x90befffa && Bits32(0xa4506ceb) == 0xa4506ceb
    ensures Bits32(0xbef9a3f7) == 0xbef9a3f7 && Bits32(0xc67178f2) == 0xc67178f2
  {
  }

  lemma Constants256_D8()
    ensures WordOf(K256_D[8]) == K256At(56) && WordOf(K256_D[9]) == K256At(57)
    ensures WordOf(K256_D[10]) == K256At(58) && WordOf(K256_D[11]) == K256At(59)
    ensures WordOf(K256_D[12]) == K256At(60) && WordOf(K256_D[13]) == K256At(61)
    ensures WordOf(K256_D[14]) == K256At(62) && WordOf(K256_D[15]) == K256At(63)
  {
    hide Bits32;
    Literals256_D8();
  }

  lemma Chunks256()
    ensures K256 == K256_A + K256_B + K256_C + K256_D
    ensures |K256_A| == 16 && |K256_B| == 16 && |K256_C| == 16 && |K256_D| == 16
  {
  }

  lemma Keys256_A(i: nat)
    requires i < 16
    ensures |K256_A| == 16 && WordOf(K256_A[i]) == K256At(i)
  {
    hide WordOf, K256At;
    Constants256_A0();
    Constants256_A8();
    if i == 0 {} else if i == 1 {} else if i == 2 {} else if i == 3 {} else if i == 4 {} else if i == 5 {} else
    if i == 6 {} else if i == 7 {} else if i == 8 {} else if i == 9 {} else if i == 10 {} else
    if i == 11 {} else if i == 12 {} else if i == 13 {} else if i == 14 {} else {}
  }

  lemma Keys256_B(i: nat)
    requires i < 16
    ensures |K256_B| == 16 && WordOf(K256_B[i]) == K256At(16 + i)
  {
    hide WordOf, K256At;
    Constants256_B0();
    Constants256_B8();
    if i == 0 {} else if i == 1 {} else if i == 2 {} else if i == 3 {} else if i == 4 {} else if i == 5 {} else
    if i == 6 {} else if i == 7 {} else if i == 8 {} else if i == 9 {} else if i == 10 {} else
    if i == 11 {} else if i == 12 {} else if i == 13 {} else if i == 14 {} else {}
  }

  lemma Keys256_C(i: nat)
    requires i < 16
    ensures |K256_C| == 16 && WordOf(K256_C[i]) == K256At(32 + i)
  {
    hide WordOf, K256At;
    Constants256_C0();
    Constants256_C8();
    if i == 0 {} else if i == 1 {} else if i == 2 {} else if i == 3 {} else if i == 4 {} else if i == 5 {} else
    if i == 6 {} else if i == 7 {} else if i == 8 {} else if i == 9 {} else if i == 10 {} else
    if i == 11 {} else if i == 12 {} else if i == 13 {} else if i == 14 {} else {}
  }

  lemma Keys256_D(i: nat)
    requires i < 16
    ensures |K256_D| == 16 && WordOf(K256_D[i]) == K256At(48 + i)
  {
    hide WordOf, K256At;
    Constants256_D0();
    Constants256_D8();
    if i == 0 {} else if i == 1 {} else if i == 2 {} else if i == 3 {} else if i == 4 {} else if i == 5 {} else
    if i == 6 {} else if i == 7 {} else if i == 8 {} else if i == 9 {} else if i == 10 {} else
    if i == 11 {} else if i == 12 {} else if i == 13 {} else if i == 14 {} else {}
  }

  /** The constants of the suite are those of the table. */
  lemma Constant256(t: nat)
    requires t < 64
    ensures |K256| == 64 && Sha256().k[t] == K256At(t)
  {
    hide K256At, WordOf, K256_A, K256_B, K256_C, K256_D;
    Chunks256();
    if t < 16 {
      Keys256_A(t);
    } else if t < 32 {
      Keys256_B(t - 16);
    } else if t < 48 {
      Keys256_C(t - 32);
    } else {
      Keys256_D(t - 48);
    }
  }

  lemma InitialLiterals256()
    ensures Bits32(0x6a09e667) == 0x6a09e667
    ensures Bits32(0xbb67ae85) == 0xbb67ae85
    ensures Bits32(0x3c6ef372) == 0x3c6ef372
    ensures Bits32(0xa54ff53a) == 0xa54ff53a
    ensures Bits32(0x510e527f) == 0x510e527f
    ensures Bits32(0x9b05688c) == 0x9b05688c
    ensures Bits32(0x1f83d9ab) == 0x1f83d9ab
    ensures Bits32(0x5be0cd19) == 0x5be0cd19
  {
  }

  lemma Initial256()
    ensures Sha256().h0 == [A256(3), A256(2), A256(1), A256(0), E256(3), E256(2), E256(1), E256(0)]
  {
    hide Bits32;
    InitialLiterals256();
  }

  lemma Count256()
    ensures Counter(24, 8) == [0, 0, 0, 0, 0, 0, 0, 24]
  {
    assert Bound(1) == 256;
    CounterWithZeros(24, 7, 1);
    assert Counter(24, 1) == [24];
  }

  lemma Packed256()
    ensures Pack256([0x61, 0x62, 0x63, 0x80]) == W256(0)
    ensures Pack256([0, 0, 0, 0]) == Word(0)
    ensures Pack256([0, 0, 0, 24]) == W256(15)
    ensures W256(1) == Word(0) && W256(2) == Word(0) && W256(3) == Word(0) && W256(4) == Word(0) && W256(5) == Word(0)
    ensures W256(6) == Word(0) && W256(7) == Word(0) && W256(8) == Word(0) && W256(9) == Word(0) && W256(10) == Word(0)
    ensures W256(11) == Word(0) && W256(12) == Word(0) && W256(13) == Word(0) && W256(14) == Word(0)
  {
  }

  lemma BlockOf256()
    ensures Padded(Sha256(), ABC) == [0x61, 0x62, 0x63, 0x80] + Zeros(52)
         + [0, 0, 0, 0, 0, 0, 0, 24]
  {
    hide Zeros, Counter;
    Count256();
    assert ABC + [0x80] == [0x61, 0x62, 0x63, 0x80];
  }

  lemma Words256(t: nat)
    requires t < 16
    ensures |Padded(Sha256(), ABC)| == 64 && WordAt(Sha256(), Padded(Sha256(), ABC), t) == W256(t)
  {
    hide W256, Pack256, Padded, WordsOf;
    Packed256();
    BlockOf256();
    var block := Padded(Sha256(), ABC);
    if t == 0 {
      assert block[0..4] == [0x61, 0x62, 0x63, 0x80];
    } else if t == 15 {
      assert block[60..64] == [0, 0, 0, 24];
    } else {
      forall k | 4 * t <= k < 4 * t + 4
        ensures block[k] == 0
      {
      }
      assert block[4 * t..4 * t + 4] == [0, 0, 0, 0];
      if t == 1 {} else if t == 2 {} else if t == 3 {} else if t == 4 {} else if t == 5 {} else
      if t == 6 {} else if t == 7 {} else if t == 8 {} else if t == 9 {} else if t == 10 {} else
      if t == 11 {} else if t == 12 {} else if t == 13 {} else {}
    }
  }

  lemma Run256()
    ensures |Padded(Sha256(), ABC)| == BlockBytes(Sha256())
    ensures Compress(Sha256(), Sha256().h0, Padded(Sha256(), ABC))
         == AddAll(Sha256(), Sha256().h0,
                   [A256(67), A256(66), A256(65), A256(64), E256(67), E256(66), E256(65), E256(64)])
  {
    hide A256, E256, W256, K256At, WordsOf, Padded, Compress, AddAll, WordAt,
      Add256, Ch256, Maj256, F1At256, F2At256, F3At256, F4At256;
    var az, ez, ws := seq(68, t requires 0 <= t => A256(t)), seq(68, t requires 0 <= t => E256(t)),
      seq(64, t requires 0 <= t => W256(t));
    Constant256(0);
    Words256(0);
    Initial256();
    forall t | 0 <= t < 64
      ensures Turned(Sha256(), az, ez, ws, t)
    {
      AllTurn256(t);
      Constant256(t);
    }
    forall t | 16 <= t < 64
      ensures Extended(Sha256(), ws, t)
    {
      AllExtends256(t);
    }
    forall t | 0 <= t < 16
      ensures ws[t] == WordAt(Sha256(), Padded(Sha256(), ABC), t)
    {
      Words256(t);
    }
    RunCompresses(Sha256(), Padded(Sha256(), ABC), az, ez, ws);
  }

  lemma Sums256()
    ensures Add256(A256(3), A256(67)) == Word(0xba7816bf)
    ensures Add256(A256(2), A256(66)) == Word(0x8f01cfea)
    ensures Add256(A256(1), A256(65)) == Word(0x414140de)
    ensures Add256(A256(0), A256(64)) == Word(0x5dae2223)
    ensures Add256(E256(3), E256(67)) == Word(0xb00361a3)
    ensures Add256(E256(2), E256(66)) == Word(0x96177a9c)
    ensures Add256(E256(1), E256(65)) == Word(0xb410ff61)
    ensures Add256(E256(0), E256(64)) == Word(0xf20015ad)
  {
  }

  lemma Bytes256()
    ensures BeBytes(Word(0xba7816bf)) == [0xba, 0x78, 0x16, 0xbf]
    ensures BeBytes(Word(0x8f01cfea)) == [0x8f, 0x01, 0xcf, 0xea]
    ensures BeBytes(Word(0x414140de)) == [0x41, 0x41, 0x40, 0xde]
    ensures BeBytes(Word(0x5dae2223)) == [0x5d, 0xae, 0x22, 0x23]
    ensures BeBytes(Word(0xb00361a3)) == [0xb0, 0x03, 0x61, 0xa3]
    ensures BeBytes(Word(0x96177a9c)) == [0x96, 0x17, 0x7a, 0x9c]
    ensures BeBytes(Word(0xb410ff61)) == [0xb4, 0x10, 0xff, 0x61]
    ensures BeBytes(Word(0xf20015ad)) == [0xf2, 0x00, 0x15, 0xad]
  {
  }

  /** SHA-256 of "abc". */
  lemma Abc256()
    ensures DigestBytes(Sha256(), Hash(Sha256(), ABC)) ==
            [0xba, 0x78, 0x16, 0xbf, 0x8f, 0x01, 0xcf, 0xea] + [0x41, 0x41, 0x40, 0xde, 0x5d, 0xae, 0x22, 0x23] +
            [0xb0, 0x03, 0x61, 0xa3, 0x96, 0x17, 0x7a, 0x9c] + [0xb4, 0x10, 0xff, 0x61, 0xf2, 0x00, 0x15, 0xad]
  {
    hide Padded, Compress, WordsOf, BeBytes, A256, E256, Add256;
    Run256();
    Sums256();
    Bytes256();
    Initial256();
    OneBlock(Sha256(), Sha256().h0, Padded(Sha256(), ABC));
  }
}
