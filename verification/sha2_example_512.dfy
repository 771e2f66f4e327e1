/**
 The published SHA-512 digest of the message "abc", the one-block example for FIPS 180-4, round by round.
 */
module Sha512Example {
  import opened MachineWords
  import opened ByteStrings
  import opened Lanes
  import opened Sha2Suite
  import opened Sha2Contexts
  import opened Sha2Hashes
  import opened Sha2Evaluation

  /** The round constants as words. */
  function K512At(t: nat): Lane {
    if t < 16 then
      Pick(t,
           Lane(0x428a2f98d728ae22), Lane(0x7137449123ef65cd), Lane(0xb5c0fbcfec4d3b2f), Lane(0xe9b5dba58189dbbc),
           Lane(0x3956c25bf348b538), Lane(0x59f111f1b605d019), Lane(0x923f82a4af194f9b), Lane(0xab1c5ed5da6d8118),
           Lane(0xd807aa98a3030242), Lane(0x12835b0145706fbe), Lane(0x243185be4ee4b28c), Lane(0x550c7dc3d5ffb4e2),
           Lane(0x72be5d74f27b896f), Lane(0x80deb1fe3b1696b1), Lane(0x9bdc06a725c71235), Lane(0xc19bf174cf692694))
    else if t < 32 then
      Pick(t - 16,
           Lane(0xe49b69c19ef14ad2), Lane(0xefbe4786384f25e3), Lane(0x0fc19dc68b8cd5b5), Lane(0x240ca1cc77ac9c65),
           Lane(0x2de92c6f592b0275), Lane(0x4a7484aa6ea6e483), Lane(0x5cb0a9dcbd41fbd4), Lane(0x76f988da831153b5),
           Lane(0x983e5152ee66dfab), Lane(0xa831c66d2db43210), Lane(0xb00327c898fb213f), Lane(0xbf597fc7beef0ee4),
           Lane(0xc6e00bf33da88fc2), Lane(0xd5a79147930aa725), Lane(0x06ca6351e003826f), Lane(0x142929670a0e6e70))
    else if t < 48 then
      Pick(t - 32,
           Lane(0x27b70a8546d22ffc), Lane(0x2e1b21385c26c926), Lane(0x4d2c6dfc5ac42aed), Lane(0x53380d139d95b3df),
           Lane(0x650a73548baf63de), Lane(0x766a0abb3c77b2a8), Lane(0x81c2c92e47edaee6), Lane(0x92722c851482353b),
           Lane(0xa2bfe8a14cf10364), Lane(0xa81a664bbc423001), Lane(0xc24b8b70d0f89791), Lane(0xc76c51a30654be30),
           Lane(0xd192e819d6ef5218), Lane(0xd69906245565a910), Lane(0xf40e35855771202a), Lane(0x106aa07032bbd1b8))
    else if t < 64 then
      Pick(t - 48,
           Lane(0x19a4c116b8d2d0c8), Lane(0x1e376c085141ab53), Lane(0x2748774cdf8eeb99), Lane(0x34b0bcb5e19b48a8),
           Lane(0x391c0cb3c5c95a63), Lane(0x4ed8aa4ae3418acb), Lane(0x5b9cca4f7763e373), Lane(0x682e6ff3d6b2b8a3),
           Lane(0x748f82ee5defb2fc), Lane(0x78a5636f43172f60), Lane(0x84c87814a1f0ab72), Lane(0x8cc702081a6439ec),
           Lane(0x90befffa23631e28), Lane(0xa4506cebde82bde9), Lane(0xbef9a3f7b2c67915), Lane(0xc67178f2e372532b))
    else
      Pick(t - 64,
           Lane(0xca273eceea26619c), Lane(0xd186b8c721c0c207), Lane(0xeada7dd6cde0eb1e), Lane(0xf57d4f7fee6ed178),
           Lane(0x06f067aa72176fba), Lane(0x0a637dc5a2c898a6), Lane(0x113f9804bef90dae), Lane(0x1b710b35131c471b),
           Lane(0x28db77f523047d84), Lane(0x32caab7b40c72493), Lane(0x3c9ebe0a15c9bebc), Lane(0x431d67c49c100d4c),
           Lane(0x4cc5d4becb3e42b6), Lane(0x597f299cfc657e2a), Lane(0x5fcb6fab3ad6faec), Lane(0x6c44198c4a475817))
  }

  /** The schedule of the padded message. */
  function W512(t: nat): Lane {
    if t < 16 then
      Pick(t,
           Lane(0x6162638000000000), Lane(0x0000000000000000), Lane(0x0000000000000000), Lane(0x0000000000000000),
           Lane(0x0000000000000000), Lane(0x0000000000000000), Lane(0x0000000000000000), Lane(0x0000000000000000),
           Lane(0x0000000000000000), Lane(0x0000000000000000), Lane(0x0000000000000000), Lane(0x0000000000000000),
           Lane(0x0000000000000000), Lane(0x0000000000000000), Lane(0x0000000000000000), Lane(0x0000000000000018))
    else if t < 32 then
      Pick(t - 16,
           Lane(0x6162638000000000), Lane(0x00030000000000c0), Lane(0x0a9699a24c700003), Lane(0x00000c0060000603),
           Lane(0x549ef62639858996), Lane(0x00c0003300003c00), Lane(0x1497007a8a0e9dbc), Lane(0x62e56500cc0780f0),
           Lane(0x7760dd475a538797), Lane(0xf1554b711c1c0003), Lane(0xca2993a4345d9ff2), Lane(0x5e0e66b5c783dd32),
           Lane(0xe25a625d00494b62), Lane(0x9f44486fb1e4fbd2), Lane(0xb31b8c2b06085f2f), Lane(0x0e987660934142f6))
    else if t < 48 then
      Pick(t - 32,
           Lane(0xa4af2cfd09fbb924), Lane(0xad289e2e0bd53186), Lane(0x3c74563aa2f9673e), Lane(0x6ccdcd14cc14b53f),
           Lane(0xc3f925b337f22bde), Lane(0x5bcc77a75ad95b54), Lane(0x3ec2257adca09a52), Lane(0x28246960001fc5eb),
           Lane(0x04e33a75ce2be88a), Lane(0x7d5314b3c359e0e7), Lane(0xaef7a285ff251266), Lane(0x0b8472581deea04f),
           Lane(0xb174e26eddc7b033), Lane(0x5d63bae58ddd88de), Lane(0x4c044007b744ccbb), Lane(0xe6a9aa4d74dc7d43))
    else if t < 64 then
      Pick(t - 48,
           Lane(0xebeaf1237248019c), Lane(0x361e80b2d00f3193), Lane(0x2e9839125df3b175), Lane(0x3319629293ad5363),
           Lane(0x9cbc5d89ac1b89d5), Lane(0x275e23ffeeca50b7), Lane(0x3b80d680bf69ef58), Lane(0x0d0696933945a125),
           Lane(0x7533eabcb786ff00), Lane(0xb89826cee6fbf0e5), Lane(0x249b4fbcad623e9f), Lane(0x4aea9df2b02d6f1e),
           Lane(0x2cc57475a55e8d8f), Lane(0xb2574ae938d8be89), Lane(0xc1b35a57b16d6aea), Lane(0xcc4918b5949206bb))
    else
      Pick(t - 64,
           Lane(0x5099c3add79f90ec), Lane(0x5ea81d78e7660bf1), Lane(0xebee6267405ac2a9), Lane(0xb01f21926108a4ab),
           Lane(0x786433dd2fe65556), Lane(0xc54a6eaa24a0552c), Lane(0xb3c8f1530bdbaa9e), Lane(0xbb8abfe56f469338),
           Lane(0xf63d4265cc1c5a78), Lane(0xbe8355ea73129afb), Lane(0x49e2db8ebdcfbeb5), Lane(0x82269d4a883a3d99),
           Lane(0xfdf53df3011f362b), Lane(0x464af5671d71c12e), Lane(0xe449b68198ec611c), Lane(0x92aeeed1a7bcf7d2))
  }

  /** The registers a and e, from the four initial values of each on. */
  function A512(t: nat): Lane {
    if t < 16 then
      Pick(t,
           Lane(0xa54ff53a5f1d36f1), Lane(0x3c6ef372fe94f82b), Lane(0xbb67ae8584caa73b), Lane(0x6a09e667f3bcc908),
           Lane(0xf6afceb8bcfcddf5), Lane(0x1320f8c9fb872cc0), Lane(0xebcffc07203d91f3), Lane(0x5a83cb3e80050e82),
           Lane(0xb680953951604860), Lane(0xaf573b02403e89cd), Lane(0xc4875b0c7abc076b), Lane(0x8093d195e0054fa3),
           Lane(0xf1eca5544cb89225), Lane(0x81782d4a5db48f03), Lane(0x69854c4aa0f25b59), Lane(0xdb0a9963f80c2eaa))
    else if t < 32 then
      Pick(t - 16,
           Lane(0x5e41214388186c14), Lane(0x44249631255d2ca0), Lane(0xfa967eed85a08028), Lane(0x0ae07c86b1181c75),
           Lane(0xcaf81a425d800537), Lane(0x4725be249ad19e6b), Lane(0x3c4b4104168e3edb), Lane(0x9a3fb4d38ab6cf06),
           Lane(0x8dc5ae65569d3855), Lane(0xda34d6673d452dcf), Lane(0x3e2644567b709a78), Lane(0x4f6877b58fe55484),
           Lane(0x9aff71163fa3a940), Lane(0x0bc5f791f8e6816b), Lane(0x884c3bc27bc4f941), Lane(0xeab4a9e5771b8d09))
    else if t < 48 then
      Pick(t - 32,
           Lane(0xe62349090f47d30a), Lane(0x74bf40f869094c63), Lane(0x4c4fbbb75f1873a6), Lane(0xff4d3f1f0d46a736),
           Lane(0xa0509015ca08c8d4), Lane(0x60d4e6995ed91fe6), Lane(0x2c59ec7743632621), Lane(0x1a081afc59fdbc2c),
           Lane(0x88df85b0bbe77514), Lane(0x002bb8e4cd989567), Lane(0xb3bb8542b3376de5), Lane(0x8e01e125b855d225),
           Lane(0xb01521dd6a6be12c), Lane(0xe96f89dd48cbd851), Lane(0xbc05ba8de5d3c480), Lane(0x35d7e7f41defcbd5))
    else if t < 64 then
      Pick(t - 48,
           Lane(0xc47c9d5c7ea8a234), Lane(0x021fbadbabab5ac6), Lane(0xf61e672694de2d67), Lane(0x6b69fc1bb482feac),
           Lane(0x571f323d96b3a047), Lane(0xca9bd862c5050918), Lane(0x813a43dd2c502043), Lane(0xd43f83727325dd77),
           Lane(0x03df11b32d42e203), Lane(0xd63f68037ddf06aa), Lane(0xf650857b5babda4d), Lane(0x63b460e42748817e),
           Lane(0x7a52912943d52b05), Lane(0x4b81c3aec976ea4b), Lane(0x581ecb3355dcd9b8), Lane(0x2c074484ef1eac8c))
    else if t < 80 then
      Pick(t - 64,
           Lane(0x3857dfd2fc37d3ba), Lane(0xcfcd928c5424e2b6), Lane(0xa81dedbb9f19e643), Lane(0xab44e86276478d85),
           Lane(0x5a806d7e9821a501), Lane(0xeeb9c21bb0102598), Lane(0x46c4210ab2cc155d), Lane(0x54ba35cf56a0340e),
           Lane(0x181839d609c79748), Lane(0xfb6aaae5d0b6a447), Lane(0x7652c579cb60f19c), Lane(0xf15e9664b2803575),
           Lane(0x358406d165aee9ab), Lane(0x20878dcd29cdfaf5), Lane(0x33d48dabb5521de2), Lane(0xc8960e6be864b916))
    else
      Pick(t - 80,
           Lane(0x654ef9abec389ca9), Lane(0xd67806db8b148677), Lane(0x10d9c4c4295599f6), Lane(0x73a54f399fa4b1b2),
           Lane(0x0000000000000000), Lane(0x0000000000000000), Lane(0x0000000000000000), Lane(0x0000000000000000),
           Lane(0x0000000000000000), Lane(0x0000000000000000), Lane(0x0000000000000000), Lane(0x0000000000000000),
           Lane(0x0000000000000000), Lane(0x0000000000000000), Lane(0x0000000000000000), Lane(0x0000000000000000))
  }

  function E512(t: nat): Lane {
    if t < 16 then
      Pick(t,
           Lane(0x5be0cd19137e2179), Lane(0x1f83d9abfb41bd6b), Lane(0x9b05688c2b3e6c1f), Lane(0x510e527fade682d1),
           Lane(0x58cb02347ab51f91), Lane(0xc3d4ebfd48650ffa), Lane(0xdfa9b239f2697812), Lane(0x0b47b4bb1928990e),
           Lane(0x745aca4a342ed2e2), Lane(0x96f60209b6dc35ba), Lane(0x5a6c781f54dcc00c), Lane(0x86f67263a0f0ec0a),
           Lane(0xd0403c398fc40002), Lane(0x00091f460be46c52), Lane(0xd375471bde1ba3f4), Lane(0x475975b91a7a462c))
    else if t < 32 then
      Pick(t - 16,
           Lane(0xcdf3bff2883fc9d9), Lane(0x860acf9effba6f61), Lane(0x874bfe5f6aae9f2f), Lane(0xa77b7c035dd4c161),
           Lane(0x2deecc6b39d64d78), Lane(0xf47e8353f8047455), Lane(0x29695fd88d81dbd0), Lane(0xf14998dd5f70767e),
           Lane(0x4bb9e66d1145bfdc), Lane(0x8e30ff09ad488753), Lane(0x0ac2b11da8f571c6), Lane(0xc66005f87db55233),
           Lane(0xd3ecf13769180e6f), Lane(0x6ddf1fd7edcce336), Lane(0xe6e48c9a8e948365), Lane(0x09068a4e255a0dac))
    else if t < 48 then
      Pick(t - 32,
           Lane(0x0fcdf99710f21584), Lane(0xf0aec2fe1437f085), Lane(0x73e025d91b9efea3), Lane(0x3cd388e119e8162e),
           Lane(0xe1034573654a106f), Lane(0xefabbd8bf47c041a), Lane(0x0fbae670fa780fd3), Lane(0xf098082f502b44cd),
           Lane(0x8fbfd0162bbf4675), Lane(0x66adcfa249ac7bbd), Lane(0xb49596c20feba7de), Lane(0x0c710a47ba6a567b),
           Lane(0x169008b3a4bb170b), Lane(0xf0996439e7b50cb1), Lane(0x639cb938e14dc190), Lane(0xcc5100997f5710f2))
    else if t < 64 then
      Pick(t - 48,
           Lane(0x858d832ae0e8911c), Lane(0xe95c2a57572d64d9), Lane(0xc6bc35740d8daa9a), Lane(0x35264334c03ac8ad),
           Lane(0x271580ed6c3e5650), Lane(0xdfe091dab182e645), Lane(0x07a0d8ef821c5e1a), Lane(0x483f80a82eaee23e),
           Lane(0x504f94e40591cffa), Lane(0xa6781efe1aa1ce02), Lane(0x9ccfb31a86df0f86), Lane(0xc6b4dd2a9931c509),
           Lane(0xd2e89bbd91e00be0), Lane(0x70505988124351ac), Lane(0x6a3c9b0f71c8bf36), Lane(0x4797cde4ed370692))
    else if t < 80 then
      Pick(t - 64,
           Lane(0xa6af4e9c9f807e51), Lane(0x09aee5bda1644de5), Lane(0x84058865d60a05fa), Lane(0xcd881ee59ca6bc53),
           Lane(0xaa84b086688a5c45), Lane(0x3b5fed0d6a1f96e1), Lane(0x29fab5a7bff53366), Lane(0x1c66f46d95690bcf),
           Lane(0x0ada78ba2d446140), Lane(0xe3711cb6564d112d), Lane(0xaff62c9665ff80fa), Lane(0x947c3dfafee570ef),
           Lane(0x8c7b5fd91a794ca0), Lane(0x054d3536539948d0), Lane(0x2ba18245b50de4cf), Lane(0x995019a6ff3ba3de))
    else
      Pick(t - 80,
           Lane(0xceb9fc3691ce8326), Lane(0x25c96a7768fb2aa3), Lane(0x9bb4d39778c07f9e), Lane(0xd08446aa79693ed7),
           Lane(0x0000000000000000), Lane(0x0000000000000000), Lane(0x0000000000000000), Lane(0x0000000000000000),
           Lane(0x0000000000000000), Lane(0x0000000000000000), Lane(0x0000000000000000), Lane(0x0000000000000000),
           Lane(0x0000000000000000), Lane(0x0000000000000000), Lane(0x0000000000000000), Lane(0x0000000000000000))
  }

  predicate Turn512(t: nat) {
    var sum := Add512(E512(t), F2At512(E512(t + 3)));
    var t1 := Add512(Add512(Add512(sum, Ch512(E512(t + 3), E512(t + 2), E512(t + 1))), K512At(t)), W512(t));
    && A512(t + 4) == Add512(t1, Add512(F1At512(A512(t + 3)), Maj512(A512(t + 3), A512(t + 2), A512(t + 1))))
    && E512(t + 4) == Add512(A512(t), t1)
  }

  predicate Extends512(t: nat)
    requires t >= 16
  {
    W512(t) == Add512(Add512(Add512(F4At512(W512(t - 2)), W512(t - 7)), F3At512(W512(t - 15))), W512(t - 16))
  }

  lemma Turn512_0()
    ensures Turn512(0) && Turn512(1) && Turn512(2) && Turn512(3) && Turn512(4)
  {
  }

  lemma Turn512_5()
    ensures Turn512(5) && Turn512(6) && Turn512(7) && Turn512(8) && Turn512(9)
  {
  }

  lemma Turn512_10()
    ensures Turn512(10) && Turn512(11) && Turn512(12) && Turn512(13) && Turn512(14)
  {
  }

  lemma Turn512_15()
    ensures Turn512(15) && Turn512(16) && Turn512(17) && Turn512(18) && Turn512(19)
  {
  }

  lemma Turn512_20()
    ensures Turn512(20) && Turn512(21) && Turn512(22) && Turn512(23) && Turn512(24)
  {
  }

  lemma Turn512_25()
    ensures Turn512(25) && Turn512(26) && Turn512(27) && Turn512(28) && Turn512(29)
  {
  }

  lemma Turn512_30()
    ensures Turn512(30) && Turn512(31) && Turn512(32) && Turn512(33) && Turn512(34)
  {
  }

  lemma Turn512_35()
    ensures Turn512(35) && Turn512(36) && Turn512(37) && Turn512(38) && Turn512(39)
  {
  }

  lemma Turn512_40()
    ensures Turn512(40) && Turn512(41) && Turn512(42) && Turn512(43) && Turn512(44)
  {
  }

  lemma Turn512_45()
    ensures Turn512(45) && Turn512(46) && Turn512(47) && Turn512(48) && Turn512(49)
  {
  }

  lemma Turn512_50()
    ensures Turn512(50) && Turn512(51) && Turn512(52) && Turn512(53) && Turn512(54)
  {
  }

  lemma Turn512_55()
    ensures Turn512(55) && Turn512(56) && Turn512(57) && Turn512(58) && Turn512(59)
  {
  }

  lemma Turn512_60()
    ensures Turn512(60) && Turn512(61) && Turn512(62) && Turn512(63) && Turn512(64)
  {
  }

  lemma Turn512_65()
    ensures Turn512(65) && Turn512(66) && Turn512(67) && Turn512(68) && Turn512(69)
  {
  }

  lemma Turn512_70()
    ensures Turn512(70) && Turn512(71) && Turn512(72) && Turn512(73) && Turn512(74)
  {
  }

  lemma Turn512_75()
    ensures Turn512(75) && Turn512(76) && Turn512(77) && Turn512(78) && Turn512(79)
  {
  }

  lemma AllTurn512(t: nat)
    requires t < 80
    ensures Turn512(t)
  {
    hide Turn512;
    if t < 5 {
      Turn512_0();
      if t == 0 {} else if t == 1 {} else if t == 2 {} else if t == 3 {} else {}
    } else if t < 10 {
      Turn512_5();
      if t == 5 {} else if t == 6 {} else if t == 7 {} else if t == 8 {} else {}
    } else if t < 15 {
      Turn512_10();
      if t == 10 {} else if t == 11 {} else if t == 12 {} else if t == 13 {} else {}
    } else if t < 20 {
      Turn512_15();
      if t == 15 {} else if t == 16 {} else if t == 17 {} else if t == 18 {} else {}
    } else if t < 25 {
      Turn512_20();
      if t == 20 {} else if t == 21 {} else if t == 22 {} else if t == 23 {} else {}
    } else if t < 30 {
      Turn512_25();
      if t == 25 {} else if t == 26 {} else if t == 27 {} else if t == 28 {} else {}
    } else if t < 35 {
      Turn512_30();
      if t == 30 {} else if t == 31 {} else if t == 32 {} else if t == 33 {} else {}
    } else if t < 40 {
      Turn512_35();
      if t == 35 {} else if t == 36 {} else if t == 37 {} else if t == 38 {} else {}
    } else if t < 45 {
      Turn512_40();
      if t == 40 {} else if t == 41 {} else if t == 42 {} else if t == 43 {} else {}
    } else if t < 50 {
      Turn512_45();
      if t == 45 {} else if t == 46 {} else if t == 47 {} else if t == 48 {} else {}
    } else if t < 55 {
      Turn512_50();
      if t == 50 {} else if t == 51 {} else if t == 52 {} else if t == 53 {} else {}
    } else if t < 60 {
      Turn512_55();
      if t == 55 {} else if t == 56 {} else if t == 57 {} else if t == 58 {} else {}
    } else if t < 65 {
      Turn512_60();
      if t == 60 {} else if t == 61 {} else if t == 62 {} else if t == 63 {} else {}
    } else if t < 70 {
      Turn512_65();
      if t == 65 {} else if t == 66 {} else if t == 67 {} else if t == 68 {} else {}
    } else if t < 75 {
      Turn512_70();
      if t == 70 {} else if t == 71 {} else if t == 72 {} else if t == 73 {} else {}
    } else {
      Turn512_75();
      if t == 75 {} else if t == 76 {} else if t == 77 {} else if t == 78 {} else {}
    }
  }

  lemma Extends512_16()
    ensures Extends512(16) && Extends512(17) && Extends512(18) && Extends512(19)
    ensures Extends512(20) && Extends512(21) && Extends512(22) && Extends512(23)
    ensures Extends512(24) && Extends512(25) && Extends512(26) && Extends512(27)
    ensures Extends512(28) && Extends512(29) && Extends512(30) && Extends512(31)
  {
  }

  lemma Extends512_32()
    ensures Extends512(32) && Extends512(33) && Extends512(34) && Extends512(35)
    ensures Extends512(36) && Extends512(37) && Extends512(38) && Extends512(39)
    ensures Extends512(40) && Extends512(41) && Extends512(42) && Extends512(43)
    ensures Extends512(44) && Extends512(45) && Extends512(46) && Extends512(47)
  {
  }

  lemma Extends512_48()
    ensures Extends512(48) && Extends512(49) && Extends512(50) && Extends512(51)
    ensures Extends512(52) && Extends512(53) && Extends512(54) && Extends512(55)
    ensures Extends512(56) && Extends512(57) && Extends512(58) && Extends512(59)
    ensures Extends512(60) && Extends512(61) && Extends512(62) && Extends512(63)
  {
  }

  lemma Extends512_64()
    ensures Extends512(64) && Extends512(65) && Extends512(66) && Extends512(67)
    ensures Extends512(68) && Extends512(69) && Extends512(70) && Extends512(71)
    ensures Extends512(72) && Extends512(73) && Extends512(74) && Extends512(75)
    ensures Extends512(76) && Extends512(77) && Extends512(78) && Extends512(79)
  {
  }

  lemma AllExtends512(t: nat)
    requires 16 <= t < 80
    ensures Extends512(t)
  {
    hide Extends512;
    if t < 32 {
      Extends512_16();
      if t == 16 {} else if t == 17 {} else if t == 18 {} else if t == 19 {} else if t == 20 {} else
      if t == 21 {} else if t == 22 {} else if t == 23 {} else if t == 24 {} else if t == 25 {} else
      if t == 26 {} else if t == 27 {} else if t == 28 {} else if t == 29 {} else if t == 30 {} else {}
    } else if t < 48 {
      Extends512_32();
      if t == 32 {} else if t == 33 {} else if t == 34 {} else if t == 35 {} else if t == 36 {} else
      if t == 37 {} else if t == 38 {} else if t == 39 {} else if t == 40 {} else if t == 41 {} else
      if t == 42 {} else if t == 43 {} else if t == 44 {} else if t == 45 {} else if t == 46 {} else {}
    } else if t < 64 {
      Extends512_48();
      if t == 48 {} else if t == 49 {} else if t == 50 {} else if t == 51 {} else if t == 52 {} else
      if t == 53 {} else if t == 54 {} else if t == 55 {} else if t == 56 {} else if t == 57 {} else
      if t == 58 {} else if t == 59 {} else if t == 60 {} else if t == 61 {} else if t == 62 {} else {}
    } else {
      Extends512_64();
      if t == 64 {} else if t == 65 {} else if t == 66 {} else if t == 67 {} else if t == 68 {} else
      if t == 69 {} else if t == 70 {} else if t == 71 {} else if t == 72 {} else if t == 73 {} else
      if t == 74 {} else if t == 75 {} else if t == 76 {} else if t == 77 {} else if t == 78 {} else {}
    }
  }

  lemma Literals512_A0()
    ensures Bits64(0x428a2f98d728ae22) == 0x428a2f98d728ae22
    ensures Bits64(0x7137449123ef65cd) == 0x7137449123ef65cd
    ensures Bits64(0xb5c0fbcfec4d3b2f) == 0xb5c0fbcfec4d3b2f
    ensures Bits64(0xe9b5dba58189dbbc) == 0xe9b5dba58189dbbc
    ensures Bits64(0x3956c25bf348b538) == 0x3956c25bf348b538
    ensures Bits64(0x59f111f1b605d019) == 0x59f111f1b605d019
    ensures Bits64(0x923f82a4af194f9b) == 0x923f82a4af194f9b
    ensures Bits64(0xab1c5ed5da6d8118) == 0xab1c5ed5da6d8118
  {
  }

  lemma Constants512_A0()
    ensures LaneOf(K512_A[0]) == K512At(0) && LaneOf(K512_A[1]) == K512At(1)
    ensures LaneOf(K512_A[2]) == K512At(2) && LaneOf(K512_A[3]) == K512At(3)
    ensures LaneOf(K512_A[4]) == K512At(4) && LaneOf(K512_A[5]) == K512At(5)
    ensures LaneOf(K512_A[6]) == K512At(6) && LaneOf(K512_A[7]) == K512At(7)
  {
    hide Bits64;
    Literals512_A0();
  }

  lemma Literals512_A8()
    ensures Bits64(0xd807aa98a3030242) == 0xd807aa98a3030242
    ensures Bits64(0x12835b0145706fbe) == 0x12835b0145706fbe
    ensures Bits64(0x243185be4ee4b28c) == 0x243185be4ee4b28c
    ensures Bits64(0x550c7dc3d5ffb4e2) == 0x550c7dc3d5ffb4e2
    ensures Bits64(0x72be5d74f27b896f) == 0x72be5d74f27b896f
    ensures Bits64(0x80deb1fe3b1696b1) == 0x80deb1fe3b1696b1
    ensures Bits64(0x9bdc06a725c71235) == 0x9bdc06a725c71235
    ensures Bits64(0xc19bf174cf692694) == 0xc19bf174cf692694
  {
  }

  lemma Constants512_A8()
    ensures LaneOf(K512_A[8]) == K512At(8) && LaneOf(K512_A[9]) == K512At(9)
    ensures LaneOf(K512_A[10]) == K512At(10) && LaneOf(K512_A[11]) == K512At(11)
    ensures LaneOf(K512_A[12]) == K512At(12) && LaneOf(K512_A[13]) == K512At(13)
    ensures LaneOf(K512_A[14]) == K512At(14) && LaneOf(K512_A[15]) == K512At(15)
  {
    hide Bits64;
    Literals512_A8();
  }

  lemma Literals512_B0()
    ensures Bits64(0xe49b69c19ef14ad2) == 0xe49b69c19ef14ad2
    ensures Bits64(0xefbe4786384f25e3) == 0xefbe4786384f25e3
    ensures Bits64(0x0fc19dc68b8cd5b5) == 0x0fc19dc68b8cd5b5
    ensures Bits64(0x240ca1cc77ac9c65) == 0x240ca1cc77ac9c65
    ensures Bits64(0x2de92c6f592b0275) == 0x2de92c6f592b0275
    ensures Bits64(0x4a7484aa6ea6e483) == 0x4a7484aa6ea6e483
    ensures Bits64(0x5cb0a9dcbd41fbd4) == 0x5cb0a9dcbd41fbd4
    ensures Bits64(0x76f988da831153b5) == 0x76f988da831153b5
  {
  }

  lemma Constants512_B0()
    ensures LaneOf(K512_B[0]) == K512At(16) && LaneOf(K512_B[1]) == K512At(17)
    ensures LaneOf(K512_B[2]) == K512At(18) && LaneOf(K512_B[3]) == K512At(19)
    ensures LaneOf(K512_B[4]) == K512At(20) && LaneOf(K512_B[5]) == K512At(21)
    ensures LaneOf(K512_B[6]) == K512At(22) && LaneOf(K512_B[7]) == K512At(23)
  {
    hide Bits64;
    Literals512_B0();
  }

  lemma Literals512_B8()
    ensures Bits64(0x983e5152ee66dfab) == 0x983e5152ee66dfab
    ensures Bits64(0xa831c66d2db43210) == 0xa831c66d2db43210
    ensures Bits64(0xb00327c898fb213f) == 0xb00327c898fb213f
    ensures Bits64(0xbf597fc7beef0ee4) == 0xbf597fc7beef0ee4
    ensures Bits64(0xc6e00bf33da88fc2) == 0xc6e00bf33da88fc2
    ensures Bits64(0xd5a79147930aa725) == 0xd5a79147930aa725
    ensures Bits64(0x06ca6351e003826f) == 0x06ca6351e003826f
    ensures Bits64(0x142929670a0e6e70) == 0x142929670a0e6e70
  {
  }

  lemma Constants512_B8()
    ensures LaneOf(K512_B[8]) == K512At(24) && LaneOf(K512_B[9]) == K512At(25)
    ensures LaneOf(K512_B[10]) == K512At(26) && LaneOf(K512_B[11]) == K512At(27)
    ensures LaneOf(K512_B[12]) == K512At(28) && LaneOf(K512_B[13]) == K512At(29)
    ensures LaneOf(K512_B[14]) == K512At(30) && LaneOf(K512_B[15]) == K512At(31)
  {
    hide Bits64;
    Literals512_B8();
  }

  lemma Literals512_C0()
    ensures Bits64(0x27b70a8546d22ffc) == 0x27b70a8546d22ffc
    ensures Bits64(0x2e1b21385c26c926) == 0x2e1b21385c26c926
    ensures Bits64(0x4d2c6dfc5ac42aed) == 0x4d2c6dfc5ac42aed
    ensures Bits64(0x53380d139d95b3df) == 0x53380d139d95b3df
    ensures Bits64(0x650a73548baf63de) == 0x650a73548baf63de
    ensures Bits64(0x766a0abb3c77b2a8) == 0x766a0abb3c77b2a8
    ensures Bits64(0x81c2c92e47edaee6) == 0x81c2c92e47edaee6
    ensures Bits64(0x92722c851482353b) == 0x92722c851482353b
  {
  }

  lemma Constants512_C0()
    ensures LaneOf(K512_C[0]) == K512At(32) && LaneOf(K512_C[1]) == K512At(33)
    ensures LaneOf(K512_C[2]) == K512At(34) && LaneOf(K512_C[3]) == K512At(35)
    ensures LaneOf(K512_C[4]) == K512At(36) && LaneOf(K512_C[5]) == K512At(37)
    ensures LaneOf(K512_C[6]) == K512At(38) && LaneOf(K512_C[7]) == K512At(39)
  {
    hide Bits64;
    Literals512_C0();
  }

  lemma Literals512_C8()
    ensures Bits64(0xa2bfe8a14cf10364) == 0xa2bfe8a14cf10364
    ensures Bits64(0xa81a664bbc423001) == 0xa81a664bbc423001
    ensures Bits64(0xc24b8b70d0f89791) == 0xc24b8b70d0f89791
    ensures Bits64(0xc76c51a30654be30) == 0xc76c51a30654be30
    ensures Bits64(0xd192e819d6ef5218) == 0xd192e819d6ef5218
    ensures Bits64(0xd69906245565a910) == 0xd69906245565a910
    ensures Bits64(0xf40e35855771202a) == 0xf40e35855771202a
    ensures Bits64(0x106aa07032bbd1b8) == 0x106aa07032bbd1b8
  {
  }

  lemma Constants512_C8()
    ensures LaneOf(K512_C[8]) == K512At(40) && LaneOf(K512_C[9]) == K512At(41)
    ensures LaneOf(K512_C[10]) == K512At(42) && LaneOf(K512_C[11]) == K512At(43)
    ensures LaneOf(K512_C[12]) == K512At(44) && LaneOf(K512_C[13]) == K512At(45)
    ensures LaneOf(K512_C[14]) == K512At(46) && LaneOf(K512_C[15]) == K512At(47)
  {
    hide Bits64;
    Literals512_C8();
  }

  lemma Literals512_D0()
    ensures Bits64(0x19a4c116b8d2d0c8) == 0x19a4c116b8d2d0c8
    ensures Bits64(0x1e376c085141ab53) == 0x1e376c085141ab53
    ensures Bits64(0x2748774cdf8eeb99) == 0x2748774cdf8eeb99
    ensures Bits64(0x34b0bcb5e19b48a8) == 0x34b0bcb5e19b48a8
    ensures Bits64(0x391c0cb3c5c95a63) == 0x391c0cb3c5c95a63
    ensures Bits64(0x4ed8aa4ae3418acb) == 0x4ed8aa4ae3418acb
    ensures Bits64(0x5b9cca4f7763e373) == 0x5b9cca4f7763e373
    ensures Bits64(0x682e6ff3d6b2b8a3) == 0x682e6ff3d6b2b8a3
  {
  }

  lemma Constants512_D0()
    ensures LaneOf(K512_D[0]) == K512At(48) && LaneOf(K512_D[1]) == K512At(49)
    ensures LaneOf(K512_D[2]) == K512At(50) && LaneOf(K512_D[3]) == K512At(51)
    ensures LaneOf(K512_D[4]) == K512At(52) && LaneOf(K512_D[5]) == K512At(53)
    ensures LaneOf(K512_D[6]) == K512At(54) && LaneOf(K512_D[7]) == K512At(55)
  {
    hide Bits64;
    Literals512_D0();
  }

  lemma Literals512_D8()
    ensures Bits64(0x748f82ee5defb2fc) == 0x748f82ee5defb2fc
    ensures Bits64(0x78a5636f43172f60) == 0x78a5636f43172f60
    ensures Bits64(0x84c87814a1f0ab72) == 0x84c87814a1f0ab72
    ensures Bits64(0x8cc702081a6439ec) == 0x8cc702081a6439ec
    ensures Bits64(0x90befffa23631e28) == 0x90befffa23631e28
    ensures Bits64(0xa4506cebde82bde9) == 0xa4506cebde82bde9
    ensures Bits64(0xbef9a3f7b2c67915) == 0xbef9a3f7b2c67915
    ensures Bits64(0xc67178f2e372532b) == 0xc67178f2e372532b
  {
  }

  lemma Constants512_D8()
    ensures LaneOf(K512_D[8]) == K512At(56) && LaneOf(K512_D[9]) == K512At(57)
    ensures LaneOf(K512_D[10]) == K512At(58) && LaneOf(K512_D[11]) == K512At(59)
    ensures LaneOf(K512_D[12]) == K512At(60) && LaneOf(K512_D[13]) == K512At(61)
    ensures LaneOf(K512_D[14]) == K512At(62) && LaneOf(K512_D[15]) == K512At(63)
  {
    hide Bits64;
    Literals512_D8();
  }

  lemma Literals512_E0()
    ensures Bits64(0xca273eceea26619c) == 0xca273eceea26619c
    ensures Bits64(0xd186b8c721c0c207) == 0xd186b8c721c0c207
    ensures Bits64(0xeada7dd6cde0eb1e) == 0xeada7dd6cde0eb1e
    ensures Bits64(0xf57d4f7fee6ed178) == 0xf57d4f7fee6ed178
    ensures Bits64(0x06f067aa72176fba) == 0x06f067aa72176fba
    ensures Bits64(0x0a637dc5a2c898a6) == 0x0a637dc5a2c898a6
    ensures Bits64(0x113f9804bef90dae) == 0x113f9804bef90dae
    ensures Bits64(0x1b710b35131c471b) == 0x1b710b35131c471b
  {
  }

  lemma Constants512_E0()
    ensures LaneOf(K512_E[0]) == K512At(64) && LaneOf(K512_E[1]) == K512At(65)
    ensures LaneOf(K512_E[2]) == K512At(66) && LaneOf(K512_E[3]) == K512At(67)
    ensures LaneOf(K512_E[4]) == K512At(68) && LaneOf(K512_E[5]) == K512At(69)
    ensures LaneOf(K512_E[6]) == K512At(70) && LaneOf(K512_E[7]) == K512At(71)
  {
    hide Bits64;
    Literals512_E0();
  }

  lemma Literals512_E8()
    ensures Bits64(0x28db77f523047d84) == 0x28db77f523047d84
    ensures Bits64(0x32caab7b40c72493) == 0x32caab7b40c72493
    ensures Bits64(0x3c9ebe0a15c9bebc) == 0x3c9ebe0a15c9bebc
    ensures Bits64(0x431d67c49c100d4c) == 0x431d67c49c100d4c
    ensures Bits64(0x4cc5d4becb3e42b6) == 0x4cc5d4becb3e42b6
    ensures Bits64(0x597f299cfc657e2a) == 0x597f299cfc657e2a
    ensures Bits64(0x5fcb6fab3ad6faec) == 0x5fcb6fab3ad6faec
    ensures Bits64(0x6c44198c4a475817) == 0x6c44198c4a475817
  {
  }

  lemma Constants512_E8()
    ensures LaneOf(K512_E[8]) == K512At(72) && LaneOf(K512_E[9]) == K512At(73)
    ensures LaneOf(K512_E[10]) == K512At(74) && LaneOf(K512_E[11]) == K512At(75)
    ensures LaneOf(K512_E[12]) == K512At(76) && LaneOf(K512_E[13]) == K512At(77)
    ensures LaneOf(K512_E[14]) == K512At(78) && LaneOf(K512_E[15]) == K512At(79)
  {
    hide Bits64;
    Literals512_E8();
  }

  lemma Chunks512()
    ensures K512 == K512_A + K512_B + K512_C + K512_D + K512_E
    ensures |K512_A| == 16 && |K512_B| == 16 && |K512_C| == 16 && |K512_D| == 16 && |K512_E| == 16
  {
  }

  lemma Keys512_A(i: nat)
    requires i < 16
    ensures |K512_A| == 16 && LaneOf(K512_A[i]) == K512At(i)
  {
    hide LaneOf, K512At;
    Constants512_A0();
    Constants512_A8();
    if i == 0 {} else if i == 1 {} else if i == 2 {} else if i == 3 {} else if i == 4 {} else if i == 5 {} else
    if i == 6 {} else if i == 7 {} else if i == 8 {} else if i == 9 {} else if i == 10 {} else
    if i == 11 {} else if i == 12 {} else if i == 13 {} else if i == 14 {} else {}
  }

  lemma Keys512_B(i: nat)
    requires i < 16
    ensures |K512_B| == 16 && LaneOf(K512_B[i]) == K512At(16 + i)
  {
    hide LaneOf, K512At;
    Constants512_B0();
    Constants512_B8();
    if i == 0 {} else if i == 1 {} else if i == 2 {} else if i == 3 {} else if i == 4 {} else if i == 5 {} else
    if i == 6 {} else if i == 7 {} else if i == 8 {} else if i == 9 {} else if i == 10 {} else
    if i == 11 {} else if i == 12 {} else if i == 13 {} else if i == 14 {} else {}
  }

  lemma Keys512_C(i: nat)
    requires i < 16
    ensures |K512_C| == 16 && LaneOf(K512_C[i]) == K512At(32 + i)
  {
    hide LaneOf, K512At;
    Constants512_C0();
    Constants512_C8();
    if i == 0 {} else if i == 1 {} else if i == 2 {} else if i == 3 {} else if i == 4 {} else if i == 5 {} else
    if i == 6 {} else if i == 7 {} else if i == 8 {} else if i == 9 {} else if i == 10 {} else
    if i == 11 {} else if i == 12 {} else if i == 13 {} else if i == 14 {} else {}
  }

  lemma Keys512_D(i: nat)
    requires i < 16
    ensures |K512_D| == 16 && LaneOf(K512_D[i]) == K512At(48 + i)
  {
    hide LaneOf, K512At;
    Constants512_D0();
    Constants512_D8();
    if i == 0 {} else if i == 1 {} else if i == 2 {} else if i == 3 {} else if i == 4 {} else if i == 5 {} else
    if i == 6 {} else if i == 7 {} else if i == 8 {} else if i == 9 {} else if i == 10 {} else
    if i == 11 {} else if i == 12 {} else if i == 13 {} else if i == 14 {} else {}
  }

  lemma Keys512_E(i: nat)
    requires i < 16
    ensures |K512_E| == 16 && LaneOf(K512_E[i]) == K512At(64 + i)
  {
    hide LaneOf, K512At;
    Constants512_E0();
    Constants512_E8();
    if i == 0 {} else if i == 1 {} else if i == 2 {} else if i == 3 {} else if i == 4 {} else if i == 5 {} else
    if i == 6 {} else if i == 7 {} else if i == 8 {} else if i == 9 {} else if i == 10 {} else
    if i == 11 {} else if i == 12 {} else if i == 13 {} else if i == 14 {} else {}
  }

  /** The constants of the suite are those of the table. */
  lemma Constant512(t: nat)
    requires t < 80
    ensures |K512| == 80 && Sha512().k[t] == K512At(t)
  {
    hide K512At, LaneOf, K512_A, K512_B, K512_C, K512_D, K512_E;
    Chunks512();
    if t < 16 {
      Keys512_A(t);
    } else if t < 32 {
      Keys512_B(t - 16);
    } else if t < 48 {
      Keys512_C(t - 32);
    } else if t < 64 {
      Keys512_D(t - 48);
    } else {
      Keys512_E(t - 64);
    }
  }

  lemma InitialLiterals512()
    ensures Bits64(0x6a09e667f3bcc908) == 0x6a09e667f3bcc908
    ensures Bits64(0xbb67ae8584caa73b) == 0xbb67ae8584caa73b
    ensures Bits64(0x3c6ef372fe94f82b) == 0x3c6ef372fe94f82b
    ensures Bits64(0xa54ff53a5f1d36f1) == 0xa54ff53a5f1d36f1
    ensures Bits64(0x510e527fade682d1) == 0x510e527fade682d1
    ensures Bits64(0x9b05688c2b3e6c1f) == 0x9b05688c2b3e6c1f
    ensures Bits64(0x1f83d9abfb41bd6b) == 0x1f83d9abfb41bd6b
    ensures Bits64(0x5be0cd19137e2179) == 0x5be0cd19137e2179
  {
  }

  lemma Initial512()
    ensures Sha512().h0 == [A512(3), A512(2), A512(1), A512(0), E512(3), E512(2), E512(1), E512(0)]
  {
    hide Bits64;
    InitialLiterals512();
  }

  lemma Count512()
    ensures Counter(24, 16) == [0, 0, 0, 0, 0, 0, 0, 0, 0, 0, 0, 0, 0, 0, 0, 24]
  {
    assert Bound(1) == 256;
    CounterWithZeros(24, 15, 1);
    assert Counter(24, 1) == [24];
  }

  lemma Packed512()
    ensures Pack512([0x61, 0x62, 0x63, 0x80, 0, 0, 0, 0]) == W512(0)
    ensures Pack512([0, 0, 0, 0, 0, 0, 0, 0]) == Lane(0)
    ensures Pack512([0, 0, 0, 0, 0, 0, 0, 24]) == W512(15)
    ensures W512(1) == Lane(0) && W512(2) == Lane(0) && W512(3) == Lane(0) && W512(4) == Lane(0) && W512(5) == Lane(0)
    ensures W512(6) == Lane(0) && W512(7) == Lane(0) && W512(8) == Lane(0) && W512(9) == Lane(0) && W512(10) == Lane(0)
    ensures W512(11) == Lane(0) && W512(12) == Lane(0) && W512(13) == Lane(0) && W512(14) == Lane(0)
  {
  }

  lemma BlockOf512()
    ensures Padded(Sha512(), ABC) == [0x61, 0x62, 0x63, 0x80] + Zeros(108)
         + [0, 0, 0, 0, 0, 0, 0, 0, 0, 0, 0, 0, 0, 0, 0, 24]
  {
    hide Zeros, Counter;
    Count512();
    assert ABC + [0x80] == [0x61, 0x62, 0x63, 0x80];
  }

  lemma Words512(t: nat)
    requires t < 16
    ensures |Padded(Sha512(), ABC)| == 128 && WordAt(Sha512(), Padded(Sha512(), ABC), t) == W512(t)
  {
    hide W512, Pack512, Padded, LanesOf;
    Packed512();
    BlockOf512();
    var block := Padded(Sha512(), ABC);
    if t == 0 {
      assert block[0..8] == [0x61, 0x62, 0x63, 0x80, 0, 0, 0, 0];
    } else if t == 15 {
      assert block[120..128] == [0, 0, 0, 0, 0, 0, 0, 24];
    } else {
      forall k | 8 * t <= k < 8 * t + 8
        ensures block[k] == 0
      {
      }
      assert block[8 * t..8 * t + 8] == [0, 0, 0, 0, 0, 0, 0, 0];
      if t == 1 {} else if t == 2 {} else if t == 3 {} else if t == 4 {} else if t == 5 {} else
      if t == 6 {} else if t == 7 {} else if t == 8 {} else if t == 9 {} else if t == 10 {} else
      if t == 11 {} else if t == 12 {} else if t == 13 {} else {}
    }
  }

  lemma Run512()
    ensures |Padded(Sha512(), ABC)| == BlockBytes(Sha512())
    ensures Compress(Sha512(), Sha512().h0, Padded(Sha512(), ABC))
         == AddAll(Sha512(), Sha512().h0,
                   [A512(83), A512(82), A512(81), A512(80), E512(83), E512(82), E512(81), E512(80)])
  {
    hide A512, E512, W512, K512At, LanesOf, Padded, Compress, AddAll, WordAt,
      Add512, Ch512, Maj512, F1At512, F2At512, F3At512, F4At512;
    var az, ez, ws := seq(84, t requires 0 <= t => A512(t)), seq(84, t requires 0 <= t => E512(t)),
      seq(80, t requires 0 <= t => W512(t));
    Constant512(0);
    Words512(0);
    Initial512();
    forall t | 0 <= t < 80
      ensures Turned(Sha512(), az, ez, ws, t)
    {
      AllTurn512(t);
      Constant512(t);
    }
    forall t | 16 <= t < 80
      ensures Extended(Sha512(), ws, t)
    {
      AllExtends512(t);
    }
    forall t | 0 <= t < 16
      ensures ws[t] == WordAt(Sha512(), Padded(Sha512(), ABC), t)
    {
      Words512(t);
    }
    RunCompresses(Sha512(), Padded(Sha512(), ABC), az, ez, ws);
  }

  lemma Sums512()
    ensures Add512(A512(3), A512(83)) == Lane(0xddaf35a193617aba)
    ensures Add512(A512(2), A512(82)) == Lane(0xcc417349ae204131)
    ensures Add512(A512(1), A512(81)) == Lane(0x12e6fa4e89a97ea2)
    ensures Add512(A512(0), A512(80)) == Lane(0x0a9eeee64b55d39a)
    ensures Add512(E512(3), E512(83)) == Lane(0x2192992a274fc1a8)
    ensures Add512(E512(2), E512(82)) == Lane(0x36ba3c23a3feebbd)
    ensures Add512(E512(1), E512(81)) == Lane(0x454d4423643ce80e)
    ensures Add512(E512(0), E512(80)) == Lane(0x2a9ac94fa54ca49f)
  {
  }

  lemma Bytes512()
    ensures Unpack512(Lane(0xddaf35a193617aba)) == [0xdd, 0xaf, 0x35, 0xa1, 0x93, 0x61, 0x7a, 0xba]
    ensures Unpack512(Lane(0xcc417349ae204131)) == [0xcc, 0x41, 0x73, 0x49, 0xae, 0x20, 0x41, 0x31]
    ensures Unpack512(Lane(0x12e6fa4e89a97ea2)) == [0x12, 0xe6, 0xfa, 0x4e, 0x89, 0xa9, 0x7e, 0xa2]
    ensures Unpack512(Lane(0x0a9eeee64b55d39a)) == [0x0a, 0x9e, 0xee, 0xe6, 0x4b, 0x55, 0xd3, 0x9a]
    ensures Unpack512(Lane(0x2192992a274fc1a8)) == [0x21, 0x92, 0x99, 0x2a, 0x27, 0x4f, 0xc1, 0xa8]
    ensures Unpack512(Lane(0x36ba3c23a3feebbd)) == [0x36, 0xba, 0x3c, 0x23, 0xa3, 0xfe, 0xeb, 0xbd]
    ensures Unpack512(Lane(0x454d4423643ce80e)) == [0x45, 0x4d, 0x44, 0x23, 0x64, 0x3c, 0xe8, 0x0e]
    ensures Unpack512(Lane(0x2a9ac94fa54ca49f)) == [0x2a, 0x9a, 0xc9, 0x4f, 0xa5, 0x4c, 0xa4, 0x9f]
  {
  }

  /** SHA-512 of "abc". */
  lemma Abc512()
    ensures DigestBytes(Sha512(), Hash(Sha512(), ABC)) ==
            [0xdd, 0xaf, 0x35, 0xa1, 0x93, 0x61, 0x7a, 0xba] + [0xcc, 0x41, 0x73, 0x49, 0xae, 0x20, 0x41, 0x31] +
            [0x12, 0xe6, 0xfa, 0x4e, 0x89, 0xa9, 0x7e, 0xa2] + [0x0a, 0x9e, 0xee, 0xe6, 0x4b, 0x55, 0xd3, 0x9a] +
            [0x21, 0x92, 0x99, 0x2a, 0x27, 0x4f, 0xc1, 0xa8] + [0x36, 0xba, 0x3c, 0x23, 0xa3, 0xfe, 0xeb, 0xbd] +
            [0x45, 0x4d, 0x44, 0x23, 0x64, 0x3c, 0xe8, 0x0e] + [0x2a, 0x9a, 0xc9, 0x4f, 0xa5, 0x4c, 0xa4, 0x9f]
  {
    hide Padded, Compress, LanesOf, Unpack512, A512, E512, Add512;
    Run512();
    Sums512();
    Bytes512();
    Initial512();
    OneBlock(Sha512(), Sha512().h0, Padded(Sha512(), ABC));
  }
}
