/**
 What the empty rotation macro of xptMiner/scrypt.cpp makes of the mix, and the rotation that sections 3
 and 6 of RFC 7914 mean.
 */
module ScryptRotation {
  import opened Words
  import opened Salsa
  import opened ScryptMix
  import opened ScryptHmac
  import opened Scrypt

  /** The rotation of RFC 7914; the source has it commented out. */
  function RotateLeft(a: Word, n: nat): Word {
    if 0 < n < 32 then Word((a.bits << n) | (a.bits >> (32 - n))) else a
  }

  /** ROTL(a, n) when _rotl expands to nothing: the comma expression (a, n). */
  function EmptyMacro(a: Word, n: nat): Word {
    Word((n % 0x1_0000_0000) as bv32)
  }

  /** scrypt of RFC 7914 with N = 1024, r = 1, p = 1 and 32 bytes of output. */
  function StandardScrypt(input: seq<bv8>): seq<bv8> {
    ScryptOf(RotateLeft, input)
  }

  // ----- the empty macro -----

  lemma QuarterToggles(y: Quarter)
    ensures QuarterRound(EmptyMacro, y) ==
            Quarter(Xor(y.y0, Word(18)), Xor(y.y1, Word(7)), Xor(y.y2, Word(9)), Xor(y.y3, Word(13)))
  {
    assert forall a :: EmptyMacro(a, 7) == Word(7);
    assert forall a :: EmptyMacro(a, 9) == Word(9);
    assert forall a :: EmptyMacro(a, 13) == Word(13);
    assert forall a :: EmptyMacro(a, 18) == Word(18);
  }

  const COLUMN_TOGGLES: Block := [
    Word(18), Word(13), Word(9), Word(7), Word(7), Word(18), Word(13), Word(9),
    Word(9), Word(7), Word(18), Word(13), Word(13), Word(9), Word(7), Word(18)
  ]

  const ROW_TOGGLES: Block := [
    Word(18), Word(7), Word(9), Word(13), Word(13), Word(18), Word(7), Word(9),
    Word(9), Word(13), Word(18), Word(7), Word(7), Word(9), Word(13), Word(18)
  ]

  lemma ColumnToggles(x: Block)
    ensures ColumnRound(EmptyMacro, x) == XorBlocks(x, COLUMN_TOGGLES)
  {
    hide Xor, QuarterRound, EmptyMacro;
    QuarterToggles(Quarter(x[0], x[4], x[8], x[12]));
    QuarterToggles(Quarter(x[5], x[9], x[13], x[1]));
    QuarterToggles(Quarter(x[10], x[14], x[2], x[6]));
    QuarterToggles(Quarter(x[15], x[3], x[7], x[11]));
  }

  lemma RowToggles(y: Block)
    ensures RowRound(EmptyMacro, y) == XorBlocks(y, ROW_TOGGLES)
  {
    hide Xor, QuarterRound, EmptyMacro;
    QuarterToggles(Quarter(y[0], y[1], y[2], y[3]));
    QuarterToggles(Quarter(y[5], y[6], y[7], y[4]));
    QuarterToggles(Quarter(y[10], y[11], y[8], y[9]));
    QuarterToggles(Quarter(y[15], y[12], y[13], y[14]));
  }

  lemma XorTwice(x: Block, c: Block, r: Block)
    ensures XorBlocks(XorBlocks(XorBlocks(XorBlocks(x, c), r), c), r) == x
  {
    hide Xor;
    forall i | 0 <= i < 16
      ensures Xor(Xor(Xor(Xor(x[i], c[i]), r[i]), c[i]), r[i]) == x[i]
    {
      XorsCancel(x[i], c[i], r[i]);
    }
  }

  lemma XorsCancel(x: Word, c: Word, r: Word)
    ensures Xor(Xor(Xor(Xor(x, c), r), c), r) == x
  {
  }

  /** Two double rounds toggle every bit back. */
  lemma TwoDoubleRoundsCancel(x: Block)
    ensures RowRound(EmptyMacro, ColumnRound(EmptyMacro, RowRound(EmptyMacro, ColumnRound(EmptyMacro, x)))) == x
  {
    hide RowRound, ColumnRound, XorBlocks;
    var c, r := COLUMN_TOGGLES, ROW_TOGGLES;
    var x1 := XorBlocks(XorBlocks(x, c), r);
    ColumnToggles(x);
    RowToggles(XorBlocks(x, c));
    ColumnToggles(x1);
    RowToggles(XorBlocks(x1, c));
    XorTwice(x, c, r);
  }

  lemma UnrollTwo(rotl: Rotl, x: Block, n: nat)
    ensures DoubleRounds(rotl, x, n + 2) ==
            RowRound(rotl, ColumnRound(rotl, RowRound(rotl, ColumnRound(rotl, DoubleRounds(rotl, x, n)))))
  {
    hide RowRound, ColumnRound;
    assert DoubleRounds(rotl, x, n + 1) == RowRound(rotl, ColumnRound(rotl, DoubleRounds(rotl, x, n)));
  }

  /** The core as it ships does not mix: it doubles every word of the xor. */
  lemma ShippedCoreDoubles(a: Block, b: Block)
    ensures XorSalsa(EmptyMacro, a, b) == AddBlocks(XorBlocks(a, b), XorBlocks(a, b))
  {
    hide RowRound, ColumnRound, XorBlocks, AddBlocks;
    var x := XorBlocks(a, b);
    assert DoubleRounds(EmptyMacro, x, 0) == x;
    UnrollTwo(EmptyMacro, x, 0);
    UnrollTwo(EmptyMacro, x, 2);
    TwoDoubleRoundsCancel(x);
  }

  // ----- what becomes of the memory -----

  /** The low k bits of every word are zero. */
  function LowBits(k: nat): bv32 {
    if k == 0 then 0 else (LowBits(k - 1) << 1) | 1
  }

  predicate AreClear(ws: seq<Word>, low: bv32) {
    forall i :: 0 <= i < |ws| ==> ws[i].bits & low == 0
  }

  lemma {:induction false} LowBitsAreLow(k: nat)
    ensures LowBits(k) & (LowBits(k) + 1) == 0
  {
    if k > 0 {
      LowBitsAreLow(k - 1);
      NextIsLow(LowBits(k - 1));
    }
  }

  lemma NextIsLow(m: bv32)
    requires m & (m + 1) == 0
    ensures ((m << 1) | 1) & (((m << 1) | 1) + 1) == 0
  {
  }

  lemma DoublingClears(a: Word, b: Word, m: bv32)
    requires a.bits & m == 0 && b.bits & m == 0
    ensures Add(Xor(a, b), Xor(a, b)).bits & ((m << 1) | 1) == 0
  {
  }

  lemma FewerBits(a: Word, m: bv32)
    requires m & (m + 1) == 0 && a.bits & ((m << 1) | 1) == 0
    ensures a.bits & m == 0
  {
  }

  lemma CoreClears(a: Block, b: Block, m: bv32)
    requires AreClear(a, m) && AreClear(b, m)
    ensures AreClear(XorSalsa(EmptyMacro, a, b), (m << 1) | 1)
  {
    hide Add, Xor, XorSalsa, EmptyMacro;
    ShippedCoreDoubles(a, b);
    forall i | 0 <= i < 16
      ensures XorSalsa(EmptyMacro, a, b)[i].bits & ((m << 1) | 1) == 0
    {
      DoublingClears(a[i], b[i], m);
    }
  }

  lemma BlockMixClears(x: Wide, m: bv32)
    requires m & (m + 1) == 0 && AreClear(x, m)
    ensures AreClear(BlockMix(EmptyMacro, x), (m << 1) | 1)
  {
    hide XorSalsa, EmptyMacro;
    var y0 := XorSalsa(EmptyMacro, x[..16], x[16..]);
    CoreClears(x[..16], x[16..], m);
    forall i | 0 <= i < 16
      ensures y0[i].bits & m == 0
    {
      FewerBits(y0[i], m);
    }
    CoreClears(x[16..], y0, m);
  }

  lemma {:induction false} IteratesClear(x: Wide, i: nat)
    ensures AreClear(Iterated(EmptyMacro, x, i), LowBits(i))
  {
    hide BlockMix, EmptyMacro;
    if i > 0 {
      IteratesClear(x, i - 1);
      LowBitsAreLow(i - 1);
      BlockMixClears(Iterated(EmptyMacro, x, i - 1), LowBits(i - 1));
    }
  }

  lemma {:induction false} AllBitsFrom32(i: nat)
    requires i >= 32
    ensures LowBits(i) == 0xFFFF_FFFF
    decreases i
  {
    if i > 32 {
      AllBitsFrom32(i - 1);
    } else {
      assert LowBits(4) == 0xF;
      assert LowBits(8) == 0xFF;
      assert LowBits(12) == 0xFFF;
      assert LowBits(16) == 0xFFFF;
      assert LowBits(20) == 0xF_FFFF;
      assert LowBits(24) == 0xFF_FFFF;
      assert LowBits(28) == 0xFFF_FFFF;
    }
  }

  /** After 32 mixes nothing is left, whatever the mix began with. */
  lemma IteratesVanish(x: Wide, i: nat)
    requires i >= 32
    ensures Iterated(EmptyMacro, x, i) == seq(32, _ => ZERO)
  {
    hide Iterated, EmptyMacro;
    IteratesClear(x, i);
    AllBitsFrom32(i);
    var r := Iterated(EmptyMacro, x, i);
    forall k | 0 <= k < 32
      ensures r[k] == ZERO
    {
      assert r[k].bits & 0xFFFF_FFFF == 0;
      NoBits(r[k]);
    }
  }

  lemma NoBits(w: Word)
    requires w.bits & 0xFFFF_FFFF == 0
    ensures w == ZERO
  {
  }

  /** Of the 1024 entries of the scratchpad, all but the first 32 are zeros. */
  lemma ScratchpadVanishes(b: Wide, vs: seq<Word>, j: nat, k: nat)
    requires Stored(EmptyMacro, b, vs, N) && 32 <= j < N && k < 32
    ensures 32 * j + k < |vs| && vs[32 * j + k] == ZERO
  {
    hide Iterated, EmptyMacro;
    IteratesVanish(b, j);
    assert vs[32 * j + k] == Iterated(EmptyMacro, b, j)[k];
  }

  // ----- the rotation against the test vector in section 8 of RFC 7914 -----

  const ROUND0: Block := [
    Word(0x219a877e), Word(0x86c93e4f), Word(0xe640a97c), Word(0x268f7141),
    Word(0x5b55eeba), Word(0xb5c1618c), Word(0x1146f80d), Word(0x1d3bcd6d),
    Word(0x19f324ee), Word(0x853d9bdf), Word(0x4b1e1214), Word(0x32aac55a),
    Word(0x291d0276), Word(0x2948c709), Word(0x8dc6ebed), Word(0x5ec2b8b8)
  ]

  const ROUND1: Block := [
    Word(0x08857f83), Word(0xbc4dffa4), Word(0x225a0768), Word(0x90307809),
    Word(0x0091149f), Word(0xc3e54d59), Word(0xd113843e), Word(0xfb5a4eb0),
    Word(0x4ecb1eaa), Word(0xc0727641), Word(0x6585dfa2), Word(0x6a7df42b),
    Word(0xaf742b9d), Word(0x4ee75de5), Word(0xbf43fb43), Word(0x55af2fd9)
  ]

  const ROUND2: Block := [
    Word(0x482665b1), Word(0xe6b639e8), Word(0x5528d0b6), Word(0x7163bf72),
    Word(0x93580e01), Word(0x0c50b5fd), Word(0xea23785c), Word(0xead125ec),
    Word(0xf701a95d), Word(0xd590a7ea), Word(0x209aedeb), Word(0x965705b9),
    Word(0xd6e1a597), Word(0x6f4dbdbc), Word(0x53299386), Word(0x10a42604)
  ]

  const ROUND3: Block := [
    Word(0xb4cf7248), Word(0xb8e79720), Word(0x3e130cef), Word(0x0cf661a1),
    Word(0x175daa0e), Word(0xde3bd4f1), Word(0x5dbd3119), Word(0xdfde6fd7),
    Word(0xff1ed7e2), Word(0x56e75513), Word(0xd8b882ab), Word(0x0c781823),
    Word(0x46dfa758), Word(0x1f5b9d7a), Word(0x0c1ab003), Word(0x0f4f975e)
  ]

  const ROUND4: Block := [
    Word(0xe9e67835), Word(0x5a0e63c0), Word(0x85bf1cf2), Word(0xbce03a58),
    Word(0x95e02c9d), Word(0x10a33116), Word(0x91024ee3), Word(0xa399c709),
    Word(0x678d68da), Word(0x70e69077), Word(0x3dffe364), Word(0xc393c734),
    Word(0xf3fc17d5), Word(0x8805fb7c), Word(0x4e709f83), Word(0x64b0ce84)
  ]

  const ROUND5: Block := [
    Word(0xfbef1227), Word(0x12c789d1), Word(0x56808ce8), Word(0x9eaae64c),
    Word(0x64a829f3), Word(0x43dbdd85), Word(0xd82bca5e), Word(0x14f0670f),
    Word(0x7ac93847), Word(0x282cfb42), Word(0x60e759d5), Word(0xaa38b147),
    Word(0xdfbb4c3b), Word(0x285d4b0d), Word(0xcf69bc64), Word(0x05ea3220)
  ]

  const ROUND6: Block := [
    Word(0x28f2a180), Word(0x5e3bb01c), Word(0x03040a5c), Word(0x69e5ea6b),
    Word(0x997f9f3c), Word(0x1c650ad9), Word(0x9a28760a), Word(0x1c5778b3),
    Word(0x89e18946), Word(0x5055ce7c), Word(0x3fec3108), Word(0x20123a83),
    Word(0x764c0e51), Word(0x44dda9f5), Word(0xf8616b01), Word(0x5632c6dc)
  ]

  const ROUND7: Block := [
    Word(0xb0e98b83), Word(0x346a63e9), Word(0x3d22e238), Word(0x4b6545d0),
    Word(0x062877f3), Word(0x1abe5aed), Word(0x22bcf3e0), Word(0x2c4e21f0),
    Word(0xbfd36f18), Word(0x0008b4c1), Word(0x678d4e77), Word(0x4cea3475),
    Word(0x0aad76ee), Word(0x9fa29dcd), Word(0xf232e26c), Word(0x0fa7223d)
  ]

  const ROUND8: Block := [
    Word(0x7aea9826), Word(0x1302ca17), Word(0xe589d7bf), Word(0xdf5f9ac1),
    Word(0x25cb5c4a), Word(0xc7729c16), Word(0x51d583f0), Word(0x0bf39b29),
    Word(0x4e3e14c6), Word(0x37a92e04), Word(0x6ca759ea), Word(0x87eba846),
    Word(0xe7af226e), Word(0x332bca23), Word(0xafa0c137), Word(0x22cca90f)
  ]

  const OUTPUT: Block := [
    Word(0x9c851fa4), Word(0x99cc0866), Word(0xcbca813b), Word(0x05ef0c02),
    Word(0x81214b04), Word(0x7d33fda2), Word(0x631c7bfd), Word(0x292f6896),
    Word(0x683139b4), Word(0xbce6c9e3), Word(0xb7c56bfe), Word(0xba966da0),
    Word(0x10cc24e4), Word(0x5c74912c), Word(0x3d67ad24), Word(0x818f61c7)
  ]

  const NOTHING: Block := seq(16, _ => ZERO)

  lemma Column0()
    ensures ColumnRound(RotateLeft, ROUND0) == ROUND1
  {
  }

  lemma Row0()
    ensures RowRound(RotateLeft, ROUND1) == ROUND2
  {
  }

  lemma Column1()
    ensures ColumnRound(RotateLeft, ROUND2) == ROUND3
  {
  }

  lemma Row1()
    ensures RowRound(RotateLeft, ROUND3) == ROUND4
  {
  }

  lemma Column2()
    ensures ColumnRound(RotateLeft, ROUND4) == ROUND5
  {
  }

  lemma Row2()
    ensures RowRound(RotateLeft, ROUND5) == ROUND6
  {
  }

  lemma Column3()
    ensures ColumnRound(RotateLeft, ROUND6) == ROUND7
  {
  }

  lemma Row3()
    ensures RowRound(RotateLeft, ROUND7) == ROUND8
  {
  }

  lemma FourRounds()
    ensures DoubleRounds(RotateLeft, ROUND0, 4) == ROUND8
  {
    hide ColumnRound, RowRound, ROUND0, ROUND1, ROUND2, ROUND3, ROUND4, ROUND5, ROUND6, ROUND7, ROUND8;
    Column0();
    Row0();
    Column1();
    Row1();
    Column2();
    Row2();
    Column3();
    Row3();
    assert DoubleRounds(RotateLeft, ROUND0, 0) == ROUND0;
    UnrollTwo(RotateLeft, ROUND0, 0);
    UnrollTwo(RotateLeft, ROUND0, 2);
  }

  lemma FirstSums()
    ensures Add(ROUND0[0], ROUND8[0]) == OUTPUT[0] && Add(ROUND0[1], ROUND8[1]) == OUTPUT[1]
    ensures Add(ROUND0[2], ROUND8[2]) == OUTPUT[2] && Add(ROUND0[3], ROUND8[3]) == OUTPUT[3]
  {
  }

  lemma NextSums()
    ensures Add(ROUND0[4], ROUND8[4]) == OUTPUT[4] && Add(ROUND0[5], ROUND8[5]) == OUTPUT[5]
    ensures Add(ROUND0[6], ROUND8[6]) == OUTPUT[6] && Add(ROUND0[7], ROUND8[7]) == OUTPUT[7]
  {
  }

  lemma LastSums()
    ensures Add(ROUND0[8], ROUND8[8]) == OUTPUT[8] && Add(ROUND0[9], ROUND8[9]) == OUTPUT[9]
    ensures Add(ROUND0[10], ROUND8[10]) == OUTPUT[10] && Add(ROUND0[11], ROUND8[11]) == OUTPUT[11]
    ensures Add(ROUND0[12], ROUND8[12]) == OUTPUT[12] && Add(ROUND0[13], ROUND8[13]) == OUTPUT[13]
    ensures Add(ROUND0[14], ROUND8[14]) == OUTPUT[14] && Add(ROUND0[15], ROUND8[15]) == OUTPUT[15]
  {
  }

  lemma SumIsOutput()
    ensures AddBlocks(ROUND0, ROUND8) == OUTPUT
  {
    hide Add, ROUND0, ROUND8, OUTPUT;
    FirstSums();
    NextSums();
    LastSums();
  }

  lemma XorWithNothing(x: Block)
    ensures XorBlocks(x, NOTHING) == x
  {
    hide Xor;
    forall i | 0 <= i < 16
      ensures Xor(x[i], ZERO) == x[i]
    {
      XorZero(x[i]);
    }
  }

  /** With the rotation the core is Salsa20/8 on the published vector; as shipped it is not. */
  lemma RotationMatters()
    ensures XorSalsa(RotateLeft, ROUND0, NOTHING) == OUTPUT
    ensures XorSalsa(EmptyMacro, ROUND0, NOTHING) != OUTPUT
  {
    hide DoubleRounds, XorBlocks, RotateLeft, EmptyMacro;
    XorWithNothing(ROUND0);
    FourRounds();
    SumIsOutput();
    ShippedCoreDoubles(ROUND0, NOTHING);
    FirstWordDiffers();
  }

  lemma FirstWordDiffers()
    ensures AddBlocks(ROUND0, ROUND0)[0] != OUTPUT[0]
  {
  }

  // ----- the mix against the test vector in section 9 of RFC 7914 -----

  const FIRST: Block := [
    Word(0x650bcef7), Word(0xa4722d3d), Word(0xabf58c10), Word(0xddff12e9),
    Word(0xdb167677), Word(0x0ea727bb), Word(0xaef30482), Word(0xad6f0f2d),
    Word(0x488ff689), Word(0x7be8d111), Word(0x40d73bcc), Word(0x29fd9f0a),
    Word(0x84014f09), Word(0xf3749563), Word(0x31a1e59a), Word(0xd7bc1752)
  ]

  const SECOND: Block := [
    Word(0x44914989), Word(0x22bb1372), Word(0x4db5256c), Word(0xfb7063a8),
    Word(0x804398cd), Word(0xbb664637), Word(0xbfb5fc8f), Word(0xb054c240),
    Word(0x517cd267), Word(0xfed54ace), Word(0x0bc929d8), Word(0x1b575a50),
    Word(0xad1c4d7f), Word(0xda3c526a), Word(0xbc670e77), Word(0x897eafea)
  ]

  const STATE0: Block := [
    Word(0xd814562d), Word(0xbb771b14), Word(0x867fa457), Word(0xfe9f6faa),
    Word(0x0162d3c9), Word(0xc655bb95), Word(0xdca98772), Word(0x997baad6),
    Word(0x394debd3), Word(0x4233832d), Word(0xbc0c4226), Word(0xa1c137f0),
    Word(0xbdd0699b), Word(0x8648c346), Word(0x8100a353), Word(0x08f1ce2d)
  ]

  const STATE1: Block := [
    Word(0x7c1ebc98), Word(0xcd9b42d1), Word(0xf52ed246), Word(0xe5be9926),
    Word(0x9d459a4e), Word(0xad1c2ec4), Word(0x250e87c1), Word(0x495cec04),
    Word(0x1310a8b2), Word(0xa2372efb), Word(0x9893cd5b), Word(0xb59f8acd),
    Word(0xd314e75f), Word(0x67893a55), Word(0x1fd2e84c), Word(0x9acf916f)
  ]

  const STATE2: Block := [
    Word(0xafb7c3f9), Word(0x7c65e889), Word(0x5450a3d8), Word(0x03bcbd18),
    Word(0xc62b1bcc), Word(0x46671c68), Word(0xf424a1f7), Word(0xdd097404),
    Word(0x80010bad), Word(0xf809c632), Word(0x3ca675e7), Word(0x939f0084),
    Word(0x49eddc94), Word(0x67b8f9dd), Word(0x14365026), Word(0x30b3c0ea)
  ]

  const STATE3: Block := [
    Word(0xaad84ddb), Word(0x57092a1f), Word(0x79c50ce9), Word(0xec3d1063),
    Word(0x127e7056), Word(0xe880388f), Word(0x0c703368), Word(0x5ec000c1),
    Word(0x02b60010), Word(0x81ab2161), Word(0x9a51903c), Word(0xfadaf8f4),
    Word(0x5cdca357), Word(0xce393a7d), Word(0xca073a5c), Word(0x04af1982)
  ]

  const STATE4: Block := [
    Word(0x9db596f3), Word(0xed0a1d1e), Word(0xc6769bae), Word(0x3e2dbd6c),
    Word(0xfd193358), Word(0x1c09d1ca), Word(0xb26d1d3f), Word(0x1dfc8bbf),
    Word(0x46ef4faa), Word(0x69b0dd0e), Word(0x2989c76c), Word(0x149215ab),
    Word(0x9a51c0c2), Word(0x6fa51231), Word(0x70b88931), Word(0x1cf32121)
  ]

  const SECOND_OUTPUT: Block := [
    Word(0x75c9ed20), Word(0xa8813832), Word(0x4cf64005), Word(0x3ccd2d16),
    Word(0xfe7c0721), Word(0xe25f8d5f), Word(0x8f16a4b1), Word(0xb7783695),
    Word(0x803d3b7d), Word(0xabe4603b), Word(0xe5960992), Word(0xb6534d9b),
    Word(0x58222a5d), Word(0xf5edd577), Word(0xf1b92c84), Word(0x25e4ef4e)
  ]

  lemma Double0()
    ensures RowRound(RotateLeft, ColumnRound(RotateLeft, STATE0)) == STATE1
  {
  }

  lemma Double1()
    ensures RowRound(RotateLeft, ColumnRound(RotateLeft, STATE1)) == STATE2
  {
  }

  lemma Double2()
    ensures RowRound(RotateLeft, ColumnRound(RotateLeft, STATE2)) == STATE3
  {
  }

  lemma Double3()
    ensures RowRound(RotateLeft, ColumnRound(RotateLeft, STATE3)) == STATE4
  {
  }

  lemma FirstXor0()
    ensures Xor(FIRST[0], SECOND[0]) == ROUND0[0] && Xor(FIRST[1], SECOND[1]) == ROUND0[1]
    ensures Xor(FIRST[2], SECOND[2]) == ROUND0[2] && Xor(FIRST[3], SECOND[3]) == ROUND0[3]
  {
  }

  lemma FirstXor1()
    ensures Xor(FIRST[4], SECOND[4]) == ROUND0[4] && Xor(FIRST[5], SECOND[5]) == ROUND0[5]
    ensures Xor(FIRST[6], SECOND[6]) == ROUND0[6] && Xor(FIRST[7], SECOND[7]) == ROUND0[7]
  {
  }

  lemma FirstXor2()
    ensures Xor(FIRST[8], SECOND[8]) == ROUND0[8] && Xor(FIRST[9], SECOND[9]) == ROUND0[9]
    ensures Xor(FIRST[10], SECOND[10]) == ROUND0[10] && Xor(FIRST[11], SECOND[11]) == ROUND0[11]
  {
  }

  lemma FirstXor3()
    ensures Xor(FIRST[12], SECOND[12]) == ROUND0[12] && Xor(FIRST[13], SECOND[13]) == ROUND0[13]
    ensures Xor(FIRST[14], SECOND[14]) == ROUND0[14] && Xor(FIRST[15], SECOND[15]) == ROUND0[15]
  {
  }

  lemma SecondXor0()
    ensures Xor(SECOND[0], OUTPUT[0]) == STATE0[0] && Xor(SECOND[1], OUTPUT[1]) == STATE0[1]
    ensures Xor(SECOND[2], OUTPUT[2]) == STATE0[2] && Xor(SECOND[3], OUTPUT[3]) == STATE0[3]
  {
  }

  lemma SecondXor1()
    ensures Xor(SECOND[4], OUTPUT[4]) == STATE0[4] && Xor(SECOND[5], OUTPUT[5]) == STATE0[5]
    ensures Xor(SECOND[6], OUTPUT[6]) == STATE0[6] && Xor(SECOND[7], OUTPUT[7]) == STATE0[7]
  {
  }

  lemma SecondXor2()
    ensures Xor(SECOND[8], OUTPUT[8]) == STATE0[8] && Xor(SECOND[9], OUTPUT[9]) == STATE0[9]
    ensures Xor(SECOND[10], OUTPUT[10]) == STATE0[10] && Xor(SECOND[11], OUTPUT[11]) == STATE0[11]
  {
  }

  lemma SecondXor3()
    ensures Xor(SECOND[12], OUTPUT[12]) == STATE0[12] && Xor(SECOND[13], OUTPUT[13]) == STATE0[13]
    ensures Xor(SECOND[14], OUTPUT[14]) == STATE0[14] && Xor(SECOND[15], OUTPUT[15]) == STATE0[15]
  {
  }

  lemma SecondSum0()
    ensures Add(STATE0[0], STATE4[0]) == SECOND_OUTPUT[0] && Add(STATE0[1], STATE4[1]) == SECOND_OUTPUT[1]
    ensures Add(STATE0[2], STATE4[2]) == SECOND_OUTPUT[2] && Add(STATE0[3], STATE4[3]) == SECOND_OUTPUT[3]
  {
  }

  lemma SecondSum1()
    ensures Add(STATE0[4], STATE4[4]) == SECOND_OUTPUT[4] && Add(STATE0[5], STATE4[5]) == SECOND_OUTPUT[5]
    ensures Add(STATE0[6], STATE4[6]) == SECOND_OUTPUT[6] && Add(STATE0[7], STATE4[7]) == SECOND_OUTPUT[7]
  {
  }

  lemma SecondSum2()
    ensures Add(STATE0[8], STATE4[8]) == SECOND_OUTPUT[8] && Add(STATE0[9], STATE4[9]) == SECOND_OUTPUT[9]
    ensures Add(STATE0[10], STATE4[10]) == SECOND_OUTPUT[10] && Add(STATE0[11], STATE4[11]) == SECOND_OUTPUT[11]
  {
  }

  lemma SecondSum3()
    ensures Add(STATE0[12], STATE4[12]) == SECOND_OUTPUT[12] && Add(STATE0[13], STATE4[13]) == SECOND_OUTPUT[13]
    ensures Add(STATE0[14], STATE4[14]) == SECOND_OUTPUT[14] && Add(STATE0[15], STATE4[15]) == SECOND_OUTPUT[15]
  {
  }

  lemma FirstCore()
    ensures XorSalsa(RotateLeft, FIRST, SECOND) == OUTPUT
  {
    hide Xor, Add, DoubleRounds, FIRST, SECOND, ROUND0, ROUND8, OUTPUT;
    FirstXor0();
    FirstXor1();
    FirstXor2();
    FirstXor3();
    assert XorBlocks(FIRST, SECOND) == ROUND0;
    FourRounds();
    SumIsOutput();
  }

  lemma SecondRounds()
    ensures DoubleRounds(RotateLeft, STATE0, 4) == STATE4
  {
    hide ColumnRound, RowRound, STATE0, STATE1, STATE2, STATE3, STATE4;
    Double0();
    Double1();
    Double2();
    Double3();
    assert DoubleRounds(RotateLeft, STATE0, 0) == STATE0;
    UnrollTwo(RotateLeft, STATE0, 0);
    UnrollTwo(RotateLeft, STATE0, 2);
  }

  lemma SecondCore()
    ensures XorSalsa(RotateLeft, SECOND, OUTPUT) == SECOND_OUTPUT
  {
    hide Xor, Add, DoubleRounds, SECOND, OUTPUT, STATE0, STATE4, SECOND_OUTPUT;
    SecondXor0();
    SecondXor1();
    SecondXor2();
    SecondXor3();
    assert XorBlocks(SECOND, OUTPUT) == STATE0;
    SecondRounds();
    SecondSum0();
    SecondSum1();
    SecondSum2();
    SecondSum3();
    assert AddBlocks(STATE0, STATE4) == SECOND_OUTPUT;
  }

  /** scryptBlockMix maps the published input to the published output. */
  lemma PublishedBlockMix()
    ensures BlockMix(RotateLeft, FIRST + SECOND) == OUTPUT + SECOND_OUTPUT
  {
    hide XorSalsa, FIRST, SECOND, OUTPUT, SECOND_OUTPUT;
    assert (FIRST + SECOND)[..16] == FIRST && (FIRST + SECOND)[16..] == SECOND;
    FirstCore();
    SecondCore();
  }
}
