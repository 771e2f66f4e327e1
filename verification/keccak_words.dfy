/**
 The 25 state words of xptMiner/keccak.c, their names, and the moves that carry them back to their
 own places after a group of rounds has been run under changing names.
 */
module KeccakWords {
  import opened Lanes

  // The macro name aXY stands for word 5*Y + X of the state array.
  const a00: nat := 0
  const a10: nat := 1
  const a20: nat := 2
  const a30: nat := 3
  const a40: nat := 4
  const a01: nat := 5
  const a11: nat := 6
  const a21: nat := 7
  const a31: nat := 8
  const a41: nat := 9
  const a02: nat := 10
  const a12: nat := 11
  const a22: nat := 12
  const a32: nat := 13
  const a42: nat := 14
  const a03: nat := 15
  const a13: nat := 16
  const a23: nat := 17
  const a33: nat := 18
  const a43: nat := 19
  const a04: nat := 20
  const a14: nat := 21
  const a24: nat := 22
  const a34: nat := 23
  const a44: nat := 24

  /** The first twelve moves of P1_TO_P0. */
  ghost predicate Started1(now: seq<Lane>, was: seq<Lane>)
    requires |now| == 25 && |was| == 25
  {
    && now[a01] == was[a30] && now[a30] == was[a33] && now[a33] == was[a23] && now[a23] == was[a12]
    && now[a12] == was[a21] && now[a21] == was[a02] && now[a02] == was[a10] && now[a10] == was[a11]
    && now[a11] == was[a41] && now[a41] == was[a24] && now[a24] == was[a42] && now[a42] == was[a04]
    && now[a00] == was[a00] && now[a20] == was[a20] && now[a40] == was[a40] && now[a31] == was[a31]
    && now[a22] == was[a22] && now[a32] == was[a32] && now[a03] == was[a03] && now[a13] == was[a13]
    && now[a43] == was[a43] && now[a04] == was[a04] && now[a14] == was[a14] && now[a34] == was[a34]
    && now[a44] == was[a44]
  }

  method StartCycle1(a: array<Lane>)
    requires a.Length == 25
    modifies a
    ensures Started1(a[..], old(a[..]))
  {
    a[a01] := a[a30]; a[a30] := a[a33]; a[a33] := a[a23]; a[a23] := a[a12]; a[a12] := a[a21];
    a[a21] := a[a02]; a[a02] := a[a10]; a[a10] := a[a11]; a[a11] := a[a41]; a[a41] := a[a24];
    a[a24] := a[a42]; a[a42] := a[a04];
  }

  /** The next six moves. */
  ghost predicate Continued1(now: seq<Lane>, was: seq<Lane>)
    requires |now| == 25 && |was| == 25
  {
    && now[a04] == was[a20] && now[a20] == was[a22] && now[a22] == was[a32] && now[a32] == was[a43]
    && now[a43] == was[a34] && now[a34] == was[a03]
    && now[a00] == was[a00] && now[a10] == was[a10] && now[a30] == was[a30] && now[a40] == was[a40]
    && now[a01] == was[a01] && now[a11] == was[a11] && now[a21] == was[a21] && now[a31] == was[a31]
    && now[a41] == was[a41] && now[a02] == was[a02] && now[a12] == was[a12] && now[a42] == was[a42]
    && now[a03] == was[a03] && now[a13] == was[a13] && now[a23] == was[a23] && now[a33] == was[a33]
    && now[a14] == was[a14] && now[a24] == was[a24] && now[a44] == was[a44]
  }

  method ContinueCycle1(a: array<Lane>)
    requires a.Length == 25
    modifies a
    ensures Continued1(a[..], old(a[..]))
  {
    a[a04] := a[a20]; a[a20] := a[a22]; a[a22] := a[a32]; a[a32] := a[a43]; a[a43] := a[a34];
    a[a34] := a[a03];
  }

  /** The last six moves, which store the word kept from the first place. */
  ghost predicate Ended1(now: seq<Lane>, was: seq<Lane>, t: Lane)
    requires |now| == 25 && |was| == 25
  {
    && now[a03] == was[a40] && now[a40] == was[a44] && now[a44] == was[a14] && now[a14] == was[a31]
    && now[a31] == was[a13] && now[a13] == t
    && now[a00] == was[a00] && now[a10] == was[a10] && now[a20] == was[a20] && now[a30] == was[a30]
    && now[a01] == was[a01] && now[a11] == was[a11] && now[a21] == was[a21] && now[a41] == was[a41]
    && now[a02] == was[a02] && now[a12] == was[a12] && now[a22] == was[a22] && now[a32] == was[a32]
    && now[a42] == was[a42] && now[a23] == was[a23] && now[a33] == was[a33] && now[a43] == was[a43]
    && now[a04] == was[a04] && now[a24] == was[a24] && now[a34] == was[a34]
  }

  method EndCycle1(a: array<Lane>, t: Lane)
    requires a.Length == 25
    modifies a
    ensures Ended1(a[..], old(a[..]), t)
  {
    a[a03] := a[a40]; a[a40] := a[a44]; a[a44] := a[a14]; a[a14] := a[a31]; a[a31] := a[a13]; a[a13] := t;
  }

  /** Every word now holds what P1 named by its place. */
  ghost predicate MovedBack1(now: seq<Lane>, was: seq<Lane>)
    requires |now| == 25 && |was| == 25
  {
    && now[a00] == was[a00] && now[a01] == was[a30] && now[a02] == was[a10]
    && now[a03] == was[a40] && now[a04] == was[a20]
    && now[a10] == was[a11] && now[a11] == was[a41] && now[a12] == was[a21]
    && now[a13] == was[a01] && now[a14] == was[a31]
    && now[a20] == was[a22] && now[a21] == was[a02] && now[a22] == was[a32]
    && now[a23] == was[a12] && now[a24] == was[a42]
    && now[a30] == was[a33] && now[a31] == was[a13] && now[a32] == was[a43]
    && now[a33] == was[a23] && now[a34] == was[a03]
    && now[a40] == was[a44] && now[a41] == was[a24] && now[a42] == was[a04]
    && now[a43] == was[a34] && now[a44] == was[a14]
  }

  lemma Cycle1(s0: seq<Lane>, s1: seq<Lane>, s2: seq<Lane>, s3: seq<Lane>, t: Lane)
    requires |s0| == 25 && |s1| == 25 && |s2| == 25 && |s3| == 25 && t == s0[a01]
    requires Started1(s1, s0) && Continued1(s2, s1) && Ended1(s3, s2, t)
    ensures MovedBack1(s3, s0)
  {
  }

  /** P1_TO_P0. */
  method MoveBack1(a: array<Lane>)
    requires a.Length == 25
    modifies a
    ensures MovedBack1(a[..], old(a[..]))
  {
    hide Started1, Continued1, Ended1, MovedBack1;
    ghost var s0 := a[..];
    var t := a[a01];
    StartCycle1(a);
    ghost var s1 := a[..];
    ContinueCycle1(a);
    ghost var s2 := a[..];
    EndCycle1(a, t);
    Cycle1(s0, s1, s2, a[..], t);
  }

  /** The first two cycles of P4_TO_P0. */
  ghost predicate FrontMoved4(now: seq<Lane>, was: seq<Lane>)
    requires |now| == 25 && |was| == 25
  {
    && now[a01] == was[a12] && now[a12] == was[a11] && now[a11] == was[a04] && now[a04] == was[a43]
    && now[a43] == was[a44] && now[a44] == was[a01] && now[a02] == was[a24] && now[a24] == was[a22]
    && now[a22] == was[a03] && now[a03] == was[a31] && now[a31] == was[a33] && now[a33] == was[a02]
    && now[a00] == was[a00] && now[a10] == was[a10] && now[a20] == was[a20] && now[a30] == was[a30]
    && now[a40] == was[a40] && now[a21] == was[a21] && now[a41] == was[a41] && now[a32] == was[a32]
    && now[a42] == was[a42] && now[a13] == was[a13] && now[a23] == was[a23] && now[a14] == was[a14]
    && now[a34] == was[a34]
  }

  method FrontCycles4(a: array<Lane>)
    requires a.Length == 25
    modifies a
    ensures FrontMoved4(a[..], old(a[..]))
  {
    var t: Lane;
    t := a[a01]; a[a01] := a[a12]; a[a12] := a[a11]; a[a11] := a[a04]; a[a04] := a[a43]; a[a43] := a[a44];
    a[a44] := t;
    t := a[a02]; a[a02] := a[a24]; a[a24] := a[a22]; a[a22] := a[a03]; a[a03] := a[a31]; a[a31] := a[a33];
    a[a33] := t;
  }

  /** The last two cycles. */
  ghost predicate BackMoved4(now: seq<Lane>, was: seq<Lane>)
    requires |now| == 25 && |was| == 25
  {
    && now[a10] == was[a42] && now[a42] == was[a32] && now[a32] == was[a40] && now[a40] == was[a13]
    && now[a13] == was[a23] && now[a23] == was[a10] && now[a14] == was[a30] && now[a30] == was[a21]
    && now[a21] == was[a41] && now[a41] == was[a20] && now[a20] == was[a34] && now[a34] == was[a14]
    && now[a00] == was[a00] && now[a01] == was[a01] && now[a11] == was[a11] && now[a31] == was[a31]
    && now[a02] == was[a02] && now[a12] == was[a12] && now[a22] == was[a22] && now[a03] == was[a03]
    && now[a33] == was[a33] && now[a43] == was[a43] && now[a04] == was[a04] && now[a24] == was[a24]
    && now[a44] == was[a44]
  }

  method BackCycles4(a: array<Lane>)
    requires a.Length == 25
    modifies a
    ensures BackMoved4(a[..], old(a[..]))
  {
    var t: Lane;
    t := a[a10]; a[a10] := a[a42]; a[a42] := a[a32]; a[a32] := a[a40]; a[a40] := a[a13]; a[a13] := a[a23];
    a[a23] := t;
    t := a[a14]; a[a14] := a[a30]; a[a30] := a[a21]; a[a21] := a[a41]; a[a41] := a[a20]; a[a20] := a[a34];
    a[a34] := t;
  }

  /** Every word now holds what P4 named by its place. */
  ghost predicate MovedBack4(now: seq<Lane>, was: seq<Lane>)
    requires |now| == 25 && |was| == 25
  {
    && now[a00] == was[a00] && now[a01] == was[a12] && now[a02] == was[a24]
    && now[a03] == was[a31] && now[a04] == was[a43]
    && now[a10] == was[a42] && now[a11] == was[a04] && now[a12] == was[a11]
    && now[a13] == was[a23] && now[a14] == was[a30]
    && now[a20] == was[a34] && now[a21] == was[a41] && now[a22] == was[a03]
    && now[a23] == was[a10] && now[a24] == was[a22]
    && now[a30] == was[a21] && now[a31] == was[a33] && now[a32] == was[a40]
    && now[a33] == was[a02] && now[a34] == was[a14]
    && now[a40] == was[a13] && now[a41] == was[a20] && now[a42] == was[a32]
    && now[a43] == was[a44] && now[a44] == was[a01]
  }

  lemma Cycles4(s0: seq<Lane>, s1: seq<Lane>, s2: seq<Lane>)
    requires |s0| == 25 && |s1| == 25 && |s2| == 25
    requires FrontMoved4(s1, s0) && BackMoved4(s2, s1)
    ensures MovedBack4(s2, s0)
  {
  }

  /** P4_TO_P0. */
  method MoveBack4(a: array<Lane>)
    requires a.Length == 25
    modifies a
    ensures MovedBack4(a[..], old(a[..]))
  {
    hide *;
    ghost var s0 := a[..];
    FrontCycles4(a);
    ghost var s1 := a[..];
    BackCycles4(a);
    Cycles4(s0, s1, a[..]);
  }

  /** The first four cycles of P8_TO_P0. */
  ghost predicate FrontMoved8(now: seq<Lane>, was: seq<Lane>)
    requires |now| == 25 && |was| == 25
  {
    && now[a01] == was[a11] && now[a11] == was[a43] && now[a43] == was[a01] && now[a02] == was[a22]
    && now[a22] == was[a31] && now[a31] == was[a02] && now[a03] == was[a33] && now[a33] == was[a24]
    && now[a24] == was[a03] && now[a04] == was[a44] && now[a44] == was[a12] && now[a12] == was[a04]
    && now[a00] == was[a00] && now[a10] == was[a10] && now[a20] == was[a20] && now[a30] == was[a30]
    && now[a40] == was[a40] && now[a21] == was[a21] && now[a41] == was[a41] && now[a32] == was[a32]
    && now[a42] == was[a42] && now[a13] == was[a13] && now[a23] == was[a23] && now[a14] == was[a14]
    && now[a34] == was[a34]
  }

  method FrontCycles8(a: array<Lane>)
    requires a.Length == 25
    modifies a
    ensures FrontMoved8(a[..], old(a[..]))
  {
    var t: Lane;
    t := a[a01]; a[a01] := a[a11]; a[a11] := a[a43]; a[a43] := t;
    t := a[a02]; a[a02] := a[a22]; a[a22] := a[a31]; a[a31] := t;
    t := a[a03]; a[a03] := a[a33]; a[a33] := a[a24]; a[a24] := t;
    t := a[a04]; a[a04] := a[a44]; a[a44] := a[a12]; a[a12] := t;
  }

  /** The last four cycles. */
  ghost predicate BackMoved8(now: seq<Lane>, was: seq<Lane>)
    requires |now| == 25 && |was| == 25
  {
    && now[a10] == was[a32] && now[a32] == was[a13] && now[a13] == was[a10] && now[a14] == was[a21]
    && now[a21] == was[a20] && now[a20] == was[a14] && now[a23] == was[a42] && now[a42] == was[a40]
    && now[a40] == was[a23] && now[a30] == was[a41] && now[a41] == was[a34] && now[a34] == was[a30]
    && now[a00] == was[a00] && now[a01] == was[a01] && now[a11] == was[a11] && now[a31] == was[a31]
    && now[a02] == was[a02] && now[a12] == was[a12] && now[a22] == was[a22] && now[a03] == was[a03]
    && now[a33] == was[a33] && now[a43] == was[a43] && now[a04] == was[a04] && now[a24] == was[a24]
    && now[a44] == was[a44]
  }

  method BackCycles8(a: array<Lane>)
    requires a.Length == 25
    modifies a
    ensures BackMoved8(a[..], old(a[..]))
  {
    var t: Lane;
    t := a[a10]; a[a10] := a[a32]; a[a32] := a[a13]; a[a13] := t;
    t := a[a14]; a[a14] := a[a21]; a[a21] := a[a20]; a[a20] := t;
    t := a[a23]; a[a23] := a[a42]; a[a42] := a[a40]; a[a40] := t;
    t := a[a30]; a[a30] := a[a41]; a[a41] := a[a34]; a[a34] := t;
  }

  /** Every word now holds what P8 named by its place. */
  ghost predicate MovedBack8(now: seq<Lane>, was: seq<Lane>)
    requires |now| == 25 && |was| == 25
  {
    && now[a00] == was[a00] && now[a01] == was[a11] && now[a02] == was[a22]
    && now[a03] == was[a33] && now[a04] == was[a44]
    && now[a10] == was[a32] && now[a11] == was[a43] && now[a12] == was[a04]
    && now[a13] == was[a10] && now[a14] == was[a21]
    && now[a20] == was[a14] && now[a21] == was[a20] && now[a22] == was[a31]
    && now[a23] == was[a42] && now[a24] == was[a03]
    && now[a30] == was[a41] && now[a31] == was[a02] && now[a32] == was[a13]
    && now[a33] == was[a24] && now[a34] == was[a30]
    && now[a40] == was[a23] && now[a41] == was[a34] && now[a42] == was[a40]
    && now[a43] == was[a01] && now[a44] == was[a12]
  }

  lemma Cycles8(s0: seq<Lane>, s1: seq<Lane>, s2: seq<Lane>)
    requires |s0| == 25 && |s1| == 25 && |s2| == 25
    requires FrontMoved8(s1, s0) && BackMoved8(s2, s1)
    ensures MovedBack8(s2, s0)
  {
  }

  /** P8_TO_P0. */
  method MoveBack8(a: array<Lane>)
    requires a.Length == 25
    modifies a
    ensures MovedBack8(a[..], old(a[..]))
  {
    hide *;
    ghost var s0 := a[..];
    FrontCycles8(a);
    ghost var s1 := a[..];
    BackCycles8(a);
    Cycles8(s0, s1, a[..]);
  }
}
