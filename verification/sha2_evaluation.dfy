/**
 The compression function of section 6 of FIPS 180-4 as a run of two registers: of the eight working
 variables only a and e are new in each round, the others are earlier values of these two.
 */
module Sha2Evaluation {
  import opened Sha2Suite

  // ----- the registers -----

  function FirstSum<W>(s: Suite<W>, e: W, f: W, g: W, h: W, k: W, w: W): W {
    s.add(s.add(s.add(s.add(h, s.f2(e)), s.ch(e, f, g)), k), w)
  }

  function SecondSum<W>(s: Suite<W>, a: W, b: W, c: W): W {
    s.add(s.f1(a), s.maj(a, b, c))
  }

  /** In round t the registers take on the values t + 4. */
  predicate Turned<W(==)>(s: Suite<W>, az: seq<W>, ez: seq<W>, ws: seq<W>, t: nat)
    requires t + 4 < |az| == |ez| && t < |s.k| && t < |ws|
  {
    var t1 := FirstSum(s, ez[t + 3], ez[t + 2], ez[t + 1], ez[t], s.k[t], ws[t]);
    && az[t + 4] == s.add(t1, SecondSum(s, az[t + 3], az[t + 2], az[t + 1]))
    && ez[t + 4] == s.add(az[t], t1)
  }

  /** The working variables a to h before round t. */
  function Variables<W>(az: seq<W>, ez: seq<W>, t: nat): (v: seq<W>)
    requires t + 4 <= |az| == |ez|
    ensures |v| == 8
  {
    [az[t + 3], az[t + 2], az[t + 1], az[t], ez[t + 3], ez[t + 2], ez[t + 1], ez[t]]
  }

  lemma OneTurn<W>(s: Suite<W>, az: seq<W>, ez: seq<W>, ws: seq<W>, t: nat)
    requires t < |s.k| && t < |ws| && t + 4 < |az| == |ez| && Turned(s, az, ez, ws, t)
    ensures Next(s, Variables(az, ez, t), s.k[t], ws[t]) == Variables(az, ez, t + 1)
  {
  }

  lemma {:induction false} RunOfRegisters<W>(s: Suite<W>, az: seq<W>, ez: seq<W>, ws: seq<W>, n: nat)
    requires n <= |s.k| && n <= |ws| && n + 4 <= |az| == |ez|
    requires forall t :: 0 <= t < n ==> Turned(s, az, ez, ws, t)
    ensures Rounds(s, Variables(az, ez, 0), ws, n) == Variables(az, ez, n)
  {
    hide Turned, Variables, Next;
    if n > 0 {
      RunOfRegisters(s, az, ez, ws, n - 1);
      assert Turned(s, az, ez, ws, n - 1);
      OneTurn(s, az, ez, ws, n - 1);
    }
  }

  // ----- the schedule -----

  predicate Extended<W(==)>(s: Suite<W>, ws: seq<W>, t: nat)
    requires 16 <= t < |ws|
  {
    ws[t] == s.add(s.add(s.add(s.f4(ws[t - 2]), ws[t - 7]), s.f3(ws[t - 15])), ws[t - 16])
  }

  lemma {:induction false} ScheduleIs<W>(s: Suite<W>, block: seq<bv8>, ws: seq<W>, n: nat)
    requires |block| == BlockBytes(s) && 16 <= n <= |ws|
    requires forall t :: 0 <= t < 16 ==> ws[t] == WordAt(s, block, t)
    requires forall t :: 16 <= t < n ==> Extended(s, ws, t)
    ensures Schedule(s, block, n) == ws[..n]
  {
    hide WordAt;
    if n > 16 {
      ScheduleIs(s, block, ws, n - 1);
      assert Extended(s, ws, n - 1);
      assert ws[..n] == ws[..n - 1] + [ws[n - 1]];
    }
  }

  /** What one block becomes, from a run of the registers and the schedule. */
  lemma RunCompresses<W>(s: Suite<W>, block: seq<bv8>, az: seq<W>, ez: seq<W>, ws: seq<W>)
    requires |block| == BlockBytes(s) && |s.k| >= 16 && |ws| == |s.k| && |az| == |ez| == |s.k| + 4
    requires forall t :: 0 <= t < 16 ==> ws[t] == WordAt(s, block, t)
    requires forall t :: 16 <= t < |ws| ==> Extended(s, ws, t)
    requires forall t :: 0 <= t < |ws| ==> Turned(s, az, ez, ws, t)
    ensures Compress(s, Variables(az, ez, 0), block)
         == AddAll(s, Variables(az, ez, 0), Variables(az, ez, |ws|))
  {
    hide WordAt, Extended, Turned, Rounds, Schedule, Variables, AddAll;
    ScheduleIs(s, block, ws, |ws|);
    assert ws[..|ws|] == ws;
    RunOfRegisters(s, az, ez, ws, |ws|);
  }

  lemma OneBlock<W>(s: Suite<W>, h: seq<W>, block: seq<bv8>)
    requires |h| == 8 && |s.k| >= 16 && s.wordBytes > 0 && |block| == BlockBytes(s)
    ensures Blocks(s, h, block) == Compress(s, h, block)
  {
    hide Compress;
    assert block[..BlockBytes(s)] == block && block[BlockBytes(s)..] == [];
    var r := Compress(s, h, block);
    assert Blocks(s, r, []) == r;
  }

  // ----- tables -----

  /** The message "abc". */
  const ABC: seq<bv8> := [0x61, 0x62, 0x63]

  /** One of sixteen. */
  function Pick<W>(i: int, w0: W, w1: W, w2: W, w3: W, w4: W, w5: W, w6: W, w7: W, w8: W, w9: W, w10: W, w11: W,
                   w12: W, w13: W, w14: W, w15: W): W {
    if i < 8 then
      if i < 4 then (if i < 2 then (if i < 1 then w0 else w1) else if i < 3 then w2 else w3)
      else (if i < 6 then (if i < 5 then w4 else w5) else if i < 7 then w6 else w7)
    else
      if i < 12 then (if i < 10 then (if i < 9 then w8 else w9) else if i < 11 then w10 else w11)
      else (if i < 14 then (if i < 13 then w12 else w13) else if i < 15 then w14 else w15)
  }
}
