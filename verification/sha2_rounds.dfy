/**
 sha256_transf and sha512_transf of xptMiner/sha2.cpp, with rolled loops and with the eight working
 variables taking turns in eight roles.
 */
module Sha2Rounds {
  import opened ByteStrings
  import opened Sha2Suite

  // ----- the schedule array -----

  lemma ScheduleStart<W>(s: Suite<W>, block: seq<bv8>)
    requires |block| == BlockBytes(s)
    ensures Schedule(s, block, 16) == BlockWords(s, block, 16)
  {
  }

  lemma ScheduleNext<W>(s: Suite<W>, block: seq<bv8>, n: nat)
    requires |block| == BlockBytes(s) && n >= 16
    ensures Schedule(s, block, n + 1) == Schedule(s, block, n) + [Extension(s, Schedule(s, block, n))]
  {
  }

  /** PACK of the sixteen block words and SCR of the others. */
  method Expand<W>(s: Suite<W>, block: seq<bv8>) returns (w: array<W>)
    requires |block| == BlockBytes(s) && |s.k| >= 16 && |s.h0| == 8
    ensures fresh(w) && w.Length == |s.k| && w[..] == Schedule(s, block, |s.k|)
  {
    hide Extension, WordAt, Schedule;
    var zero := s.h0[0];
    w := new W[|s.k|](_ => zero);
    var j := 0;
    while j < 16
      invariant j <= 16 && w[..j] == BlockWords(s, block, j)
    {
      w[j] := WordAt(s, block, j);
      j := j + 1;
    }
    ScheduleStart(s, block);
    while j < |s.k|
      invariant 16 <= j <= |s.k| && w[..j] == Schedule(s, block, j)
    {
      ScheduleNext(s, block, j);
      w[j] := Scr(s, w, j);
      j := j + 1;
    }
    assert w[..] == w[..|s.k|];
  }

  /** The value the macro SCR assigns to w[i]. */
  method Scr<W>(s: Suite<W>, w: array<W>, i: nat) returns (x: W)
    requires 16 <= i < w.Length
    ensures x == Extension(s, w[..i])
  {
    x := s.add(s.add(s.add(s.f4(w[i - 2]), w[i - 7]), s.f3(w[i - 15])), w[i - 16]);
  }

  // ----- the rolled rounds -----

  /** A round as FIPS 180-4 writes it: every variable hands its value on. */
  method RolledRound<W>(s: Suite<W>, wv: array<W>, k: W, w: W)
    requires wv.Length == 8
    modifies wv
    ensures wv[..] == Next(s, old(wv[..]), k, w)
  {
    ghost var next := Next(s, wv[..], k, w);
    var t1 := s.add(s.add(s.add(s.add(wv[7], s.f2(wv[4])), s.ch(wv[4], wv[5], wv[6])), k), w);
    var t2 := s.add(s.f1(wv[0]), s.maj(wv[0], wv[1], wv[2]));
    NextIs(s, wv[..], k, w, t1, t2);
    hide Next;
    wv[7] := wv[6];
    wv[6] := wv[5];
    wv[5] := wv[4];
    wv[4] := s.add(wv[3], t1);
    wv[3] := wv[2];
    wv[2] := wv[1];
    wv[1] := wv[0];
    wv[0] := s.add(t1, t2);
  }

  lemma NextIs<W>(s: Suite<W>, v: seq<W>, k: W, w: W, t1: W, t2: W)
    requires |v| == 8
    requires t1 == s.add(s.add(s.add(s.add(v[7], s.f2(v[4])), s.ch(v[4], v[5], v[6])), k), w)
    requires t2 == s.add(s.f1(v[0]), s.maj(v[0], v[1], v[2]))
    ensures var n := Next(s, v, k, w);
            && n[0] == s.add(t1, t2) && n[1] == v[0] && n[2] == v[1] && n[3] == v[2]
            && n[4] == s.add(v[3], t1) && n[5] == v[4] && n[6] == v[5] && n[7] == v[6]
  {
  }

  method RolledRounds<W>(s: Suite<W>, wv: array<W>, w: array<W>)
    requires wv.Length == 8 && w.Length == |s.k| && wv != w
    modifies wv
    ensures wv[..] == Rounds(s, old(wv[..]), w[..], |s.k|)
  {
    hide Next;
    ghost var v := wv[..];
    var j := 0;
    while j < |s.k|
      invariant j <= |s.k| && wv[..] == Rounds(s, v, w[..], j)
    {
      RolledRound(s, wv, s.k[j], w[j]);
      j := j + 1;
    }
  }

  // ----- the unrolled rounds -----

  predicate AreRoles(n: seq<nat>) {
    && |n| == 8
    && (forall i :: 0 <= i < 8 ==> n[i] < 8)
    && (forall i, j :: 0 <= i < j < 8 ==> n[i] != n[j])
  }

  /** The variables a to h when they live in the given places. */
  function Cast<W>(v: seq<W>, n: seq<nat>): (r: seq<W>)
    requires |v| == 8 && AreRoles(n)
    ensures |r| == 8
  {
    [v[n[0]], v[n[1]], v[n[2]], v[n[3]], v[n[4]], v[n[5]], v[n[6]], v[n[7]]]
  }

  /** The macro EXP: two places are updated, and every role moves on by one place. */
  method Exp<W>(s: Suite<W>, wv: array<W>, a: nat, b: nat, c: nat, d: nat, e: nat, f: nat, g: nat, h: nat, k: W, w: W)
    requires wv.Length == 8 && AreRoles([a, b, c, d, e, f, g, h])
    modifies wv
    ensures AreRoles([h, a, b, c, d, e, f, g])
    ensures Cast(wv[..], [h, a, b, c, d, e, f, g]) == Next(s, Cast(old(wv[..]), [a, b, c, d, e, f, g, h]), k, w)
  {
    ghost var n := [a, b, c, d, e, f, g, h];
    assert a == n[0] && b == n[1] && c == n[2] && d == n[3] && e == n[4] && f == n[5] && g == n[6] && h == n[7];
    var t1 := s.add(s.add(s.add(s.add(wv[h], s.f2(wv[e])), s.ch(wv[e], wv[f], wv[g])), k), w);
    var t2 := s.add(s.f1(wv[a]), s.maj(wv[a], wv[b], wv[c]));
    wv[d] := s.add(wv[d], t1);
    wv[h] := s.add(t1, t2);
  }

  lemma Recast<W>(v: seq<W>)
    requires |v| == 8
    ensures AreRoles([0, 1, 2, 3, 4, 5, 6, 7]) && Cast(v, [0, 1, 2, 3, 4, 5, 6, 7]) == v
  {
  }

  /** Eight rounds in which the variables stay and the roles go round once. */
  method EightRounds<W>(s: Suite<W>, wv: array<W>, w: array<W>, j: nat)
    requires wv.Length == 8 && w.Length == |s.k| && wv != w && j + 8 <= |s.k|
    modifies wv
    ensures wv[..] == EightNext(s, old(wv[..]), w[..], j)
  {
    hide Next, Cast, AreRoles;
    Recast(wv[..]);
    Exp(s, wv, 0, 1, 2, 3, 4, 5, 6, 7, s.k[j], w[j]);
    Exp(s, wv, 7, 0, 1, 2, 3, 4, 5, 6, s.k[j + 1], w[j + 1]);
    Exp(s, wv, 6, 7, 0, 1, 2, 3, 4, 5, s.k[j + 2], w[j + 2]);
    Exp(s, wv, 5, 6, 7, 0, 1, 2, 3, 4, s.k[j + 3], w[j + 3]);
    Exp(s, wv, 4, 5, 6, 7, 0, 1, 2, 3, s.k[j + 4], w[j + 4]);
    Exp(s, wv, 3, 4, 5, 6, 7, 0, 1, 2, s.k[j + 5], w[j + 5]);
    Exp(s, wv, 2, 3, 4, 5, 6, 7, 0, 1, s.k[j + 6], w[j + 6]);
    Exp(s, wv, 1, 2, 3, 4, 5, 6, 7, 0, s.k[j + 7], w[j + 7]);
    Recast(wv[..]);
  }

  function EightNext<W>(s: Suite<W>, v: seq<W>, w: seq<W>, j: nat): (r: seq<W>)
    requires |v| == 8 && j + 8 <= |s.k| && |s.k| == |w|
    ensures |r| == 8
  {
    var v4 := Next(s, Next(s, Next(s, Next(s, v, s.k[j], w[j]), s.k[j + 1], w[j + 1]), s.k[j + 2], w[j + 2]),
      s.k[j + 3], w[j + 3]);
    Next(s, Next(s, Next(s, Next(s, v4, s.k[j + 4], w[j + 4]), s.k[j + 5], w[j + 5]), s.k[j + 6], w[j + 6]),
      s.k[j + 7], w[j + 7])
  }

  lemma EightMore<W>(s: Suite<W>, v: seq<W>, w: seq<W>, j: nat)
    requires |v| == 8 && j + 8 <= |s.k| && |s.k| == |w|
    ensures Rounds(s, v, w, j + 8) == EightNext(s, Rounds(s, v, w, j), w, j)
  {
    hide Next;
    assert Rounds(s, v, w, j + 1) == Next(s, Rounds(s, v, w, j), s.k[j], w[j]);
    assert Rounds(s, v, w, j + 2) == Next(s, Rounds(s, v, w, j + 1), s.k[j + 1], w[j + 1]);
    assert Rounds(s, v, w, j + 3) == Next(s, Rounds(s, v, w, j + 2), s.k[j + 2], w[j + 2]);
    assert Rounds(s, v, w, j + 4) == Next(s, Rounds(s, v, w, j + 3), s.k[j + 3], w[j + 3]);
    assert Rounds(s, v, w, j + 5) == Next(s, Rounds(s, v, w, j + 4), s.k[j + 4], w[j + 4]);
    assert Rounds(s, v, w, j + 6) == Next(s, Rounds(s, v, w, j + 5), s.k[j + 5], w[j + 5]);
    assert Rounds(s, v, w, j + 7) == Next(s, Rounds(s, v, w, j + 6), s.k[j + 6], w[j + 6]);
  }

  lemma NoRounds<W>(s: Suite<W>, v: seq<W>, w: seq<W>)
    requires |v| == 8
    ensures Rounds(s, v, w, 0) == v
  {
  }

  method UnrolledRounds<W>(s: Suite<W>, wv: array<W>, w: array<W>)
    requires wv.Length == 8 && w.Length == |s.k| && wv != w && |s.k| % 8 == 0
    modifies wv
    ensures wv[..] == Rounds(s, old(wv[..]), w[..], |s.k|)
  {
    hide EightNext, Rounds;
    ghost var v := wv[..];
    NoRounds(s, v, w[..]);
    var j := 0;
    while j < |s.k|
      invariant j <= |s.k| && j % 8 == 0 && wv[..] == Rounds(s, v, w[..], j)
    {
      EightMore(s, v, w[..], j);
      EightRounds(s, wv, w, j);
      j := j + 8;
    }
  }

  // ----- the transformation -----

  /** sha256_transf and sha512_transf: block_nb blocks are folded into h, rolled or unrolled. */
  method Transf<W>(s: Suite<W>, h: array<W>, message: seq<bv8>, blockNb: nat, unrolled: bool)
    requires h.Length == 8 && |s.k| >= 16 && |s.k| % 8 == 0 && |s.h0| == 8 && s.wordBytes > 0
    requires |message| == blockNb * BlockBytes(s)
    modifies h
    ensures h[..] == Blocks(s, old(h[..]), message)
  {
    hide Compress, Schedule, Rounds;
    ghost var h0 := h[..];
    var n := BlockBytes(s);
    var subBlocks := message;
    var i := 0;
    while i < blockNb
      invariant i <= blockNb && |subBlocks| == (blockNb - i) * n
      invariant Blocks(s, h[..], subBlocks) == Blocks(s, h0, message)
    {
      OneLess(blockNb - i, n);
      OneBlock(s, h, subBlocks[..n], unrolled);
      subBlocks := subBlocks[n..];
      i := i + 1;
    }
  }

  lemma OneLess(k: nat, n: nat)
    requires k > 0
    ensures (k - 1) * n >= 0 && k * n == (k - 1) * n + n
  {
  }

  method OneBlock<W>(s: Suite<W>, h: array<W>, block: seq<bv8>, unrolled: bool)
    requires h.Length == 8 && |s.k| >= 16 && |s.k| % 8 == 0 && |s.h0| == 8 && |block| == BlockBytes(s)
    modifies h
    ensures h[..] == Compress(s, old(h[..]), block)
  {
    hide Schedule, Rounds, AddAll;
    var w := Expand(s, block);
    var zero := h[0];
    var wv := new W[8](_ => zero);
    wv[0], wv[1], wv[2], wv[3] := h[0], h[1], h[2], h[3];
    wv[4], wv[5], wv[6], wv[7] := h[4], h[5], h[6], h[7];
    assert wv[..] == h[..];
    if unrolled {
      UnrolledRounds(s, wv, w);
    } else {
      RolledRounds(s, wv, w);
    }
    AddInto(s, h, wv);
  }

  method AddInto<W>(s: Suite<W>, h: array<W>, wv: array<W>)
    requires h.Length == 8 && wv.Length == 8 && h != wv
    modifies h
    ensures h[..] == AddAll(s, old(h[..]), wv[..])
  {
    h[0], h[1], h[2], h[3] := s.add(h[0], wv[0]), s.add(h[1], wv[1]), s.add(h[2], wv[2]), s.add(h[3], wv[3]);
    h[4], h[5], h[6], h[7] := s.add(h[4], wv[4]), s.add(h[5], wv[5]), s.add(h[6], wv[6]), s.add(h[7], wv[7]);
  }
}
