/**
 The collision search of protoshares_process_512: three passes of a two-bit counting filter that
 compact the list of hashes in place, and a scan for pairs of equal hashes on what is left.
 */
module ProtosharesFilter {
  import opened MachineWords

  // ----- the counting filter -----

  // COUNTBITS_SLOTS_POWER is 19: so many slots, sixteen of them in a 32-bit word.
  const SLOTS: nat := 524288
  const WORDS: nat := SLOTS / 16

  /** The low bit of the two-bit counter number s of a word; the high bit is the next one. */
  function Place(s: nat): bv32 {
    if s == 0 then 1 else Place(s - 1) << 2
  }

  predicate IsPlace(m: bv32, s: nat) {
    || (s == 0 && m == 0x1)
    || (s == 1 && m == 0x4)
    || (s == 2 && m == 0x10)
    || (s == 3 && m == 0x40)
    || (s == 4 && m == 0x100)
    || (s == 5 && m == 0x400)
    || (s == 6 && m == 0x1000)
    || (s == 7 && m == 0x4000)
    || (s == 8 && m == 0x10000)
    || (s == 9 && m == 0x40000)
    || (s == 10 && m == 0x100000)
    || (s == 11 && m == 0x400000)
    || (s == 12 && m == 0x1000000)
    || (s == 13 && m == 0x4000000)
    || (s == 14 && m == 0x10000000)
    || (s == 15 && m == 0x40000000)
  }

  lemma {:induction false} PlaceIsPlace(s: nat)
    requires s < 16
    ensures IsPlace(Place(s), s)
  {
    if s > 0 {
      PlaceIsPlace(s - 1);
    }
  }

  /** How a count is stored at a place: 00, 01, and 11 for two or more. */
  predicate Stores(w: bv32, m: bv32, count: nat) {
    (w & m != 0 <==> count >= 1) && (w & (m << 1) != 0 <==> count >= 2)
  }

  /** set_or_double on one word: both bits of the counter are computed by one addition and one or. */
  function Bumped(old': bv32, m: bv32): bv32 {
    old' | (m + (old' & m))
  }

  /** is_in_filter_twice on one word. */
  predicate Twice(w: bv32, s: nat) {
    w & (Place(s) << 1) != 0
  }

  lemma BumpedBits(w: bv32, m: bv32, s: nat)
    requires IsPlace(m, s)
    ensures Bumped(w, m) & m != 0
    ensures Bumped(w, m) & (m << 1) != 0 <==> w & m != 0 || w & (m << 1) != 0
  {
  }

  /** The carry of the addition stays inside the counter. */
  lemma BumpedOutside(w: bv32, m: bv32, s: nat, k: bv32, t: nat)
    requires IsPlace(m, s) && IsPlace(k, t) && s != t
    ensures Bumped(w, m) & k == w & k && Bumped(w, m) & (k << 1) == w & (k << 1)
  {
  }

  // ----- entries and slots -----

  /** One result of the hash step: a 50-bit birthday and where it came from. */
  datatype Entry = Entry(hash: uint64, index: uint64)

  const MURMUR: nat := 0x9ddf_ea08_eb38_2d69

  /** The counter a hash falls into in a pass: bits of the hash times an odd constant. */
  function Slot(hash: uint64, pass: nat): (s: nat)
    requires 1 <= pass <= 3
    ensures s < SLOTS
  {
    var birthday := hash * MURMUR % 0x1_0000_0000_0000_0000;
    var shift := if pass == 1 then 0x2000 else if pass == 2 then 0x400_0000 else 0x80_0000_0000;
    birthday / shift % 0x1_0000_0000 % SLOTS
  }

  /** Nineteen bits of the product, from bit 13, 26 or 39 on. */
  lemma SlotMeans(hash: uint64)
    ensures var product := hash * 0x9ddf_ea08_eb38_2d69 % 0x1_0000_0000_0000_0000;
            && Slot(hash, 1) == product / 0x2000 % 0x8_0000
            && Slot(hash, 2) == product / 0x400_0000 % 0x8_0000
            && Slot(hash, 3) == product / 0x80_0000_0000 % 0x8_0000
  {
    var product: nat := hash * 0x9ddf_ea08_eb38_2d69 % 0x1_0000_0000_0000_0000;
    NineteenBits(product / 0x2000);
    NineteenBits(product / 0x400_0000);
    NineteenBits(product / 0x80_0000_0000);
  }

  lemma NineteenBits(x: nat)
    ensures x % 0x1_0000_0000 % 0x8_0000 == x % 0x8_0000
  {
  }

  /** How many entries of es fall into counter s. */
  function Count(es: seq<Entry>, pass: nat, s: nat): nat
    requires 1 <= pass <= 3
  {
    if es == [] then 0
    else Count(es[..|es| - 1], pass, s) + if Slot(es[|es| - 1].hash, pass) == s then 1 else 0
  }

  /** The entries of es whose counter, over all entries, reached two. */
  function Shared(es: seq<Entry>, all: seq<Entry>, pass: nat): (r: seq<Entry>)
    requires 1 <= pass <= 3
    ensures |r| <= |es|
  {
    if es == [] then []
    else
      (if Count(all, pass, Slot(es[0].hash, pass)) >= 2 then [es[0]] else []) + Shared(es[1..], all, pass)
  }

  lemma {:induction false} SharedAppend(es: seq<Entry>, e: Entry, all: seq<Entry>, pass: nat)
    requires 1 <= pass <= 3
    ensures Shared(es + [e], all, pass) == Shared(es, all, pass) + Shared([e], all, pass)
  {
    if es != [] {
      assert (es + [e])[1..] == es[1..] + [e];
      SharedAppend(es[1..], e, all, pass);
    }
  }

  /** One pass: what is dropped has its counter to itself. */
  function Filtered(es: seq<Entry>, pass: nat): (r: seq<Entry>)
    requires 1 <= pass <= 3
    ensures |r| <= |es|
  {
    Shared(es, es, pass)
  }

  /** Entry i is the word pair at 1 + 2 * i of the buffer. */
  function EntryAt(b: seq<uint64>, i: nat): Entry
    requires 2 + 2 * i < |b|
  {
    Entry(b[1 + 2 * i], b[2 + 2 * i])
  }

  function Entries(b: seq<uint64>, n: nat): (r: seq<Entry>)
    requires 2 * n < |b|
    ensures |r| == n
    ensures forall i :: 0 <= i < n ==> r[i] == EntryAt(b, i)
  {
    seq(n, i requires 0 <= i < n => EntryAt(b, i))
  }

  // ----- the filter passes -----

  predicate Counted(f: seq<bv32>, es: seq<Entry>, pass: nat)
    requires 1 <= pass <= 3 && |f| >= WORDS
  {
    forall s: nat :: s < SLOTS ==> Stores(f[s / 16], Place(s % 16), Count(es, pass, s))
  }

  /** reset_filter clears the words of the filter and no others. */
  method ResetFilter(countbits: array<bv32>)
    requires countbits.Length >= WORDS
    modifies countbits
    ensures forall k :: 0 <= k < WORDS ==> countbits[k] == 0
    ensures countbits[WORDS..] == old(countbits[WORDS..])
  {
    var k := 0;
    while k < WORDS
      invariant 0 <= k <= WORDS
      invariant forall j :: 0 <= j < k ==> countbits[j] == 0
      invariant countbits[WORDS..] == old(countbits[WORDS..])
    {
      countbits[k] := 0;
      k := k + 1;
    }
  }

  function BumpedAt(f: seq<bv32>, s: nat): (r: seq<bv32>)
    requires s < SLOTS && |f| >= WORDS
    ensures |r| == |f|
  {
    f[s / 16 := Bumped(f[s / 16], Place(s % 16))]
  }

  lemma StoredAfterBump(w: bv32, s: nat, t: nat, count: nat)
    requires s < 16 && t < 16 && Stores(w, Place(t), count)
    ensures Stores(Bumped(w, Place(s)), Place(t), if s == t then count + 1 else count)
  {
    if s == t {
      hide Place, IsPlace, Bumped;
      PlaceIsPlace(t);
      BumpedBits(w, Place(t), t);
    } else {
      hide Place, IsPlace, Bumped;
      PlaceIsPlace(s);
      PlaceIsPlace(t);
      BumpedOutside(w, Place(s), s, Place(t), t);
    }
  }

  lemma CountedAfterBump(f: seq<bv32>, es: seq<Entry>, e: Entry, pass: nat)
    requires 1 <= pass <= 3 && |f| >= WORDS && Counted(f, es, pass)
    ensures Counted(BumpedAt(f, Slot(e.hash, pass)), es + [e], pass)
  {
    hide Bumped, Slot, Place, Stores;
    var s := Slot(e.hash, pass);
    assert (es + [e])[..|es|] == es;
    forall t: nat | t < SLOTS
      ensures Stores(BumpedAt(f, s)[t / 16], Place(t % 16), Count(es + [e], pass, t))
    {
      assert Stores(f[t / 16], Place(t % 16), Count(es, pass, t));
      StoredAfterBump(f[t / 16], s % 16, t % 16, Count(es, pass, t));
    }
  }

  /** add_to_filter: one more entry is counted. */
  method AddToFilter(countbits: array<bv32>, e: Entry, pass: nat, ghost es: seq<Entry>)
    requires 1 <= pass <= 3 && countbits.Length >= WORDS && Counted(countbits[..], es, pass)
    modifies countbits
    ensures Counted(countbits[..], es + [e], pass)
  {
    hide Place, Slot, Count, Bumped, Counted;
    ghost var f := countbits[..];
    var s := Slot(e.hash, pass);
    countbits[s / 16] := Bumped(countbits[s / 16], Place(s % 16));
    CountedAfterBump(f, es, e, pass);
    assert countbits[..] == BumpedAt(f, s);
  }

  /** is_in_filter_twice answers whether the counter of a hash reached two. */
  method IsInFilterTwice(countbits: array<bv32>, hash: uint64, pass: nat, ghost es: seq<Entry>) returns (twice: bool)
    requires 1 <= pass <= 3 && countbits.Length >= WORDS && Counted(countbits[..], es, pass)
    ensures twice <==> Count(es, pass, Slot(hash, pass)) >= 2
  {
    hide Place, Slot, Count;
    var s := Slot(hash, pass);
    twice := Twice(countbits[s / 16], s % 16);
    ghost var f := countbits[..];
    assert f[s / 16] == countbits[s / 16];
    assert Stores(f[s / 16], Place(s % 16), Count(es, pass, s));
  }

  /** The first loop of a pass: every entry is counted. */
  method CountAll(countbits: array<bv32>, b: array<uint64>, n: nat, pass: nat)
    requires 1 <= pass <= 3 && countbits.Length >= WORDS && 2 * n < b.Length
    requires countbits as object != b
    modifies countbits
    ensures Counted(countbits[..], Entries(b[..], n), pass)
  {
    hide Counted, Slot;
    ghost var es := Entries(b[..], n);
    ResetFilter(countbits);
    EmptyFilter(countbits[..], pass);
    var i := 0;
    assert es[..0] == [];
    while i < n
      invariant i <= n
      invariant Counted(countbits[..], es[..i], pass)
    {
      assert es[..i + 1] == es[..i] + [es[i]];
      AddToFilter(countbits, EntryAt(b[..], i), pass, es[..i]);
      i := i + 1;
    }
    assert es[..n] == es;
  }

  /** What the second loop has done after entry i: the front is compacted, the rest untouched. */
  ghost predicate Compacted(b: seq<uint64>, was: seq<uint64>, n: nat, pass: nat, i: nat, remaining: nat)
    requires 1 <= pass <= 3 && 2 * n < |was|
  {
    && |b| == |was| && remaining <= i <= n
    && Entries(b, remaining) == Shared(Entries(was, n)[..i], Entries(was, n), pass)
    && forall k :: 1 + 2 * i <= k < |b| ==> b[k] == was[k]
  }

  lemma CompactStep(b: seq<uint64>, was: seq<uint64>, n: nat, pass: nat, i: nat, r: nat, twice: bool, b': seq<uint64>)
    requires 1 <= pass <= 3 && 2 * n < |was| && Compacted(b, was, n, pass, i, r) && i < n
    requires twice <==> Count(Entries(was, n), pass, Slot(b[1 + 2 * i], pass)) >= 2
    requires b' == if twice then b[1 + 2 * r := b[1 + 2 * i]][2 + 2 * r := b[2 + 2 * i]] else b
    ensures Compacted(b', was, n, pass, i + 1, if twice then r + 1 else r)
  {
    hide Slot, Count;
    var es := Entries(was, n);
    assert es[i] == EntryAt(b, i);
    assert es[..i + 1] == es[..i] + [es[i]];
    SharedAppend(es[..i], es[i], es, pass);
    if twice {
      Appended(b, b', r, es[i]);
    }
  }

  /** One filter pass: the entries whose counter reached two move to the front, in order. */
  method FilterPass(countbits: array<bv32>, b: array<uint64>, n: nat, pass: nat) returns (remaining: nat)
    requires 1 <= pass <= 3 && countbits.Length >= WORDS && 2 * n < b.Length
    requires countbits as object != b
    modifies countbits, b
    ensures remaining <= n
    ensures Entries(b[..], remaining) == Filtered(old(Entries(b[..], n)), pass)
  {
    hide Counted, Slot, Count, Compacted;
    ghost var was := b[..];
    CountAll(countbits, b, n, pass);
    assert b[..] == was;
    remaining := 0;
    var i := 0;
    assert Compacted(b[..], was, n, pass, 0, 0) by { CompactStart(was, n, pass); }
    while i < n
      invariant remaining <= i <= n
      invariant Counted(countbits[..], Entries(was, n), pass)
      invariant Compacted(b[..], was, n, pass, i, remaining)
    {
      ghost var before := b[..];
      ghost var r := remaining;
      var twice := IsInFilterTwice(countbits, b[1 + i * 2], pass, Entries(was, n));
      if twice {
        b[1 + remaining * 2] := b[1 + i * 2];
        b[1 + remaining * 2 + 1] := b[1 + i * 2 + 1];
        remaining := remaining + 1;
      }
      CompactStep(before, was, n, pass, i, r, twice, b[..]);
      i := i + 1;
    }
    CompactEnd(b[..], was, n, pass, remaining);
  }

  lemma CompactStart(was: seq<uint64>, n: nat, pass: nat)
    requires 1 <= pass <= 3 && 2 * n < |was|
    ensures Compacted(was, was, n, pass, 0, 0)
  {
  }

  lemma CompactEnd(b: seq<uint64>, was: seq<uint64>, n: nat, pass: nat, r: nat)
    requires 1 <= pass <= 3 && 2 * n < |was| && Compacted(b, was, n, pass, n, r)
    ensures |b| == |was| && r <= n && Entries(b, r) == Filtered(Entries(was, n), pass)
  {
    assert Entries(was, n)[..n] == Entries(was, n);
  }

  lemma EmptyFilter(f: seq<bv32>, pass: nat)
    requires 1 <= pass <= 3 && |f| >= WORDS && forall k :: 0 <= k < WORDS ==> f[k] == 0
    ensures Counted(f, [], pass)
  {
  }

  lemma Appended(b: seq<uint64>, b': seq<uint64>, r: nat, e: Entry)
    requires 2 + 2 * r < |b| == |b'|
    requires b' == b[1 + 2 * r := e.hash][2 + 2 * r := e.index]
    ensures Entries(b', r + 1) == Entries(b, r) + [e]
  {
    forall k: nat | k < r
      ensures EntryAt(b', k) == EntryAt(b, k)
    {
    }
  }
}
