/**
 The pair scan of protoshares_process_512 and the theorem about the whole search: filtering first
 reports the same collisions, in the same order, as scanning the unfiltered list.
 */
module ProtosharesScan {
  import opened MachineWords
  import opened ProtosharesFilter

  /** The two indices handed to protoshares_revalidateCollision, each cut to 32 bits. */
  type Report = (nat, nat)

  function Low32(x: uint64): nat {
    x % 0x1_0000_0000
  }

  // ----- which positions of a list collide -----

  /** Position p.0 is the first with its nonzero hash and p.1 is a later one with the same hash. */
  predicate FirstAndLater(es: seq<Entry>, p: (nat, nat)) {
    && p.0 < p.1 < |es|
    && es[p.0].hash == es[p.1].hash != 0
    && forall k :: 0 <= k < p.0 ==> es[k].hash != es[p.0].hash
  }

  function Later(es: seq<Entry>, i: nat, j: nat): seq<(nat, nat)>
    requires i < j <= |es|
    decreases |es| - j
  {
    if j == |es| then []
    else (if es[j].hash == es[i].hash then [(i, j)] else []) + Later(es, i, j + 1)
  }

  function Positions(es: seq<Entry>, i: nat): seq<(nat, nat)>
    requires i <= |es|
    decreases |es| - i
  {
    if i == |es| then []
    else
      (if es[i].hash == 0 || es[i].hash in Seen(es, i) then [] else Later(es, i, i + 1)) + Positions(es, i + 1)
  }

  function Seen(es: seq<Entry>, i: nat): set<uint64>
    requires i <= |es|
  {
    set k | 0 <= k < i :: es[k].hash
  }

  function ReportOf(es: seq<Entry>, p: (nat, nat)): Report
    requires p.0 < |es| && p.1 < |es|
  {
    (Low32(es[p.0].index), Low32(es[p.1].index))
  }

  predicate InOrder(ps: seq<(nat, nat)>) {
    forall a, b :: 0 <= a < b < |ps| ==> ps[a].0 < ps[b].0 || (ps[a].0 == ps[b].0 && ps[a].1 < ps[b].1)
  }

  lemma {:induction false} LaterAre(es: seq<Entry>, i: nat, j: nat)
    requires i < j <= |es|
    ensures forall p :: p in Later(es, i, j) <==> p.0 == i && j <= p.1 < |es| && es[p.1].hash == es[i].hash
    decreases |es| - j
  {
    if j < |es| {
      LaterAre(es, i, j + 1);
    }
  }

  lemma {:induction false} LaterAreInOrder(es: seq<Entry>, i: nat, j: nat)
    requires i < j <= |es|
    ensures InOrder(Later(es, i, j))
    decreases |es| - j
  {
    hide InOrder;
    if j < |es| {
      LaterAre(es, i, j + 1);
      LaterAreInOrder(es, i, j + 1);
      AtMostOneInOrder(i, j);
      InOrderAppend(if es[j].hash == es[i].hash then [(i, j)] else [], Later(es, i, j + 1));
    } else {
      NothingInOrder();
    }
  }

  lemma AtMostOneInOrder(i: nat, j: nat)
    ensures InOrder([(i, j)]) && InOrder([])
  {
  }

  lemma InOrderAppend(a: seq<(nat, nat)>, b: seq<(nat, nat)>)
    requires InOrder(a) && InOrder(b)
    requires forall p, q :: p in a && q in b ==> p.0 < q.0 || (p.0 == q.0 && p.1 < q.1)
    ensures InOrder(a + b)
  {
    var ab := a + b;
    forall x, y | 0 <= x < y < |ab|
      ensures ab[x].0 < ab[y].0 || (ab[x].0 == ab[y].0 && ab[x].1 < ab[y].1)
    {
      if x < |a| <= y {
        assert ab[x] in a && ab[y] in b;
      }
    }
  }

  /**
   The naive scan pairs, for every nonzero hash, its first occurrence with each later one, each
   exactly once, ordered by first occurrence and then by later one.
   */
  lemma {:induction false} PositionsAre(es: seq<Entry>, i: nat)
    requires i <= |es|
    ensures forall p :: p in Positions(es, i) <==> FirstAndLater(es, p) && i <= p.0
    ensures InOrder(Positions(es, i))
    decreases |es| - i
  {
    hide InOrder, Later;
    var now := if i < |es| && es[i].hash != 0 && es[i].hash !in Seen(es, i) then Later(es, i, i + 1) else [];
    if i < |es| {
      PositionsAre(es, i + 1);
      LaterAre(es, i, i + 1);
      LaterAreInOrder(es, i, i + 1);
      assert InOrder(now) by { if now == [] { NothingInOrder(); } }
      forall p
        ensures p in now <==> FirstAndLater(es, p) && p.0 == i
      {
        FirstIsUnseen(es, i, p);
      }
      InOrderAppend(now, Positions(es, i + 1));
      assert Positions(es, i) == now + Positions(es, i + 1);
    } else {
      NothingInOrder();
    }
  }

  lemma FirstIsUnseen(es: seq<Entry>, i: nat, p: (nat, nat))
    requires i < |es|
    ensures FirstAndLater(es, p) && p.0 == i <==>
            es[i].hash != 0 && es[i].hash !in Seen(es, i) && p.0 == i < p.1 < |es| && es[p.1].hash == es[i].hash
  {
  }

  lemma NothingInOrder()
    ensures InOrder([])
  {
  }

  // ----- the reports of a list -----

  function Matches(e: Entry, rest: seq<Entry>): seq<Report> {
    if rest == [] then []
    else (if rest[0].hash == e.hash then [(Low32(e.index), Low32(rest[0].index))] else []) + Matches(e, rest[1..])
  }

  /** The reports of a scan over es when the hashes in seen have been dealt with. */
  function Reports(es: seq<Entry>, seen: set<uint64>): seq<Report> {
    if es == [] then []
    else
      (if es[0].hash == 0 || es[0].hash in seen then [] else Matches(es[0], es[1..]))
      + Reports(es[1..], seen + {es[0].hash})
  }

  predicate Inside(es: seq<Entry>, ps: seq<(nat, nat)>) {
    forall p :: p in ps ==> p.0 < |es| && p.1 < |es|
  }

  function ReportsAt(es: seq<Entry>, ps: seq<(nat, nat)>): seq<Report>
    requires Inside(es, ps)
  {
    seq(|ps|, k requires 0 <= k < |ps| => ReportOf(es, ps[k]))
  }

  lemma ReportsAtAppend(es: seq<Entry>, ps: seq<(nat, nat)>, qs: seq<(nat, nat)>)
    requires Inside(es, ps) && Inside(es, qs)
    ensures Inside(es, ps + qs) && ReportsAt(es, ps + qs) == ReportsAt(es, ps) + ReportsAt(es, qs)
  {
  }

  lemma {:induction false} MatchesAreReports(es: seq<Entry>, i: nat, j: nat)
    requires i < j <= |es|
    ensures Inside(es, Later(es, i, j))
    ensures Matches(es[i], es[j..]) == ReportsAt(es, Later(es, i, j))
    decreases |es| - j
  {
    hide InOrder;
    LaterAre(es, i, j);
    if j < |es| {
      MatchesAreReports(es, i, j + 1);
      assert es[j..][1..] == es[j + 1..];
      ReportsAtAppend(es, if es[j].hash == es[i].hash then [(i, j)] else [], Later(es, i, j + 1));
    }
  }

  lemma SeenNext(es: seq<Entry>, i: nat)
    requires i < |es|
    ensures Seen(es, i + 1) == Seen(es, i) + {es[i].hash}
  {
    forall h
      ensures h in Seen(es, i + 1) <==> h in Seen(es, i) || h == es[i].hash
    {
      if h == es[i].hash {
        assert 0 <= i < i + 1 && es[i].hash == h;
      }
    }
  }

  /** The scan reports exactly the positions of PositionsAre. */
  lemma {:induction false} ReportsArePositions(es: seq<Entry>, i: nat)
    requires i <= |es|
    ensures Inside(es, Positions(es, i))
    ensures Reports(es[i..], Seen(es, i)) == ReportsAt(es, Positions(es, i))
    decreases |es| - i
  {
    hide Matches, InOrder, Inside, ReportsAt, Later;
    if i < |es| {
      ReportsArePositions(es, i + 1);
      MatchesAreReports(es, i, i + 1);
      SeenNext(es, i);
      assert es[i..][1..] == es[i + 1..];
      var now := if es[i].hash == 0 || es[i].hash in Seen(es, i) then [] else Later(es, i, i + 1);
      assert Inside(es, []) && ReportsAt(es, []) == [] by { NoReports(es); }
      ReportsAtAppend(es, now, Positions(es, i + 1));
    } else {
      NoReports(es);
    }
  }

  lemma NoReports(es: seq<Entry>)
    ensures Inside(es, []) && ReportsAt(es, []) == []
  {
  }

  // ----- the scan -----

  /** The buffer inside the scan: later entries of a hash that was seen have had it zeroed. */
  ghost predicate Tombstoned(b: seq<uint64>, es: seq<Entry>, i: nat, j: nat)
    requires 2 * |es| < |b| && i <= |es|
  {
    && (i < j ==> i < |es|)
    && forall k: nat :: i < k < |es| || (k == i < |es| && j <= i) ==>
        && b[2 + 2 * k] == es[k].index
        && b[1 + 2 * k] == if es[k].hash in Seen(es, if k < j then i + 1 else i) then 0 else es[k].hash
  }

  lemma TombstonesStart(b: seq<uint64>, n: nat)
    requires 2 * n < |b|
    ensures Tombstoned(b, Entries(b, n), 0, 0)
  {
  }

  lemma TombstonesMet(b: seq<uint64>, es: seq<Entry>, i: nat, j: nat)
    requires 2 * |es| < |b| && i <= j < |es| && Tombstoned(b, es, i, j)
    ensures b[2 + 2 * j] == es[j].index
    ensures b[1 + 2 * j] == if es[j].hash in Seen(es, i) then 0 else es[j].hash
  {
  }

  lemma TombstoneStep(b: seq<uint64>, es: seq<Entry>, i: nat, j: nat, b': seq<uint64>)
    requires 2 * |es| < |b| && i < j < |es| && Tombstoned(b, es, i, j)
    requires b' == if es[j].hash == es[i].hash then b[1 + 2 * j := 0] else b
    ensures Tombstoned(b', es, i, j + 1)
  {
    SeenNext(es, i);
  }

  lemma TombstonesNext(b: seq<uint64>, es: seq<Entry>, i: nat)
    requires 2 * |es| < |b| && i < |es| && Tombstoned(b, es, i, |es|)
    ensures Tombstoned(b, es, i + 1, i + 1)
  {
  }

  lemma TombstonesSkip(b: seq<uint64>, es: seq<Entry>, i: nat)
    requires 2 * |es| < |b| && i < |es| && Tombstoned(b, es, i, i)
    requires es[i].hash == 0 || es[i].hash in Seen(es, i)
    ensures Tombstoned(b, es, i + 1, i + 1)
  {
    SeenNext(es, i);
  }

  lemma TombstonesEnter(b: seq<uint64>, es: seq<Entry>, i: nat)
    requires 2 * |es| < |b| && i < |es| && Tombstoned(b, es, i, i)
    ensures Tombstoned(b, es, i, i + 1)
  {
  }

  lemma ReportsNext(es: seq<Entry>, i: nat)
    requires i < |es|
    ensures Reports(es[i..], Seen(es, i)) ==
            (if es[i].hash == 0 || es[i].hash in Seen(es, i) then [] else Matches(es[i], es[i + 1..]))
            + Reports(es[i + 1..], Seen(es, i + 1))
  {
    SeenNext(es, i);
    assert es[i..][1..] == es[i + 1..];
  }

  lemma MatchesNext(es: seq<Entry>, i: nat, j: nat)
    requires i < j < |es|
    ensures Matches(es[i], es[j..]) ==
            (if es[j].hash == es[i].hash then [(Low32(es[i].index), Low32(es[j].index))] else [])
            + Matches(es[i], es[j + 1..])
  {
    assert es[j..][1..] == es[j + 1..];
  }

  lemma ScanEnds(es: seq<Entry>, i: nat)
    requires i < |es|
    ensures Matches(es[i], es[|es|..]) == []
  {
  }

  /** The inner loop: entry i is paired with every later one of its hash, and those are zeroed. */
  method PairWithLater(b: array<uint64>, n: nat, i: nat, ghost es: seq<Entry>) returns (reports: seq<Report>)
    requires |es| == n && 2 * n < b.Length && i < n && Tombstoned(b[..], es, i, i)
    requires b[1 + 2 * i] == es[i].hash != 0 && b[2 + 2 * i] == es[i].index
    modifies b
    ensures Tombstoned(b[..], es, i + 1, i + 1)
    ensures reports == Matches(es[i], es[i + 1..])
  {
    hide Tombstoned, Matches, Seen;
    reports := [];
    TombstonesMet(b[..], es, i, i);
    assert es[i].hash !in Seen(es, i);
    TombstonesEnter(b[..], es, i);
    var j := i + 1;
    while j < n
      invariant i < j <= n && Tombstoned(b[..], es, i, j)
      invariant b[1 + 2 * i] == es[i].hash && b[2 + 2 * i] == es[i].index
      invariant reports + Matches(es[i], es[j..]) == Matches(es[i], es[i + 1..])
    {
      ghost var before := b[..];
      TombstonesMet(before, es, i, j);
      MatchesNext(es, i, j);
      if b[1 + j * 2] != 0 && b[1 + i * 2] == b[1 + j * 2] {
        reports := reports + [(Low32(b[1 + i * 2 + 1]), Low32(b[1 + j * 2 + 1]))];
        b[1 + j * 2] := 0;
      }
      TombstoneStep(before, es, i, j, b[..]);
      j := j + 1;
    }
    ScanEnds(es, i);
    TombstonesNext(b[..], es, i);
  }

  /** The pairs the scan hands to protoshares_revalidateCollision are those of the naive scan. */
  method PairScan(b: array<uint64>, n: nat) returns (reports: seq<Report>)
    requires 2 * n < b.Length
    modifies b
    ensures reports == Reports(old(Entries(b[..], n)), {})
  {
    hide Tombstoned, Matches, Reports, Seen;
    ghost var es := Entries(b[..], n);
    reports := [];
    TombstonesStart(b[..], n);
    NothingSeen(es);
    var i := 0;
    while i < n
      invariant i <= n && Tombstoned(b[..], es, i, i)
      invariant reports + Reports(es[i..], Seen(es, i)) == Reports(es, {})
    {
      TombstonesMet(b[..], es, i, i);
      ReportsNext(es, i);
      if b[1 + i * 2] != 0 {
        var found := PairWithLater(b, n, i, es);
        reports := reports + found;
      } else {
        TombstonesSkip(b[..], es, i);
      }
      i := i + 1;
    }
    assert Reports(es[n..], Seen(es, n)) == [] by { NothingLeft(es); }
  }

  lemma NothingSeen(es: seq<Entry>)
    ensures Seen(es, 0) == {} && es[0..] == es
  {
  }

  lemma NothingReported()
    ensures Reports([], {}) == []
  {
  }

  lemma NothingLeft(es: seq<Entry>)
    ensures Reports(es[|es|..], Seen(es, |es|)) == []
  {
  }

  // ----- filtering loses nothing -----

  /** Every entry of es that the filter of all would drop has a hash no other entry of es has. */
  ghost predicate DroppedAreAlone(es: seq<Entry>, all: seq<Entry>, pass: nat)
    requires 1 <= pass <= 3
  {
    forall i, j :: 0 <= i < j < |es| && es[i].hash == es[j].hash ==> Count(all, pass, Slot(es[i].hash, pass)) >= 2
  }

  lemma {:induction false} CountIsPositive(es: seq<Entry>, pass: nat, i: nat)
    requires 1 <= pass <= 3 && i < |es|
    ensures Count(es, pass, Slot(es[i].hash, pass)) >= 1
  {
    if i < |es| - 1 {
      CountIsPositive(es[..|es| - 1], pass, i);
    }
  }

  /** Two entries with the same hash fall into the same counter, so it reaches two. */
  lemma {:induction false} EqualHashesCount(es: seq<Entry>, pass: nat, i: nat, j: nat)
    requires 1 <= pass <= 3 && i < j < |es| && es[i].hash == es[j].hash
    ensures Count(es, pass, Slot(es[i].hash, pass)) >= 2
  {
    var front := es[..|es| - 1];
    if j < |es| - 1 {
      EqualHashesCount(front, pass, i, j);
    } else {
      CountIsPositive(front, pass, i);
      assert front[i] == es[i];
    }
  }

  lemma {:induction false} KeptMatches(e: Entry, rest: seq<Entry>, all: seq<Entry>, pass: nat)
    requires 1 <= pass <= 3 && Count(all, pass, Slot(e.hash, pass)) >= 2
    ensures Matches(e, Shared(rest, all, pass)) == Matches(e, rest)
  {
    hide Count, Slot;
    if rest != [] {
      KeptMatches(e, rest[1..], all, pass);
      var kept := Shared(rest[1..], all, pass);
      if Count(all, pass, Slot(rest[0].hash, pass)) >= 2 {
        assert ([rest[0]] + kept)[1..] == kept;
      } else {
        assert Shared(rest, all, pass) == kept;
      }
    }
  }

  lemma {:induction false} AloneHasNoMatches(e: Entry, rest: seq<Entry>)
    requires forall i :: 0 <= i < |rest| ==> rest[i].hash != e.hash
    ensures Matches(e, rest) == []
  {
    if rest != [] {
      AloneHasNoMatches(e, rest[1..]);
    }
  }

  lemma {:induction false} UnusedSeen(es: seq<Entry>, seen: set<uint64>, h: uint64)
    requires forall i :: 0 <= i < |es| ==> es[i].hash != h
    ensures Reports(es, seen + {h}) == Reports(es, seen)
  {
    if es != [] {
      UnusedSeen(es[1..], seen + {es[0].hash}, h);
      assert (seen + {h}) + {es[0].hash} == (seen + {es[0].hash}) + {h};
    }
  }

  lemma {:induction false} SharedKeepsReports(es: seq<Entry>, all: seq<Entry>, pass: nat, seen: set<uint64>)
    requires 1 <= pass <= 3 && DroppedAreAlone(es, all, pass)
    ensures Reports(Shared(es, all, pass), seen) == Reports(es, seen)
  {
    if es != [] {
      var e, rest := es[0], es[1..];
      assert DroppedAreAlone(rest, all, pass);
      var kept := Shared(rest, all, pass);
      if Count(all, pass, Slot(e.hash, pass)) >= 2 {
        assert Shared(es, all, pass) == [e] + kept;
        assert ([e] + kept)[1..] == kept;
        KeptMatches(e, rest, all, pass);
        SharedKeepsReports(rest, all, pass, seen + {e.hash});
      } else {
        assert Shared(es, all, pass) == kept;
        assert forall i :: 0 <= i < |rest| ==> rest[i] == es[i + 1] && rest[i].hash != e.hash;
        AloneHasNoMatches(e, rest);
        UnusedSeen(rest, seen, e.hash);
        SharedKeepsReports(rest, all, pass, seen);
      }
    }
  }

  /** A filter pass changes nothing of what a scan reports. */
  lemma FilteringKeepsReports(es: seq<Entry>, pass: nat)
    requires 1 <= pass <= 3
    ensures Reports(Filtered(es, pass), {}) == Reports(es, {})
  {
    forall i, j | 0 <= i < j < |es| && es[i].hash == es[j].hash
      ensures Count(es, pass, Slot(es[i].hash, pass)) >= 2
    {
      EqualHashesCount(es, pass, i, j);
    }
    SharedKeepsReports(es, es, pass, {});
  }

  /**
   The naive scan in terms of the words of the buffer: entry i is its hash at 1 + 2 * i and its index behind it. Every
   nonzero hash is reported at its first entry with each later one, in order, and only the low halves of the indices.
   */
  lemma ReportsMean(w: seq<uint64>, n: nat, reports: seq<Report>)
    requires 2 * n < |w|
    requires var es := Entries(w, n); Inside(es, Positions(es, 0)) && reports == ReportsAt(es, Positions(es, 0))
    ensures exists ps: seq<(nat, nat)> ::
              && |ps| == |reports|
              && (forall p :: p in ps <==>
                    && p.0 < p.1 < n && w[1 + 2 * p.0] == w[1 + 2 * p.1] != 0
                    && forall k: nat :: k < p.0 ==> w[1 + 2 * k] != w[1 + 2 * p.0])
              && (forall a, b :: 0 <= a < b < |ps| ==> ps[a].0 < ps[b].0 || (ps[a].0 == ps[b].0 && ps[a].1 < ps[b].1))
              && forall k :: 0 <= k < |ps| ==>
                   && ps[k].0 < n && ps[k].1 < n
                   && reports[k] == (w[2 + 2 * ps[k].0] % 0x1_0000_0000, w[2 + 2 * ps[k].1] % 0x1_0000_0000)
  {
    var es := Entries(w, n);
    var ps := Positions(es, 0);
    PositionsAre(es, 0);
    hide Positions, FirstAndLater, InOrder;
    InOrderMeans(ps);
    forall p: (nat, nat)
      ensures p in ps <==>
              && p.0 < p.1 < n && w[1 + 2 * p.0] == w[1 + 2 * p.1] != 0
              && forall k: nat :: k < p.0 ==> w[1 + 2 * k] != w[1 + 2 * p.0]
    {
      if p.0 < p.1 < n {
        FirstInBuffer(w, n, p);
      } else if p in ps {
        FirstIsInside(es, p);
      }
    }
    forall k | 0 <= k < |ps|
      ensures ps[k].0 < n && ps[k].1 < n
      ensures reports[k] == (w[2 + 2 * ps[k].0] % 0x1_0000_0000, w[2 + 2 * ps[k].1] % 0x1_0000_0000)
    {
      assert ps[k] in ps;
      FirstIsInside(es, ps[k]);
      assert es[ps[k].0] == EntryAt(w, ps[k].0) && es[ps[k].1] == EntryAt(w, ps[k].1);
    }
  }

  lemma InOrderMeans(ps: seq<(nat, nat)>)
    ensures InOrder(ps) <==>
            forall a, b :: 0 <= a < b < |ps| ==> ps[a].0 < ps[b].0 || (ps[a].0 == ps[b].0 && ps[a].1 < ps[b].1)
  {
  }

  lemma FirstIsInside(es: seq<Entry>, p: (nat, nat))
    requires FirstAndLater(es, p)
    ensures p.0 < p.1 < |es|
  {
  }

  lemma FirstInBuffer(w: seq<uint64>, n: nat, p: (nat, nat))
    requires 2 * n < |w| && p.0 < p.1 < n
    ensures FirstAndLater(Entries(w, n), p) <==>
            && w[1 + 2 * p.0] == w[1 + 2 * p.1] != 0
            && forall k: nat :: k < p.0 ==> w[1 + 2 * k] != w[1 + 2 * p.0]
  {
    var es := Entries(w, n);
    assert es[p.0] == EntryAt(w, p.0) && es[p.1] == EntryAt(w, p.1);
    if FirstAndLater(es, p) {
      forall k: nat | k < p.0
        ensures w[1 + 2 * k] != w[1 + 2 * p.0]
      {
        assert es[k] == EntryAt(w, k);
      }
    }
    if forall k: nat :: k < p.0 ==> w[1 + 2 * k] != w[1 + 2 * p.0] {
      forall k | 0 <= k < p.0
        ensures es[k].hash != es[p.0].hash
      {
        assert es[k] == EntryAt(w, k);
      }
    }
  }

  /**
   The search on a filled buffer: three filter passes, then the pair scan. It reports what the naive
   scan of the whole unfiltered list reports. The first word of the buffer holds the number of
   entries plus one in its low half.
   */
  method Process512(countbits: array<bv32>, b: array<uint64>) returns (reports: seq<Report>)
    requires countbits.Length >= WORDS && countbits as object != b
    requires b.Length > 0 && Low32(b[0]) >= 1 && 2 * (Low32(b[0]) - 1) < b.Length
    modifies countbits, b
    ensures var es := old(Entries(b[..], Low32(b[0]) - 1));
            Inside(es, Positions(es, 0)) && reports == ReportsAt(es, Positions(es, 0))
    ensures var w := old(b[..]);
            var n := w[0] % 0x1_0000_0000 - 1;
            exists ps: seq<(nat, nat)> ::
              && |ps| == |reports|
              && (forall p :: p in ps <==>
                    && p.0 < p.1 < n && w[1 + 2 * p.0] == w[1 + 2 * p.1] != 0
                    && forall k: nat :: k < p.0 ==> w[1 + 2 * k] != w[1 + 2 * p.0])
              && (forall a, b :: 0 <= a < b < |ps| ==> ps[a].0 < ps[b].0 || (ps[a].0 == ps[b].0 && ps[a].1 < ps[b].1))
              && forall k :: 0 <= k < |ps| ==>
                   && ps[k].0 < n && ps[k].1 < n
                   && reports[k] == (w[2 + 2 * ps[k].0] % 0x1_0000_0000, w[2 + 2 * ps[k].1] % 0x1_0000_0000)
  {
    hide Positions, Reports, ReportsAt, Entries, Filtered, Inside;
    ghost var w, n := b[..], Low32(b[0]) - 1;
    var starting: nat := Low32(b[0]) - 1;
    ghost var es := Entries(b[..], starting);
    ghost var now := es;
    var pass := 1;
    while pass <= 3
      invariant 1 <= pass <= 4 && 2 * starting < b.Length
      invariant now == Entries(b[..], starting) && Reports(now, {}) == Reports(es, {})
    {
      FilteringKeepsReports(now, pass);
      starting := FilterPass(countbits, b, starting, pass);
      now := Filtered(now, pass);
      pass := pass + 1;
    }
    assert Inside(es, Positions(es, 0)) && Reports(es, {}) == ReportsAt(es, Positions(es, 0)) by {
      NothingSeen(es);
      ReportsArePositions(es, 0);
    }
    if starting == 0 {
      assert now == [];
      NothingReported();
      reports := [];
    } else {
      reports := PairScan(b, starting);
    }
    ReportsMean(w, n, reports);
  }
}
