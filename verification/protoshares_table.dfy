/**
 The CPU variants of the collision search: a table with one packed word per slot remembers the last
 nonce index that fell there, and every newcomer is compared with its predecessor.
 */
module ProtosharesTable {
  import opened MachineWords
  import opened NumberTheory

  // MAX_MOMENTUM_NONCE is 2^26 and a birthday has SEARCH_SPACE_BITS = 50 bits.
  const MAX_NONCE: nat := 0x400_0000
  const SPACE: nat := 0x4_0000_0000_0000
  // CACHED_HASHES * BIRTHDAYS_PER_HASH indices are hashed ahead in each round of the outer loop.
  const BATCH: nat := 256

  /** The eight 64-bit words of one SHA-512 result. */
  type Digest = d: seq<uint64> | |d| == 8 witness seq(8, _ => 0)

  /** SHA-512 of a nonce in front of the header hash. */
  type Hash = uint32 -> Digest

  // ----- packing an index beside a key -----

  function TwoTo(n: nat): (r: nat)
    ensures r >= 1
  {
    if n == 0 then 1 else 2 * TwoTo(n - 1)
  }

  /** Bitwise or. */
  function BitOr(a: nat, b: nat): (r: nat)
    ensures a <= r && b <= r
    decreases a + b
  {
    if a == 0 && b == 0 then 0
    else 2 * BitOr(a / 2, b / 2) + if a % 2 == 1 || b % 2 == 1 then 1 else 0
  }

  lemma {:induction false} BitOrBelow(a: nat, b: nat, n: nat)
    requires a < TwoTo(n) && b < TwoTo(n)
    ensures BitOr(a, b) < TwoTo(n)
  {
    if n > 0 {
      BitOrBelow(a / 2, b / 2, n - 1);
    }
  }

  lemma {:induction false} BitOrZero(a: nat)
    ensures BitOr(a, 0) == a && BitOr(0, a) == a
  {
    if a > 0 {
      BitOrZero(a / 2);
    }
  }

  /** The part of a from bit n on, and the part below. */
  function High(a: nat, n: nat): nat {
    if n == 0 then a else High(a / 2, n - 1)
  }

  function Low(a: nat, n: nat): (r: nat)
    ensures r < TwoTo(n)
  {
    if n == 0 then 0 else 2 * Low(a / 2, n - 1) + a % 2
  }

  lemma TwiceProduct(h: nat, t: nat)
    ensures h * (2 * t) == 2 * (h * t)
  {
  }

  lemma ProductDecides(h: nat, k: nat, t: nat)
    requires t >= 1
    ensures h * t == k * t <==> h == k
  {
    if h * t == k * t {
      DivisionIsUnique(h * t, h, 0, t);
      DivisionIsUnique(h * t, k, 0, t);
    }
  }

  lemma {:induction false} HighLow(a: nat, n: nat)
    ensures a == High(a, n) * TwoTo(n) + Low(a, n)
  {
    if n > 0 {
      HighLow(a / 2, n - 1);
      TwiceProduct(High(a, n), TwoTo(n - 1));
    }
  }

  /** They are quotient and remainder by a power of two. */
  lemma HighLowDivide(a: nat, n: nat)
    ensures High(a, n) == a / TwoTo(n) && Low(a, n) == a % TwoTo(n)
  {
    HighLow(a, n);
    DivisionIsUnique(a, High(a, n), Low(a, n), TwoTo(n));
  }

  lemma HighLowAre(a: nat, n: nat, h: nat, l: nat)
    requires l < TwoTo(n) && a == h * TwoTo(n) + l
    ensures High(a, n) == h && Low(a, n) == l
  {
    hide High, Low, TwoTo;
    HighLowDivide(a, n);
    DivisionIsUnique(a, h, l, TwoTo(n));
  }

  lemma BitOrDoubled(a: nat, b: nat, i: nat, j: nat)
    requires i < 2 && j < 2
    ensures BitOr(2 * a + i, 2 * b + j) == 2 * BitOr(a, b) + if i == 1 || j == 1 then 1 else 0
  {
  }

  /** An or acts on the two parts separately. */
  lemma {:induction false} BitOrHalves(a: nat, b: nat, n: nat)
    ensures High(BitOr(a, b), n) == BitOr(High(a, n), High(b, n))
    ensures Low(BitOr(a, b), n) == BitOr(Low(a, n), Low(b, n))
  {
    hide BitOr;
    if n > 0 {
      BitOrHalves(a / 2, b / 2, n - 1);
      BitOrDoubled(a / 2, b / 2, a % 2, b % 2);
      BitOrDoubled(Low(a / 2, n - 1), Low(b / 2, n - 1), a % 2, b % 2);
    } else {
      BitOrZero(0);
    }
  }

  // ----- the table -----

  /** The 50-bit birthday of index s: word s % 8 of the hash of s rounded down to a multiple of 8. */
  function Birthday(hash: Hash, s: uint32): (r: nat)
    ensures r < SPACE
  {
    hash(s - s % 8)[s % 8] / 0x4000
  }

  /** The slot of an index in a table of 2^bits slots, and the key kept beside the index. */
  function SlotOf(hash: Hash, bits: nat, s: uint32): (r: nat)
    ensures r < TwoTo(bits)
  {
    Low(Birthday(hash, s), bits)
  }

  function KeyOf(hash: Hash, bits: nat, s: uint32): nat {
    High(Birthday(hash, s) / 0x4_0000, bits) * TwoTo(bits)
  }

  lemma KeyParts(hash: Hash, bits: nat, s: uint32)
    requires bits <= 32
    ensures Low(KeyOf(hash, bits, s), bits) == 0
    ensures High(KeyOf(hash, bits, s), bits) == High(Birthday(hash, s) / 0x4_0000, bits)
    ensures KeyOf(hash, bits, s) < 0x1_0000_0000
  {
    var key, t := High(Birthday(hash, s) / 0x4_0000, bits), TwoTo(bits);
    HighLowAre(key * t, bits, key, 0);
    HighLow(Birthday(hash, s) / 0x4_0000, bits);
  }

  lemma TwoTo32()
    ensures TwoTo(32) == 0x1_0000_0000
  {
    assert TwoTo(10) == 1024;
    assert TwoTo(20) == 1024 * 1024;
    assert TwoTo(30) == 1024 * 1024 * 1024;
  }

  /** What the table stores for index s. */
  function Packed(hash: Hash, bits: nat, s: uint32): (r: uint32)
    requires bits <= 32
  {
    KeyParts(hash, bits, s);
    TwoTo32();
    BitOrBelow(s, KeyOf(hash, bits, s), 32);
    BitOr(s, KeyOf(hash, bits, s))
  }

  /**
   Unpacking: the low bits give back the index exactly when it fits below the key; when it does, the
   high bits are the key.
   */
  lemma Unpacking(hash: Hash, bits: nat, s: uint32)
    requires bits <= 32
    ensures Low(Packed(hash, bits, s), bits) == Low(s, bits)
    ensures Low(Packed(hash, bits, s), bits) == s <==> s < TwoTo(bits)
    ensures High(Packed(hash, bits, s), bits) == BitOr(High(s, bits), High(KeyOf(hash, bits, s), bits))
    ensures s < TwoTo(bits) ==> High(Packed(hash, bits, s), bits) == High(KeyOf(hash, bits, s), bits)
  {
    hide High, Low, BitOr, KeyOf;
    BitOrHalves(s, KeyOf(hash, bits, s), bits);
    KeyParts(hash, bits, s);
    BitOrZero(Low(s, bits));
    BitOrZero(High(KeyOf(hash, bits, s), bits));
    LowIsAll(s, bits);
  }

  lemma LowIsAll(a: nat, n: nat)
    ensures Low(a, n) == a <==> a < TwoTo(n)
    ensures a < TwoTo(n) ==> High(a, n) == 0
  {
    if a < TwoTo(n) {
      HighLowAre(a, n, 0, a);
    }
  }

  lemma TwoTo26()
    ensures TwoTo(26) == 0x400_0000
  {
    assert TwoTo(10) == 1024;
    assert TwoTo(20) == 1024 * 1024;
  }

  /**
   With 26 bits: an index falls into the slot of the low 26 bits of its birthday, and is stored with the
   top six bits of the birthday above it.
   */
  lemma StoredWith26Bits(hash: Hash, s: uint32)
    requires s < 0x400_0000
    ensures var birthday := hash(s - s % 8)[s % 8] / 0x4000;
            && Birthday(hash, s) == birthday
            && SlotOf(hash, 26, s) == birthday % 0x400_0000
            && Packed(hash, 26, s) == s + birthday / 0x1000_0000_0000 * 0x400_0000
  {
    hide High, Low, BitOr, TwoTo;
    TwoTo26();
    var birthday := Birthday(hash, s);
    HighLowDivide(birthday, 26);
    HighLowDivide(birthday / 0x4_0000, 26);
    HighLow(Packed(hash, 26, s), 26);
    Unpacking(hash, 26, s);
    KeyParts(hash, 26, s);
  }

  // ----- the history a table stands for -----

  datatype Option<T> = None | Some(value: T)

  /** The last index below count that fell into a slot. */
  function Latest(hash: Hash, bits: nat, slot: nat, count: nat): (r: Option<uint32>)
    requires count <= MAX_NONCE
    ensures r.Some? ==> 0 <= r.value < count && SlotOf(hash, bits, r.value) == slot
    ensures r.Some? ==> forall s: nat :: r.value < s < count ==> SlotOf(hash, bits, s) != slot
    ensures r.None? ==> forall s: nat :: s < count ==> SlotOf(hash, bits, s) != slot
  {
    if count == 0 then None
    else if SlotOf(hash, bits, count - 1) == slot then Some(count - 1)
    else Latest(hash, bits, slot, count - 1)
  }

  function SlotValue(hash: Hash, bits: nat, slot: nat, count: nat): uint32
    requires bits <= 32 && count <= MAX_NONCE
  {
    var latest := Latest(hash, bits, slot, count);
    if latest.None? then 0 else Packed(hash, bits, latest.value)
  }

  predicate Remembers(table: seq<uint32>, hash: Hash, bits: nat, count: nat)
    requires bits <= 32 && count <= MAX_NONCE
  {
    && |table| == TwoTo(bits)
    && forall slot: nat :: slot < |table| ==> table[slot] == SlotValue(hash, bits, slot, count)
  }

  /** The call to protoshares_revalidateCollision at index s, given the word found in its slot. */
  function CallFor(hash: Hash, bits: nat, found: uint32, s: uint32): seq<(uint32, uint32)>
  {
    if found != 0 && found - Low(found, bits) == KeyOf(hash, bits, s) then [(Low(found, bits), s)] else []
  }

  function Calls(hash: Hash, bits: nat, count: nat): seq<(uint32, uint32)>
    requires bits <= 32 && count <= MAX_NONCE
  {
    if count == 0 then []
    else
      Calls(hash, bits, count - 1)
      + CallFor(hash, bits, SlotValue(hash, bits, SlotOf(hash, bits, count - 1), count - 1), count - 1)
  }

  /** The table with 26 bits: a slot holds zero, or the last index below count whose birthday falls into it. */
  lemma TableWith26Bits(table: seq<uint32>, hash: Hash, count: nat, slot: nat)
    requires count <= MAX_NONCE && Remembers(table, hash, 26, count) && slot < 0x400_0000
    ensures |table| == 0x400_0000
    ensures || (table[slot] == 0 && forall q: nat :: q < count ==> Birthday(hash, q) % 0x400_0000 != slot)
            || exists s: nat :: s < count && Birthday(hash, s) % 0x400_0000 == slot
                 && table[slot] == s + Birthday(hash, s) / 0x1000_0000_0000 * 0x400_0000
                 && forall q: nat :: s < q < count ==> Birthday(hash, q) % 0x400_0000 != slot
  {
    hide Packed, SlotOf, TwoTo, Birthday;
    TwoTo26();
    forall q: nat | q < count
      ensures SlotOf(hash, 26, q) == Birthday(hash, q) % 0x400_0000
    {
      StoredWith26Bits(hash, q);
    }
    var latest := Latest(hash, 26, slot, count);
    if latest.Some? {
      StoredWith26Bits(hash, latest.value);
    }
  }

  lemma RememberNext(table: seq<uint32>, hash: Hash, bits: nat, s: nat)
    requires bits <= 32 && s < MAX_NONCE && Remembers(table, hash, bits, s)
    ensures Remembers(table[SlotOf(hash, bits, s) := Packed(hash, bits, s)], hash, bits, s + 1)
  {
    hide SlotOf, Packed, TwoTo;
  }

  // ----- what the calls are -----

  lemma MaskedKey(found: uint32, bits: nat, key: nat)
    ensures found - Low(found, bits) == High(found, bits) * TwoTo(bits)
    ensures found - Low(found, bits) == key * TwoTo(bits) <==> High(found, bits) == key
  {
    HighLow(found, bits);
    ProductDecides(High(found, bits), key, TwoTo(bits));
  }

  /** When a call is made, whatever the table size, and with which first argument. */
  lemma CallForPredecessor(hash: Hash, bits: nat, p: uint32, s: uint32)
    requires bits <= 32
    ensures CallFor(hash, bits, Packed(hash, bits, p), s) ==
            if (p == 0 && KeyOf(hash, bits, p) == 0)
            || BitOr(High(p, bits), High(KeyOf(hash, bits, p), bits)) != High(KeyOf(hash, bits, s), bits)
            then []
            else [(Low(p, bits), s)]
  {
    Unpacking(hash, bits, p);
    KeyParts(hash, bits, s);
    MaskedKey(Packed(hash, bits, p), bits, High(KeyOf(hash, bits, s), bits));
    var k := KeyOf(hash, bits, p);
    if p == 0 && k == 0 {
      BitOrZero(0);
    }
  }

  /**
   Index s is compared with predecessor p: exactly when p was the last index in its slot and the keys
   agree, except that the packed word of index 0 with key 0 reads as an empty slot.
   */
  predicate Compared(hash: Hash, bits: nat, p: nat, s: nat)
    requires bits <= 32
  {
    && p < s < MAX_NONCE
    && Latest(hash, bits, SlotOf(hash, bits, s), s) == Some(p)
    && KeyOf(hash, bits, p) == KeyOf(hash, bits, s)
    && !(p == 0 && KeyOf(hash, bits, p) == 0)
  }

  lemma {:induction false} CallsAreComparisons(hash: Hash, bits: nat, count: nat)
    requires bits <= 32 && count <= MAX_NONCE && count <= TwoTo(bits)
    ensures forall c :: c in Calls(hash, bits, count) <==> c.1 < count && Compared(hash, bits, c.0, c.1)
    ensures forall a, b :: 0 <= a < b < |Calls(hash, bits, count)| ==>
              Calls(hash, bits, count)[a].1 < Calls(hash, bits, count)[b].1
  {
    hide High, Low, BitOr, KeyOf, SlotOf, TwoTo, CallFor, Latest, Packed;
    if count > 0 {
      var s := count - 1;
      CallsAreComparisons(hash, bits, s);
      var latest := Latest(hash, bits, SlotOf(hash, bits, s), s);
      var call := CallFor(hash, bits, SlotValue(hash, bits, SlotOf(hash, bits, s), s), s);
      if latest.None? {
        EmptySlot(hash, bits, s);
      } else {
        var p := latest.value;
        CallForPredecessor(hash, bits, p, s);
        LowIsAll(p, bits);
        Unpacking(hash, bits, p);
        assert High(Packed(hash, bits, p), bits) == High(KeyOf(hash, bits, p), bits);
        SameKey(hash, bits, p, s);
        assert call == if Compared(hash, bits, p, s) then [(p, s)] else [];
      }
      forall c
        ensures c in Calls(hash, bits, count) <==> c.1 < count && Compared(hash, bits, c.0, c.1)
      {
        assert c in Calls(hash, bits, count) <==> c in Calls(hash, bits, s) || c in call;
      }
    }
  }

  /** A zero word reads as an empty slot. */
  lemma EmptySlot(hash: Hash, bits: nat, s: uint32)
    ensures CallFor(hash, bits, 0, s) == []
  {
  }

  lemma SameKey(hash: Hash, bits: nat, p: uint32, s: uint32)
    requires bits <= 32
    ensures KeyOf(hash, bits, p) == KeyOf(hash, bits, s) <==>
            High(KeyOf(hash, bits, p), bits) == High(KeyOf(hash, bits, s), bits)
  {
    KeyParts(hash, bits, p);
    KeyParts(hash, bits, s);
  }

  /** Equal birthdays have equal slots and equal keys. */
  lemma EqualBirthdaysAreCompared(hash: Hash, bits: nat, p: nat, s: nat)
    requires bits <= 32 && p < s < MAX_NONCE && Birthday(hash, p) == Birthday(hash, s)
    requires Latest(hash, bits, SlotOf(hash, bits, s), s) == Some(p)
    ensures Compared(hash, bits, p, s) <==> !(p == 0 && Birthday(hash, 0) / 0x4_0000 < TwoTo(bits))
  {
    hide Birthday, High, Low, TwoTo, Latest;
    KeyIsZero(Birthday(hash, 0) / 0x4_0000, bits);
  }

  lemma KeyIsZero(x: nat, bits: nat)
    ensures High(x, bits) * TwoTo(bits) == 0 <==> x < TwoTo(bits)
  {
    LowIsAll(x, bits);
    if High(x, bits) == 0 {
      HighLow(x, bits);
    }
  }

  /**
   With a table as large as the range of indices, the collisions that pass revalidation are exactly:
   two equal birthdays with no other index between them in their slot, index 0 with key 0 excepted.
   */
  lemma CollisionsFound(hash: Hash, bits: nat, count: nat, p: nat, s: nat)
    requires bits <= 32 && count <= MAX_NONCE && count <= TwoTo(bits) && p < s < count
    ensures (p, s) in Calls(hash, bits, count) && Birthday(hash, p) == Birthday(hash, s) <==>
            && Birthday(hash, p) == Birthday(hash, s)
            && (forall q: nat :: p < q < s ==> SlotOf(hash, bits, q) != SlotOf(hash, bits, s))
            && !(p == 0 && Birthday(hash, 0) / 0x4_0000 < TwoTo(bits))
  {
    hide Birthday, KeyOf, Low, TwoTo, Calls;
    CallsAreComparisons(hash, bits, count);
    var latest := Latest(hash, bits, SlotOf(hash, bits, s), s);
    if Birthday(hash, p) == Birthday(hash, s) {
      assert SlotOf(hash, bits, p) == SlotOf(hash, bits, s);
      if latest == Some(p) {
        EqualBirthdaysAreCompared(hash, bits, p, s);
      } else {
        var q: nat := latest.value;
        assert SlotOf(hash, bits, q) == SlotOf(hash, bits, s);
      }
    }
  }

  // ----- revalidation -----

  type Words = w: seq<uint32> | |w| == 8 witness seq(8, _ => 0)

  /** Eight 32-bit words as one number, least significant word first. */
  function Value(w: seq<uint32>): nat {
    if w == [] then 0 else w[0] + 0x1_0000_0000 * Value(w[1..])
  }

  /** The weights are the powers of 2^32, word 7 the most significant. */
  lemma ValueMeans(a: uint32, b: uint32, c: uint32, d: uint32, e: uint32, f: uint32, g: uint32, h: uint32)
    ensures Value([a, b, c, d, e, f, g, h]) ==
            (a as int) + 0x1_0000_0000 * ((b as int) + 0x1_0000_0000 * ((c as int) + 0x1_0000_0000 * ((d as int)
            + 0x1_0000_0000 * ((e as int) + 0x1_0000_0000 * ((f as int) + 0x1_0000_0000 * ((g as int)
            + 0x1_0000_0000 * (h as int)))))))
  {
    FirstWord(a, [b, c, d, e, f, g, h]);
    FirstWord(b, [c, d, e, f, g, h]);
    FirstWord(c, [d, e, f, g, h]);
    FirstWord(d, [e, f, g, h]);
    FirstWord(e, [f, g, h]);
    FirstWord(f, [g, h]);
    FirstWord(g, [h]);
    FirstWord(h, []);
    hide Value;
    assert [a] + [b, c, d, e, f, g, h] == [a, b, c, d, e, f, g, h] && [b] + [c, d, e, f, g, h] == [b, c, d, e, f, g, h];
    assert [c] + [d, e, f, g, h] == [c, d, e, f, g, h] && [d] + [e, f, g, h] == [d, e, f, g, h];
    assert [e] + [f, g, h] == [e, f, g, h] && [f] + [g, h] == [f, g, h] && [g] + [h] == [g, h] && [h] + [] == [h];
  }

  lemma FirstWord(a: uint32, rest: seq<uint32>)
    ensures Value([a] + rest) == (a as int) + 0x1_0000_0000 * Value(rest) && Value([]) == 0
  {
    assert ([a] + rest)[1..] == rest;
  }

  lemma {:induction false} ValueDecides(a: seq<uint32>, b: seq<uint32>, k: nat)
    requires |a| == |b| && k < |a| && a[k] < b[k] && forall j :: k < j < |a| ==> a[j] == b[j]
    ensures Value(a) < Value(b)
  {
    if k > 0 {
      ValueDecides(a[1..], b[1..], k - 1);
    } else {
      assert a[1..] == b[1..];
    }
  }

  /** The word by word comparison with the target, from the most significant word down. */
  method MeetsTarget(generated: Words, target: Words) returns (hashMeetsTarget: bool)
    ensures hashMeetsTarget <==> Value(generated) <= Value(target)
  {
    hide Value;
    hashMeetsTarget := true;
    var hc := 7;
    while hc >= 0
      invariant -1 <= hc <= 7 && hashMeetsTarget
      invariant forall j :: hc < j < 8 ==> generated[j] == target[j]
    {
      if generated[hc] < target[hc] {
        ValueDecides(generated, target, hc);
        hashMeetsTarget := true;
        return;
      } else if generated[hc] > target[hc] {
        ValueDecides(target, generated, hc);
        hashMeetsTarget := false;
        return;
      }
      hc := hc - 1;
    }
    assert generated == target;
  }

  /** Double SHA-256 of the block with its two birthday fields set. */
  type ProofOfWork = (uint32, uint32) -> Words

  function SharesFor(hash: Hash, pow: ProofOfWork, target: Words, a: uint32, b: uint32): seq<(uint32, uint32)> {
    if Birthday(hash, a) != Birthday(hash, b) then []
    else
      (if Value(pow(a, b)) <= Value(target) then [(a, b)] else [])
      + (if Value(pow(b, a)) <= Value(target) then [(b, a)] else [])
  }

  /**
   protoshares_revalidateCollision: only equal 50-bit birthdays pass, and then each order of the
   two is submitted when its own proof-of-work hash meets the target.
   */
  method RevalidateCollision(hash: Hash, pow: ProofOfWork, target: Words, indexA: uint32, indexB: uint32)
    returns (valid: bool, submitted: seq<(uint32, uint32)>)
    ensures valid <==> hash(indexA - indexA % 8)[indexA % 8] / 0x4000 == hash(indexB - indexB % 8)[indexB % 8] / 0x4000
    ensures forall c :: c in submitted <==>
              && valid
              && (c == (indexA, indexB) || c == (indexB, indexA))
              && Value(pow(c.0, c.1)) <= Value(target)
    // each order is submitted once, A B before B A
    ensures |submitted| == (if valid && Value(pow(indexA, indexB)) <= Value(target) then 1 else 0)
                           + (if valid && Value(pow(indexB, indexA)) <= Value(target) then 1 else 0)
    ensures |submitted| == 2 ==> submitted == [(indexA, indexB), (indexB, indexA)]
    ensures submitted == SharesFor(hash, pow, target, indexA, indexB)
  {
    var resultHash := hash(indexA - indexA % 8);
    var birthdayA := resultHash[indexA % 8] / 0x4000;
    resultHash := hash(indexB - indexB % 8);
    var birthdayB := resultHash[indexB % 8] / 0x4000;
    submitted := [];
    if birthdayA != birthdayB {
      return false, [];
    }
    var hashMeetsTarget := MeetsTarget(pow(indexA, indexB), target);
    if hashMeetsTarget {
      submitted := submitted + [(indexA, indexB)];
    }
    hashMeetsTarget := MeetsTarget(pow(indexB, indexA), target);
    if hashMeetsTarget {
      submitted := submitted + [(indexB, indexA)];
    }
    return true, submitted;
  }

  // ----- the search loop -----

  function AllShares(hash: Hash, pow: ProofOfWork, target: Words, calls: seq<(uint32, uint32)>): seq<(uint32, uint32)> {
    if calls == [] then []
    else
      var last := calls[|calls| - 1];
      AllShares(hash, pow, target, calls[..|calls| - 1]) + SharesFor(hash, pow, target, last.0, last.1)
  }

  /** Nothing is submitted without an equal birthday and a hash of its own that meets the target. */
  lemma {:induction false} SharesMeetTarget(hash: Hash, pow: ProofOfWork, target: Words, calls: seq<(uint32, uint32)>)
    ensures forall c :: c in AllShares(hash, pow, target, calls) <==>
              && Birthday(hash, c.0) == Birthday(hash, c.1)
              && (c in calls || (c.1, c.0) in calls)
              && Value(pow(c.0, c.1)) <= Value(target)
  {
    hide Value, Birthday;
    if calls != [] {
      var front, last := calls[..|calls| - 1], calls[|calls| - 1];
      SharesMeetTarget(hash, pow, target, front);
      forall c
        ensures c in AllShares(hash, pow, target, calls) <==>
                && Birthday(hash, c.0) == Birthday(hash, c.1)
                && (c in calls || (c.1, c.0) in calls)
                && Value(pow(c.0, c.1)) <= Value(target)
      {
        InFrontOrLast(calls, c);
        InFrontOrLast(calls, (c.1, c.0));
        SharesOfOne(hash, pow, target, last, c);
        assert c in AllShares(hash, pow, target, calls) <==>
               c in AllShares(hash, pow, target, front) || c in SharesFor(hash, pow, target, last.0, last.1);
      }
    }
  }

  lemma InFrontOrLast(calls: seq<(uint32, uint32)>, c: (uint32, uint32))
    requires calls != []
    ensures c in calls <==> c in calls[..|calls| - 1] || c == calls[|calls| - 1]
  {
    assert calls == calls[..|calls| - 1] + [calls[|calls| - 1]];
  }

  lemma SharesOfOne(hash: Hash, pow: ProofOfWork, target: Words, call: (uint32, uint32), c: (uint32, uint32))
    ensures c in SharesFor(hash, pow, target, call.0, call.1) <==>
            && Birthday(hash, c.0) == Birthday(hash, c.1)
            && (c == call || (c.1, c.0) == call)
            && Value(pow(c.0, c.1)) <= Value(target)
  {
    hide Value, Birthday;
  }

  /** The first words of the look-ahead buffer hold the hashes from nonce n on. */
  ghost predicate Cached(storage: seq<uint64>, hash: Hash, n: nat, m: nat)
    requires n + 8 * m <= MAX_NONCE && 8 * m <= |storage| && n % 8 == 0
  {
    forall k: nat :: k < 8 * m ==> storage[k] / 0x4000 == Birthday(hash, n + k)
  }

  lemma CachedNext(storage: seq<uint64>, hash: Hash, n: nat, m: nat)
    requires n + 8 * m + 8 <= MAX_NONCE && 8 * m + 8 <= |storage| && n % 8 == 0
    requires Cached(storage, hash, n, m) && storage[8 * m..8 * m + 8] == hash(n + m * 8)
    ensures Cached(storage, hash, n, m + 1)
  {
    forall k: nat | 8 * m <= k < 8 * m + 8
      ensures storage[k] / 0x4000 == Birthday(hash, n + k)
    {
      var s := n + k;
      assert s % 8 == k - 8 * m;
      assert storage[8 * m..8 * m + 8][k - 8 * m] == storage[k];
    }
  }

  /** One batch of hashes is computed ahead. */
  method FillCache(storage: array<uint64>, hash: Hash, n: nat)
    requires storage.Length == BATCH && n + BATCH <= MAX_NONCE && n % 8 == 0
    modifies storage
    ensures Cached(storage[..], hash, n, 32)
  {
    var m := 0;
    while m < 32
      invariant m <= 32 && Cached(storage[..], hash, n, m)
    {
      ghost var before := storage[..];
      var result := hash(n + m * 8);
      forall f | 0 <= f < 8 {
        storage[8 * m + f] := result[f];
      }
      assert forall k :: 0 <= k < 8 * m ==> storage[..][k] == before[k];
      assert storage[..][8 * m..8 * m + 8] == result;
      CachedNext(storage[..], hash, n, m);
      m := m + 1;
    }
  }

  /** The body of the inner loop: index s is compared with the last one in its slot and replaces it. */
  method Visit(table: array<uint32>, word: uint64, hash: Hash, pow: ProofOfWork, target: Words, bits: nat, s: uint32)
    returns (calls: seq<(uint32, uint32)>, shares: seq<(uint32, uint32)>)
    requires bits <= 32 && s < MAX_NONCE && Remembers(table[..], hash, bits, s)
    requires word / 0x4000 == Birthday(hash, s)
    modifies table
    ensures Remembers(table[..], hash, bits, s + 1)
    ensures Calls(hash, bits, s + 1) == Calls(hash, bits, s) + calls
    ensures shares == AllShares(hash, pow, target, calls)
  {
    calls, shares := [], [];
    hide Remembers, Calls, TwoTo, Low, High, Birthday, BitOr, SharesFor;
    ghost var was := table[..];
    VisitParts(was, hash, bits, s);
    var birthday := word / 0x4000;
    var collisionKey := High(birthday / 0x4_0000, bits) * TwoTo(bits);
    birthday := Low(birthday, bits);
    var found := table[birthday];
    if found != 0 {
      if found - Low(found, bits) == collisionKey {
        calls := [(Low(found, bits), s)];
        var valid, submitted := RevalidateCollision(hash, pow, target, Low(found, bits), s);
        shares := submitted;
      }
    }
    table[birthday] := BitOr(s, collisionKey);
    assert table[..] == was[birthday := Packed(hash, bits, s)];
    RememberNext(was, hash, bits, s);
  }

  lemma VisitParts(table: seq<uint32>, hash: Hash, bits: nat, s: nat)
    requires bits <= 32 && s < MAX_NONCE && Remembers(table, hash, bits, s)
    ensures |table| == TwoTo(bits)
    ensures table[SlotOf(hash, bits, s)] == SlotValue(hash, bits, SlotOf(hash, bits, s), s)
    ensures Calls(hash, bits, s + 1) == Calls(hash, bits, s) + CallFor(hash, bits, table[SlotOf(hash, bits, s)], s)
    ensures BitOr(s, KeyOf(hash, bits, s)) == Packed(hash, bits, s)
  {
  }

  lemma {:induction false} AllSharesAppend(hash: Hash, pow: ProofOfWork, target: Words, a: seq<(uint32, uint32)>,
                                           b: seq<(uint32, uint32)>)
    ensures AllShares(hash, pow, target, a + b) == AllShares(hash, pow, target, a) + AllShares(hash, pow, target, b)
  {
    hide SharesFor;
    if b == [] {
      assert a + b == a;
    } else {
      AllSharesAppend(hash, pow, target, a, b[..|b| - 1]);
      assert (a + b)[..|a + b| - 1] == a + b[..|b| - 1];
    }
  }

  lemma NoShares(hash: Hash, pow: ProofOfWork, target: Words)
    ensures AllShares(hash, pow, target, []) == []
  {
  }

  lemma NoCalls(hash: Hash, bits: nat)
    requires bits <= 32
    ensures Calls(hash, bits, 0) == []
  {
  }

  lemma EmptyTable(table: seq<uint32>, hash: Hash, bits: nat)
    requires bits <= 32 && |table| == TwoTo(bits) && forall k :: 0 <= k < |table| ==> table[k] == 0
    ensures Remembers(table, hash, bits, 0)
  {
  }

  /** The two inner loops: one batch of precomputed hashes is visited in order. */
  method VisitBatch(table: array<uint32>, storage: array<uint64>, hash: Hash, pow: ProofOfWork, target: Words,
                    bits: nat, n: nat)
    returns (calls: seq<(uint32, uint32)>, shares: seq<(uint32, uint32)>)
    requires bits <= 32 && n + BATCH <= MAX_NONCE && n % 8 == 0 && Remembers(table[..], hash, bits, n)
    requires storage as object != table && storage.Length == BATCH && Cached(storage[..], hash, n, 32)
    modifies table
    ensures Remembers(table[..], hash, bits, n + BATCH)
    ensures Calls(hash, bits, n + BATCH) == Calls(hash, bits, n) + calls
    ensures shares == AllShares(hash, pow, target, calls)
  {
    hide Remembers, Calls, Cached, Birthday, AllShares, TwoTo;
    NoShares(hash, pow, target);
    calls, shares := [], [];
    var m := 0;
    while m < 32
      invariant m <= 32 && Remembers(table[..], hash, bits, n + 8 * m)
      invariant Calls(hash, bits, n + 8 * m) == Calls(hash, bits, n) + calls
      invariant shares == AllShares(hash, pow, target, calls)
    {
      var i := n + m * 8;
      var f := 0;
      while f < 8
        invariant f <= 8 && Remembers(table[..], hash, bits, i + f)
        invariant Calls(hash, bits, i + f) == Calls(hash, bits, n) + calls
        invariant shares == AllShares(hash, pow, target, calls)
      {
        CachedWord(storage[..], hash, n, 8 * m + f);
        var newCalls, newShares := Visit(table, storage[8 * m + f], hash, pow, target, bits, i + f);
        AllSharesAppend(hash, pow, target, calls, newCalls);
        calls := calls + newCalls;
        shares := shares + newShares;
        f := f + 1;
      }
      m := m + 1;
    }
  }

  /** At the start of every batch before n the block was still current. */
  predicate CurrentBefore(stale: nat -> bool, n: nat) {
    forall m: nat :: m < n && m % BATCH == 0 ==> !stale(m)
  }

  lemma CurrentNext(stale: nat -> bool, n: nat)
    requires CurrentBefore(stale, n) && n % BATCH == 0 && !stale(n)
    ensures CurrentBefore(stale, n + BATCH)
  {
    forall m: nat | n <= m < n + BATCH && m % BATCH == 0
      ensures m == n
    {
      assert m / BATCH == n / BATCH;
    }
  }

  lemma CurrentStart(stale: nat -> bool)
    ensures CurrentBefore(stale, 0)
  {
  }

  /** protoshares_process_256 and its siblings, apart from the size of the table: 2^bits slots. */
  method Process(table: array<uint32>, hash: Hash, pow: ProofOfWork, target: Words, bits: nat, stale: nat -> bool)
    returns (visited: nat, calls: seq<(uint32, uint32)>, shares: seq<(uint32, uint32)>)
    requires bits <= 32 && table.Length == TwoTo(bits)
    modifies table
    ensures visited <= MAX_NONCE && visited % BATCH == 0
    ensures CurrentBefore(stale, visited)
    ensures visited < MAX_NONCE ==> stale(visited)
    ensures Remembers(table[..], hash, bits, visited)
    ensures calls == Calls(hash, bits, visited)
    ensures shares == AllShares(hash, pow, target, calls)
    ensures forall c :: c in shares <==>
              && Birthday(hash, c.0) == Birthday(hash, c.1)
              && (c in calls || (c.1, c.0) in calls)
              && Value(pow(c.0, c.1)) <= Value(target)
  {
    hide Remembers, Calls, AllShares, Cached, TwoTo, CurrentBefore;
    CurrentStart(stale);
    var k := 0;
    while k < table.Length
      invariant 0 <= k <= table.Length
      invariant forall j :: 0 <= j < k ==> table[j] == 0
    {
      table[k] := 0;
      k := k + 1;
    }
    EmptyTable(table[..], hash, bits);
    calls, shares := [], [];
    NoShares(hash, pow, target);
    assert Calls(hash, bits, 0) == [] by { NoCalls(hash, bits); }
    var storage := new uint64[BATCH];
    var n := 0;
    while n < MAX_NONCE
      invariant n <= MAX_NONCE && n % BATCH == 0
      invariant CurrentBefore(stale, n)
      invariant Remembers(table[..], hash, bits, n)
      invariant calls == Calls(hash, bits, n) && shares == AllShares(hash, pow, target, calls)
    {
      if stale(n) {
        break;
      }
      FillCache(storage, hash, n);
      var newCalls, newShares := VisitBatch(table, storage, hash, pow, target, bits, n);
      AllSharesAppend(hash, pow, target, calls, newCalls);
      calls := calls + newCalls;
      shares := shares + newShares;
      CurrentNext(stale, n);
      n := n + BATCH;
    }
    visited := n;
    SharesMeetTarget(hash, pow, target, calls);
  }

  lemma CachedWord(storage: seq<uint64>, hash: Hash, n: nat, k: nat)
    requires n + BATCH <= MAX_NONCE && |storage| == BATCH && n % 8 == 0 && k < BATCH && Cached(storage, hash, n, 32)
    ensures storage[k] / 0x4000 == Birthday(hash, n + k)
  {
  }
}
