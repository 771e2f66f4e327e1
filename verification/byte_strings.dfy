/** Byte strings used in paddings. */
module ByteStrings {

  function Zeros(n: nat): (r: seq<bv8>)
    ensures |r| == n
  {
    seq(n, _ => 0)
  }

  /** The n bytes of a number, the most significant first: a counter that wraps around. */
  function Counter(value: nat, n: nat): (r: seq<bv8>)
    ensures |r| == n
    decreases n, value
  {
    if n == 0 then [] else Counter(value / 256, n - 1) + [(value % 256) as bv8]
  }

  /** One past the largest number that fits into n bytes. */
  function Bound(n: nat): (b: nat)
    ensures b >= 1
  {
    if n == 0 then 1 else 256 * Bound(n - 1)
  }

  lemma ShiftedByByte(value: nat, m: nat)
    ensures (value + 256 * m) / 256 == value / 256 + m && (value + 256 * m) % 256 == value % 256
  {
  }

  lemma Regroup(k: nat, b: nat)
    ensures k * (256 * b) == 256 * (k * b)
  {
  }

  lemma {:induction false} CounterWraps(value: nat, k: nat, n: nat)
    ensures Counter(value + k * Bound(n), n) == Counter(value, n)
  {
    if n > 0 {
      var b := Bound(n - 1);
      Regroup(k, b);
      ShiftedByByte(value, k * b);
      CounterWraps(value / 256, k, n - 1);
    }
  }

  /** A number that fits into n bytes has leading zeros in more. */
  lemma {:induction false} CounterWithZeros(value: nat, z: nat, n: nat)
    requires value < Bound(n)
    ensures Counter(value, z + n) == Zeros(z) + Counter(value, n)
  {
    if n > 0 {
      CounterWithZeros(value / 256, z, n - 1);
      assert Zeros(z) + Counter(value, n) == (Zeros(z) + Counter(value / 256, n - 1)) + [(value % 256) as bv8];
    } else if z > 0 {
      CounterWithZeros(0, z - 1, 0);
      assert Zeros(z) == Zeros(z - 1) + [0];
    }
  }

  /** Leading zeros mean a number that fits into the other bytes. */
  lemma {:induction false} CounterLeadingZeros(value: nat, z: nat, n: nat)
    requires value < Bound(z + n)
    ensures Counter(value, z + n) == Zeros(z) + Counter(value, n) ==> value < Bound(n)
  {
    if n > 0 {
      CounterLeadingZeros(value / 256, z, n - 1);
      LastByte(value, z + n);
      LastByte(value, n);
      ZerosBefore(z, Counter(value, n), Counter(value / 256, n - 1));
    } else if z > 0 {
      CounterLeadingZeros(value / 256, z - 1, 0);
      LastByte(value, z);
      assert Zeros(z)[z - 1] == 0 && Zeros(z)[..z - 1] == Zeros(z - 1) + [];
      assert Zeros(z) + [] == Zeros(z);
      assert value % 256 != 0 ==> Counter(value, z)[z - 1] != 0;
    }
  }

  lemma LastByte(value: nat, n: nat)
    requires n > 0
    ensures Counter(value, n)[..n - 1] == Counter(value / 256, n - 1)
    ensures Counter(value, n)[n - 1] == (value % 256) as bv8
  {
  }

  lemma ZerosBefore(z: nat, a: seq<bv8>, front: seq<bv8>)
    requires |a| == |front| + 1 && a[..|front|] == front
    ensures (Zeros(z) + a)[..z + |front|] == Zeros(z) + front
  {
  }

  /** memcpy into an array. */
  method CopyInto(a: array<bv8>, at: nat, bytes: seq<bv8>)
    requires at + |bytes| <= a.Length
    modifies a
    ensures a[..at] == old(a[..at]) && a[at..at + |bytes|] == bytes && a[at + |bytes|..] == old(a[at + |bytes|..])
  {
    forall i | 0 <= i < |bytes| {
      a[at + i] := bytes[i];
    }
  }
}
