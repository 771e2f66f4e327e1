/**
 The Keccak-f[1600] permutation as sections 3.2 and 3.3 of FIPS 202 define it, on lanes of 64 bits.
 */
module KeccakSpec {
  import opened Lanes

  /** The state array: lane (x, y) of section 3.1.2 is element 5*x + y. */
  type State = s: seq<Lane> | |s| == 25 witness seq(25, _ => ZERO)

  // ----- theta (section 3.2.1) -----

  function Column(A: State, x: nat): Lane
    requires x < 5
  {
    Xor(Xor(Xor(Xor(A[5 * x], A[5 * x + 1]), A[5 * x + 2]), A[5 * x + 3]), A[5 * x + 4])
  }

  function ColumnEffect(A: State, x: nat): Lane
    requires x < 5
  {
    Xor(Column(A, (x + 4) % 5), Rot(Column(A, (x + 1) % 5), 1))
  }

  function Theta(A: State): State {
    seq(25, q requires 0 <= q < 25 => Xor(A[q], ColumnEffect(A, q / 5)))
  }

  // ----- rho (section 3.2.2) -----

  /** The offset of table 2, modulo the lane size, for the lane at 5*x + y. */
  function Offset(q: nat): (n: bv8)
    ensures n < 64
  {
    match q
    case 0 => 0   case 1 => 36  case 2 => 3   case 3 => 41  case 4 => 18
    case 5 => 1   case 6 => 44  case 7 => 10  case 8 => 45  case 9 => 2
    case 10 => 62 case 11 => 6  case 12 => 43 case 13 => 15 case 14 => 61
    case 15 => 28 case 16 => 55 case 17 => 25 case 18 => 21 case 19 => 56
    case 20 => 27 case 21 => 20 case 22 => 39 case 23 => 8  case _ => 14
  }

  function Rho(A: State): State {
    seq(25, q requires 0 <= q < 25 => Rot(A[q], Offset(q)))
  }

  // ----- pi, chi and iota (sections 3.2.3 to 3.2.5) -----

  /** The lane (x + 3y, x) that pi moves to (x, y). */
  function PiSource(q: nat): (r: nat)
    requires q < 25
    ensures r < 25
  {
    5 * ((q / 5 + 3 * (q % 5)) % 5) + q / 5
  }

  function Pi(A: State): State {
    seq(25, q requires 0 <= q < 25 => A[PiSource(q)])
  }

  function ChiLane(a: Lane, b: Lane, c: Lane): Lane {
    Xor(a, And(Not(b), c))
  }

  /** The lane (x + 1, y) next to the lane (x, y) in its row. */
  function Next(q: nat): (r: nat)
    requires q < 25
    ensures r < 25
  {
    if q < 20 then q + 5 else q - 20
  }

  function Chi(A: State): State {
    seq(25, q requires 0 <= q < 25 => ChiLane(A[q], A[Next(q)], A[Next(Next(q))]))
  }

  /** The round constants of the 24 rounds. */
  const RC: seq<bv64> := [
    0x0000000000000001, 0x0000000000008082, 0x800000000000808A, 0x8000000080008000,
    0x000000000000808B, 0x0000000080000001, 0x8000000080008081, 0x8000000000008009,
    0x000000000000008A, 0x0000000000000088, 0x0000000080008009, 0x000000008000000A,
    0x000000008000808B, 0x800000000000008B, 0x8000000000008089, 0x8000000000008003,
    0x8000000000008002, 0x8000000000000080, 0x000000000000800A, 0x800000008000000A,
    0x8000000080008081, 0x8000000000008080, 0x0000000080000001, 0x8000000080008008
  ]

  function Iota(A: State, rc: Lane): State {
    A[0 := Xor(A[0], rc)]
  }

  // ----- Keccak-f[1600] (section 3.3) -----

  function Round(A: State, rc: Lane): State {
    Iota(Chi(Pi(Rho(Theta(A)))), rc)
  }

  /** The state after the first n rounds. */
  function Rounds(A: State, n: nat): State
    requires n <= |RC|
  {
    if n == 0 then A else Round(Rounds(A, n - 1), Lane(RC[n - 1]))
  }

  function KeccakF(A: State): State {
    Rounds(A, |RC|)
  }
}
