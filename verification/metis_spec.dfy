/**
 The 512-bit hash of xptMiner/metis.c in plain form: a state of 36 words that is really rotated,
 one round per message word, then the closing rounds.
 */
module MetisSpec {
  import opened Words
  import opened ByteStrings
  import opened MetisMix

  const SIZE: nat := 36

  type State = s: seq<Word> | |s| == SIZE witness seq(SIZE, _ => ZERO)

  /** S[i] ^= S[j]. */
  function XorInto(s: State, i: nat, j: nat): State
    requires i < SIZE && j < SIZE
  {
    s[i := Xor(s[i], s[j])]
  }

  // ----- the macros, on words with the given places -----

  function TixAt(s: State, q: Word, x00: nat, x01: nat, x04: nat, x07: nat, x08: nat, x22: nat, x24: nat, x27: nat,
                 x30: nat): State
    requires x00 < SIZE && x01 < SIZE && x04 < SIZE && x07 < SIZE && x08 < SIZE && x22 < SIZE && x24 < SIZE
        && x27 < SIZE && x30 < SIZE
  {
    var s1 := XorInto(s, x22, x00);
    var s2 := s1[x00 := q];
    XorInto(XorInto(XorInto(XorInto(s2, x08, x00), x01, x24), x04, x27), x07, x30)
  }

  function CmixAt(s: State, x00: nat, x01: nat, x02: nat, x04: nat, x05: nat, x06: nat, x18: nat, x19: nat,
                  x20: nat): State
    requires x00 < SIZE && x01 < SIZE && x02 < SIZE && x04 < SIZE && x05 < SIZE && x06 < SIZE && x18 < SIZE
        && x19 < SIZE && x20 < SIZE
  {
    var s3 := XorInto(XorInto(XorInto(s, x00, x04), x01, x05), x02, x06);
    XorInto(XorInto(XorInto(s3, x18, x04), x19, x05), x20, x06)
  }

  function SmixAt(t: Tables, s: State, x0: nat, x1: nat, x2: nat, x3: nat): State
    requires x0 < SIZE && x1 < SIZE && x2 < SIZE && x3 < SIZE
  {
    var y := Mix(t, Quad(s[x0], s[x1], s[x2], s[x3]));
    var s1: State := s[x0 := y.x0];
    var s2: State := s1[x1 := y.x1];
    var s3: State := s2[x2 := y.x2];
    s3[x3 := y.x3]
  }

  // ----- the rounds -----

  /** ROR(n, 36). */
  function Ror(s: State, n: nat): State
    requires n <= SIZE
  {
    s[SIZE - n..] + s[..SIZE - n]
  }

  /** ROR(3, 36), CMIX36 and SMIX. */
  function Step(t: Tables, s: State): State {
    SmixAt(t, CmixAt(Ror(s, 3), 0, 1, 2, 4, 5, 6, 18, 19, 20), 0, 1, 2, 3)
  }

  function Steps(t: Tables, s: State, n: nat): State {
    if n == 0 then s else Step(t, Steps(t, s, n - 1))
  }

  /** One message word. */
  function Round(t: Tables, s: State, q: Word): State {
    Step(t, Step(t, Step(t, Step(t, TixAt(s, q, 0, 1, 4, 7, 8, 22, 24, 27, 30)))))
  }

  function Rounds(t: Tables, s: State, words: seq<Word>): State {
    if words == [] then s else Round(t, Rounds(t, s, words[..|words| - 1]), words[|words| - 1])
  }

  /** One word is added to four others. */
  function SpreadAt(s: State, x: nat, a: nat, b: nat, c: nat, d: nat): State
    requires x < SIZE && a < SIZE && b < SIZE && c < SIZE && d < SIZE
  {
    XorInto(XorInto(XorInto(XorInto(s, a, x), b, x), c, x), d, x)
  }

  function Quarter(t: Tables, s: State, a: nat, b: nat, c: nat, d: nat, n: nat): State
    requires a < SIZE && b < SIZE && c < SIZE && d < SIZE && n <= SIZE
  {
    SmixAt(t, Ror(SpreadAt(s, 0, a, b, c, d), n), 0, 1, 2, 3)
  }

  function ClosingRound(t: Tables, s: State): State {
    Quarter(t, Quarter(t, Quarter(t, Quarter(t, s, 4, 9, 18, 27, 9), 4, 10, 18, 27, 9), 4, 10, 19, 27, 9),
      4, 10, 19, 28, 8)
  }

  function ClosingRounds(t: Tables, s: State, n: nat): State {
    if n == 0 then s else ClosingRound(t, ClosingRounds(t, s, n - 1))
  }

  /** The state from which the digest is read. */
  function Closed(t: Tables, s: State): State {
    SpreadAt(ClosingRounds(t, Steps(t, s, 32), 13), 0, 4, 9, 18, 27)
  }

  /** The words read from a closed state. */
  function DigestOf(c: State): (r: seq<Word>)
    ensures |r| == 16
  {
    [c[1], c[2], c[3], c[4], c[9], c[10], c[11], c[12], c[18], c[19], c[20], c[21], c[27], c[28], c[29], c[30]]
  }

  // ----- the hash of a message -----

  const IV512: seq<Word> := [
    Word(0x8807a57e), Word(0xe616af75), Word(0xc5d3e4db), Word(0xac9ab027),
    Word(0xd915f117), Word(0xb6eecc54), Word(0x06e8020b), Word(0x4a92efd1),
    Word(0xaac6e2c9), Word(0xddb21398), Word(0xcae65838), Word(0x437f203f),
    Word(0x25ea78e7), Word(0x951fddd6), Word(0xda6ed11d), Word(0xe13e3567)
  ]

  function Initial(): State {
    seq(20, _ => ZERO) + IV512
  }

  /** The whole words of a byte string. */
  function WordsOf(bs: seq<bv8>): (r: seq<Word>)
    ensures |r| == |bs| / 4
  {
    seq(|bs| / 4, i requires 0 <= i < |bs| / 4 => BeWord(bs[4 * i..4 * i + 4]))
  }

  /** The top n bits of ub, the rest cleared. */
  function ExtraBits(ub: bv8, n: nat): bv8
    requires n < 8
  {
    ub & !(0xFF >> n)
  }

  /** Zeros up to a whole word. */
  function Filled(bs: seq<bv8>): (r: seq<bv8>)
    ensures |r| % 4 == 0 && |bs| <= |r| < |bs| + 4
  {
    var k := (4 - |bs| % 4) % 4;
    bs + Zeros(k)
  }

  /** Message, extra bits, zeros up to a whole word, and the 64-bit count of bits. */
  function Padded(message: seq<bv8>, ub: bv8, n: nat): seq<bv8>
    requires n < 8
  {
    Filled(message + if n == 0 then [] else [ExtraBits(ub, n)]) + Counter(8 * |message| + n, 8)
  }

  /** The hash as sixteen words. */
  function Hash(t: Tables, message: seq<bv8>, ub: bv8, n: nat): (r: seq<Word>)
    requires n < 8
    ensures |r| == 16
  {
    DigestOf(Closed(t, Rounds(t, Initial(), WordsOf(Padded(message, ub, n)))))
  }
}
