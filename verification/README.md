# Verified kernels of xptMiner

xptMiner mines several coins on the CPU. Its work is done by hand-optimised kernels that must agree
with simple definitions, and by searches that must not lose solutions. This project models those
kernels in Dafny, in the form in which the C and C++ code runs them (arrays overwritten in place,
contexts fed chunk by chunk, loops with early exits), and proves what they are for.

- **Riecoin** (`number_theory`, `modular_inverse`, `bit_table`, `prime_count`, `prime_table`,
  `prime_table_limits`, `riecoin_sieve`, `riecoin_miner_1`): the prime table is exact for the limits at
  which it can be, the sieve marks an index exactly when a
  table prime divides one of its six numbers, and every prime sextuple in range ends up as a share. The
  number theory this needs (Bezout, Euclid's lemma, the binomial theorem, Fermat's little theorem, a
  wheel modulo 210) is proved here.
- **Keccak** (`lanes`, `keccak_*`): the permutation with six complemented lanes, with pi done by
  renaming and with unrolled rounds, is Keccak-f[1600] of FIPS 202; the buffered context is the sponge
  with the original pad10*1 padding; the two forms specialised to 80-byte headers return what the
  general one returns, although they skip most of the last round.
- **Protoshares** (`protoshares_filter`, `protoshares_scan`, `protoshares_table`, `machine_words`): three
  passes of a lossy counting filter and a scan that zeroes what it has reported find the same collisions
  as a naive scan of everything; the table of packed last writers compares exactly what its history says.
- **Metis** (`words`, `byte_strings`, `metis_*`): rotating names replace rotating the state; the buffered
  context is independent of how the input is cut; the one-shot, split and interleaved forms return one
  digest word although their last round omits most of its updates. All of it holds for every choice of
  the mixing tables.
- **SHA-2** (`sha2_*`): streaming, padding and the unrolled rounds with rotating roles, for any word type
  and any round functions, with SHA-256 and SHA-512 as instances; the constants are shown to be the roots of
  the first primes that define them.
- **scrypt** (`salsa`, `scrypt_mix`, `scrypt_hmac`, `scrypt`, `scrypt_rotation`): the permuted-lane core and
  the double core equal the plain one for every function in the place of the rotation, and with a true
  rotation there the whole is scrypt of RFC 7914.
- **Streams** (`bit_stream`, `memory_stream`): a bit writer and reader that undo each other, and a growing
  buffer that behaves like a file.

## Things to know

- The prime table code squares a factor in 32 bits. Up to a limit of 65535^2 its table is exact; for every
  limit beyond, it either does not end or strikes a prime (`PrimeTableLimits.TableIsExactUpToTheBound`).
- `riecoinMiner_1.cpp` multiplies start indices in 32 bits. For its first table that is exact
  (`RiecoinMiner1.MarkFirstTable`); for the second it is not, and `RiecoinMiner1.SecondTableWraps` shows a
  multiple that stays unmarked and a number struck by mistake, for a whole residue class of bases that some
  block hashes lead to.
- `protosharesMiner.cpp` packs an index beside a key. With 25, 23 or 21 table bits the index does not fit;
  `ProtosharesTable.Unpacking` says exactly which indices come back, and `CallForPredecessor` what is called
  instead. Even with 26 bits the word for index 0 with key 0 is zero and reads as an empty slot, so that
  one comparison is skipped.
- A write of the memory stream computes its enlargement in 32 bits. For an enormous chunk the sum
  overflows: a buffer may not grow at all or by one byte at a time. `MemoryStream.StoresAllAllowed` gives the
  exact condition under which a write stores all it should, `MemoryStream.CostIsKeptExactly` the one under which
  a growth keeps the cost bound, and `MemoryStream.GrowthCanBeWasteful` a run from a new stream that exceeds it.
  The relative flag of a seek is ignored, and `setSize` can leave the position behind the end.
- The length field of the SHA-2 code is 32 bits wide, so its padding is the standard one exactly below
  2^29 bytes (`Sha2Contexts.PaddingIsStandard`).
- `sha512_update_final` tests for room behind the pending bytes modulo the block size. A chunk that fills the
  block exactly loses its last four bytes to the length field (`Sha2Contexts.HashedIsPadded`).
- `scrypt.cpp` defines the rotation macro as empty, so `ROTL(a, n)` is a comma expression with the value n. The
  rotation is a parameter of the scrypt model. `ScryptRotation.RotateLeft` is the one RFC 7914 needs; with the
  macro as it is defined the core only doubles, and the first loop of the mix forgets its input after 32 turns
  (`ScryptRotation.ShippedCoreDoubles`, `ScryptRotation.IteratesVanish`).
- The comment above the alignment of the Riecoin base promises the first suitable offset.
  `RiecoinSieve.SkipsEarlierOffset` says exactly when a smaller one is skipped.
- A zero-length update of the Metis context that comes when a whole word is pending absorbs that word early.
  The context then still stands for the same message (`MetisCore.MetisContext.Core`).

Definitions are not taken on trust. Those that follow a published standard are tied to it a second time: the step
mappings of Keccak bit by bit (`keccak_bits`), SHA-2 by its published digests (`sha2_evaluation`,
`sha2_example_256`, `sha2_example_512`), scrypt by published vectors and by its definition over bytes
(`scrypt_rotation`, `Scrypt.MixStep`), HMAC and PBKDF2 by their byte formulas. The Metis hash is restated
place by place and byte by byte (`metis_laws`), and what the two searches report is stated in plain numbers.

The names in the first column below are qualified by module and class. Specification functions are stated in
the modules `KeccakSpec`, `KeccakSponge`, `MetisSpec`, `Sha2Suite`, `Salsa`, `ScryptMix` and `ScryptHmac`, next
to or ahead of the code they are compared with.

## Model

| member | source | states |
|---|---|---|
| NumberTheory.EuclidsLemma | xptMiner/riecoinMiner.cpp:236-240 | a prime that divides a product divides a factor; the sieve solves its linear congruence by cancelling a factor that is prime to p |
| NumberTheory.CancelCoprime | xptMiner/riecoinMiner.cpp:236-240 | a factor prime to n can be cancelled from a multiple of n; this is why the residue class of a start index is the only one |
| NumberTheory.SmallPrimeDivisorExists | xptMiner/riecoinMiner.cpp:68-74 | a composite number has a prime divisor whose square does not exceed it, so the sieve may stop at the square root |
| NumberTheory.BinomialTheorem | xptMiner/riecoinMiner.cpp:262-265 | powers of a + 1 as sums of binomial terms; a step towards Fermat's little theorem |
| NumberTheory.PrimeDividesChoose | xptMiner/riecoinMiner.cpp:262-265 | a prime p divides the inner binomial coefficients of row p |
| NumberTheory.FermatLittle | xptMiner/riecoinMiner.cpp:262-265 | a^p is congruent to a modulo a prime p, for every a |
| NumberTheory.FermatTestPasses | xptMiner/riecoinMiner.cpp:262-273 | the base-2 Fermat test of the candidate scan accepts every odd prime |
| ModularInverse.DivisionStep | xptMiner/riecoinMiner_1.cpp:144-166 | one of the three unrolled Euclid steps keeps the Bezout relation and the cross sum abs(aux_k) * rem_{k-1} + abs(aux_{k-1}) * rem_k = n, and its quotient, product and new coefficient all lie within -n and n |
| ModularInverse.CoefficientsBounded | xptMiner/riecoinMiner_1.cpp:132-166 | between two steps both coefficients lie within -n and n as long as the later remainder is positive; the later one always does |
| ModularInverse.IntInvert | xptMiner/riecoinMiner_1.cpp:129-170 | terminates for every a and every modulus below 2^31 and returns the inverse when the two are coprime, without overflow on the way |
| BitTable.SetBit | xptMiner/riecoinMiner.cpp:75 | setting one flag of a bit-packed table changes that flag and no other |
| BitTable.BitMasks | xptMiner/riecoinMiner.cpp:70 | flag j of a byte is its binary digit under the mask 1, 2, 4 up to 128 |
| PrimeCounting.SpokeBound | xptMiner/riecoinMiner.cpp:61-62 | the numbers prime to 210 below n are at most n/4 + 6 |
| PrimeCounting.PrimeCountBound | xptMiner/riecoinMiner.cpp:61-62 | for every limit there are at most limit/4 + 10 primes below it, so neither table is written past its allocation |
| PrimeTable.StopsBeforeWrapAround | xptMiner/riecoinMiner.cpp:68 | the test nFactor*nFactor < limit, in 32 bits, stops the outer loop without a wrap-around exactly for limits up to 65535^2 |
| PrimeTable.StruckIffComposite | xptMiner/riecoinMiner.cpp:68-76 | below the limit, being struck by some factor with a square below the limit is the same as being composite |
| PrimeTable.StrikeMultiples | xptMiner/riecoinMiner.cpp:74-75 | the inner loop sets exactly the flags of the multiples from the square on |
| PrimeTable.SieveComposites | xptMiner/riecoinMiner.cpp:66-76 | after the sieve a flag is set exactly for the composites, although struck factors are skipped |
| PrimeTable.MpzInvert | xptMiner/riecoinMiner.cpp:91-93 | what the code assumes of mpz_invert: an inverse modulo n when the arguments are coprime |
| PrimeTable.Init | xptMiner/riecoinMiner.cpp:58-99 | the prime table holds exactly the primes below the limit in increasing order, the second table their inverses of the primorial, and no entry lies outside the allocation |
| PrimeTableLimits.OuterFinishes | xptMiner/riecoinMiner.cpp:68-76 | stepping through both loops with their wrapping 32-bit words, every limit up to 65535^2 reaches the end with exactly the composites marked |
| PrimeTableLimits.BeyondTheBoundAPrimeIsStruck | xptMiner/riecoinMiner.cpp:68-76 | for every larger 32-bit limit, if the loops end at all, some prime below the limit is marked |
| PrimeTableLimits.TableIsExactUpToTheBound | xptMiner/riecoinMiner.cpp:58-94 | for every 32-bit limit: the loops end and the table lists exactly the primes if and only if the limit is at most 65535^2 |
| RiecoinSieve.AlignBase | xptMiner/riecoinMiner.cpp:205-209 | the offset is the first of at least 97 at which the base has residue 97 modulo the primorial |
| RiecoinSieve.SkipsEarlierOffset | xptMiner/riecoinMiner.cpp:205 | the comment speaks of the first offset; a smaller one is skipped exactly when the residue of the target lies in 1..97 |
| RiecoinSieve.AlignedBaseAvoidsSmallPrimes | xptMiner/riecoinMiner.cpp:205-224 | with residue 97 none of the six numbers of any index has a prime factor below 29 |
| RiecoinSieve.StartIndex | xptMiner/riecoinMiner.cpp:226-240 | the computed index is the residue class of all k for which p divides base + primorial*k + bias, in 64 bits without wrap-around |
| RiecoinSieve.MarkResidueClass | xptMiner/riecoinMiner.cpp:242-243 | the marking loop sets exactly the members of the class below the sieve size, whenever the class has a first member behind the sieve that fits 32 bits |
| RiecoinSieve.MarkSieve | xptMiner/riecoinMiner.cpp:220-247 | after marking, a bit is set exactly when some table prime from 29 on divides one of the six numbers of its index |
| RiecoinSieve.SmallSieveEndsInRange | xptMiner/riecoinMiner.cpp:220-247 | sieve sizes up to 2^32 less the table limit never make a loop counter wrap |
| RiecoinSieve.WrapStrikesWrongIndex | xptMiner/riecoinMiner.cpp:242-243 | for every sieve size below 2^32 at which a counter does wrap, the loop next strikes an index whose number the prime does not divide |
| RiecoinSieve.ClearMeansNoSmallFactor | xptMiner/riecoinMiner.cpp:205-256 | the six numbers of a clear index have no prime factor below the table limit |
| RiecoinSieve.SextupleIsClear | xptMiner/riecoinMiner.cpp:220-256 | six primes above the limit are never struck out |
| RiecoinSieve.SharesExactly | xptMiner/riecoinMiner.cpp:253-317 | an offset is submitted exactly when its index is clear and passes the two Fermat tests and the two probable-prime tests |
| RiecoinSieve.SextuplePasses | xptMiner/riecoinMiner.cpp:259-286 | a prime sextuple passes all four tests, given that mpz_probab_prime_p never returns 0 on a prime |
| RiecoinSieve.NoSextupleLost | xptMiner/riecoinMiner.cpp:205-317 | every index whose six numbers are prime is among the shares |
| RiecoinSieve.HitMeans | xptMiner/riecoinMiner.cpp:220-247 | an index is to be struck exactly when a prime from 29 on below the limit divides n, n + 4, n + 6, n + 10, n + 12 or n + 16, with n = base + 223092870 * index |
| RiecoinSieve.SharesMean | xptMiner/riecoinMiner.cpp:205-317 | an offset is submitted exactly when its number n has residue 97 modulo 223092870, lies in range, has no prime factor below the limit in its six numbers, and passes 2^(n-1) and 2^(n+3) modulo n and n + 4 and the probable-prime tests of n + 6 and n + 10 |
| RiecoinSieve.SextupleIsSubmitted | xptMiner/riecoinMiner.cpp:205-317 | if n, n + 4, n + 6, n + 10, n + 12 and n + 16 are prime, n has residue 97 and lies in range, the offset of n is submitted |
| RiecoinSieve.SharesIncrease | xptMiner/riecoinMiner.cpp:249-317 | offsets are submitted in increasing order, each once |
| RiecoinSieve.Process | xptMiner/riecoinMiner.cpp:205-320 | alignment, marking and scan together: which flags are set, which offsets are submitted and in which order, and that no prime sextuple in range is lost, all with the six numbers written out |
| RiecoinMiner1.WrappedResidue | xptMiner/riecoinMiner_1.cpp:245 | a product of two residues keeps its class modulo an odd prime after a 32-bit wrap exactly when it does not wrap |
| RiecoinMiner1.StartIndex32 | xptMiner/riecoinMiner_1.cpp:237-252 | the 32-bit start index marks the multiples of p exactly when its product stays below 2^32, and so for every p below 50000 |
| RiecoinMiner1.MarkFirstTable | xptMiner/riecoinMiner_1.cpp:233-254 | the sieve of the first table: a bit is set exactly when a prime from 13 on below the limit divides n, n + 4, n + 6 or n + 10, with n = base + 2310 * index |
| RiecoinMiner1.FirstTableNeverWraps | xptMiner/riecoinMiner_1.cpp:245 | for the primes of the first table, below 50000, the product of residue and inverse stays below 2^32 |
| RiecoinMiner1.SecondTableWraps | xptMiner/riecoinMiner_1.cpp:255-276 | for every base with residue 66446 modulo the table prime 66457, the fifth number of index 374 is a multiple that stays unmarked and index 16074 is struck although it is none |
| RiecoinMiner1.SecondTableWrapsForSomeHash | xptMiner/riecoinMiner_1.cpp:207-221 | some 256-bit hash gives a target whose aligned base, with residue 97 modulo 2310, has that residue |
| RiecoinMiner1.InverseIsUnique | xptMiner/riecoinMiner_1.cpp:260-267 | the inverse of 2310 modulo that prime is 66083 and no other |
| KeccakTables.OffsetsFollowWalk | xptMiner/keccak.c:1018-1044 | the 24 rotation amounts are those the walk of section 3.2.2 of FIPS 202 generates |
| KeccakBits.ThetaBits | xptMiner/keccak.c:960-1016 | theta of section 3.2.1 bit by bit: bit z of lane (x, y) plus the parities of column x - 1 at z and of column x + 1 at z - 1 |
| KeccakBits.RhoBits | xptMiner/keccak.c:1018-1058 | rho of section 3.2.2 bit by bit: step t of the walk takes its bit z from z - (t + 1)(t + 2)/2 |
| KeccakBits.RhoOrigin | xptMiner/keccak.c:1018-1058 | rho leaves lane (0, 0) alone |
| KeccakBits.PiBits | xptMiner/keccak.c:1141-1158 | pi of section 3.2.3 bit by bit |
| KeccakBits.ChiBits | xptMiner/keccak.c:1060-1137 | chi of section 3.2.4 bit by bit |
| KeccakBits.IotaBits | xptMiner/keccak.c:1139 | iota of section 3.2.5 bit by bit |
| KeccakBits.TwentyFourRounds | xptMiner/keccak.c:1456-1469 | the permutation is 24 rounds of these five mappings in this order |
| KeccakBits.StringBits | xptMiner/keccak.c:2014-2016 | bit 64(5y + x) + z of the output string is A[x, y, z], section 3.1.3 |
| KeccakBits.CombineBits | xptMiner/keccak.c:331-359 | bit 64(5y + x) + z of a block is added to A[x, y, z], and bits behind the block leave the state alone |
| KeccakBits.SpongeSteps | xptMiner/keccak.c:1570-1604 | the sponge step by step, with rate 136 and 32 bytes of output for Keccak-256 and rate 72 and 64 bytes for Keccak-512 |
| KeccakTables.ConstantsFollowRegister | xptMiner/keccak.c:138-163 | the 24 round constants are those the shift register of section 3.2.5 of FIPS 202 generates |
| KeccakRound.RenamingIsPi | xptMiner/keccak.c:1141-1158 | reading the words under the next list of names performs pi |
| KeccakRound.ThetaOnMasked | xptMiner/keccak.c:960-1016 | theta on a state with six complemented lanes is theta on the true state with a known set of complemented lanes |
| KeccakRound.RhoOnMasked | xptMiner/keccak.c:1018-1058 | rotation carries complemented lanes to complemented lanes |
| KeccakRound.KhiOnMasked | xptMiner/keccak.c:1060-1138 | the mixed and/or rows of KHI compute chi on complemented lanes and restore the six-lane mask |
| KeccakRound.RoundOnMasked | xptMiner/keccak.c:960-1139 | for every state, a masked round is the round of section 3.2 of FIPS 202 under the same mask |
| KeccakPermutation.Namings | xptMiner/keccak.c:1141-1158 | the lists P0 to P8 name every word once and each follows from the last by pi |
| KeccakPermutation.ThetaEffects | xptMiner/keccak.c:960-987 | TH_ELT for the five columns, under any list of names |
| KeccakPermutation.ThetaMacro | xptMiner/keccak.c:977-1016 | THETA in place, under any list of names |
| KeccakPermutation.RhoMacro | xptMiner/keccak.c:1018-1058 | RHO in place, under any list of names |
| KeccakPermutation.KhiRowMacro | xptMiner/keccak.c:1060-1138 | one row of KHI changes that row of the state and no other |
| KeccakPermutation.KhiMacro | xptMiner/keccak.c:1072-1138 | KHI in place, under any list of names |
| KeccakPermutation.IotaMacro | xptMiner/keccak.c:1139 | IOTA in place |
| KeccakPermutation.KfElt | xptMiner/keccak.c:1394-1398 | KF_ELT in place, from one list of names to the next, is one round of FIPS 202 on the state the words stand for |
| KeccakWords.MoveBack8 | xptMiner/keccak.c:1315-1349 | P8_TO_P0: the eight cycles move every word to its own place, with no word lost |
| KeccakWords.MoveBack4 | xptMiner/keccak.c:1249-1279 | P4_TO_P0: the four cycles move every word to its own place |
| KeccakWords.MoveBack1 | xptMiner/keccak.c:1190-1217 | P1_TO_P0: the cycle of 24 moves every word to its own place |
| KeccakPermutation.KeccakF1600 | xptMiner/keccak.c:1456-1469 | three turns of eight renamed rounds and a move back are Keccak-f[1600] on the represented state |
| KeccakPermutation.KeccakF1600By4 | xptMiner/keccak.c:1428-1437 | six turns of four renamed rounds and a move back are the same permutation |
| KeccakPadding.PaddingIsPad101 | xptMiner/keccak.c:1985-2003 | for every message, rate and 0 to 7 extra bits the closing bytes are the extra bits and pad10*1, and fill the last block |
| KeccakContexts.CombineWords | xptMiner/keccak.c:331-359 | combining a block into the stored words combines it into the represented state |
| KeccakContexts.SplitComplete | xptMiner/keccak.c:1584-1600 | a full buffer is the next block of the message, wherever the chunks were cut |
| KeccakContexts.InputBuf | xptMiner/keccak.c:331-359 | INPUT_BUF combines a full buffer into the stored words, lane by lane |
| KeccakContexts.KeccakContext.Reset | xptMiner/keccak.c:1529-1568 | the same for a context that was used before |
| KeccakContexts.KeccakContext.constructor | xptMiner/keccak.c:1529-1568 | a fresh context with six complemented words stands for the zero state and the empty message |
| KeccakContexts.KeccakContext.Core | xptMiner/keccak.c:1570-1604 | for every chunk the context afterwards stands for the message followed by the chunk |
| KeccakContexts.KeccakContext.Finalize | xptMiner/keccak.c:2007-2016 | complementing the six words back and writing the lanes out squeezes the represented state |
| KeccakContexts.KeccakContext.Close | xptMiner/keccak.c:1978-2018 | the digest is the sponge of section 4 of FIPS 202 over the padded message, whatever the chunks were, and the context is reset |
| KeccakFixed.LastRoundLane | xptMiner/keccak.c:2659-2668 | lane 3 of the output needs three lanes of the last round only |
| KeccakFixed.LoadMaxcoin | xptMiner/keccak.c:2493-2518 | the 25 variables start as the padded block on the masked zero state |
| KeccakFixed.LastRound | xptMiner/keccak.c:2659-2668 | the isolated last round returns that lane |
| KeccakFixed.Keccak256MaxcoinOptV | xptMiner/keccak.c:2475-2669 | for every 80-byte block, lane 3 of the Keccak-256 digest |
| KeccakFixed.CombineFront | xptMiner/keccak.c:1649-1659 | the first 72 bytes are combined into nine lanes |
| KeccakFixed.CombinePadding | xptMiner/keccak.c:1661-1663 | the padding of the second block is combined into two lanes |
| KeccakFixed.CorePrepare | xptMiner/keccak.c:1606-1690 | the prepared state depends on the first 72 bytes only and holds the padding of the second block |
| KeccakFixed.CoreOpt | xptMiner/keccak.c:1777-1939 | from the prepared state and the last word of the header, the final state of the Keccak-512 sponge |
| KeccakFixed.HeaderDigest512 | xptMiner/keccak.c:1606-1690 | Keccak-512 of an 80-byte header is the prepared state joined with its last word, permuted once more |
| KeccakFixed.Keccak512OfHeader | xptMiner/keccak.c:1606-1939 | prepare followed by opt computes Keccak-512 of every 80-byte header |
| ProtosharesFilter.BumpedBits | xptMiner/protosharesMiner.cpp:109-121 | one addition and one or take a two-bit counter from 00 to 01, from 01 to 11 and leave it there |
| ProtosharesFilter.BumpedOutside | xptMiner/protosharesMiner.cpp:109-121 | the carry never leaves the counter |
| ProtosharesFilter.ResetFilter | xptMiner/protosharesMiner.cpp:136-140 | clears exactly the words of the filter |
| ProtosharesFilter.AddToFilter | xptMiner/protosharesMiner.cpp:123-127 | one more entry is counted; all counters are those of the list so far |
| ProtosharesFilter.IsInFilterTwice | xptMiner/protosharesMiner.cpp:129-134 | true exactly when at least two entries of the list fell into the counter |
| ProtosharesFilter.CountAll | xptMiner/protosharesMiner.cpp:209-213 | the first loop of a pass counts every entry |
| ProtosharesFilter.FilterPass | xptMiner/protosharesMiner.cpp:208-223 | one pass leaves, in order at the front of the buffer, exactly the entries whose counter reached two; no overwritten entry is read |
| ProtosharesScan.PositionsAre | xptMiner/protosharesMiner.cpp:226-240 | the naive scan reports, for every nonzero hash, its first occurrence with each later one, each exactly once and in order |
| ProtosharesScan.PairWithLater | xptMiner/protosharesMiner.cpp:228-240 | an entry is paired with every later one of its hash, and those are zeroed |
| ProtosharesScan.PairScan | xptMiner/protosharesMiner.cpp:225-240 | the scan that zeroes reported entries hands out the pairs of the naive scan |
| ProtosharesScan.EqualHashesCount | xptMiner/protosharesMiner.cpp:210-217 | two entries with one hash bring their counter to two |
| ProtosharesScan.FilteringKeepsReports | xptMiner/protosharesMiner.cpp:208-223 | a filter pass does not change what a scan reports |
| ProtosharesScan.Process512 | xptMiner/protosharesMiner.cpp:201-241 | three passes and the scan report exactly what the naive scan of the unfiltered list reports: for the words of the buffer, every first position of a nonzero hash with each later one, in order, as the low halves of the two indices |
| ProtosharesScan.ReportsMean | xptMiner/protosharesMiner.cpp:226-241 | the naive scan in terms of the words of the buffer |
| ProtosharesFilter.SlotMeans | xptMiner/protosharesMiner.cpp:211-217 | the counter of a hash: nineteen bits of its product with the odd constant, from bit 13, 26 or 39 on |
| ProtosharesTable.BitOrHalves | xptMiner/protosharesMiner.cpp:303 | an or acts separately on the bits below and above the table width |
| ProtosharesTable.Unpacking | xptMiner/protosharesMiner.cpp:294-303 | the low bits of a packed word give the index back exactly when the index fits below the key |
| ProtosharesTable.CallForPredecessor | xptMiner/protosharesMiner.cpp:294-302 | for every table width, when revalidation is called and with which first index |
| ProtosharesTable.CallsAreComparisons | xptMiner/protosharesMiner.cpp:277-306 | when the table is as large as the index range, revalidation is called exactly for the last index in the same slot whose key agrees, in order of the newcomer; index 0 with key 0 reads as an empty slot |
| ProtosharesTable.CollisionsFound | xptMiner/protosharesMiner.cpp:254-308 | which pairs of equal birthdays are found: those with no other index of the slot between them, index 0 with key 0 excepted |
| ProtosharesTable.MeetsTarget | xptMiner/protosharesMiner.cpp:51-64 | the word by word comparison decides whether the hash as a number is at most the target |
| ProtosharesTable.RevalidateCollision | xptMiner/protosharesMiner.cpp:12-102 | accepts exactly equal 50-bit birthdays, and submits (A, B) exactly when the hash of (A, B) meets the target and (B, A) exactly when that of (B, A) does, in this order |
| ProtosharesTable.SharesMeetTarget | xptMiner/protosharesMiner.cpp:39-99 | over all calls: a pair is submitted exactly when it or its reverse was called with equal birthdays and its own hash meets the target |
| ProtosharesTable.ValueMeans | xptMiner/protosharesMiner.cpp:51-65 | the numeric order of hashes weighs word i by 2^(32 i) |
| ProtosharesTable.StoredWith26Bits | xptMiner/protosharesMiner.cpp:289-305 | with 26 bits an index falls into the slot of the low 26 bits of its birthday and is stored with the six high bits above it |
| ProtosharesTable.TableWith26Bits | xptMiner/protosharesMiner.cpp:289-305 | after any number of indices a slot holds zero, or that word for the last index that fell into it |
| ProtosharesTable.FillCache | xptMiner/protosharesMiner.cpp:281-286 | a batch of 32 hashes is computed ahead, nonce by nonce |
| ProtosharesTable.Visit | xptMiner/protosharesMiner.cpp:292-304 | index s is compared with the word in its slot, which is then overwritten: every slot holds its last writer |
| ProtosharesTable.VisitBatch | xptMiner/protosharesMiner.cpp:287-306 | one precomputed batch is visited in order |
| ProtosharesTable.Process | xptMiner/protosharesMiner.cpp:254-308 | indices are visited once, in order, up to 2^26 or the first stale batch; the table, the calls and the shares are those of the history, and every share meets the target under its own hash |
| MetisMix.Smix | xptMiner/metis.c:471-543 | the macro SMIX computes the mix for every choice of tables |
| MetisMix.Smix2 | xptMiner/metis.c:1238-1298 | SMIX_2 computes the same mix |
| MetisMix.SmixFirst | xptMiner/metis.c:1859-1918 | the block at the end of the one-shot form computes its first word |
| MetisLaws.MixBytes | xptMiner/metis.c:471-560 | SMIX byte by byte: byte j of output word i is that of column sum i + j, plus byte i + j of row sum j |
| MetisLaws.TixPlaces | xptMiner/metis.c:445-461 | what TIX4 leaves at each of the 36 places |
| MetisLaws.StepPlaces | xptMiner/metis.c:904-914 | what a rotation by three, CMIX36 and SMIX leave at each place |
| MetisLaws.QuarterPlaces | xptMiner/metis.c:1091-1115 | what a quarter of a closing round leaves at each place |
| MetisLaws.StepCounts | xptMiner/metis.c:904-914 | a message word takes four steps, and a closing round four quarters at these places |
| MetisLaws.HashWords | xptMiner/metis.c:1081-1137 | the digest: the rounds of the padded message, 32 steps, 13 closing rounds, and sixteen words, four of them with the first word added |
| MetisLaws.InitialPlaces | xptMiner/metis.c:65-72 | the state begins with twenty zeros and the sixteen constants |
| MetisLaws.PaddingBytes | xptMiner/metis.c:963-984 | zero bytes up to a whole word, then the count of bits in eight bytes |
| MetisRoles.ViewTix | xptMiner/metis.c:445-452 | TIX4 under renamed words is TIX4 on the renamed state, for every naming |
| MetisRoles.ViewCmix | xptMiner/metis.c:463-469 | the same for CMIX36 |
| MetisRoles.ViewSmix | xptMiner/metis.c:471-543 | the same for SMIX |
| MetisRoles.ViewStep | xptMiner/metis.c:907-914 | a step whose names have moved by three is a rotation by three followed by the step under the old names |
| MetisRoles.Tix4 | xptMiner/metis.c:445-452 | TIX4 in place on any nine words |
| MetisRoles.Cmix36 | xptMiner/metis.c:463-469 | CMIX36 in place on any nine words |
| MetisRoles.SmixWords | xptMiner/metis.c:471-543 | SMIX in place on any four words |
| MetisRoles.Smix2Words | xptMiner/metis.c:1238-1298 | SMIX_2 in place on any four words |
| MetisCore.Case0 | xptMiner/metis.c:904-914 | case 0 is one plain round on names that then have moved by 12 |
| MetisCore.Case1 | xptMiner/metis.c:917-927 | case 1 is the same round on names moved by 12 |
| MetisCore.Case2 | xptMiner/metis.c:930-940 | case 2 is the same round on names moved by 24, after which every name is back |
| MetisCore.Run | xptMiner/metis.c:899-943 | the switch with its fall-through loop absorbs one word a round until at most four bytes are left |
| MetisCore.MetisContext.constructor | xptMiner/metis.c:690-708 | a fresh context stands for the empty message |
| MetisCore.PushBytes | xptMiner/metis.c:734-746 | the byte loops of CORE_ENTRY and CORE_EXIT shift the bytes into a word |
| MetisCore.MetisContext.Blocks | xptMiner/metis.c:898-945 | from a full word on: the state is copied, words are absorbed, the rest is kept |
| MetisCore.MetisContext.Core | xptMiner/metis.c:894-946 | for every chunk, including an empty one, the context afterwards stands for the message followed by the chunk |
| MetisCore.FillPads | xptMiner/metis.c:968-981 | the bytes CLOSE_ENTRY inserts pad the message and its extra bits with zeros to a whole word |
| MetisCore.CounterOfSum | xptMiner/metis.c:948-952 | the counter is the 64-bit big-endian count of bits |
| MetisCore.RotationUndone | xptMiner/metis.c:982-984 | the two copies of CLOSE_ENTRY undo the rotation of the names |
| MetisCore.MetisContext.LastWords | xptMiner/metis.c:968-981 | padding and counter go through the core, which leaves only bytes of the stack pending |
| MetisCore.RorInPlace | xptMiner/metis.c:986-991 | ROR loses no word |
| MetisCore.Emit | xptMiner/metis.c:1121-1137 | the sixteen digest words are written in big-endian bytes |
| MetisCore.CloseRounds | xptMiner/metis.c:1086-1120 | the two closing loops |
| MetisCore.MetisContext.Close | xptMiner/metis.c:1081-1137 | for every message, chunking and 0 to 7 extra bits the digest is that of the plain hash |
| MetisOpt.Rotate3 | xptMiner/metis.c:1595-1634 | the inlined rotation by three, one assignment after another, loses no word |
| MetisOpt.Rotate9 | xptMiner/metis.c:1645-1689 | the same for the rotation by nine |
| MetisOpt.Rotate8 | xptMiner/metis.c:1798-1841 | the same for the rotation by eight |
| MetisOpt.ThreeRounds | xptMiner/metis.c:1524-1561 | one pass of the loop is three plain rounds |
| MetisOpt.OptP1 | xptMiner/metis.c:2578-2827 | the first half absorbs the block, an empty word and its length |
| MetisOpt.InitialVariables | xptMiner/metis.c:1402-1438 | the 36 variables start as the initial state |
| MetisOpt.LastRound | xptMiner/metis.c:1845-1920 | the isolated last round computes the pruned word, byte-swapped |
| MetisOpt.UnrotatedIsClosingRound | xptMiner/metis.c:1091-1116 | a closing round without rotations equals the rotating one under names moved by 9 + 9 + 9 + 8 |
| MetisOpt.PrunedIsDigestWord | xptMiner/metis.c:1845-1920 | the isolated last round computes digest word 7 although it omits most updates |
| MetisOpt.OptP2 | xptMiner/metis.c:2830-3216 | the second half returns digest word 7 of the closed state, byte-swapped |
| MetisOpt.CoreOpt | xptMiner/metis.c:1379-1920 | for every 64-byte block and all tables, the word that init, core and close put into bytes 28 to 31 |
| MetisOpt.CoreOptInterleaved | xptMiner/metis.c:2094-2575 | both lanes of the interleaved form return that word of their own block |
| BitStreams.BitStream.WriteBits | xptMiner/jhlib.cpp:290-312 | after any chunk the flushed bytes and the pending buffer hold exactly the bits written so far |
| BitStreams.BitStream.ReadBits | xptMiner/jhlib.cpp:314-345 | delivers the next bits of the source, zeros behind its end, and leaves the other bits of the destination alone |
| BitStreams.RoundTrip | xptMiner/jhlib.cpp:290-345 | for every chunking on both sides a fresh reader gets the written bits back, up to the last whole multiple of 32 |
| MemoryStream.WriteThenRead | xptMiner/jhlib.cpp:390-463 | reading back yields what was written, and no other byte has changed |
| MemoryStream.WriteChunks | xptMiner/jhlib.cpp:399-463 | writing in two chunks is writing the whole |
| MemoryStream.ReadChunks | xptMiner/jhlib.cpp:390-397 | reading in two pieces, even past the end, is reading the whole |
| MemoryStream.GrowthSuffices | xptMiner/jhlib.cpp:421-435 | the enlargement covers the missing bytes or reaches the limit exactly when its 32-bit sum does not overflow, or overflows past what is left |
| MemoryStream.GrowthCanFail | xptMiner/jhlib.cpp:421-435 | a full buffer that is not enlarged at all for an enormous chunk |
| MemoryStream.GrowthByQuarter | xptMiner/jhlib.cpp:421-435 | without an overflow and within the limit the buffer grows by a quarter, or by a quarter more than what is missing |
| MemoryStream.StoresAllAllowed | xptMiner/jhlib.cpp:399-463 | a write stores min(length, limit - position) bytes exactly under that condition |
| MemoryStream.GrowthPays | xptMiner/jhlib.cpp:425-449 | a growth that is not wasteful keeps the bytes re-copied within five times the capacity, six times at the limit |
| MemoryStream.CostIsKeptExactly | xptMiner/jhlib.cpp:425-435 | exactly which enlargements keep that bound from every state within it: all but those whose 32-bit sum overflows to fewer bytes than a fifth of the capacity and short of the limit |
| MemoryStream.GrowthCanBeWasteful | xptMiner/jhlib.cpp:399-463 | a run of nine writes on a new stream with the largest limit re-copies 28693 bytes at a capacity of 4103, more than six times as much |
| MemoryStream.WastefulRunCopies | xptMiner/jhlib.cpp:399-463 | k such one-byte growths re-copy k * (8191 + k) / 2 bytes, for up to 2^28 of them, so the cost grows with the square of their number |
| MemoryStream.Apply | xptMiner/jhlib.cpp:390-492 | one read, write or seek keeps position <= size <= capacity <= limit, whatever its arguments and whether malloc succeeds |
| MemoryStream.RunsAreThrifty | xptMiner/jhlib.cpp:390-492 | over every run of reads, writes and seeks none of which is wasteful where it comes, all growth together has re-copied at most six times the capacity |
| MemoryStream.SafeRunsAreThrifty | xptMiner/jhlib.cpp:390-492 | so it is for every run whose chunks have at most 3 GiB each |
| MemoryStream.SafeWriteIsComplete | xptMiner/jhlib.cpp:399-463 | for such a chunk a write whose malloc succeeds stores exactly min(length, limit - position) bytes |
| MemoryStream.Replay | xptMiner/jhlib.cpp:390-573 | every run of operations on a new stream ends in the state that the run describes |
| MemoryStream.DynamicMemoryRange.constructor | xptMiner/jhlib.cpp:549-573 | a new stream is an empty file |
| MemoryStream.DynamicMemoryRange.FromMemory | xptMiner/jhlib.cpp:523-542 | a read-only stream is the file of its memory |
| MemoryStream.DynamicMemoryRange.ReadData | xptMiner/jhlib.cpp:390-397 | returns as many bytes as asked for or left and moves the position |
| MemoryStream.DynamicMemoryRange.CopyIn | xptMiner/jhlib.cpp:407-414 | a copy inside the buffer overwrites or appends, and changes no other byte |
| MemoryStream.DynamicMemoryRange.Grow | xptMiner/jhlib.cpp:421-449 | a larger buffer holds the same file |
| MemoryStream.DynamicMemoryRange.Append | xptMiner/jhlib.cpp:417-463 | what lies behind the end is stored as far as the enlarged buffer allows |
| MemoryStream.DynamicMemoryRange.WriteData | xptMiner/jhlib.cpp:399-463 | keeps position <= size <= capacity <= limit, stores the stated number of bytes, changes no other byte, and keeps the growth cost bound |
| MemoryStream.DynamicMemoryRange.SetSize | xptMiner/jhlib.cpp:471-478 | the stream stays usable exactly when the position is not behind the new end |
| MemoryStream.DynamicMemoryRange.SetSeek | xptMiner/jhlib.cpp:486-492 | seeks to the position or the end; the relative flag is ignored |
| Sha2Suite.BlocksAppend | xptMiner/sha2.cpp:215-328 | whole blocks can be folded in first, wherever a message is cut |
| Sha2Rounds.Expand | xptMiner/sha2.cpp:474-498 | PACK and SCR fill the array with the message schedule |
| Sha2Rounds.RolledRound | xptMiner/sha2.cpp:244-256 | one round with every variable handing its value on |
| Sha2Rounds.RolledRounds | xptMiner/sha2.cpp:244-256 | the rolled loop computes the rounds of section 6.2.2 of FIPS 180-4 |
| Sha2Rounds.Exp | xptMiner/sha2.cpp:115-131 | EXP updates two places, and every role moves on by one |
| Sha2Rounds.EightRounds | xptMiner/sha2.cpp:507-516 | after eight rounds every role is back in its place |
| Sha2Rounds.UnrolledRounds | xptMiner/sha2.cpp:500-516 | eight variables in eight rotating roles compute the same rounds |
| Sha2Rounds.OneBlock | xptMiner/sha2.cpp:230-326 | one block is the compression function |
| Sha2Rounds.Transf | xptMiner/sha2.cpp:215-328 | any number of blocks, rolled or unrolled, is folded into h |
| Sha2Contexts.PaddingIsStandard | xptMiner/sha2.cpp:396-410 | the padding the code writes is that of section 5.1 of FIPS 180-4 exactly for messages below 2^29 bytes |
| Sha2Contexts.Sha2Context.constructor | xptMiner/sha2.cpp:536-552 | a fresh context stands for the empty message |
| Sha2Contexts.Sha2Context.Update | xptMiner/sha2.cpp:554-586 | for every chunk the context afterwards stands for the message followed by the chunk |
| Sha2Contexts.Sha2Context.WholeBlocks | xptMiner/sha2.cpp:571-585 | the filled block and as many as the chunk holds are folded in, the rest is kept |
| Sha2Contexts.Sha2Context.Pad | xptMiner/sha2.cpp:598-606 | the bytes behind the pending ones are the one bit, zeros and the count modulo 2^32, in one or two blocks |
| Sha2Contexts.Sha2Context.Final | xptMiner/sha2.cpp:588-624 | the digest is the fold of the compression function over the padded message |
| Sha2Contexts.Sha2Context.UpdateFinal | xptMiner/sha2.cpp:627-685 | for data that fits into the block: the digest that update and then final give when there is room to spare, and when the block is exactly full that of the block with its last four bytes overwritten by the count |
| Sha2Contexts.HashedIsPadded | xptMiner/sha2.cpp:627-685 | what sha512_update_final hashes is the padded message if and only if the block is not exactly full |
| Sha2Contexts.ExactFitIgnoresLastBytes | xptMiner/sha2.cpp:627-685 | two messages that fill the block exactly and differ only in their last four bytes are hashed alike |
| Sha2Hashes.HashSha256 | xptMiner/sha2.cpp:330-337 | init, update and final give SHA-256 for every message below 2^29 bytes |
| Sha2Hashes.HashSha512 | xptMiner/sha2.cpp:526-534 | the same for SHA-512 |
| Sha256Example.Abc256 | xptMiner/sha2.cpp:330-337 | SHA-256 of "abc" is the published digest ba7816bf 8f01cfea 414140de 5dae2223 b00361a3 96177a9c b410ff61 f20015ad |
| Sha512Example.Abc512 | xptMiner/sha2.cpp:526-534 | SHA-512 of "abc" is the published digest that begins ddaf35a1 93617aba cc417349 ae204131 |
| Sha2Evaluation.RunCompresses | xptMiner/sha2.cpp:215-328 | the compression function as a run of the two registers a and e, the other six variables being earlier values of these |
| Sha2Hashes.ConstantsAreCubeRoots | xptMiner/sha2.cpp:171-211 | the round constants are the first 64 fractional bits of the cube roots of the listed eighty numbers |
| Sha2Primes.FirstPrimesAreComplete | xptMiner/sha2.cpp:171-211 | these numbers are the first eighty primes |
| Sha2Hashes.InitialValuesAreSquareRoots | xptMiner/sha2.cpp:147-151 | the initial values are the first 64 fractional bits of the square roots |
| Sha2Hashes.ConstantsAreHalves | xptMiner/sha2.cpp:137-169 | the SHA-256 constants are the upper halves of those of SHA-512 |
| Salsa.GroupsAreColumns | xptMiner/scrypt.cpp:267-278 | the first sixteen assignments are the column round made of quarter rounds |
| Salsa.GroupsAreRows | xptMiner/scrypt.cpp:280-291 | the other sixteen are the row round |
| Salsa.PlainDoubleRound | xptMiner/scrypt.cpp:266-292 | the loop body of xor_salsa8_org is a double round, for every ROTL |
| Salsa.DiagonalDoubleRound | xptMiner/scrypt.cpp:356-398 | the loop body of xor_salsa8 is the same double round on the permuted layout |
| ScryptMix.LoadDiagonal | xptMiner/scrypt.cpp:339-354 | the block is combined with the other and copied into the permuted layout |
| ScryptMix.AddDiagonal | xptMiner/scrypt.cpp:399-414 | the words are added back from the permuted layout |
| ScryptMix.XorSalsa8Org | xptMiner/scrypt.cpp:245-309 | Salsa20/8 of the xor of two blocks |
| ScryptMix.XorSalsa8 | xptMiner/scrypt.cpp:313-415 | the same function, although it keeps its words in another layout |
| ScryptMix.XorSalsa8DoubleRound | xptMiner/scrypt.cpp:417-576 | both halves in one function: scryptBlockMix of section 4 of RFC 7914 for r = 1 |
| ScryptMix.XorSalsa8Twice | xptMiner/scrypt.cpp:602-603 | two calls of xor_salsa8 do the same |
| ScryptMix.FillScratchpad | xptMiner/scrypt.cpp:591-597 | the first loop stores the first 1024 iterates and leaves the next in X |
| ScryptMix.Revisit | xptMiner/scrypt.cpp:598-604 | the second loop is the second loop of scryptROMix |
| Scrypt.IntegerifyIsStandard | xptMiner/scrypt.cpp:599 | the index is the last 64 bytes of X read as a little-endian number, modulo 1024 |
| Scrypt.MixStep | xptMiner/scrypt.cpp:592-604 | scryptROMix of section 5 of RFC 7914 step by step, with 1024 values and 1024 steps |
| ScryptRotation.PublishedBlockMix | xptMiner/scrypt.cpp:417-576 | with the rotation, scryptBlockMix maps the input published in section 9 of RFC 7914 to the published output |
| ScryptHmac.HmacContext.constructor | xptMiner/scrypt.cpp:72-106 | the two contexts hold the masked key block of RFC 2104 |
| ScryptHmac.PadKey | xptMiner/scrypt.cpp:90-94 | the loop over the pad masks the key followed by zeros |
| ScryptHmac.ShortKey | xptMiner/scrypt.cpp:82-88 | a key longer than a block is replaced by its hash |
| ScryptHmac.HmacContext.Copy | xptMiner/scrypt.cpp:161 | the copied context stands for the same key and data |
| ScryptHmac.HmacContext.Update | xptMiner/scrypt.cpp:108-114 | for every chunk the context afterwards stands for the data followed by the chunk |
| ScryptHmac.HmacContext.Final | xptMiner/scrypt.cpp:116-132 | the digest is HMAC-SHA256 of key and data |
| ScryptHmac.HmacIsStandard | xptMiner/scrypt.cpp:72-132 | HMAC with the masks 36 and 5c over the key filled up with zeros, RFC 2104 |
| ScryptHmac.LongKeyIsHashed | xptMiner/scrypt.cpp:81-88 | a key longer than a block stands for its hash |
| ScryptHmac.Pbkdf2O1 | xptMiner/scrypt.cpp:138-185 | four blocks of PBKDF2 with one iteration, from a context that is copied for each |
| ScryptHmac.Pbkdf2O2 | xptMiner/scrypt.cpp:191-238 | one block of PBKDF2 with any number of iterations |
| ScryptHmac.Pbkdf2Step | xptMiner/scrypt.cpp:191-238 | PBKDF2 step by step: the block number in four bytes behind the salt, each code of the one before, and their sum byte by byte |
| Scrypt.EncodeWords | xptMiner/scrypt.cpp:606-607 | the words of X are encoded in order |
| Scrypt.DecodeEncoded | xptMiner/scrypt.cpp:49-63 | decoding the little-endian words of an encoding gives them back |
| Scrypt.Scrypt1024 | xptMiner/scrypt.cpp:578-610 | the whole function is scrypt with N = 1024, r = 1, p = 1 and 32 bytes of output, for whatever ROTL stands for |
| ScryptRotation.RotationMatters | xptMiner/scrypt.cpp:241-311 | with the rotation that is commented out the core maps the test vector of section 8 of RFC 7914 to its published output; with the macro as it is defined it does not |
| ScryptRotation.ShippedCoreDoubles | xptMiner/scrypt.cpp:32-311 | with the macro as it is defined the rounds cancel: for every pair of blocks the core is the sum of their xor with itself |
| ScryptRotation.IteratesVanish | xptMiner/scrypt.cpp:591-597 | so after 32 mixes every word of X is zero, whatever it was |
| ScryptRotation.ScratchpadVanishes | xptMiner/scrypt.cpp:591-597 | and all entries of the scratchpad but the first 32 are zeros |

## Left out

- Network, work distribution, share submission, command line, console output, counters of statistics and
  timing: a share is an element of the returned sequence.
- OpenCL and CUDA kernels and their host code: the list of hashes that a GPU fills is an arbitrary buffer.
- `sse.h`, `sseutil.c`, `metiscoinMiner.cpp`, the Shavite code, hex parsing, lists and substreams.
- Cryptographic strength of any hash.
- GMP: numbers are integers; `mpz_invert` is a function with a contract for coprime arguments, `mpz_powm` is
  exponentiation, and `mpz_probab_prime_p` is an arbitrary function, assumed never to be 0 on a prime where
  completeness is claimed.
- The Riecoin target: how its bits are taken from the block hash and how an offset is written out as bytes. The
  target is any integer above the largest table limit.
- PrimeTable.Init: requires a limit of at most 65535^2. Beyond it the loops need not end, and when they end the
  table is wrong: `PrimeTableLimits.TableIsExactUpToTheBound` states this for every 32-bit limit. What else the
  wrapped loops strike there is not stated. The product `z_skipPrimorial` is not modelled.
- RiecoinSieve.MarkResidueClass, RiecoinSieve.MarkSieve and RiecoinSieve.Process: require that every class has a
  first member behind the sieve that fits 32 bits, the exact condition under which no loop counter wraps;
  otherwise a wrong index is struck (`RiecoinSieve.WrapStrikesWrongIndex`).
- RiecoinMiner1.MarkFirstTable: for sieve sizes up to 2^32 less the table limit. The search behind the two tables
  of `riecoinMiner_1.cpp` is not modelled.
- Keccak variants other than the unrolling by 8 and by 4, the 32-bit and interleaved ones, and the name lists
  P9 to P23. The assignments of a macro that do not depend on each other are modelled as simultaneous ones.
- KeccakContexts.KeccakContext.Core: the union of the 25 state words with 32-bit halves is not modelled.
- ProtosharesFilter.FilterPass: requires the buffer to hold the entries its first word announces; pass numbers
  are 1 to 3.
- ProtosharesTable.Process: SHA-512 of a nonce and the double SHA-256 of a block are arbitrary functions, and the
  change of the block height is an arbitrary predicate on the batch number.
- No digest of the Metis hash is computed: its mixing tables are arbitrary.
- The smaller Metis digests, `metis2_core` and `metis3_core`: the same scheme with other constants. The contents
  of the mixing tables are arbitrary.
- MetisOpt.ThreeRounds: the words are read before the three rounds instead of between them.
- Sha2Rounds.UnrolledRounds: the 64 rounds that `sha256_transf` writes out are modelled as eight turns of the
  eight that `sha512_transf` loops over.
- Sha2Contexts.Sha2Context.Update: requires the fill of the buffer plus the length of the chunk to stay below
  2^32, because the two are added in 32 bits.
- Sha2Contexts.Sha2Context.UpdateFinal: requires the data to fit into the block; more of it makes the size of
  the zero fill negative. SHA-224 and SHA-384 are not modelled.
- ScryptHmac.HmacContext.Final: for fewer than 2^29 bytes of data. Clearing the stack is not modelled.
- The alignment of the scratchpad to 64 bytes.
- BitStreams.BitStream.WriteBits: given that writeData stores every byte it is handed. A stream that reads also
  counts up its write index, so writer and reader are different objects.
- MemoryStream.DynamicMemoryRange.WriteData: whether malloc succeeds is a parameter; freeing memory is not modelled.
