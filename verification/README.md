# Nondeterministic AES: a Dafny model

Nondeterministic Attack Testing runs AES over *nondeterministic bytes*. An
`NByte` holds eight `NBit`s. Each bit is either known, with a value, or
unknown. The AES engine (`AESAlgorithm`) is written once over such bytes:
- the S-box is a lookup over every value an NByte may take;
- the field multiplication `GMul` multiplies every pair of possible operand
  values through a 256 × 256 byte table and joins the products;
- the key schedule, the rounds, `Encrypt` and `Decrypt` are those of
  FIPS-197.

The result is a ciphertext whose known bits are forced by the known bits of
the input, whatever the unknown bits are.

This project models that engine and proves:

- **The NByte operations meet their value-level definitions.** Parsing,
  printing, the byte cast, xor, `PossibleValues`, `Join`, `Lookup`, equality
  and the hash code are methods of the class `NBytes.NByte`. Each one is
  proved equal to a function of the module `Ternary`. Those functions carry
  the properties:
  - `PossibleValues` lists exactly the bytes that agree with the known bits,
    in ascending order, 2^(unknown bits) of them;
  - `Join` keeps a bit known only where both operands agree;
  - `Lookup` covers every entry a possible index can reach;
  - parse and print are inverse;
  - the hash is injective.
- **The byte-level arithmetic is right.**
  - `GMulByte`, the shift-and-add loop, computes the product of GF(2^8)
    reduced by x^8 + x^4 + x^3 + x + 1. The product is defined independently
    of the loop, and it is shown distributive, associative and unital.
  - The MixColumns and InvMixColumns matrices are inverse to each other.
  - The two S-box tables are inverse to each other.
  - The engine's key expansion is the word recurrence of section 5.2 of
    FIPS-197.
- **The engine is AES on known inputs.** On fully known bytes, every
  transform, the key schedule, `Encrypt` and `Decrypt` give exactly the
  result of a byte-level AES written from FIPS-197 (module `Cipher`).
  Decryption inverts encryption. `Cipher`'s rounds are written
  independently, but its key expansion is the engine's own generic
  `KeySchedule.KeyExpansion` applied to bytes; that expansion is tied to
  FIPS-197 by `KeySchedule.Recurrence`, `Cipher.RconPowers` and the
  Appendix A.1 known answers below.
- **The engine is sound on partly known inputs.** For every byte-level
  plaintext and key that agree with the NByte inputs, the AES ciphertext
  agrees with the NByte ciphertext: the engine never reports a known bit
  wrongly. The same holds for `Decrypt` whenever it succeeds.
- **The failures are the engine's own.** A key whose length / 4 is not 4, 6
  or 8 fails with `KeyOfUnknownSize`. A text that is not 16 bytes long fails
  with `IndexOutOfRange`. Decrypt fails besides only where InvMixColumns casts
  a result that is not fully known to a byte (`NotFiniteNumber`).
- **Known answers of FIPS-197 hold.**
  - Appendix A.1 gives words 4 to 7 of the expanded cipher key
    2b7e1516 28aed2a6 abf71588 09cf4f3c, i.e. the second round key
    a0fafe17 88542cb1 23a33939 2a6c7605. This is shown for the byte-level
    expansion and, through soundness, for the engine's `GenRoundKeys`.
  - Appendix B gives the MixColumns example column d4 bf 5d 30 ↦ 04 66 81 e5.

The exceptions of the source are the values of `Outcomes.Exception`:
- `UnknownValue(c)` and `IncorrectLength(n)` stand for the `ArgumentException`s
  of `NBit(char)` and `NByte(string)`, with the text taken as a sequence of
  Unicode scalar values (see "Left out");
- `KeyOfUnknownSize` stands for the one of `GenRoundKeys`;
- `NotFiniteNumber` stands for the byte cast's `NotFiniteNumberException`;
- `IndexOutOfRange` stands for the out-of-bounds access of the round
  transforms.

Operations that can throw return a `Result`.

Modules, in dependency order:
- `Outcomes`: Result, Option and the exception kinds.
- `Ternary`: NBit and NByte as values, and their operations.
- `NBytes`: the class NByte over an array of NBits.
- `GaloisField`: GF(2^8), GMulByte and the table.
- `MatrixAlgebra`: vectors and matrices over GF(2^8).
- `SBoxTables`: the S-box and its inverse.
- `StateLayout`: ShiftRows and InvShiftRows as permutations of 16 positions.
- `KeySchedule`: the key expansion, generic in the byte type.
- `Cipher`: the byte-level reference AES.
- `AesGMul`: GMul with its memo of table and cache.
- `AesRounds`: SBox, ShiftRows and AddRoundKey over NBytes.
- `AesMix`: MixColumns and InvMixColumns over NBytes.
- `AesKeys`: GenRoundKeys.
- `Aes`: Encrypt and Decrypt.
- `KnownAnswers`: the FIPS-197 examples.

Bytes are `bv8`. An NByte value is a sequence of eight NBits, most
significant bit first. The source's loops that fill arrays are methods with
loops and invariants, each proved equal to the function that defines its
result.

## Model

| member | source | states |
|---|---|---|
| Ternary.ParseShowBit | NondeterministicAttackTesting/NondeterministicByte.cs:18-35 | parsing the character an NBit prints gives the NBit back, an unknown bit coming back with Value false |
| Ternary.ParseBit | NondeterministicAttackTesting/NondeterministicByte.cs:18-31 | defines NBit(char): X or x an unknown bit with Value false, 1 and 0 known bits, any other character UnknownValue(c); its properties are ParseShowBit and ShowParseBit |
| Ternary.ShowBit | NondeterministicAttackTesting/NondeterministicByte.cs:35 | defines NBit.ToString: X for an unknown bit, otherwise 1 or 0 |
| Ternary.ShowParseBit | NondeterministicAttackTesting/NondeterministicByte.cs:18-31 | NBit(char) succeeds exactly on '0', '1', 'X' and 'x', and the parsed bit prints as the character ('x' as 'X') |
| Ternary.EqBitReflexive | NondeterministicAttackTesting/NondeterministicByte.cs:37 | every NBit is == to itself |
| Ternary.EqBit | NondeterministicAttackTesting/NondeterministicByte.cs:37 | defines NBit ==: both unknown, or equal Values whatever is known |
| Ternary.NeqBitNotEq | NondeterministicAttackTesting/NondeterministicByte.cs:37-38 | != holds exactly when both bits are known with different values, and then == fails |
| Ternary.NeqBit | NondeterministicAttackTesting/NondeterministicByte.cs:38 | defines NBit !=: both known and different Values |
| Ternary.NeqBitIsNotNegation | NondeterministicAttackTesting/NondeterministicByte.cs:37-38 | a known 0 and an unknown bit with Value 1 are neither == nor !=, so != is not the negation of == |
| Ternary.HashBitInjective | NondeterministicAttackTesting/NondeterministicByte.cs:50-53 | the NBit hash is in 0 .. 3 and distinct NBits have distinct hashes |
| Ternary.HashBit | NondeterministicAttackTesting/NondeterministicByte.cs:50-53 | defines NBit.GetHashCode: Value in bit 0, Known in bit 1 |
| Ternary.XorBit | NondeterministicAttackTesting/NondeterministicByte.cs:33 | defines NBit ^: xor of the Values, known when both operands are; NByte xor applies it per bit (XorFromBytes, XorSound, XorKnown) |
| NBytes.NByte.Set | NondeterministicAttackTesting/NondeterministicByte.cs:74-81 | afterwards the bits are the known bits of val, most significant first |
| NBytes.NByte.OfByte | NondeterministicAttackTesting/NondeterministicByte.cs:83-86 | a fresh NByte holding the known bits of val |
| NBytes.NByte.Copy | NondeterministicAttackTesting/NondeterministicByte.cs:88-92 | a fresh NByte with the same bits as other |
| NBytes.NByte.constructor | NondeterministicAttackTesting/NondeterministicByte.cs:94 | a fresh NByte holding the known byte 0 |
| NBytes.NByte.Parse | NondeterministicAttackTesting/NondeterministicByte.cs:96-102 | a fresh NByte with the parsed bits, or the error of Parse: wrong length first, then the first bad character |
| Ternary.ParseSpec | NondeterministicAttackTesting/NondeterministicByte.cs:96-102 | parsing succeeds exactly on 8 characters from 0, 1, X, x; another length, counted in Unicode scalar values, fails with IncorrectLength(length); otherwise it fails with UnknownValue of a bad character |
| Ternary.ParseFirstBad | NondeterministicAttackTesting/NondeterministicByte.cs:100-101 | the error names the first character that is not 0, 1, X or x |
| Ternary.ShowChars | NondeterministicAttackTesting/NondeterministicByte.cs:58-66 | ToString gives 8 characters, each 0, 1 or X |
| Ternary.ShowParse | NondeterministicAttackTesting/NondeterministicByte.cs:96-102 | a string of 8 characters from 0, 1, X parses, and printing the result gives the string back |
| Ternary.ParseShow | NondeterministicAttackTesting/NondeterministicByte.cs:58-102 | the printed form of any NByte parses back to the same bits, unknown bits coming back with Value false |
| NBytes.NByte.ToString | NondeterministicAttackTesting/NondeterministicByte.cs:58-66 | the string is Show of the bits, one character per NBit |
| NBytes.NByte.IsDeterministic | NondeterministicAttackTesting/NondeterministicByte.cs:104-112 | true exactly when every bit is known |
| Ternary.Deterministic | NondeterministicAttackTesting/NondeterministicByte.cs:104-112 | defines Deterministic(): every bit known |
| Ternary.DeterministicCount | NondeterministicAttackTesting/NondeterministicByte.cs:104-112 | an NByte is deterministic exactly when it has no unknown bit |
| NBytes.NByte.ToByte | NondeterministicAttackTesting/NondeterministicByte.cs:117-131 | the byte cast: NotFiniteNumber when a bit is unknown, otherwise the byte whose bit 7 - i is Value of bit i |
| Ternary.ToByteFails | NondeterministicAttackTesting/NondeterministicByte.cs:119-120 | the byte cast fails exactly when some bit is unknown, and then with NotFiniteNumber |
| Ternary.FromByteRoundTrip | NondeterministicAttackTesting/NondeterministicByte.cs:117-131 | an NByte made from a byte is deterministic and casts back to that byte |
| Ternary.ToByteRoundTrip | NondeterministicAttackTesting/NondeterministicByte.cs:117-131 | a deterministic NByte is the NByte of the byte it casts to |
| NBytes.NByte.ToInt | NondeterministicAttackTesting/NondeterministicByte.cs:115 | the int cast succeeds exactly on a deterministic NByte and gives its byte, in 0 .. 255; otherwise it fails with NotFiniteNumber |
| NBytes.NByte.FromInt | NondeterministicAttackTesting/NondeterministicByte.cs:114 | the cast from int gives the known byte n mod 256 |
| NBytes.NByte.Xor | NondeterministicAttackTesting/NondeterministicByte.cs:133-141 | a fresh NByte whose bit i is the NBit xor of the operands' bits i |
| Ternary.XorFromBytes | NondeterministicAttackTesting/NondeterministicByte.cs:133-141 | on known bytes the NByte xor is the byte xor |
| Ternary.XorSound | NondeterministicAttackTesting/NondeterministicByte.cs:133-141 | if x agrees with a and y with b, then x ^ y agrees with a ^ b |
| Ternary.XorKnown | NondeterministicAttackTesting/NondeterministicByte.cs:133-141 | a xor is fully known exactly when both operands are |
| Ternary.XorValue | NondeterministicAttackTesting/NondeterministicByte.cs:133-141 | defines NByte ^: XorBit on each pair of bits |
| NBytes.NByte.PossibleValues | NondeterministicAttackTesting/NondeterministicByte.cs:143-167 | the list the recursive enumeration produces, Enum of the bits |
| Ternary.EnumExact | NondeterministicAttackTesting/NondeterministicByte.cs:143-167 | a byte is listed exactly when it agrees with every known bit |
| Ternary.EnumSound | NondeterministicAttackTesting/NondeterministicByte.cs:143-167 | every listed byte agrees with the known bits |
| Ternary.EnumComplete | NondeterministicAttackTesting/NondeterministicByte.cs:143-167 | every byte that agrees with the known bits is listed |
| Ternary.EnumLength | NondeterministicAttackTesting/NondeterministicByte.cs:143-167 | the list has 2^(number of unknown bits) entries |
| Ternary.EnumNonEmpty | NondeterministicAttackTesting/NondeterministicByte.cs:143-167 | the list is never empty, so Lookup and GMul may take its first entry |
| Ternary.EnumAscending | NondeterministicAttackTesting/NondeterministicByte.cs:152-161 | the list is strictly ascending: first unknown bit 0, then 1 |
| Ternary.Enum | NondeterministicAttackTesting/NondeterministicByte.cs:143-167 | defines PossibleValues(): the byte of a deterministic NByte, otherwise the values with the first unknown bit 0 followed by those with it 1 |
| NBytes.NByte.Join | NondeterministicAttackTesting/NondeterministicByte.cs:171-183 | afterwards each bit is JoinBit of the old bit and other's bit |
| NBytes.NByte.JoinByte | NondeterministicAttackTesting/NondeterministicByte.cs:169 | Join with the known bits of the byte |
| Ternary.JoinKnown | NondeterministicAttackTesting/NondeterministicByte.cs:171-183 | a joined bit stays known exactly when both are known with equal values; its Value is never changed |
| Ternary.JoinSound | NondeterministicAttackTesting/NondeterministicByte.cs:171-183 | a byte that agrees with either operand agrees with the join |
| Ternary.JoinSelf | NondeterministicAttackTesting/NondeterministicByte.cs:171-183 | joining an NByte with itself leaves it unchanged |
| Ternary.JoinValue | NondeterministicAttackTesting/NondeterministicByte.cs:171-183 | defines Join: an unknown bit stays as it is; a known bit becomes unknown, Value kept, unless the other bit is known with the same Value |
| Ternary.JoinAllSound | NondeterministicAttackTesting/NondeterministicByte.cs:193-195 | a byte that agrees with the start or any joined NByte agrees with the fold |
| NBytes.NByte.Lookup | NondeterministicAttackTesting/NondeterministicByte.cs:185-198 | a fresh NByte: a copy of the entry of the first possible value, joined with the entry of every possible value |
| NBytes.NByte.JoinEntries | NondeterministicAttackTesting/NondeterministicByte.cs:193-195 | a fresh copy of the first entry joined with every entry in turn |
| Ternary.LookupSound | NondeterministicAttackTesting/NondeterministicByte.cs:185-198 | if x agrees with the index and y with table[x], then y agrees with the lookup |
| Ternary.LookupKnown | NondeterministicAttackTesting/NondeterministicByte.cs:185-198 | a bit of the lookup is known exactly when that bit is known and equal in the entries of all possible indexes |
| Ternary.LookupDeterministic | NondeterministicAttackTesting/NondeterministicByte.cs:185-198 | on a deterministic index the lookup is the entry at its byte |
| Ternary.LookupValue | NondeterministicAttackTesting/NondeterministicByte.cs:185-198 | defines Lookup: the first selected entry joined with every entry at a possible value |
| NBytes.NByte.Equals | NondeterministicAttackTesting/NondeterministicByte.cs:200 | == holds when the NBit == holds for every pair of bits |
| Ternary.EqualFromBytes | NondeterministicAttackTesting/NondeterministicByte.cs:200 | on known bytes == is byte equality |
| Ternary.Equal | NondeterministicAttackTesting/NondeterministicByte.cs:200 | defines NByte ==: EqBit on each of the eight pairs of bits |
| NBytes.NByte.GetHashCode | NondeterministicAttackTesting/NondeterministicByte.cs:212-221 | the hash is the NBit hashes packed two bits each, most significant first |
| Ternary.HashUpToBound | NondeterministicAttackTesting/NondeterministicByte.cs:212-221 | the hash of the first k bits is below 4^k |
| Ternary.HashInjective | NondeterministicAttackTesting/NondeterministicByte.cs:212-221 | the hash is below 2^16 and distinct NBytes have distinct hashes |
| Ternary.Hash | NondeterministicAttackTesting/NondeterministicByte.cs:212-221 | defines NByte.GetHashCode: the eight NBit hashes packed two bits each, first bit highest |
| Ternary.LookupKeyInjective | NondeterministicAttackTesting/AESAlgorithm.cs:196 | the GMul cache key, with its 32-bit wrap, determines both operands, so cached results never collide |
| Ternary.LookupKey | NondeterministicAttackTesting/AESAlgorithm.cs:196 | defines the cache key: hash(a) shifted left by 16, or-ed with hash(b), as a 32-bit signed int |
| AesKeys.GenRoundKeys | NondeterministicAttackTesting/AESAlgorithm.cs:7-92 | the result is Schedule(key): KeyOfUnknownSize, or the expansion cut into round keys |
| AesKeys.Schedule | NondeterministicAttackTesting/AESAlgorithm.cs:7-92 | defines the result of GenRoundKeys: KeyOfUnknownSize when length / 4 is not 4, 6 or 8, otherwise the expansion over the NByte S-box, xor and constants; its properties are ScheduleShape, ScheduleLift and ScheduleSound |
| AesKeys.KeyWordsOf | NondeterministicAttackTesting/AESAlgorithm.cs:12-16 | N = length / 4 words, word i being key bytes 4i .. 4i + 3 |
| AesKeys.SetWord | NondeterministicAttackTesting/AESAlgorithm.cs:30-38 | positions 4i .. 4i + 3 of W receive the word, and the positions after them are unchanged |
| AesKeys.NewWord | NondeterministicAttackTesting/AESAlgorithm.cs:74-81 | the word the loop body stores is NextWord of the words before it |
| AesKeys.FillWords | NondeterministicAttackTesting/AESAlgorithm.cs:72-82 | W holds the 4R words of the expansion |
| AesKeys.FillWord | NondeterministicAttackTesting/AESAlgorithm.cs:72-82 | one iteration extends the filled prefix of W by the next word of the expansion |
| AesKeys.CopyRoundKey | NondeterministicAttackTesting/AESAlgorithm.cs:87-89 | round key i is W[16i .. 16i + 16] |
| AesKeys.CutRoundKeys | NondeterministicAttackTesting/AESAlgorithm.cs:84-91 | the round keys are W cut into R blocks of 16 |
| AesKeys.ScheduleShape | NondeterministicAttackTesting/AESAlgorithm.cs:12-26 | a key is accepted exactly when its length is 16-19, 24-27 or 32-35; otherwise KeyOfUnknownSize; then there are length / 4 + 7 round keys (11, 13 or 15) of 16 NBytes |
| AesKeys.ScheduleFirstKey | NondeterministicAttackTesting/AESAlgorithm.cs:72-90 | the first round key is the first 16 key bytes |
| KeySchedule.RoundCount | NondeterministicAttackTesting/AESAlgorithm.cs:18-24 | R is N + 7: 11, 13 or 15 for N = 4, 6, 8 |
| KeySchedule.RconIndex | NondeterministicAttackTesting/AESAlgorithm.cs:76-77 | the round-constant index i / N stays within 1 .. 10, so rcon[0] is never used |
| KeySchedule.ExpandNext | NondeterministicAttackTesting/AESAlgorithm.cs:72-82 | the words after step i are those after step i - 1 followed by NextWord |
| KeySchedule.Recurrence | NondeterministicAttackTesting/AESAlgorithm.cs:76-81 | every word i >= N of the expansion is the xor of word i - N with word i - 1, transformed as the three branches say |
| KeySchedule.RecurrenceStep | NondeterministicAttackTesting/AESAlgorithm.cs:76-81 | word i of any longer expansion is StepWord of words i - N and i - 1 |
| KeySchedule.KeyWord | NondeterministicAttackTesting/AESAlgorithm.cs:74-75 | the first N words of the expansion are the key words |
| KeySchedule.FirstRoundKey | NondeterministicAttackTesting/AESAlgorithm.cs:74-75 | round key 0 is the first 16 key bytes |
| KeySchedule.RoundKeyWords | NondeterministicAttackTesting/AESAlgorithm.cs:84-90 | round key r is words 4r .. 4r + 3 of the expansion |
| KeySchedule.SplitWords | NondeterministicAttackTesting/AESAlgorithm.cs:84-90 | block r of the cut is the concatenation of words 4r .. 4r + 3 |
| KeySchedule.KeyExpansionRelated | NondeterministicAttackTesting/AESAlgorithm.cs:42-82 | two expansions over byte operations that respect a relation relate key by key whenever the keys relate |
| KeySchedule.KeyExpansionMap | NondeterministicAttackTesting/AESAlgorithm.cs:42-82 | the expansion commutes with a map that carries S-box, xor and round constants |
| Cipher.RconPowers | NondeterministicAttackTesting/AESAlgorithm.cs:9-10 | rcon[j] is x^(j - 1) in GF(2^8) for j = 1 .. 10 |
| Cipher.RconStep | NondeterministicAttackTesting/AESAlgorithm.cs:9-10 | each round constant after the first is the one before times x |
| AesKeys.OpsCarry | NondeterministicAttackTesting/AESAlgorithm.cs:42-70 | the NByte S-box, xor and constants are the byte ones on known bytes |
| AesKeys.OpsRespect | NondeterministicAttackTesting/AESAlgorithm.cs:42-70 | the NByte S-box, xor and constants keep agreement with the byte ones |
| AesKeys.ScheduleLift | NondeterministicAttackTesting/AESAlgorithm.cs:7-92 | on a known key GenRoundKeys gives the known FIPS-197 round keys |
| AesKeys.ScheduleSound | NondeterministicAttackTesting/AESAlgorithm.cs:7-92 | for a byte key agreeing with the NByte key, every FIPS-197 round key agrees with the engine's |
| KnownAnswers.SBoxWord | NondeterministicAttackTesting/AESAlgorithm.cs:42-50 | SubWord applies the S-box to each byte of the word |
| KnownAnswers.Word4 | NondeterministicAttackTesting/AESAlgorithm.cs:76-77 | word 4 of the Appendix A.1 key is a0fafe17 |
| KnownAnswers.Word5 | NondeterministicAttackTesting/AESAlgorithm.cs:80-81 | word 5 is 88542cb1 |
| KnownAnswers.Word6 | NondeterministicAttackTesting/AESAlgorithm.cs:80-81 | word 6 is 23a33939 |
| KnownAnswers.Word7 | NondeterministicAttackTesting/AESAlgorithm.cs:80-81 | word 7 is 2a6c7605 |
| KnownAnswers.NextKeyWord | NondeterministicAttackTesting/AESAlgorithm.cs:72-82 | word i of the AES-128 expansion is StepWord of the words i - 4 and i - 1 it is given |
| KnownAnswers.SecondRoundKeyOf | NondeterministicAttackTesting/AESAlgorithm.cs:72-90 | a key with the Appendix A.1 words has second round key a0fafe17 88542cb1 23a33939 2a6c7605 |
| KnownAnswers.SecondRoundKey | NondeterministicAttackTesting/AESAlgorithm.cs:72-90 | the FIPS-197 expansion of 2b7e1516 28aed2a6 abf71588 09cf4f3c has that second round key |
| KnownAnswers.ScheduleSecondRoundKey | NondeterministicAttackTesting/AESAlgorithm.cs:7-92 | GenRoundKeys on NBytes agreeing with the Appendix A.1 key succeeds and its second round key agrees with a0fafe17 88542cb1 23a33939 2a6c7605 |
| AesRounds.SBoxTable | NondeterministicAttackTesting/AESAlgorithm.cs:96-133 | entry x of the table is the known NByte of S(x), or of S^-1(x) when inverse |
| SBoxTables.InvSubByteOfSubByte | NondeterministicAttackTesting/AESAlgorithm.cs:96-133 | the inverse table undoes the forward table on every byte |
| SBoxTables.SubByteOfInvSubByte | NondeterministicAttackTesting/AESAlgorithm.cs:96-133 | the forward table undoes the inverse table on every byte |
| AesRounds.SBoxKnown | NondeterministicAttackTesting/AESAlgorithm.cs:135-146 | on a known byte v, SBox(v) is the known byte box[v] |
| AesRounds.SBoxSound | NondeterministicAttackTesting/AESAlgorithm.cs:141-142 | for every byte x the holder may be, box[x] agrees with SBox(holder) |
| AesRounds.InvSBoxSBox | NondeterministicAttackTesting/AESAlgorithm.cs:94-147 | SBox with inverse undoes SBox on known bytes |
| AesRounds.SBox | NondeterministicAttackTesting/AESAlgorithm.cs:308-322 | res[i] is SBox(state[i], inverse) for every i |
| AesRounds.SBoxStateSound | NondeterministicAttackTesting/AESAlgorithm.cs:308-322 | SubBytes and InvSubBytes of an agreeing byte state agree with SBox and InvSBox |
| AesRounds.SBoxStateLift | NondeterministicAttackTesting/AESAlgorithm.cs:308-322 | on known states SBox and InvSBox are SubBytes and InvSubBytes |
| GaloisField.GMulByte | NondeterministicAttackTesting/AESAlgorithm.cs:151-171 | the loop's p is the GF(2^8) product of a and b |
| GaloisField.ProductStep | NondeterministicAttackTesting/AESAlgorithm.cs:157-160 | adding a when the low bit of b is set extends the partial product by one bit of b |
| GaloisField.MultiplicandStep | NondeterministicAttackTesting/AESAlgorithm.cs:162-165 | shifting a with the 0x1b reduction multiplies it by x |
| GaloisField.MultiplierStep | NondeterministicAttackTesting/AESAlgorithm.cs:167 | b >>= 1 moves to the next bit of the multiplier |
| GaloisField.XTimeOverflow | NondeterministicAttackTesting/AESAlgorithm.cs:162-165 | xtime is the shift with 0x1b xored in on overflow |
| GaloisField.MulTwoIsOverflowStep | NondeterministicAttackTesting/AESAlgorithm.cs:162-165 | the product by 2 is the overflow step |
| GaloisField.ModReduce | NondeterministicAttackTesting/AESAlgorithm.cs:165 | x^8 is 0x1b: the reduction polynomial x^8 + x^4 + x^3 + x + 1 |
| GaloisField.Reduction | NondeterministicAttackTesting/AESAlgorithm.cs:165 | a · x^8 is a · (x^4 + x^3 + x + 1) |
| GaloisField.MulByPoly | NondeterministicAttackTesting/AESAlgorithm.cs:165 | multiplying by 0x1b is a · (1 + x + x^3 + x^4) |
| GaloisField.MulDistRight | NondeterministicAttackTesting/AESAlgorithm.cs:151-171 | the product distributes over xor in the multiplier |
| GaloisField.MulDistLeft | NondeterministicAttackTesting/AESAlgorithm.cs:151-171 | the product distributes over xor in the multiplicand |
| GaloisField.MulAssoc | NondeterministicAttackTesting/AESAlgorithm.cs:151-171 | the product is associative |
| GaloisField.MulXTimeRight | NondeterministicAttackTesting/AESAlgorithm.cs:151-171 | multiplying by xtime(b) is xtime of the product |
| GaloisField.MulXTimeLeft | NondeterministicAttackTesting/AESAlgorithm.cs:151-171 | multiplying xtime(a) is xtime of the product |
| GaloisField.MulOneLeft | NondeterministicAttackTesting/AESAlgorithm.cs:151-171 | 1 · x = x |
| GaloisField.MulOneRight | NondeterministicAttackTesting/AESAlgorithm.cs:151-171 | x · 1 = x |
| GaloisField.MulZeroLeft | NondeterministicAttackTesting/AESAlgorithm.cs:151-171 | 0 · x = 0 |
| GaloisField.MulZeroRight | NondeterministicAttackTesting/AESAlgorithm.cs:151-171 | x · 0 = 0 |
| GaloisField.MulTwoRight | NondeterministicAttackTesting/AESAlgorithm.cs:151-171 | x · 2 is xtime(x) |
| GaloisField.MulThreeRight | NondeterministicAttackTesting/AESAlgorithm.cs:151-171 | x · 3 is xtime(x) ^ x |
| GaloisField.MulTwoLeft | NondeterministicAttackTesting/AESAlgorithm.cs:151-171 | 2 · x is xtime(x) |
| GaloisField.MulThreeLeft | NondeterministicAttackTesting/AESAlgorithm.cs:151-171 | 3 · x is xtime(x) ^ x |
| GaloisField.FillGMulTable | NondeterministicAttackTesting/AESAlgorithm.cs:175-186 | a fresh 256 × 256 table whose entry [a, b] is the product of a and b |
| AesGMul.GMulMemo.constructor | NondeterministicAttackTesting/AESAlgorithm.cs:173-190 | the table starts unfilled and the cache empty |
| AesGMul.GMulMemo.GMul | NondeterministicAttackTesting/AESAlgorithm.cs:191-271 | the result is GMulValue(a, b), whether cached or computed; the cache gains that entry under the operands' key and keeps every other one; the table is filled only on first use |
| AesGMul.GMulValue | NondeterministicAttackTesting/AESAlgorithm.cs:243-259 | defines the GMul result: the product of the first pair of possible values joined with the products of all pairs, a outer and b inner; its properties are GMulSound and GMulKnown |
| AesGMul.Enumerate | NondeterministicAttackTesting/AESAlgorithm.cs:243-259 | the nested enumeration of possible values joins to GMulValue(a, b) |
| AesGMul.JoinRow | NondeterministicAttackTesting/AESAlgorithm.cs:246-256 | the inner loop extends the fold by the products with every possible b |
| AesGMul.FoldedSnoc | NondeterministicAttackTesting/AESAlgorithm.cs:248-255 | the first product is taken as it is, each later one joined in |
| AesGMul.PairProductsComplete | NondeterministicAttackTesting/AESAlgorithm.cs:244-247 | every pair of possible values contributes its product |
| AesGMul.GMulSound | NondeterministicAttackTesting/AESAlgorithm.cs:243-259 | for all bytes x and y that a and b may be, x · y agrees with GMul(a, b) |
| AesGMul.GMulKnown | NondeterministicAttackTesting/AESAlgorithm.cs:243-259 | on known bytes GMul is the known product |
| AesMix.Entry | NondeterministicAttackTesting/AESAlgorithm.cs:281-284 | one output byte is the NByte xor of the four GMuls of a row with the column |
| AesMix.MixWith | NondeterministicAttackTesting/AESAlgorithm.cs:279-285 | the loop over columns gives every column times the matrix |
| AesMix.MixColumns | NondeterministicAttackTesting/AESAlgorithm.cs:275-288 | res is MixColumnsValue(state): each column times the MixColumns matrix, over NBytes |
| AesMix.MixColumnsValue | NondeterministicAttackTesting/AESAlgorithm.cs:275-288 | each column times the 2 3 1 1 matrix, every entry the NByte xor of four GMuls; its properties are MixColumnsLift and MixColumnsSound |
| AesMix.MixAllAt | NondeterministicAttackTesting/AESAlgorithm.cs:279-285 | byte 4c + i is row i of the matrix times column c |
| AesMix.InvEntry | NondeterministicAttackTesting/AESAlgorithm.cs:297-300 | one output byte of InvMixColumns, or NotFiniteNumber when the (byte) cast meets an unknown bit |
| AesMix.CastMixWith | NondeterministicAttackTesting/AESAlgorithm.cs:295-301 | the casted loop gives every column times the inverse matrix, failing as soon as an entry is not fully known |
| AesMix.CastFails | NondeterministicAttackTesting/AESAlgorithm.cs:297-300 | one entry that is not fully known makes the whole InvMixColumns fail with NotFiniteNumber |
| AesMix.InvMixColumns | NondeterministicAttackTesting/AESAlgorithm.cs:291-304 | the result is InvMixColumnsValue(state) |
| AesMix.InvMixColumnsValue | NondeterministicAttackTesting/AESAlgorithm.cs:291-304 | each column times the 14 11 13 9 matrix, NotFiniteNumber when any entry is not fully known; its properties are InvMixColumnsLift, InvMixColumnsSound and CastFails |
| AesMix.MixEntryLift | NondeterministicAttackTesting/AESAlgorithm.cs:281-284 | on known bytes an entry is the dot product of the row with the column in GF(2^8) |
| AesMix.ProductSound | NondeterministicAttackTesting/AESAlgorithm.cs:281 | r · x agrees with GMul(r, t) whenever x agrees with t |
| AesMix.MixEntrySound | NondeterministicAttackTesting/AESAlgorithm.cs:281-284 | the dot product of a row with an agreeing byte column agrees with the entry |
| AesMix.MixColumnsLift | NondeterministicAttackTesting/AESAlgorithm.cs:275-288 | on known states MixColumns is the FIPS-197 MixColumns |
| AesMix.InvMixColumnsLift | NondeterministicAttackTesting/AESAlgorithm.cs:291-304 | on known states InvMixColumns succeeds with the FIPS-197 InvMixColumns |
| AesMix.MixColumnsSound | NondeterministicAttackTesting/AESAlgorithm.cs:275-288 | FIPS-197 MixColumns of an agreeing byte state agrees with MixColumns over NBytes |
| AesMix.InvMixColumnsSound | NondeterministicAttackTesting/AESAlgorithm.cs:291-304 | when InvMixColumns succeeds, FIPS-197 InvMixColumns of an agreeing byte state agrees with it |
| MatrixAlgebra.InvMixTimesMix | NondeterministicAttackTesting/AESAlgorithm.cs:281-300 | the InvMixColumns matrix times the MixColumns matrix is the identity |
| Cipher.InvMixColumnsMixColumns | NondeterministicAttackTesting/AESAlgorithm.cs:275-304 | InvMixColumns undoes MixColumns on every byte state |
| KnownAnswers.MixEntry0 | NondeterministicAttackTesting/AESAlgorithm.cs:281 | row 2 3 1 1 times d4 bf 5d 30 is 04 |
| KnownAnswers.MixEntry1 | NondeterministicAttackTesting/AESAlgorithm.cs:282 | row 1 2 3 1 times d4 bf 5d 30 is 66 |
| KnownAnswers.MixEntry2 | NondeterministicAttackTesting/AESAlgorithm.cs:283 | row 1 1 2 3 times d4 bf 5d 30 is 81 |
| KnownAnswers.MixEntry3 | NondeterministicAttackTesting/AESAlgorithm.cs:284 | row 3 1 1 2 times d4 bf 5d 30 is e5 |
| KnownAnswers.MixColumnOf | NondeterministicAttackTesting/AESAlgorithm.cs:281-284 | a column whose four row products are e0 .. e3 is mixed to e0 e1 e2 e3 |
| KnownAnswers.MixColumnExample | NondeterministicAttackTesting/AESAlgorithm.cs:281-284 | the MixColumns matrix maps d4 bf 5d 30 to 04 66 81 e5 |
| AesRounds.ShiftRowsState | NondeterministicAttackTesting/AESAlgorithm.cs:324-333 | res is ShiftRows(state), the FIPS-197 row rotation |
| AesRounds.InvShiftRowsState | NondeterministicAttackTesting/AESAlgorithm.cs:335-344 | res is InvShiftRows(state) |
| StateLayout.ShiftRowsAt | NondeterministicAttackTesting/AESAlgorithm.cs:330 | ShiftRows places state[((j + i) % 4) * 4 + j] at 4i + j |
| StateLayout.InvShiftRowsAt | NondeterministicAttackTesting/AESAlgorithm.cs:341 | InvShiftRows places state[4i + j] at ((j + i) % 4) * 4 + j |
| StateLayout.ShiftRowsInverse | NondeterministicAttackTesting/AESAlgorithm.cs:324-344 | InvShiftRows undoes ShiftRows and ShiftRows undoes InvShiftRows |
| StateLayout.ShiftRowsRowZero | NondeterministicAttackTesting/AESAlgorithm.cs:327-330 | the bytes of row 0 stay in place |
| AesRounds.ShiftRowsLift | NondeterministicAttackTesting/AESAlgorithm.cs:324-333 | ShiftRows commutes with turning bytes into known NBytes |
| AesRounds.InvShiftRowsLift | NondeterministicAttackTesting/AESAlgorithm.cs:335-344 | InvShiftRows commutes with turning bytes into known NBytes |
| AesRounds.ShiftRowsSound | NondeterministicAttackTesting/AESAlgorithm.cs:324-344 | both shifts keep agreement between a byte state and an NByte state |
| AesRounds.AddRoundKey | NondeterministicAttackTesting/AESAlgorithm.cs:346-352 | res[i] is the NByte xor of state[i] and roundKey[i] |
| AesRounds.AddRoundKeyLift | NondeterministicAttackTesting/AESAlgorithm.cs:346-352 | on known bytes AddRoundKey is the byte xor with the round key |
| AesRounds.AddRoundKeySound | NondeterministicAttackTesting/AESAlgorithm.cs:350 | agreeing state and key bytes xor to a byte agreeing with the result |
| AesRounds.AddRoundKeyStateSound | NondeterministicAttackTesting/AESAlgorithm.cs:346-352 | FIPS-197 AddRoundKey of agreeing state and key agrees with the NByte one |
| Cipher.AddRoundKeyTwice | NondeterministicAttackTesting/AESAlgorithm.cs:346-352 | adding the same round key twice gives the state back |
| Cipher.InvSubBytesSubBytes | NondeterministicAttackTesting/AESAlgorithm.cs:308-322 | InvSubBytes undoes SubBytes |
| Cipher.InvRoundRound | NondeterministicAttackTesting/AESAlgorithm.cs:400-406 | a middle round of Decrypt undoes the middle round of Encrypt with the same key |
| Cipher.DecryptEncrypt | NondeterministicAttackTesting/AESAlgorithm.cs:354-412 | byte-level decryption with any round keys inverts encryption with them |
| Aes.EncryptRound | NondeterministicAttackTesting/AESAlgorithm.cs:370-376 | one loop body: SBox, ShiftRows, MixColumns, AddRoundKey |
| Aes.EncryptWithKeys | NondeterministicAttackTesting/AESAlgorithm.cs:357-386 | after round r the state is EncryptUpTo at r + 1, and the last round leaves EncryptRounds |
| Aes.Encrypt | NondeterministicAttackTesting/AESAlgorithm.cs:354-387 | the result is EncryptValue(plaintext, key); the GMul cache only grows |
| Aes.EncryptValue | NondeterministicAttackTesting/AESAlgorithm.cs:354-387 | defines the Encrypt result: the key error, then IndexOutOfRange for a text not 16 long, then the rounds; its properties are EncryptErrors, EncryptLift and EncryptSound |
| Aes.DecryptRound | NondeterministicAttackTesting/AESAlgorithm.cs:400-406 | one loop body: AddRoundKey, InvMixColumns (which may fail), InvShiftRows, InvSBox |
| Aes.DecryptWithKeys | NondeterministicAttackTesting/AESAlgorithm.cs:393-411 | the loop from the last round key down gives DecryptRounds, stopping at the first failure |
| Aes.Decrypt | NondeterministicAttackTesting/AESAlgorithm.cs:389-412 | the result is DecryptValue(ciphertext, key); the GMul cache only grows |
| Aes.DecryptValue | NondeterministicAttackTesting/AESAlgorithm.cs:389-412 | defines the Decrypt result: the key error, then IndexOutOfRange for a text not 16 long, then the rounds undone; its properties are EncryptErrors, DecryptLift, DecryptEncrypt and DecryptSound |
| Aes.KeySizeErrors | NondeterministicAttackTesting/AESAlgorithm.cs:354-391 | a key with length / 4 not 4, 6 or 8 makes both fail with KeyOfUnknownSize, whatever the text |
| Aes.EncryptErrors | NondeterministicAttackTesting/AESAlgorithm.cs:346-412 | Encrypt fails exactly on a bad key size or a text not 16 long; a text not 16 long with a good key fails both with IndexOutOfRange, and Decrypt gives IndexOutOfRange only then |
| Aes.InvRoundErrors | NondeterministicAttackTesting/AESAlgorithm.cs:402-405 | a middle round of Decrypt can only fail with NotFiniteNumber |
| Aes.DecryptDownToErrors | NondeterministicAttackTesting/AESAlgorithm.cs:400-406 | the rounds of Decrypt can only fail with NotFiniteNumber |
| Aes.DecryptNotOutOfRange | NondeterministicAttackTesting/AESAlgorithm.cs:393-411 | with a 16-byte text and good round keys Decrypt fails only with NotFiniteNumber |
| Aes.DecryptFailureKept | NondeterministicAttackTesting/AESAlgorithm.cs:400-409 | once a round fails, Decrypt fails with that error |
| Aes.RoundLift | NondeterministicAttackTesting/AESAlgorithm.cs:370-376 | on known bytes an Encrypt round is the FIPS-197 round |
| Aes.InvRoundLift | NondeterministicAttackTesting/AESAlgorithm.cs:402-405 | on known bytes a Decrypt round succeeds with the FIPS-197 inverse round |
| Aes.EncryptUpToLift | NondeterministicAttackTesting/AESAlgorithm.cs:357-379 | on known bytes the state after each round is the FIPS-197 one |
| Aes.EncryptRoundsLift | NondeterministicAttackTesting/AESAlgorithm.cs:357-386 | on known bytes the rounds give the FIPS-197 ciphertext |
| Aes.DecryptDownToLift | NondeterministicAttackTesting/AESAlgorithm.cs:393-406 | on known bytes every state of Decrypt is the FIPS-197 one |
| Aes.DecryptRoundsLift | NondeterministicAttackTesting/AESAlgorithm.cs:393-411 | on known bytes the rounds of Decrypt give the FIPS-197 plaintext |
| Aes.EncryptLift | NondeterministicAttackTesting/AESAlgorithm.cs:354-387 | Encrypt of a known block under a known key of good size is the known FIPS-197 ciphertext |
| Aes.DecryptLift | NondeterministicAttackTesting/AESAlgorithm.cs:389-412 | Decrypt of a known block under a known key of good size is the known FIPS-197 plaintext |
| Aes.DecryptEncrypt | NondeterministicAttackTesting/AESAlgorithm.cs:354-412 | on known bytes Encrypt succeeds and Decrypt of its ciphertext gives the plaintext back |
| Aes.RoundSound | NondeterministicAttackTesting/AESAlgorithm.cs:370-376 | a FIPS-197 round of agreeing state and key agrees with the NByte round |
| Aes.InvRoundSound | NondeterministicAttackTesting/AESAlgorithm.cs:402-405 | when the NByte inverse round succeeds, the FIPS-197 one agrees with it |
| Aes.FinalRoundSound | NondeterministicAttackTesting/AESAlgorithm.cs:382-384 | the final round keeps agreement |
| Aes.EncryptUpToSound | NondeterministicAttackTesting/AESAlgorithm.cs:357-379 | every intermediate FIPS-197 state agrees with the NByte state |
| Aes.EncryptRoundsSound | NondeterministicAttackTesting/AESAlgorithm.cs:357-386 | the FIPS-197 ciphertext for agreeing round keys agrees with the NByte one |
| Aes.EncryptSound | NondeterministicAttackTesting/AESAlgorithm.cs:354-387 | for byte plaintext and key agreeing with the NByte ones, Encrypt succeeds and the FIPS-197 ciphertext agrees with its result |
| Aes.InvFinalRoundSound | NondeterministicAttackTesting/AESAlgorithm.cs:396-398 | undoing the final round keeps agreement |
| Aes.DecryptLastSound | NondeterministicAttackTesting/AESAlgorithm.cs:396-398 | the first steps of Decrypt succeed and agree with FIPS-197 |
| Aes.DecryptDownToSound | NondeterministicAttackTesting/AESAlgorithm.cs:400-406 | when Decrypt reaches round n, its state agrees with the FIPS-197 one |
| Aes.DecryptSound | NondeterministicAttackTesting/AESAlgorithm.cs:389-412 | for agreeing byte ciphertext and key, when Decrypt succeeds the FIPS-197 plaintext agrees with its result |

## Left out

- Exceptions are `Failure` values of `Outcomes.Exception`, named by kind. The messages are not modelled.
- The lazy table fill of GMul through a caught `NullReferenceException` (NondeterministicAttackTesting/AESAlgorithm.cs:264-268) is an explicit test of whether the table is filled. The result is the same: the table is filled once, and then the product is computed.
- The static `GMulByteTable` and `GMulCache` (NondeterministicAttackTesting/AESAlgorithm.cs:173, 190) are the fields of a `GMulMemo` object. MixColumns, InvMixColumns, Encrypt and Decrypt take that object as a parameter.
- GMul's copies of its operands (NondeterministicAttackTesting/AESAlgorithm.cs:193, 197-198) and of the cached result are not modelled. The engine works on NByte values, so sharing and later mutation of the objects have no counterpart. The same holds for the cached NByte that GMul returns.
- The commented-out bitwise GMul (NondeterministicAttackTesting/AESAlgorithm.cs:202-241) is not modelled, nor the commented-out copy in Encrypt (362-365). The S-box branches for built-in number types (139-140, 143-144) and `IsBuiltinNumber` (306) are not modelled either: with NByte as the byte type they are dead. Neither is the throw after the try block (270).
- The NByte indexer (NondeterministicAttackTesting/NondeterministicByte.cs:68-72) is array access to the bits; it has no member of its own.
- The NBit constructors (NondeterministicAttackTesting/NondeterministicByte.cs:12-16) are the datatype constructor `NBit(value, known)`.
- `Equals(object)` (NondeterministicAttackTesting/NondeterministicByte.cs:40-48, 203-210) is not modelled: its null and type tests have no counterpart in a typed model. The == operators it calls are modelled.
- The NByte operator != (NondeterministicAttackTesting/NondeterministicByte.cs:201) is the negation of ==; it has no member of its own.
- The GMul cache is not shown to make anything faster. Only its contents are specified.
- A known answer for a whole cipher block is not included. Unfolding all ten rounds on literal bytes is beyond what the verifier evaluates in reasonable time. The known answers cover the key expansion and a MixColumns column, and the block is tied to FIPS-197 through the byte-level reference `Cipher`.
- Ternary.ParseSpec: the text of `NByte(string)` (NondeterministicAttackTesting/NondeterministicByte.cs:96-102) is a Dafny `string`, a sequence of Unicode scalar values, while the source's `str.Length` and `str[i]` count and read UTF-16 code units. The accepted texts are the same (8 characters from 0, 1, X, x, all in the Basic Multilingual Plane) and every rejection is an `ArgumentException` in both. On a text holding a character outside that plane the errors differ: "0000000😀" fails in the source with length 9 and in the model with `UnknownValue('😀')`; "000000😀" fails in the source at the high surrogate and in the model with `IncorrectLength(7)`. A text with a lone surrogate cannot be represented at all.
- Ternary.Parse: takes Unicode scalar values rather than UTF-16 code units, as described under Ternary.ParseSpec; its length and first-bad-character errors differ from the source's on surrogate pairs, and lone surrogates are not represented.
- NBytes.NByte.Parse: returns `Ternary.Parse` of its text, so it has the same gap as Ternary.Parse for surrogate pairs and lone surrogates.
- ProbabilisticByte.cs is not part of this model, nor Program.cs, nor the TestVectors directory. They are the probabilistic byte type, the console driver and the test-vector reader.
