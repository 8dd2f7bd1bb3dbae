# Verification of the wallet's signature stack, encoders and key storage

This Dafny project models the vendored Ed25519 code in `keypair/` (field and scalar arithmetic, curve
formulas, scalar multiplication, SHA-512, key pairs, signing, verification, key exchange), the Base58 and
Base64 encoders, the two builders of Solana transfer transactions, and the password encryption of the
private key, and proves what each of them computes. The C functions that work by updating limbs, buffers,
point structs and the hash context are methods with the same steps; they are tied to specification
functions about which the lemmas are proved.

From the bottom up:

- `Machine`, `Bits`, `Power`, `Bytes`: C integers with their ranges, `&`, `|`, `^`, powers, byte strings.
- `Primes`, `PrimeCertificate`, `OrderCertificate`: Fermat's theorem, Pocklington's test, and the proofs that
  p = 2^255 - 19 and l = 2^252 + 27742317777372353535851937790883648493 are prime.
- `PrimeField`, `PrimeModulus`: congruences mod p.
- `FieldElement`, `FieldProduct`, `FieldOps`, `FieldBytes`, `FieldPower`: `keypair/fe.c`.
- `ScalarLimbs`, `ScalarReduction`, `ScalarBytes`, `Scalar`: `keypair/sc.c`.
- `EdwardsAlgebra`, `EdwardsAssociativity`, `EdwardsCurve`, `EdwardsComplete`, `CurveConstants`,
  `CurveGroup`: the curve of `keypair/ge.h` and the proof that its points are a commutative group under the
  complete addition law, associativity included.
- `PointForms`, `Ge`, `SquareRoots`, `GeEncoding`, `GeDecoding`, `Recoding`, `DoubleScalarMult`,
  `BaseScalarMult`: `keypair/ge.c`.
- `BasePoint`, `BaseOrder`: the base point as a pair of numbers, the table `Bi` of `keypair/precomp_data.h`, and
  the proof that the order of the base point is l.
- `Sha512Words`, `Sha512Constants`, `Sha512`, `Sha512Example`: `keypair/sha512.c`, and the digest of "abc" worked
  out round by round. `Ed25519`: `keypair.c`, `sign.c` and `verify.c`.
- `Montgomery`, `Ladder`, `KeyExchange`, `Agreement`: `keypair/key_exchange.c`.
- `Positional`, `Base58`, `Base64`: `solana/solana_encoding.c`. `SolanaWire`, `SolanaAppend`, `MemoProgram`,
  `Transfer`: `main.c` and `ui/cwallet-ui/src/transaction.rs`. `Hmac`, `Wallet`: `wallet_crypto.c`.

## Hypotheses

Nothing about the numbers p and l, the curve or the base point is assumed. One hypothesis about data remains:
`Ed25519.Tables` says that the table `base` of `keypair/precomp_data.h` holds the points (j + 1) 256^i B. That the
other table, `Bi`, holds the odd multiples of B is proved from its numbers (`BasePoint.BiIsOdd`).

The long rows of numbers in `PrimeCertificate`, `OrderCertificate` and `BaseOrder` are certificates: each number comes
from the one before by a check of one congruence.

Points that only the specification needs are ghost arguments.

## How to read the definitions

`PrimeField.Cong`, `EdwardsCurve.Sum`, `CurveGroup.Quotient`, `OnCurve` and `Add`, and `Sha512.Digest` are defined
behind a countdown of unknown length: the definition is `... After(n, ...)` for some n, and `...After` counts n down
to 0 before it states what is meant. The solver therefore never unfolds these six on its own, in a contract or in a
proof, into products of unknowns modulo a 255-bit constant or into operations on the bits of 64-bit words, which it
handles badly. A `hide` statement would do this for the body it stands in, but not for contracts. What the six mean is
stated once each, without the countdown, by `PrimeField.CongIs`, `EdwardsCurve.SumIs`, `CurveGroup.QuotientIs`,
`CurveGroup.OnCurveIs`, `CurveGroup.AddSums` and `Sha512.DigestIs`.

`Within(f, c)` bounds the limbs of a field element in hundredths of 2^25 (even limbs) and 2^24 (odd limbs):
101 is the bound of a product, 330 (1.65 * 2^26) the precondition of `fe_mul`.

## Findings about the source

- The comment at `keypair/fe.c:1369` says |q| <= 1. Within the bounds it starts from, q is -2 exactly for values
  below -p (`FieldBytes.QuotientMinusTwo`), and there are such values (`FieldBytes.LowestValue`). The result is the
  representative in [0, p) all the same.
- `h4 << 6` at `keypair/fe.c:1471` takes 26 bits and can leave `int32_t` (`FieldBytes.ShiftLeavesWord`). The model
  cuts the shift to 32 bits; the stored byte does not depend on what is cut.
- The bounds known for the operands of some `fe_add` and `fe_sub` calls in `keypair/ge.c` exceed the documented
  1.1 * 2^25. The bound that holds through every run is the one of `fe_mul`; `FeAdd` and `FeSub` add up the bounds of
  their operands.
- `slide` loses a carry for some scalars above 2^255, 17 * 2^251 for one (`Recoding.CarryLost`); its digits then
  have the value a - 2^256. `Recoding.Slide` says for every scalar which of the two they have.
- `ge_frombytes_negate_vartime` accepts y that is not reduced, and x = 0 with the sign bit set. Of the strings that
  decode to a point exactly the one with neither is its encoding (`Ed25519.CanonicalDecoding`);
  `Ed25519.DecodeUnencoded` has a string of each kind.
- `ed25519_key_exchange` multiplies the public point by the clamped raw private key, while public keys belong to
  the clamped hash of it. So two ends agree only if their four scalars happen to satisfy one of two congruences
  mod l; `Agreement.TwoSecrets` gives the exact condition.
- The result 0 of `solana_base58_encode` is a failure, except for the empty input, the only one whose text is empty
  (`Base58.EmptyEncoding`).
- The 32-bit block counter of `pbkdf2_hmac_sha512` never passes its test when the number of blocks is
  2^32 - 1 mod 2^32 (`Hmac.EndlessLength`); for longer outputs only part of the key is written. `Hmac.Pbkdf2` covers
  all lengths for which the loop ends.

## Model

| member | source | states |
|---|---|---|
| FieldOps.FeAdd | keypair/fe.c:70-104 | the sum, with limb bounds that add up, and no overflow of 32 bits |
| FieldOps.FeSub | keypair/fe.c:1304-1338 | the difference, with limb bounds that add up, and no overflow of 32 bits |
| FieldOps.FeMul | keypair/fe.c:524-765 | for operands within 1.65 * 2^26 and 1.65 * 2^25, the product mod p within 1.01 * 2^25 and 1.01 * 2^24; all 19x and 2x factors fit 32 bits and all sums 64 |
| FieldProduct.Square | keypair/fe.c:970-1120 | limb for limb what the multiplication of f by itself gives |
| FieldOps.FeSq | keypair/fe.c:970-1120 | the square mod p, with the bounds of a product |
| FieldOps.FeSq2 | keypair/fe.c:1133-1300 | twice the square mod p, with the bounds of a product |
| FieldProduct.MulLimbsValue | keypair/fe.c:530-553 | the ten column sums followed by the twelve carries have the value of the product mod p |
| FieldOps.FeMul121666 | keypair/fe.c:769-830 | 121666 times the element mod p, within 1.1 * 2^25 and 1.1 * 2^24 |
| FieldOps.FeCmov | keypair/fe.c:134-190 | the xor masks select g for b = 1 and f for b = 0 |
| FieldOps.FeCswap | keypair/fe.c:197-260 | the xor masks swap f and g for b = 1 and leave them for b = 0 |
| FieldPower.FeInvert | keypair/fe.c:364-448 | z^(p - 2) mod p for every z in bounds, with the bounds kept through all squaring loops |
| FieldPower.FePow22523 | keypair/fe.c:881-964 | z^((p - 5)/8) = z^(2^252 - 3) mod p |
| FieldBytes.FeFromBytes | keypair/fe.c:297-360 | the low 255 bits of any 32 bytes, mod p, within 1.1 * 2^25 and 1.1 * 2^24 |
| FieldBytes.QuotientRange | keypair/fe.c:1361-1384 | the quotient lies between -2 and 1, for all limbs in bounds |
| FieldBytes.QuotientMinusTwo | keypair/fe.c:1369 | the quotient is -2 exactly for values below -p |
| FieldBytes.Canonical | keypair/fe.c:1386-1456 | the limbs of the representative in [0, p) |
| FieldBytes.FeToBytes | keypair/fe.c:1361-1491 | the 32 bytes of the representative in [0, p), of every element within 1.1 * 2^26 and 1.1 * 2^25 |
| FieldBytes.FeReduceBytes | keypair/fe.c:297-360 | reading 32 bytes and writing them gives (s mod 2^255) mod p |
| FieldBytes.FeIsNegative | keypair/fe.c:450-466 | the parity of the representative in [0, p) |
| FieldBytes.FeIsNonzero | keypair/fe.c:468-520 | 0 exactly for the elements that are 0 mod p |
| ScalarLimbs.FoldedMiddle | keypair/sc.c:78-84 | folding a limb takes l times the limb away from the value |
| ScalarReduction.BalancedValue | keypair/sc.c:195-230 | after the balanced carries the value lies strictly between -2^252 and 2^252 |
| ScalarReduction.Finish | keypair/sc.c:231-315 | the fold digit is -1 or 0, so two folds give the representative in [0, l) |
| ScalarLimbs.OrderIs | keypair/sc.c:31 | the modulus is 2^252 + 27742317777372353535851937790883648493 |
| OrderCertificate.PrimeL | keypair/sc.c:31 | it is prime |
| PrimeModulus.ModulusIs | keypair/fe.c:1365 | the modulus of the field is 2^255 - 19 |
| PrimeCertificate.PrimeP | keypair/fe.c:1365 | it is prime |
| Scalar.ScReduce | keypair/sc.c:25-347 | any 64 bytes mod l, fully reduced, in the first 32 bytes; the other bytes stay |
| Scalar.ScMulAdd | keypair/sc.c:351-809 | (a b + c) mod l, fully reduced, for any 32-byte a, b and c |
| EdwardsComplete.Closed | keypair/ge.h:9-12 | the sum of two points of the curve is on the curve |
| EdwardsComplete.Complete | keypair/ge.h:9-12 | the denominators of the addition law are never 0, for any two points, when d is not a square |
| CurveConstants.DNonSquare | keypair/ge.h:12 | d = -121665/121666 is not a square mod p |
| EdwardsCurve.Associative | keypair/ge.h:9-12 | both ways of adding three points give the same coordinates mod p |
| CurveGroup.AddCloses | keypair/ge.h:9-12 | the sum of two points is defined and a point |
| CurveGroup.AddAssociates | keypair/ge.h:9-12 | addition of points is associative |
| CurveGroup.AddCommutes | keypair/ge.h:9-12 | addition of points is commutative |
| CurveGroup.AddZero | keypair/ge.h:9-12 | (0, 1) is neutral |
| CurveGroup.AddInverse | keypair/ge.h:9-12 | (-x, y) is the inverse of (x, y) |
| CurveGroup.MulMul | keypair/ge.h:9-12 | (m n) P = m (n P) for all integers m and n |
| PointForms.AddForm | keypair/ge.c:9-22 | the four values that ge_add forms are the completed coordinates of the sum |
| PointForms.DoubleForm | keypair/ge.c:259-271 | the four values that ge_p2_dbl forms are the completed coordinates of the double |
| PointForms.ExtendedProduct | keypair/ge.h:14-17 | extended coordinates satisfy X Y = Z T |
| PointForms.ExtendedEquation | keypair/ge.h:9-17 | extended coordinates satisfy the homogeneous curve equation |
| Ge.GeAdd | keypair/ge.c:9-22 | P + Q for every P and Q, with every fe_mul operand in bounds |
| Ge.GeSub | keypair/ge.c:441-455 | P - Q for every P and Q |
| Ge.GeMadd | keypair/ge.c:188-200 | P + Q for Q in affine form |
| Ge.GeMsub | keypair/ge.c:207-219 | P - Q for Q in affine form |
| Ge.GeP2Dbl | keypair/ge.c:259-271 | 2 P for every P |
| Ge.GeP3Dbl | keypair/ge.c:286-290 | 2 P for every P, from extended coordinates |
| Ge.GeP1P1ToP2 | keypair/ge.c:227-231 | the same point, projective |
| Ge.GeP1P1ToP3 | keypair/ge.c:239-244 | the same point, extended, within the bounds that all operations ask for |
| Ge.GeP3ToCached | keypair/ge.c:302-307 | the same point in the form that ge_add takes |
| GeEncoding.GeToBytes | keypair/ge.c:458-467 | y of the point in 255 bits, and the parity of x in the top bit |
| GeEncoding.GeP3ToBytes | keypair/ge.c:321-330 | the same, from extended coordinates |
| SquareRoots.RootExists | keypair/ge.c:150-178 | if u/v is a square at all, the power that ge.c computes is a root of u/v or of -u/v |
| GeDecoding.Root | keypair/ge.c:150-178 | finds a root of u/v, and fails only if there is none |
| GeDecoding.GeFromBytesNegateVartime | keypair/ge.c:141-181 | 0 with a point of the curve whose y is the encoded one mod p and whose x, unless 0, has the parity opposite to the sign bit; -1 exactly when no point has this y |
| Recoding.Slide | keypair/ge.c:25-58 | for every 32-byte a, every digit is 0, or odd and at most 15 in magnitude with four zeros after it; their value is a, or a - 2^256 exactly if the recoding of a carries out of the top |
| Recoding.HalfStays | keypair/ge.c:33-55 | no carry leaves the top for a of at most half of the range, so none falls off position 255 for a <= 2^255 |
| Recoding.CarryLost | keypair/ge.c:40-48 | 17 * 2^251 loses its carry |
| Recoding.Increment | keypair/ge.c:42-48 | the carry adds one to the tail, and is lost exactly when the tail is all ones |
| DoubleScalarMult.OddMultiples | keypair/ge.c:75-97 | the table holds A, 3 A, ..., 15 A |
| DoubleScalarMult.CombinationStep | keypair/ge.c:103-127 | doubling and adding one digit of each scalar keeps the sum of the digits consumed |
| DoubleScalarMult.GeDoubleScalarMultVartime | keypair/ge.c:67-130 | a A + b B for every A and all scalars up to 2^255; for larger ones the sum for the values of their digits |
| BaseScalarMult.Recode | keypair/ge.c:386-413 | 64 digits from -8 to 8 with the value a, for a[31] <= 127 |
| BaseScalarMult.EqualIs | keypair/ge.c:333-341 | the arithmetic of equal decides equality of the two bytes |
| BaseScalarMult.Select | keypair/ge.c:349-380 | b 256^pos B for -8 <= b <= 8, by masks |
| BaseScalarMult.Passes | keypair/ge.c:415-433 | the odd digits times 16 plus the even digits make the whole scalar |
| BaseScalarMult.GeScalarMultBase | keypair/ge.c:386-434 | a B for every scalar with a[31] <= 127 |
| BasePoint.BaseCoordinates | keypair/precomp_data.h:2-6 | the base point has y = 4/5 and an even x |
| BasePoint.BaseU | keypair/key_exchange.c:29-36 | its u-coordinate is 9 |
| BasePoint.BiIsOdd | keypair/precomp_data.h:1-42 | the 24 rows of limbs of Bi stand for B, 3 B, ..., 15 B, within the bounds that ge_madd and ge_msub take |
| BaseOrder.OrderOfBase | keypair/sc.c:31 | l B is the neutral element |
| BaseOrder.OrderExactly | keypair/sc.c:31 | n B is the neutral element exactly for the multiples n of l |
| Sha512Words.RotationsAre | keypair/sha512.c:61-85 | the shift-and-or macros Sigma0, Sigma1, Gamma0 and Gamma1 are the rotations and shifts of section 4.1.3 of FIPS 180-4 |
| Sha512Words.ChooseIs | keypair/sha512.c:78 | the macro for Ch chooses bit by bit |
| Sha512Words.MajorityIs | keypair/sha512.c:79 | the macro for Maj takes the majority bit by bit |
| Sha512Words.PlaceValue | keypair/sha512.c:71-75 | a loaded word is the big-endian number of its eight bytes |
| Sha512Words.LoadStored | keypair/sha512.c:65-75 | loading a stored word gives it back |
| Sha512Words.CountValue | keypair/sha512.c:255-256 | the stored length is the number of bits, most significant byte first |
| Sha512Constants.RoundConstants | keypair/sha512.c:16-57 | the 80 round constants are the fractional parts of the cube roots of the first 80 primes, times 2^64 and rounded down |
| Sha512Constants.InitialValue | keypair/sha512.c:152-159 | the initial hash value comes from the square roots of the first 8 primes in the same way |
| Sha512.PaddedIs | keypair/sha512.c:229-257 | the padding is a one bit, fewer than 128 bytes of zeros and the number of bits in 16 bytes, up to whole blocks |
| Sha512.ChainedIs | keypair/sha512.c:171-208 | the hash value of a chain is the one after taking its blocks from the front, one by one |
| Sha512Example.DigestOfMessage | keypair/sha512.c:267-275 | the digest of "abc" is the one of FIPS 180-4 |
| Sha512.Compress | keypair/sha512.c:91-139 | the ten groups of eight rounds with renamed registers are the 80 shifted rounds of section 6.4.2 of FIPS 180-4 |
| Sha512.Context.Update | keypair/sha512.c:171-208 | the context holds what was absorbed before followed by the new bytes; curlen < 128 and length count them |
| Sha512.Context.Final | keypair/sha512.c:217-265 | the digest of everything absorbed, with the padding of section 5.1.2 of FIPS 180-4 in one or two blocks |
| Sha512.HashParts | keypair/sha512.c:171-265 | any split of a message into updates gives the digest of the whole |
| Sha512.Hash | keypair/sha512.c:267-275 | the one-shot function gives the digest |
| Ed25519.ClampedIs | keypair/keypair.c:9-11 | clamping makes n, the value of the first 32 bytes, 2^254 + 8 ((n mod 2^254) / 8), and keeps the other bytes |
| Ed25519.SecretIs | keypair/sign.c:6-11 | the secret scalar, from the digest of the seed; the second half of the digest stays |
| Ed25519.SignatureIs | keypair/sign.c:20-38 | R and S with all that is hashed written out: S = H(R, A, M) s + r, r = H(second half of H(seed), M) |
| Ed25519.AcceptsIs | keypair/verify.c:54-74 | the condition of the verifier written out: R is the encoding of H(R, A, M) (-A) + S B |
| Ed25519.ExpandSeed | keypair/keypair.c:7-12 | the hash of the seed with its scalar half clamped |
| Ed25519.CreateKeypair | keypair/keypair.c:14-25 | the public key encodes the secret scalar times B; the private key, unless null, is the seed |
| Ed25519.DerivePublicKey | keypair/keypair.c:27-34 | the public key that belongs to a private key |
| Ed25519.Sign | keypair/sign.c:13-39 | R and S as in section 5.1.6 of RFC 8032, for every message |
| Ed25519.SignatureUnique | keypair/sign.c:13-39 | a key has one signature of a message |
| Ed25519.Verify | keypair/verify.c:47-77 | accepts exactly when the public key decodes, the top three bits of S are clear and the equation of section 5.1.7 of RFC 8032 holds |
| Ed25519.ConsttimeEqual | keypair/verify.c:6-45 | 1 exactly for equal strings |
| Ed25519.CanonicalDecoding | keypair/ge.c:141-181 | of the strings that decode to a point, exactly those with a reduced y, and no sign bit on x = 0, are its encoding |
| Ed25519.DecodeUnencoded | keypair/ge.c:141-181 | y = p + 1, and y = 1 with the sign bit, are accepted though they encode no point |
| Ed25519.SignedAccepts | keypair/verify.c:47-77 | every signature made with a key pair meets the verifier's condition |
| Ed25519.SignThenVerify | keypair/verify.c:47-77 | key pair from any seed, signature of any message, verification: 1 |
| Montgomery.DoubleScaled | keypair/key_exchange.c:53-69 | the doubling half of a ladder step maps (X : Z) of P to (X : Z) of 2 P |
| Montgomery.AddScaled | keypair/key_exchange.c:53-69 | the adding half maps those of P and Q to those of P + Q, when x1 is u of Q - P |
| Ladder.BitStands | keypair/key_exchange.c:43-71 | on the curve, a step of the ladder of section 5 of RFC 7748 turns n P and (n + 1) P into those for 2 n + bit |
| Ladder.SharedSecretIs | keypair/key_exchange.c:29-78 | for the y of a point P of the curve, the ladder gives the u-coordinate of e P, and 0 if e P has none or u = 0 |
| Ladder.ExponentIs | keypair/key_exchange.c:20-27 | the scalar is 2^254 + 8 ((n mod 2^254) / 8) for a private key of value n |
| KeyExchange.Step | keypair/key_exchange.c:52-70 | for registers of any value the loop body is a step of that ladder mod p, with every fe_mul and fe_sq operand and the results in bounds |
| KeyExchange.LadderStep | keypair/key_exchange.c:43-71 | with the swaps deferred, the registers hold what the ladder without swaps has, in the order that the pending swap says |
| KeyExchange.KeyExchange | keypair/key_exchange.c:4-79 | for every public and private key, the secret is x2 / z2 of the ladder without swaps after all bits of the clamped key, from u = (1 + y) / (1 - y) |
| Agreement.EqualSecrets | keypair/key_exchange.c:20-27 | m B and n B have the same u exactly when l divides m - n or m + n |
| Agreement.TwoSecrets | keypair/key_exchange.c:20-27 | the two ends get the same secret exactly when the clamped and the hashed scalars satisfy one of two congruences |
| Positional.DigitsUnique | solana/solana_encoding.c:74-105 | digits without leading zeros are those of their number, in any base |
| Base58.SymbolOfValue | solana/solana_encoding.c:7-39 | the range arithmetic inverts the alphabet and is -1 outside it |
| Base58.AlphabetIs | solana/solana_encoding.c:7 | the symbols are the digits and letters without 0, O, I and l, in the order of their codes |
| Base58.EncodeBufferHolds | solana/solana_encoding.c:74 | 58^(138 n / 100 + 1) > 256^n for all n |
| Base58.DecodeBufferHolds | solana/solana_encoding.c:147 | 256^(733 m / 1000 + 1) > 58^m for all m |
| Base58.Absorb | solana/solana_encoding.c:78-90 | the inner loop multiplies the number in the buffer and adds the digit; no carry is lost |
| Base58.Encode | solana/solana_encoding.c:41-123 | the encoding with a terminator and its length as an int if it fits, else 0 and nothing written |
| Base58.Decode | solana/solana_encoding.c:125-201 | the bytes and their number as an int, for nonempty valid text that fits; else 0 and nothing written |
| Base58.EncodedIs | solana/solana_encoding.c:41-123 | a text stands for the bytes, as the same number with the same leading zeros, exactly when it is their encoding |
| Base58.DecodedIs | solana/solana_encoding.c:125-201 | a text stands for the bytes exactly when it decodes to them |
| Base58.DecodeEncode | solana/solana_encoding.c:41-201 | decoding undoes encoding for all byte strings |
| Base58.EncodeDecode | solana/solana_encoding.c:41-201 | encoding undoes decoding for all valid texts |
| Base58.EmptyEncoding | solana/solana_encoding.c:60-71 | only the empty string has an empty text |
| Base58.ZerosText | solana/solana_encoding.c:60-71 | n zero bytes and n times the digit 1 stand for each other |
| Base64.Vectors | solana/solana_encoding.c:203-235 | the encodings of foob, fooba and foobar in section 10 of RFC 4648, and one with the last two symbols |
| Base64.Encode | solana/solana_encoding.c:203-235 | the encoding with a terminator if it fits, else 0 and nothing written |
| Base64.DecodeEncode | solana/solana_encoding.c:203-235 | a decoder of section 4 of RFC 4648 undoes the encoder |
| Base64.EncodeDecode | solana/solana_encoding.c:203-235 | only the encoding of the bytes decodes to them |
| SolanaAppend.AppendU8 | main.c:714-728 | appends one byte, or fails and changes nothing |
| SolanaAppend.AppendBytes | main.c:730-745 | appends a string, or fails and changes nothing |
| SolanaAppend.AppendShortvec | main.c:747-779 | appends the compact number, or fails and changes nothing before the offset |
| SolanaAppend.PushShortvec | ui/cwallet-ui/src/transaction.rs:133-145 | appends the same compact number to a vector |
| SolanaWire.ShortvecIs | main.c:747-779 | a compact number is its groups of seven bits, lowest first, as few as hold it, with the top bit on all but the last |
| SolanaWire.ShortvecParses | main.c:747-779 | a compact number is read back, whatever follows it |
| SolanaWire.TransactionParses | main.c:892-972 | every transaction is the parse of its bytes |
| MemoProgram.TextIs | main.c:52 | the memo program's text |
| MemoProgram.AddressDecoded | main.c:52 | the memo program's text decodes to 32 bytes, these ones |
| Transfer.LayoutIs | main.c:888-955 | the bytes that are written, in their order, are the serialized message |
| Transfer.MessageBytesAre | main.c:888-955 | every byte of the message of an order, with and without a memo |
| Transfer.TransactionBytesAre | main.c:960-972 | the number of signatures, the signature and the message |
| Transfer.Sizes | main.c:838-839 | a message takes 150 bytes, or 185 and the memo; a transaction at most 370 and its text at most 496 characters |
| Transfer.BuildTransferTransaction | main.c:826-995 | what is refused, with nothing written; otherwise the signed transaction of the order in Base64 and its signature in Base58, and success exactly when both fit |
| Transfer.BuildTransfer | ui/cwallet-ui/src/transaction.rs:24-127 | what is refused; otherwise the same two texts |
| Transfer.OneSignature | ui/cwallet-ui/src/transaction.rs:21-22 | both builders make the same signature of an order, hence the same texts |
| Transfer.Recovered | main.c:892-972 | decoding Base64 and parsing the layout gives the transaction back |
| Transfer.OrderShown | main.c:892-955 | what a reader of the sent text finds: the header, a transfer instruction of the system program from the sender's account to the receiver's with the amount, and for a memo an instruction of the memo program without accounts |
| Transfer.SentVerifies | main.c:960-972 | what is sent reads as a transaction whose signature verifies for the sender's key |
| Hmac.MacIs | wallet_crypto.c:292-313 | the MAC for keys of up to a block, with the bytes of both pads |
| Hmac.MacOfNoKey | wallet_crypto.c:292-313 | the MAC of an empty key, whose pads are 128 bytes 0x36 and 0x5c |
| Hmac.MacOfLongKey | wallet_crypto.c:285-290 | keys longer than a block are hashed first |
| Hmac.Int4Value | wallet_crypto.c:359-362 | the four bytes of a block number, the highest first |
| Hmac.OneIteration | wallet_crypto.c:349-382 | two blocks of one iteration, with the block numbers 1 and 2 |
| Hmac.TwoIterations | wallet_crypto.c:349-382 | a block of two iterations |
| Hmac.HmacSha512 | wallet_crypto.c:275-319 | the MAC of section 2 of RFC 2104, also when the digest overwrites the data |
| Hmac.Pbkdf2 | wallet_crypto.c:321-390 | the key of section 5.2 of RFC 8018, as far as the 32-bit number of blocks reaches, for every length for which the loop ends; or an error and nothing written |
| Hmac.XorTwice | wallet_crypto.c:138-141 | masking twice gives the text back |
| Wallet.DeriveStreamKey | wallet_crypto.c:392-437 | the MAC of label and nonce, cut to the length asked for; nothing for a nonce that is too long |
| Wallet.ConstantTimeCompare | wallet_crypto.c:439-455 | 0 exactly for equal strings |
| Wallet.SealedIs | wallet_crypto.c:123-158 | a blob is the version 1, salt, nonce, masked key and 32 bytes of tag, with 200000 iterations and the labels ENC and MAC |
| Wallet.Encrypt | wallet_crypto.c:87-175 | the sealed blob for valid inputs, else an error and nothing written |
| Wallet.Decrypt | wallet_crypto.c:177-273 | the key of a blob that opens; otherwise the error that applies and 64 zeros |
| Wallet.OpensSealed | wallet_crypto.c:177-273 | a blob opens to a key exactly when it is that key sealed with its own salt and nonce |
| Wallet.OpenSealed | wallet_crypto.c:87-273 | decryption undoes encryption for every password, salt, nonce and key |

## Left out

- FieldOps.FeMul: the unrolled limb expressions are one method per limb, and the carries a chain of calls; the
  result array is the method's result, since the C function reads its operands before it writes.
- Scalar.ScReduce: the unrolled folds and carries are loops over limb indices, in the same order.
- Ladder.SharedSecretIs: for public keys on the twist, whose y belongs to no point of the curve, the secret is stated
  as the result of the ladder and not as a multiple of a point.
- Agreement.TwoSecrets: that given seeds violate the condition is not stated, since it needs the SHA-512 of
  concrete seeds and the numbers of the tables.
- Base58.Encode: lengths whose products with 138 or 733 exceed 64 bits, and a failing allocation.
- Hmac.Pbkdf2: lengths for which the loop does not end.
- SolanaAppend.AppendBytes: offsets beyond the buffer for which the C function would copy past its end.
- Wallet.DeriveStreamKey: labels and nonces that together exceed the 28 bytes of their buffer.
- Ge.GeAdd: temporaries that the source keeps in the fields of the result are locals, stored at the end.
- Null pointers, except for the memo, the signature text and the private key where the source gives them a
  meaning, and overlapping buffers, except for the HMAC of a buffer into itself.
- Error returns of the SHA-512 functions, messages of 2^61 bytes and more.
- Shifts that do not overlap are written as arithmetic.
- The numbers of the table `base` in `keypair/precomp_data.h`.
- `keypair/add_scalar.c`, which nothing calls.
- Strict decoding as in section 5.1.3 of RFC 8032, which the source does not do.
- `keypair/seed.c`, `wallet_random_bytes` and the wiping of local buffers; salt, nonce and seed are inputs.
- The rest of `main.c`, the calculator link, the network client, the user interface, and everything under
  `tilibs/`.
- Timing, secrecy and hardness.
