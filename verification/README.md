# Arithmetic, protocols, ciphers and codecs in Dafny

The repository carries a slice of mbed TLS (`aes_test/library`) and cJSON
(`pipe_ser_clnt`). This project models their algorithms in Dafny and proves
what they are for. Code that updates fields and buffers in place is modelled
as classes and methods over arrays, with the aliasing the source allows, and
each method is proved against a function whose own laws are lemmas.

- **Multi-precision integers** (`Mpi`, `Limbs`, `AddSub`, `Shift`, `Bits`,
  `Mul`, `IntDiv`, `Div`, `Mod`, `Binary`): a number is a sign and a growable
  buffer of 64-bit limbs; its meaning is `V()`, the signed sum of limb times
  2^(64 i). Every routine is proved down from its carry and borrow steps, for
  every aliasing of its arguments that the source supports.
- **Modular arithmetic** (`Montgomery`, `ExpMod`, `Gcd`, `InvMod`): Montgomery
  form, sliding windows, binary gcd and inverse, against plain integer
  arithmetic (`Arith`).
- **Primality** (`Primes`, `PrimeTable`, `MillerRabin`): Fermat's theorem, the table
  of small primes, and the test that rests on both.
- **Protocols** (`Dhm`, `Ecp`, `Ecdsa`, `Der`, `Jpake`): Diffie-Hellman with
  blinding over whole runs, ECDSA through its DER encoding (section 8 of
  X.690, section 4.1 of SEC 1), the four messages of J-PAKE. Points of the
  curve are represented by their logarithm in an abstract cyclic group of
  prime order, with the curve code's refusals: a scalar or point that is zero.
- **AES** (`Gf256`, `AesRounds`, `AesCipher`, `AesTables`, `Aes`): the
  generated tables, both key schedules and the table-driven rounds against
  FIPS-197, down to the octets of its examples (`AesBox`, `AesAnswers`).
- **Modes and streams** (`Octets`, `Xts`, `Keystream`, `Ctr`, `ChaCha20`,
  `ChaChaAnswers`, `Cbc`, `Padding`, `CipherStream`, `Cmac`, `Ccm`,
  `CcmFormat`, `ModeAnswers`): over an arbitrary block permutation with an
  inverse.
- **Codecs** (`Base64`, `Base64Meaning`, `Json`, `JsonParse`, `JsonBlock`,
  `JsonPrint`, `PowerOfTwo`): base64, and cJSON's printer and parser against
  the grammar of RFC 8259 (`JsonUnicode`, `JsonGrammar`, `JsonShape`).

Randomness is a function from positions to octets or keys; theorems hold for
every such function.

## Model

| member | source | states |
|---|---|---|
| `MpiDiv.DivMpi` | aes_test/library/bignum.c:1629-1742 | for all A and B, quotient and remainder truncate toward zero (TDiv and TMod); division by zero is reported and changes nothing |
| `MpiDiv.TruncatedDivision` | aes_test/library/bignum.c:1629-1742 | such a quotient and remainder give A = QB + R with R smaller than B in magnitude and of A's sign |
| `MpiDiv.DivCore` | aes_test/library/bignum.c:1660-1723 | the unsigned core: the shifted dividend is quotient times shifted divisor plus a smaller remainder |
| `MpiDiv.DigitFor` | aes_test/library/bignum.c:1683-1723 | the digit that passes the 3-by-2 test is the true quotient digit or one above it, although the divisor is normalised only to its second highest bit: one add-back suffices |
| `MpiDiv.LeadingDigit` | aes_test/library/bignum.c:1673-1681 | the leading quotient limb is found with at most three subtractions |
| `LimbDivision.IntDivInt` | aes_test/library/bignum.c:1534-1624 | for u1 < d the exact quotient and remainder of a two-limb number; otherwise both all ones |
| `LimbDivision.IntDivIntWide` | aes_test/library/bignum.c:1534-1624 | the form for machines with a double-width type gives the same |
| `MpiMod.ModMpi` | aes_test/library/bignum.c:1766-1787 | the remainder in [0, B) for every sign of A, with the two error codes |
| `MpiMod.ModInt` | aes_test/library/bignum.c:1792-1846 | the remainder modulo an int, right for every number if the divisor lets the half-limb loop run without overflow; in general the value of that loop, taken from the divisor for a negative number |
| `MpiMod.HalfLoopUnsafe` | aes_test/library/bignum.c:1823-1834 | every larger divisor below half the base that is not safe gets a wrong answer for the number 2^64 |
| `MpiAddSub.AddMpi` | aes_test/library/bignum.c:1297-1327 | signed sum for every sign combination and every aliasing of the three numbers |
| `MpiAddSub.SubMpi` | aes_test/library/bignum.c:1332-1362 | signed difference for every sign combination and every aliasing |
| `MpiAddSub.AddInt` | aes_test/library/bignum.c:1367-1380 | signed sum with an int |
| `MpiAddSub.SubAbs` | aes_test/library/bignum.c:1251-1292 | difference of the magnitudes, or the error with X unchanged if it would be negative |
| `MpiAddSub.SubHlp` | aes_test/library/bignum.c:1230-1246 | subtracting a number no larger than the other ends its borrow inside the buffer and leaves the difference |
| `MpiMul.MulMpi` | aes_test/library/bignum.c:1475-1510 | signed product for every aliasing of the three numbers |
| `MpiMul.MulHlp` | aes_test/library/bignum.c:1409-1470 | multiply-accumulate of one limb at an offset: the carry stops inside the buffer if the sum fits |
| `MpiMul.MulAddC` | aes_test/include/mbedtls/bn_mul.h:901-907 | a limb times a limb plus two limbs, in two limbs, with a double-width product |
| `MpiMul.MulAddCHalf` | aes_test/include/mbedtls/bn_mul.h:920-933 | the same with four half-limb products |
| `MpiShift.ShiftL` | aes_test/library/bignum.c:992-1038 | the magnitude times 2^count with the sign kept, the buffer growing only when the bits need it |
| `MpiShift.ShiftR` | aes_test/library/bignum.c:1043-1082 | the quotient of the magnitude by 2^count |
| `MpiCore.CmpAbs` | aes_test/library/bignum.c:1087-1114 | the sign of the difference of the magnitudes, whatever leading zero limbs there are |
| `MpiCore.CmpMpi` | aes_test/library/bignum.c:1119-1149 | the sign of the difference of the signed values |
| `MpiBits.BitLen` | aes_test/library/bignum.c:414-428 | the number of significant bits |
| `MpiBits.Lsb` | aes_test/library/bignum.c:380-391 | the number of trailing zero bits, 0 for the number zero |
| `MpiBinary.WriteBinary` | aes_test/library/bignum.c:946-987 | the big-endian octets of the number, filled up with zeros in front; an error exactly if they do not fit, with nothing written |
| `MpiBinary.ReadBinary` | aes_test/library/bignum.c:865-902 | the number of a big-endian octet string of any length |
| `Montgomery.MontgInit` | aes_test/library/bignum.c:1851-1863 | the Newton steps give the negated inverse of an odd limb modulo 2^64 |
| `Montgomery.MontMul` | aes_test/library/bignum.c:1868-1906 | A becomes AB / R modulo N, below N; neither the final subtraction nor the dummy one in its place runs out of its buffer; too small a scratch number is refused |
| `ModExp.ExpMod` | aes_test/library/bignum.c:1926-2138 | sliding-window exponentiation for every window size, sign of A and cached or fresh R^2 computes ExpValue; the cached value stays valid; all error cases, which change nothing |
| `ModExp.ExpValueIsPower` | aes_test/library/bignum.c:2121-2125 | ExpValue is congruent to A^E, and is A^E mod N itself exactly unless A is negative, E odd and the power a multiple of N |
| `ModExp.ExpValuePrime` | aes_test/library/bignum.c:2121-2125 | for prime N the exception is decided by the arguments: A negative, E odd and N divides A |
| `ModExp.ExpValueWitness` | aes_test/library/bignum.c:2121-2125 | A = -N and E = 1 give N where the residue is 0 |
| `ModExp.ScanExponent` | aes_test/library/bignum.c:2039-2114 | whatever the window size, the scan leaves the Montgomery form of A to the power of the whole exponent |
| `MpiGcd.GcdMpi` | aes_test/library/bignum.c:2143-2194 | binary gcd, with the value it has for a zero operand |
| `MpiGcd.GcdValueCorrect` | aes_test/library/bignum.c:2169-2187 | that value is the greatest common divisor exactly if B is not zero or A is zero |
| `MpiInverse.InvMod` | aes_test/library/bignum.c:2236-2329 | the inverse in [0, N) exactly if N > 1 and gcd(A, N) = 1, otherwise the two error codes with X unchanged; every halving in the loop is exact and the loop ends |
| `MpiInverse.EvenCoefficients` | aes_test/library/bignum.c:2270-2299 | making both coefficients even first keeps the Bezout identity |
| `PrimeNumbers.Fermat` | aes_test/library/bignum.c:2394-2482 | Fermat's little theorem, which the test relies on |
| `PrimeNumbers.SquareRootOfOne` | aes_test/library/bignum.c:2453-2463 | modulo a prime only 1 and -1 square to 1 |
| `MillerRabin.PrimeIsStrong` | aes_test/library/bignum.c:2439-2474 | a prime passes a round for every base it does not divide |
| `MillerRabin.Round` | aes_test/library/bignum.c:2440-2474 | a round passes exactly the strong probable primes to its base |
| `MillerRabin.RunMillerRabin` | aes_test/library/bignum.c:2394-2482 | the exact verdict for every random source: rejected if X is not strong to some base that is drawn, given up if it is strong to all of those but some round has no base, otherwise passed |
| `MillerRabin.SampleBase` | aes_test/library/bignum.c:2422-2440 | the base, the position in the random source and the success are those of the first of 31 candidates, masked, that is in (1, X - 1); a 32nd is drawn and discarded |
| `MillerRabin.ShiftDefined` | aes_test/library/bignum.c:2426-2432 | the mask for a random base is a defined shift exactly if the number has no leading zero limb |
| `PrimalityCheck.CheckSmallFactors` | aes_test/library/bignum.c:2367-2389 | 0 exactly for numbers above 997 without a divisor between 2 and 997; 1 only for primes up to 997; the error only for composites |
| `PrimeTable.TableComplete` | aes_test/library/bignum.c:2333-2356 | the table misses no prime: above 997, to be odd and without a divisor in the table is to be without any divisor between 2 and 997 |
| `PrimalityCheck.IsPrimeExt` | aes_test/library/bignum.c:2487-2516 | above 997 it accepts exactly the numbers without a divisor between 2 and 997 that are strong to every base drawn, and for which every round draws one; a prime is accepted exactly if every round draws one; up to 997 exactly the primes |
| `Dhm.Session` | aes_test/library/dhm.c:260-445 | any run of calls, failing ones included, has exactly the outcomes of a transition function over private key, peer value, blinding state and random source |
| `Dhm.RunRight` | aes_test/library/dhm.c:260-445 | in a run in which drawing never fails every secret is GY^X mod P for the last value read and the key drawn last, it is refused exactly because that value is out of range, missing exactly without a key, and stuck exactly when blinding values are due and cannot be drawn |
| `Dhm.SecretExact` | aes_test/library/dhm.c:332-445 | in any state, after failures too, a secret for a value prime to P is right exactly if no failure has left Vi without its Vf or Vi^X is 1 mod P all the same |
| `Dhm.UnblindExact` | aes_test/library/dhm.c:412-432 | for a value prime to P the unblinded product is the plain power exactly if Vi^X Vf = 1 mod P |
| `Dhm.DhmContext.CalcSecret` | aes_test/library/dhm.c:394-445 | the exact return value; the secret and its octets are GY^X mod P whether blinded or not, if the blinding relation holds afterwards, which every successful call keeps; what a failure leaves behind; no output on error |
| `Dhm.DhmContext.UpdateBlinding` | aes_test/library/dhm.c:332-389 | reset, squaring and regeneration keep Vi^X Vf = 1 mod P for every odd modulus; it fails exactly if fresh values are due and the draw is out of range or has no inverse |
| `Dhm.DhmContext.SetGroup` | aes_test/library/dhm.c:238-255 | modulus and generator are those given; the invariants hold exactly if what is cached for an earlier modulus fits the new one |
| `Dhm.StaleCache` | aes_test/library/dhm.c:238-255 | the cached value of modulus 5 is not that of 7 |
| `Dhm.StaleBlinding` | aes_test/library/dhm.c:332-445 | with a random source of zeros the first secret is right, the second call fails, and the third gives the secret 0 |
| `Dhm.DhmContext.MakePublic` | aes_test/library/dhm.c:279-324 | the exact return value, private key and public value for every random source |
| `Dhm.Exchange` | aes_test/library/dhm.c:260-445 | two parties that make, read and combine public values, blinded or not, end with the same octets exactly if both keys can be drawn and both public values are in range |
| `Dhm.BlindingSquared` | aes_test/library/dhm.c:354-363 | squaring both blinding values keeps their relation |
| `Dhm.Unblind` | aes_test/library/dhm.c:412-432 | the blinded computation gives the plain power |
| `Dhm.Agreement` | aes_test/library/dhm.c:279-445 | the formula behind it: both powers are the same |
| `CurveGroup.MultiplyAddValue` | aes_test/library/ecp.c:2534-2657 | the sum of two multiples is right whenever the curve code does not refuse a scalar or point |
| `Ecdsa.Sign` | aes_test/library/ecdsa.c:253-384 | a signature in the sense of the standard, the blinding factor having cancelled; it succeeds exactly for a usable group, a key in range and a usable nonce before a retry test fails, whatever the tests in retries read; the other errors and when they come |
| `Ecdsa.FirstNonceUsed` | aes_test/library/ecdsa.c:253-384 | a first nonce that can be used is, whatever they would read |
| `Ecdsa.SignatureExists` | aes_test/library/ecdsa.c:253-384 | every nonce whose abscissa is not 0 mod n gives a signature unless e + r d is 0 mod n |
| `Ecdsa.Verify` | aes_test/library/ecdsa.c:596-699 | the exact return value for every input; 0 if and only if the group can be used and (r, s) is a signature of the hash under the secret key, the hash not deriving zero and, for the key zero, r = s |
| `Ecdsa.VerifiesSigned` | aes_test/library/ecdsa.c:653-688 | soundness: numbers that pass the standard's equations are a signature that some nonce makes with the secret key |
| `Ecdsa.VerdictZero` | aes_test/library/ecdsa.c:653-688 | so the verdict is 0 exactly for a signature of a hash that does not derive zero, the key being non-zero or r = s; which error it is otherwise |
| `Ecdsa.DeriveMpi` | aes_test/library/ecdsa.c:229-246 | the leftmost bits of the hash reduced into [0, N) by a single subtraction |
| `Ecdsa.Completeness` | aes_test/library/ecdsa.c:253-384 | by the standard's own equations every signature made verifies |
| `Ecdsa.SignedAccepted` | aes_test/library/ecdsa.c:596-699 | the code accepts a signature it made exactly if the hash does not derive zero |
| `Ecdsa.WriteSignature` | aes_test/library/ecdsa.c:747-808 | when it succeeds; what is written is accepted by the reader with the matching public key, exactly if the hash does not derive zero |
| `Ecdsa.ZeroHashRefused` | aes_test/library/ecdsa.c:667-674 | for every key and every nonce with a usable abscissa there is a signature over a hash of zero octets, and it is refused |
| `Ecdsa.ZeroHashSigned` | aes_test/library/ecdsa.c:253-384 | signing such a hash fails only if no nonce with a usable abscissa is drawn |
| `Ecdsa.ReadSignature` | aes_test/library/ecdsa.c:829-901 | the exact return value for every octet string; 0 exactly if it parses without octets left over and the numbers are a signature of the hash |
| `Ecdsa.SignatureRoundTrip` | aes_test/library/ecdsa.c:723-742 | reading a written signature gives both numbers and leaves nothing |
| `Ecdsa.ReadForm` | aes_test/library/ecdsa.c:851-879 | whatever is read has the form of a sequence of two integers, in lengths of short or long form, and gives their numbers |
| `Ecdsa.FormRead` | aes_test/library/ecdsa.c:851-879 | and everything of that form is read |
| `Ecdsa.SignatureExample` | aes_test/library/ecdsa.c:723-742 | the octets written for the numbers 1 and 128 |
| `Ecdsa.WireCompleteness` | aes_test/library/ecdsa.c:723-901 | a signature written, read back and checked by the standard verifies |
| `Der.WriteMpi` | aes_test/library/asn1write.c:132-166 | tag, length and content in front of what the buffer holds already, or an error exactly if there is no room or the length needs more than 32 bits; an octet outside the buffer is read exactly for a zero with positive sign at its end |
| `Der.ContentEncodes` | aes_test/library/asn1write.c:132-166 | the content written is the encoding of the number by section 8.3 of X.690 exactly if, for a positive sign, it is not zero or the octet that follows is at least 0x80, and, for a negative one, the magnitude is half a power of 256 |
| `Der.ContentWitness` | aes_test/library/asn1write.c:132-166 | zero is written without content in place of one zero octet, -1 as 1, -128 rightly |
| `Der.WriteLen` | aes_test/library/asn1write.c:42-104 | the length in its shortest form, one to five octets, or the error for longer ones |
| `Der.GetTag` | aes_test/library/asn1parse.c:50-121 | the exact outcome of reading tag and length |
| `Der.TagRead` | aes_test/library/asn1parse.c:50-121 | which octets are accepted as tag and length: short form, or long form with one to four octets |
| `Der.GetMpi` | aes_test/library/asn1parse.c:167-182 | the content octets as a number, and the position behind them |
| `Der.LengthRoundTrip` | aes_test/library/asn1write.c:42-104 | reading a written length gives it back whatever follows, for every 32-bit length |
| `EcJpake.HonestRun` | aes_test/library/ecjpake.c:516-798 | the four messages between parties with one password: the run completes exactly if the password, the base points, every challenge and every response are not zero modulo n and x1 + x3 is not n; then both secrets are x2 x4 s (x1 + x3) G; with roomy buffers every message is written |
| `EcJpake.CancellingKeys` | aes_test/library/ecjpake.c:748-798 | first keys with x1 + x3 = n make both derivations fail |
| `EcJpake.ProofDecided` | aes_test/library/ecjpake.c:243-370 | an honest proof is accepted exactly if neither challenge nor response is zero |
| `EcJpake.ProofAccepted` | aes_test/library/ecjpake.c:243-310 | octets are accepted if and only if they begin with a point V and a response r such that h X + r G is V modulo the order for their challenge h and the curve code refuses no factor; which errors otherwise |
| `EcJpake.OtherResponse` | aes_test/library/ecjpake.c:243-310 | an honest V with any response but the honest one does not satisfy the equation |
| `EcJpake.Extract` | aes_test/library/ecjpake.c:243-310 | special soundness: two accepted proofs with one V and two challenges give the logarithm of X |
| `EcJpake.TranscriptTells` | aes_test/library/ecjpake.c:156-235 | the octets hashed for a challenge tell base point, V, X and identity, so a proof is bound to all four |
| `EcJpake.ZkpRead` | aes_test/library/ecjpake.c:243-310 | the exact return value; 0 if and only if the octets begin with an accepted proof |
| `EcJpake.KkpRead` | aes_test/library/ecjpake.c:376-407 | the same for a public key with the proof behind it |
| `EcJpake.SecretDecided` | aes_test/library/ecjpake.c:748-798 | a derivation is refused exactly if the first keys cancel |
| `EcJpake.Agreement` | aes_test/library/ecjpake.c:666-798 | both sides' formulas give the same point |
| `EcJpake.BlindedSecret` | aes_test/library/ecjpake.c:635-661 | adding a random multiple of the order to the secret leaves no trace |
| `EcJpake.Context.WriteRoundOne` | aes_test/library/ecjpake.c:483-546 | what is written reads back as the two public keys exactly if both proofs hold; the room that suffices |
| `EcJpake.Context.WriteRoundTwo` | aes_test/library/ecjpake.c:666-743 | the same for the second key; refused exactly if secret or base is zero |
| `Aes.AesContext.SetKeyEnc` | aes_test/library/aes.c:556-665 | the key expansion of FIPS-197 for 128, 192 and 256 bits; other sizes refused with nothing changed |
| `Aes.AesContext.SetKeyDec` | aes_test/library/aes.c:672-737 | the encryption schedule in reverse order with the inner keys transformed |
| `Aes.AesContext.Encrypt` | aes_test/library/aes.c:870-922 | the T-table rounds compute the rounds of the standard |
| `Aes.AesContext.Decrypt` | aes_test/library/aes.c:938-990 | the reverse T-table rounds compute the equivalent inverse cipher |
| `Aes.RoundTrip` | aes_test/library/aes.c:556-990 | for every key of every size and every block: in between, the buffer holds the cipher of the standard under the key expansion; decrypting in place restores it |
| `AesAnswers.Table` | aes_test/library/aes.c:97-100 | the substitution of FIPS-197 on all 256 octets, as figure 7 lists it |
| `AesAnswers.Schedule128` | aes_test/library/aes.c:588-609 | every schedule of the key 00 01 .. 0F has the words listed in appendix C.1 of FIPS-197 |
| `AesAnswers.Schedule192` | aes_test/library/aes.c:611-632 | the same for 192 bits |
| `AesAnswers.Schedule256` | aes_test/library/aes.c:634-662 | the same for 256 bits, with the substitution in the middle of each group |
| `AesAnswers.Example128` | aes_test/library/aes.c:556-922 | under every such schedule the block of appendix C.1 becomes the ciphertext stated there |
| `AesAnswers.Example192` | aes_test/library/aes.c:556-922 | the same for appendix C.2 |
| `AesAnswers.Example256` | aes_test/library/aes.c:556-922 | the same for appendix C.3 |
| `Aes.AesIsPermutation` | aes_test/library/aes.c:870-990 | so AES is a permutation with an inverse, as the modes assume |
| `AesCipher.DecryptEncrypt` | aes_test/library/aes.c:870-990 | the equivalent inverse cipher inverts the cipher for any round keys |
| `AesTables.GenTables` | aes_test/library/aes.c:404-482 | the generated tables: S-boxes inverse to each other and affine over the field inverse, the eight round tables products with the two mixing matrices |
| `AesRounds.MixRoundTrip` | aes_test/library/aes.c:452-481 | the two mixing matrices are inverse to each other |
| `Gf256.PowersDistinct` | aes_test/library/aes.c:410-418 | 3 generates the multiplicative group: its first 255 powers differ |
| `Xts.CryptXts` | aes_test/library/aes.c:1171-1275 | XTS of the standard for every length from 16 to 2^24 with separate buffers, and what in-place operation computes |
| `Xts.RoundTrip` | aes_test/library/aes.c:1202-1275 | either mode undoes the other for every length of at least 16, the last two tweaks being exchanged on decryption |
| `Xts.InPlaceByLength` | aes_test/library/aes.c:1240-1256 | in-place operation is right for every data unit of a length exactly if that is a multiple of 16 |
| `Xts.DoubleIsTimesX` | aes_test/library/aes.c:1153-1166 | the word arithmetic multiplies by x in GF(2^128) |
| `Xts.TweakIsPower` | aes_test/library/aes.c:1222-1228 | the tweak of block j is the first one times x^j |
| `Xts.TweaksDiffer` | aes_test/library/aes.c:1222-1228 | neighbouring blocks have different tweaks exactly if the first one is not zero |
| `ModeAnswers.XtsExample` | aes_test/library/aes.c:1171-1275 | vector 15 of IEEE Std 1619-2007, 17 octets with stealing, for every cipher that maps the two blocks so |
| `CtrMode.CryptCtr` | aes_test/library/aes.c:1426-1467 | one call masks with the stream from the saved state and leaves the state of the stream behind it |
| `CtrMode.CounterLaw` | aes_test/library/aes.c:1426-1467 | over any sequence of calls octet k is masked with octet k mod 16 of the cipher of counter + k / 16 mod 2^128 |
| `CtrMode.CryptChunks` | aes_test/library/aes.c:1426-1467 | the same for calls as a caller makes them, chunk by chunk in place |
| `ChaCha20.Context.Update` | aes_test/library/chacha20.c:255-318 | one call of any size continues the key stream |
| `ChaCha20.CounterLaw` | aes_test/library/chacha20.c:232-318 | over any sequence of calls octet k is masked with octet k mod 64 of the block with counter + k / 64 mod 2^32 |
| `ChaCha20.UpdateChunks` | aes_test/library/chacha20.c:255-318 | the same for updates as a caller makes them, chunk by chunk in place |
| `ChaCha20.GenerateBlock` | aes_test/library/chacha20.c:145-186 | ten double rounds and the feed-forward, in little-endian octets |
| `ChaChaAnswers.QuarterExample` | aes_test/library/chacha20.c:91-116 | the quarter round of section 2.1.1 of RFC 7539 |
| `ChaChaAnswers.BlockExample` | aes_test/library/chacha20.c:126-186 | the key stream block of section 2.3.2 of RFC 7539, through all ten double rounds |
| `ChaCha20.Context.Starts` | aes_test/library/chacha20.c:232-253 | counter and nonce in their words; the next octet comes from a new block |
| `Keystream.RunIsOneCall` | aes_test/library/aes.c:1426-1467 | any division into calls is one call |
| `Keystream.MaskTwice` | aes_test/library/chacha20.c:320-350 | applying the stream twice is the identity |
| `Cbc.CryptCbc` | aes_test/library/aes.c:1043-1109 | CBC of whole blocks, in place or not, and the chaining value left behind |
| `Cbc.ChainInverse` | aes_test/library/aes.c:1043-1109 | decryption inverts encryption |
| `Cbc.ChainBlocks` | aes_test/library/aes.c:1043-1109 | block j of either direction by the cipher and the ciphertext block before it |
| `CipherStream.RoundTrip` | aes_test/library/cipher.c:576-1019 | any division of the message and of its ciphertext: decryption gives the message back exactly if the padding can be told from it |
| `CipherStream.SplitIndependent` | aes_test/library/cipher.c:576-666 | updates in any pieces are one update |
| `CipherStream.EncryptionRun` | aes_test/library/cipher.c:972-1019 | streaming encryption is CBC of the padded message |
| `CipherStream.CipherContext.Update` | aes_test/library/cipher.c:576-666 | the buffered update does what Feed says, for separate and equal buffers; when it is refused |
| `CipherStream.CipherContext.Finish` | aes_test/library/cipher.c:972-1019 | the last block, padded or with its padding read off |
| `CipherStream.ProcessChunks` | aes_test/library/cipher.c:576-1019 | updates with any chunks, then finish, do what Run says, with its error |
| `BlockPadding.UnpadPad` | aes_test/library/cipher.c:760-924 | reading a padding gives the data length, exactly for data it can be told from |
| `BlockPadding.PadExamples` | aes_test/library/cipher.c:760-890 | three octets of each padding |
| `BlockPadding.UnpadSound` | aes_test/library/cipher.c:770-872 | only well-formed padded blocks are accepted |
| `BlockPadding.GetPadding` | aes_test/library/cipher.c:770-924 | the scans without early exit decide that |
| `Cmac.CmacContext.Update` | aes_test/library/cmac.c:242-308 | an update of any length, a last block always held back, adds its octets to the message |
| `Cmac.CmacContext.Finish` | aes_test/library/cmac.c:310-369 | the tag of section 6.2 of SP 800-38B for all octets since the start, however they were divided |
| `Cmac.MultiplyByU` | aes_test/library/cmac.c:83-129 | multiplication by u, for block sizes 16 and 8 |
| `Cmac.SubkeyExample` | aes_test/library/cmac.c:143-182 | a cipher that maps zero as in section 4 of RFC 4493 has the subkeys given there |
| `Cmac.ShortMessages` | aes_test/library/cmac.c:310-369 | the tags of the empty message and of one block |
| `ModeAnswers.CmacExample` | aes_test/library/cmac.c:242-369 | the tag of the third example of RFC 4493, 40 octets, for every cipher that maps the blocks so |
| `Cmac.ShiftDoubles` | aes_test/library/cmac.c:105-109 | the shift loop doubles the number |
| `Ccm.AuthCrypt` | aes_test/library/ccm.c:153-320 | ciphertext and tag of the standard for all accepted lengths, in place or not; exactly when the input is refused |
| `Ccm.StarAuthDecrypt` | aes_test/library/ccm.c:363-399 | the plaintext if the tag is right, otherwise zeros and the error |
| `Ccm.EncryptAndTag` | aes_test/library/ccm.c:341-358 | the same sealing, a tag being required |
| `Ccm.OpenIffSealed` | aes_test/library/ccm.c:325-399 | a message opens to a plaintext exactly if it is the sealing of that plaintext |
| `Ccm.CountersDistinct` | aes_test/library/ccm.c:265-308 | data counters are 1, 2, ... without wrap and differ from that of the tag |
| `Ccm.FlagsStandard` | aes_test/library/ccm.c:187-203 | the flags octet of section A.2.1 for the tag lengths of the standard |
| `Ccm.FlagsUntagged` | aes_test/library/ccm.c:187-203 | without a tag all upper bits of the flags are set |
| `CcmFormat.FormatPrefixFree` | aes_test/library/ccm.c:187-263 | what a tag is computed over tells tag length, nonce, additional data and plaintext, and is no prefix of that for other inputs |
| `CcmFormat.FormatInjective` | aes_test/library/ccm.c:187-263 | without a tag too it tells them, from the whole of it |
| `CcmFormat.FirstIsNoCounter` | aes_test/library/ccm.c:187-270 | its first block is never a counter block |
| `ModeAnswers.CcmExample` | aes_test/library/ccm.c:153-320 | the sealing of the first example of SP 800-38C, for every cipher that maps the five blocks so |
| `Base64.Encode` | aes_test/library/base64.c:77-139 | the encoding of every octet string and its terminating zero, or the length needed; nothing is written on error |
| `Base64.DecodeInto` | aes_test/library/base64.c:144-228 | both passes: the decoding, the length needed, or an error, nothing behind the result being touched |
| `Base64.RoundTrip` | aes_test/library/base64.c:77-228 | decoding undoes encoding |
| `Base64Meaning.EncodesByAlphabet` | aes_test/library/base64.c:44-53 | the alphabet of table 1 of RFC 1521 |
| `Base64Meaning.DecodesByAlphabet` | aes_test/library/base64.c:55-69 | exactly the characters of the alphabet decode to a digit, each to its place |
| `Base64Meaning.QuadMeans` | aes_test/library/base64.c:103-118 | four characters are the digits to base 64 of the number that three octets form |
| `Base64Meaning.LastGroupMeans` | aes_test/library/base64.c:120-135 | the last group: the octets left completed with zeros, a padding character for each one missing |
| `Base64Meaning.OctetsMean` | aes_test/library/base64.c:208-222 | and four digits are read as the octets of their number |
| `Base64Meaning.ScanSound` | aes_test/library/base64.c:152-187 | a text is accepted only if, apart from spaces and line ends, it is characters of the alphabet with at most two padding characters behind them; the counts of both |
| `Base64.WritesFit` | aes_test/library/base64.c:152-225 | for every accepted text the second pass writes at most the length the first one computed |
| `Base64.InsertLineFeed` | aes_test/library/base64.c:152-187 | a line feed anywhere in an accepted text changes nothing |
| `Base64.InsertLineBreak` | aes_test/library/base64.c:152-187 | nor does CR LF, exactly unless it is inserted behind a carriage return |
| `Base64.LineBreakWitness` | aes_test/library/base64.c:152-187 | CR LF is accepted, CR CR LF LF is not |
| `JsonGrammar.DocumentReads` | pipe_ser_clnt/cJSON.c:357-590 | every text of RFC 8259 (any spacing, any spelling of strings and numbers) in front of anything that does not continue it parses as the tree it means, and what follows is left |
| `JsonGrammar.TextReads` | pipe_ser_clnt/cJSON.c:320-376 | the same from the start of the text, with space before it |
| `JsonGrammar.PrintedIsText` | pipe_ser_clnt/cJSON.c:342-658 | whatever is printed, formatted or not, at any depth, is such a text and means the tree |
| `JsonGrammar.StringReads` | pipe_ser_clnt/cJSON.c:192-249 | a string whose characters are spelled as themselves, by a two-character escape, a u-escape with digits in either case, or a surrogate pair reads as the octets of its characters, characters zero being left out |
| `JsonGrammar.ContentsDecode` | pipe_ser_clnt/cJSON.c:213-241 | these octets decode as UTF-8 to exactly those characters |
| `JsonUnicode.Utf8Decodes` | pipe_ser_clnt/cJSON.c:229-237 | the octets written for a code point below 110000 that is no surrogate decode to it, by the definition of RFC 3629 |
| `JsonUnicode.DecodedIsUtf8` | pipe_ser_clnt/cJSON.c:229-237 | and no other octets do |
| `JsonUnicode.CodeReads` | pipe_ser_clnt/cJSON.c:216-238 | every u-escape of four digits: its code point; with a low surrogate behind a high one the code point of the pair; nothing for zero and for surrogates without their partner |
| `JsonUnicode.LetterReads` | pipe_ser_clnt/cJSON.c:209-215 | the eight two-character escapes of the standard |
| `JsonUnicode.OtherReads` | pipe_ser_clnt/cJSON.c:241 | any other character behind a backslash stands for itself |
| `JsonUnicode.BadCodeReads` | pipe_ser_clnt/cJSON.c:177-188 | a u-escape with something else among its four digits gives nothing |
| `JsonGrammar.NumeralReads` | pipe_ser_clnt/cJSON.c:96-115 | a number with any digits, fraction and exponent reads as the integer part of its value, cut off toward zero; the double is taken as exact |
| `JsonShape.Accepted` | pipe_ser_clnt/cJSON.c:357-590 | only texts with the structure of JSON are accepted: words, numbers and strings, and nested lists with their commas, colons and brackets in place; only a string at the end of the text may lack its closing quote |
| `JsonGrammar.RoundTrip` | pipe_ser_clnt/cJSON.c:192-658 | parsing a printed tree, formatted or not, at any depth and whatever follows it (after a bare number, anything that does not continue it), gives the tree back and leaves what follows |
| `JsonGrammar.ParsePrinted` | pipe_ser_clnt/cJSON.c:323-343 | parsing what cJSON_Print or cJSON_PrintUnformatted returns gives an equal tree |
| `JsonGrammar.StringRoundTrip` | pipe_ser_clnt/cJSON.c:192-307 | so for every string without a zero octet |
| `JsonGrammar.NumberRoundTrip` | pipe_ser_clnt/cJSON.c:96-175 | and for every int, in front of anything that does not continue a number |
| `JsonPrint.PrintBuffered` | pipe_ser_clnt/cJSON.c:345-353 | for every size of the initial buffer the text is that of the unbuffered print, at the start of the buffer |
| `JsonPrint.PrintBuffer.PrintValue` | pipe_ser_clnt/cJSON.c:372-658 | the text is appended behind what is there, inside the buffer, and the offset left where strlen finds the end |
| `JsonPrint.NestedAddress` | pipe_ser_clnt/cJSON.c:550-658 | an object inside a formatted one: the address returned is its depth, 1, its text starts at 7 |
| `JsonPrint.ValueBlock` | pipe_ser_clnt/cJSON.c:372-658 | the text in a block of the length computed beforehand, no write going past it |
| `JsonPrint.ComposeObject` | pipe_ser_clnt/cJSON.c:630-655 | the length summed up for the members bounds every write of the composition |
| `JsonPrint.PrintBuffer.Ensure` | pipe_ser_clnt/cJSON.c:121-136 | room for what is needed, everything written kept |
| `PowerOfTwo.Pow2gtIsNext` | pipe_ser_clnt/cJSON.c:117 | up to 2^32 the smearing of bits gives the next power of two |
| `JsonParse.Parse` | pipe_ser_clnt/cJSON.c:323-339 | the cursor-and-loop parser accepts exactly what the grammar function accepts and ends where it ends |
| `JsonParse.ParseStringAt` | pipe_ser_clnt/cJSON.c:192-249 | the string and the place behind it; a missing closing quote is no error |
| `JsonParse.StringFits` | pipe_ser_clnt/cJSON.c:197-245 | if every backslash escapes a character and every u-escape has four digits, the characters fit in the block that the first loop measured |
| `JsonBlock.FitsExactly` | pipe_ser_clnt/cJSON.c:192-249 | for every string, malformed or not, ended by a quote or a zero: whatever stands behind it, the characters fit in the measured block if and only if the second loop does not pass the end that the first one finds |
| `JsonBlock.IncompleteEscape` | pipe_ser_clnt/cJSON.c:192-249 | a u-escape with two digits passes it |
| `JsonParse.MeasureAt` | pipe_ser_clnt/cJSON.c:197 | the first loop counts every escape as one character |
| `JsonParse.PrintedEscapes` | pipe_ser_clnt/cJSON.c:252-307 | printed strings have complete escapes only |

## Findings

Properties that the code does not have on all inputs, each stated with the
condition under which it holds.

- `mbedtls_mpi_mod_int` is wrong, already for the number 2^64, for every divisor
  between 2^32 and 2^63 that is not a power of two (`MpiMod.HalfLoopUnsafe`):
  the half-limb loop shifts the remainder out of a limb. `MpiMod.ModInt` is
  right for the others.
- `mbedtls_mpi_gcd` returns 0 for B = 0 (`MpiGcd.GcdValueCorrect`).
- `mbedtls_mpi_exp_mod` returns N instead of 0 for an odd power of a negative
  number that N divides (`ModExp.ExpValueIsPower`, `ModExp.ExpValuePrime`,
  `ModExp.ExpValueWitness`).
- XTS in place is wrong for lengths that are not multiples of 16
  (`Xts.InPlaceByLength`, `Xts.InPlaceWitness`): the leftover octets are
  overwritten before they are read.
- CCM* without a tag sets all upper bits of the flags octet
  (`Ccm.FlagsUntagged`); both sides do, so the round trip still holds.
- A hash that derives zero, such as one of zero octets, is signed whenever a
  usable nonce is drawn, and then never accepted (`Ecdsa.WriteSignature`,
  `Ecdsa.ZeroHashSigned`, `Ecdsa.ZeroHashRefused`): the curve
  code refuses the zero scalar u1.
- J-PAKE between honest parties fails if a challenge or response is zero
  modulo the order, or if the first keys add up to it
  (`EcJpake.HonestRun`, `EcJpake.CancellingKeys`).
- Zero padding is not injective: `CipherStream.RoundTrip` holds exactly for
  data that does not end, in its last incomplete block, in a zero octet.
- A CR LF inserted between CR and LF makes accepted base64 invalid
  (`Base64.InsertLineBreak`, `Base64.LineBreakWitness`).
- A buffered print of a formatted object inside another value returns an address
  counted from its depth (`JsonPrint.PrintBuffer.PrintValue`, `JsonPrint.NestedAddress`); that of
  `cJSON_PrintBuffered` is right (`JsonPrint.PrintBuffered`).
- An ASN.1 INTEGER is written wrongly for zero with a positive sign, unless the
  octet that happens to follow is at least 0x80, for zero with a negative sign,
  and for every negative number whose magnitude is not half a power of 256 (`Der.ContentEncodes`,
  `Der.ContentWitness`). X != 0 is the condition for the writer not to look at
  an octet that it does not write; at the end of the buffer that octet is
  outside (`Der.WriteMpi`).
- A failure to draw blinding values leaves the number drawn last in Vi, and the
  next call for a secret squares it as if it belonged to Vf: with a random
  source of zeros the secret comes out as 0 (`Dhm.StaleBlinding`). Without such
  a failure every secret is right (`Dhm.RunRight`); after one it is right exactly
  if Vi^X is 1 mod P (`Dhm.SecretExact`), until the drawing succeeds or another
  key is used.
- A second `mbedtls_dhm_set_group` keeps the R^2 mod P cached for the first
  modulus, and the invariants of the context hold exactly if it fits
  (`Dhm.DhmContext.SetGroup`, `Dhm.StaleCache`).
- The characters of a malformed JSON string can exceed the block measured for
  them: exactly if the loop that writes passes the end that the measuring loop
  finds (`JsonBlock.FitsExactly`), as it does for a u-escape with two digits
  (`JsonBlock.IncompleteEscape`).
- A u-escape for the character zero, or for a surrogate without its partner, is
  dropped from a JSON string without an error, a high surrogate together with
  the u-escape behind it (`JsonUnicode.CodeReads`); all other characters are
  kept (`JsonGrammar.StringReads`).
- The mask for random bases of the primality test is an undefined shift exactly
  if the number has a leading zero limb (`MillerRabin.ShiftDefined`); the test
  keeps its promises whatever the shift leaves (`PrimalityCheck.IsPrimeExt`).

## Left out

- Allocation failure and the limit on the number of limbs, which share an error code.
- 32-bit limbs: the limb is 64 bits wide; half-limb and double-width forms of
  multiplication and division are both there.
- Assembly paths, parameter-validation macros, self-tests, hooks, mutexes,
  zeroisation and constant-time aspects.
- Restartable elliptic-curve operations and deterministic ECDSA.
- Text and file input and output of numbers, little-endian import and export,
  `safe_cond_assign`, `safe_cond_swap`, `gen_prime`, `set_bit`, `shrink`,
  `swap`.
- `dhm_read_params`, `dhm_make_params` and DHM parameter files.
- Curve arithmetic, and point encodings beyond being invertible: points are
  logarithms, `CurveGroup` gives the refusals.
- Hash functions: J-PAKE hashes the octets of its challenge with any function,
  in a buffer taken to be large enough; ECDSA takes the hash as octets.
- AES round keys at an aligned offset of the context, ECB dispatch, CFB and
  OFB; the table sets other than the generated one.
- The modes of `cipher.c` other than CBC, and its dispatch tables.
- cJSON: items as heap nodes with links both ways, which parsing builds in
  place, are a tree here, and so are reference items; numbers other than ints
  when printing; rounding of doubles; deletion, lookup, duplication and
  minifying; `ep`. Sizes are unbounded where the source has int. A cursor that
  runs past the terminating zero, which malformed escapes cause, goes on in what
  is given as the text, and stays at its end.
- MpiDiv.DivMpi: Q is not A, B or R, which the code does not support either.
- PrimalityCheck.IsPrimeExt: says nothing about composites above 997 that
  pass; no error probability is proved.
- Dhm.DhmContext.CalcSecret: the modulus is odd and above 2, as exponentiation
  needs it, and the private key is above 0.
- Ecdsa.Sign: the retry counters advance an address instead of the count
  (lines 300 and 313 of `aes_test/library/ecdsa.c`). What their tests read in
  retries is a free parameter; that they read more than ten at last is assumed,
  and what a later reset of a counter overwrites is not modelled.
- Ecdsa.WriteSignature: numbers of at most 66 octets, which covers all curves.
- Cmac.MultiplyByU: the 8-octet form has no caller here, CMAC is over 16-octet
  blocks.
- CipherStream.RoundTrip: a decryption that is given an incomplete block, or
  nothing although padding is on, is in `Conclude` and `Run` but not in this
  statement.
- EcJpake.HonestRun: a run that does not fit its buffers is told apart as
  `NoRoom`; only buffers that are `Roomy` are shown to be enough.
- JsonParse.StringFits: strings with complete escapes only; for all others see
  `JsonBlock.FitsExactly`.
