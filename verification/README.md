# BLS12-381 prime field and pairing engine, modelled in Dafny

This project models two layers of a Go BLS12-381 library.

**The prime field F_p** (`fp.go`). An element is a 384-bit integer holding the
Montgomery form `alpha * R mod p` of its value `alpha`, with `R = 2^384`.
The model covers:

- decoding from 48 big-endian bytes, from a big integer and from a string
  read by the limb type's `SetString`, each with range validation, followed
  by conversion into Montgomery form;
- export back out of Montgomery form;
- `valid`, `zero`, `one`, `isOne`, `toMont` and `fromMont`;
- left-to-right square-and-multiply exponentiation;
- the bounded Kaliski (binary extended-gcd) Montgomery inverse;
- the square root by exponentiation to `(p + 1) / 4`.

The limb type underneath is given only by what its primitives compute on
integers. Montgomery multiplication is the unique reduced `c` with
`c * R = a * b (mod p)`. The 384-bit wrap-around of the in-place
add/subtract/shift primitives is written out, and the inverse's proofs show
that they never wrap.

`inverse` itself is the function `FpInverse.Inverse` (fp.go:114-174). It is
built from `Start`, the loop body `Step`, the capped loop `Phase1`, the
correction `Corrected`, the doublings `Phase2` and the tail `Finish`. The rows
below are lemmas about these functions.

**The optimal-ate pairing engine** (`pairing.go`). The extension-tower
arithmetic and the G1/G2 group operations are uninterpreted functions carried
in an `Ops` record (module `Tower`). The model therefore states what the
engine's own code decides:

- the order in which `doublingStep`, `additionStep` and `finalExp` compose
  those operations through the shared scratch registers;
- the line table that `preCompute` writes from the bits of the curve
  parameter `x`;
- the order in which `millerLoop` reads that table back, including its
  unrolled first two entries and the shadowed inner loop variable;
- the identity-pair filter of `pair`;
- `Check`.

The value `pair` returns is the function `Pairing.PairValue` (pairing.go:211-228).
Its filter of identity pairs is `Pairing.Kept`, the Miller loop's value is
`Miller.MillerLoopValue` and the final exponentiation's value is
`FinalExp.FinalExpValue`. The methods `Pairing.Multipair` and `Pairing.Check`
run the engine's register code and are proved to compute these values.

The curve parameter of BLS12-381 is negative. The engine's variable `x`
holds its absolute value, the positive integer `0xd201000000010000`, whose
set bits are 63, 62, 60, 57, 48 and 16. `BitLen` and `Bit`
(pairing.go:114, 116, 149, 156) therefore read the ordinary binary digits of
a positive number. The sign is applied by conjugation: at the end of
`millerLoop` (pairing.go:166) and after each cyclotomic power in `exp`
(pairing.go:172). `x` is defined outside the engine; module `CurveParam`
states it and proves the facts about it that the engine relies on.

Two descriptions of the Miller loop are compared. Each is a *plan*: the list
of accumulator events (square, fold table entry `j`) that the loop performs.

- `GenericPlan` handles every bit below the top bit alike.
- `WrittenPlan` is what `millerLoop` does.

The two differ by exactly one leading squaring of `f = 1`, and only because
bit 62 of `x` is set.

Modules, in dependency order: `ModArith` (congruences and powers), `Limbs`
(the limb primitives and constants), `Bits`, `Fp`, `FpInverse`, `CurveParam`,
`Tower`, `LineSteps`, `Miller`, `FinalExp` and `Pairing`.

## Model

| member | source | states |
|---|---|---|
| Fp.FromBytes | fp.go:10-21 | any input that is not 48 bytes fails with a length error; a 48-byte value that is not below p fails as invalid; success happens exactly otherwise and yields the Montgomery form value * R mod p |
| Fp.FromBig | fp.go:23-30 | a value that is not below p is rejected; otherwise the result is its Montgomery form |
| Fp.FromString | fp.go:32-42 | a parse error is passed through unchanged; a parsed value that is not below p is rejected; otherwise the result is the Montgomery form of the parsed value |
| Fp.ToBytes | fp.go:44-48 | 48 bytes whose big-endian value is the field value, taken out of Montgomery form |
| Fp.ToBig | fp.go:50-54 | a value below p whose Montgomery form is the stored element |
| Fp.ToString | fp.go:56-60 | the rendering of a value below p whose Montgomery form is the stored element |
| Fp.FromBytesToBytes | fp.go:10-21 | every 48-byte encoding of a value below p decodes successfully and encodes back to the same bytes |
| Fp.ToBytesFromBytes | fp.go:44-48 | encoding a valid element and decoding the bytes gives the element back |
| Fp.Zero | fp.go:66-68 | zero is valid and its field value is 0 |
| Fp.One | fp.go:70-72 | one is valid and is the Montgomery form of 1 |
| Fp.IsOneMeansValueOne | fp.go:91-93 | a valid element equals one exactly when its field value is 1 |
| Fp.ToMont | fp.go:95-97 | multiplying by R^2 mod p in Montgomery arithmetic gives value * R mod p |
| Fp.FromMont | fp.go:99-101 | multiplying by 1 in Montgomery arithmetic gives the reduced c with c * R = a (mod p) |
| Fp.MontRoundTrip | fp.go:95-101 | fromMont(toMont(a)) == a for every a below p |
| Fp.MontRoundTripBack | fp.go:95-101 | toMont(fromMont(a)) == a for every a below p |
| Fp.Exp | fp.go:103-112 | if a is the Montgomery form of alpha, the result is the Montgomery form of alpha^e mod p, for every exponent e |
| ModArith.PowModIsPow | fp.go:103-112 | reducing after every multiplication, as `exp` does, gives b^e mod m, the value the contract of `Fp.Exp` names |
| Fp.ExpBit | fp.go:105-110 | one loop pass turns the Montgomery form of alpha^(e >> (i+1)) into that of alpha^(e >> i) |
| Fp.Sqrt | fp.go:176-181 | c is always the Montgomery form of a^((p+1)/4); the flag is true exactly when c squared equals the input, and then c is a square root of the input's value |
| FpInverse.Phase1Agrees | fp.go:127-154 | while every step starts with s + r <= m and 2m fits in 384 bits, the limb loop with its wrap-around and its carry into z ends exactly where the loop on plain integers ends: same found flag, same registers, no carry lost |
| FpInverse.StepHalveU | fp.go:132-134 | for any modulus m, the even-u branch keeps Kaliski's invariant: m = u*s + v*r, e*s = v*2^k and e*r + u*2^k = 0 (mod m), s and r at most 2^k, u*v*2^k <= m*e, and every common divisor of u and v divides m and e |
| FpInverse.StepHalveV | fp.go:135-137 | the even-v branch keeps the same invariant |
| FpInverse.StepSubtractV | fp.go:138-142 | the branch for odd u > v keeps the same invariant |
| FpInverse.StepSubtractU | fp.go:143-148 | the branch for odd u <= v keeps the same invariant |
| FpInverse.StartInv | fp.go:119-122 | the starting registers u = m, v = e, s = 1, r = 0, k = 0 satisfy the invariant for any modulus m and nonzero e |
| FpInverse.Phase1Finds | fp.go:127-154 | from any invariant state after i steps, the loop on plain integers ends with v = 0 and the invariant intact by step n, for every n below the cap of 768 with m*e < 2^n, since 2^k <= u*v*2^k <= m*e while v is nonzero; and s + r <= m at every step it takes |
| FpInverse.Phase1Ends | fp.go:119-154 | for p and every nonzero input, the limb loop finds v = 0 within 765 steps, so it never reaches its cap, loses no carry, and ends in an invariant state |
| FpInverse.Phase1Window | fp.go:127-160 | for every nonzero input phase 1 finds v = 0 within the cap with k <= 765; for an input coprime to p also k >= 381, so the window check passes |
| FpInverse.InverseZeroCases | fp.go:114-160 | the result is zero exactly when the input is zero, v never reaches zero, or k falls outside [381, 765] |
| FpInverse.CorrectedBelowP | fp.go:161-166 | with no carry lost and r at most 2p - 2, the corrected r is below p, so p - r does not wrap |
| FpInverse.CorrectedClass | fp.go:161-166 | once u = 1, the corrected r lies strictly between 0 and p and e*(p - r) = 2^k (mod p) |
| FpInverse.FinishNonzero | fp.go:156-173 | once phase 1 has succeeded with the corrected r below p, the result is zero exactly when k is outside the window |
| FpInverse.Phase2Class | fp.go:167-172 | doubling 768 - k times turns e*u = 2^k into e*u = 2^768 (mod p) and keeps u below p |
| FpInverse.InverseCorrect | fp.go:114-174 | for every nonzero e coprime to p the result is below p, nonzero, and its Montgomery product with e is Montgomery one |
| FpInverse.InverseValue | fp.go:114-174 | for the same inputs the field values multiply to 1 mod p |
| CurveParam.XBitLen | pairing.go:114 | x has bit length 64 |
| CurveParam.XSecondBit | pairing.go:137-147 | bit 62 of x, the one below its top bit, is set |
| CurveParam.XPopCount | pairing.go:156 | x has six set bits |
| LineSteps.DoublingStep | pairing.go:42-73 | the register code returns the tangent-line coefficients and the doubled point of the doubling formula, whatever the scratch registers held |
| LineSteps.AdditionStep | pairing.go:76-104 | the register code returns the chord-line coefficients and the sum point of the mixed-addition formula, whatever the scratch registers held |
| Miller.EntryCountBelowTop | pairing.go:113-122 | below the top bit, a positive n uses (BitLen(n) - 1) + (PopCount(n) - 1) table entries |
| Miller.XEntryCount | pairing.go:113-122 | for x that is 63 + 5 = 68 entries, which fits the 70-entry table |
| Miller.LinesFromLength | pairing.go:113-122 | the lines written for bits i .. 0 number one per bit plus one per set bit |
| Miller.PreComputeLoop | pairing.go:111-122 | the loop writes the lines one after another from entry 0, a doubling line per bit followed by an addition line when the bit is set, and leaves the entries after them untouched |
| Miller.PreCompute | pairing.go:107-123 | for the identity point nothing is written; otherwise entries 0 .. 67 hold the point's lines and entries 68 and 69 are unchanged |
| Miller.MainLoopFolds | pairing.go:148-165 | from bit i and entry j, the loop folds entries j, j+1, ... consecutively, one per bit plus one per set bit, and squares once per bit |
| Miller.PrefixIff | pairing.go:137-165 | the engine's plan is the generic plan without its leading square exactly when bit BitLen(n) - 2 is set |
| Miller.XPlans | pairing.go:137-165 | for x both plans fold entries 0 .. 67 in order, exactly the entries the precomputation writes; the engine squares 62 times, the generic plan 63 times, and the two differ by the first square only |
| Miller.PlansFit | pairing.go:130 | when bit BitLen(n) - 2 is set and the entries fit the table, every entry either plan reads lies inside the 70-entry table |
| Miller.FoldEach | pairing.go:138-142 | one fold pass multiplies f, pair by pair in order, by the pair's table entry j, with coefficient 2 scaled by the G1 y-coordinate, coefficient 1 by its x-coordinate and coefficient 0 passed unscaled |
| Miller.MainLoopStep | pairing.go:149-164 | one bit of the main loop squares, folds entry j and, only when the outer bit i is set, also folds entry j + 1 |
| Miller.MainLoopBit | pairing.go:149-164 | one pass of the loop body advances f and j exactly as the remaining plan prescribes |
| Miller.MainLoopRun | pairing.go:148-165 | the main loop leaves f equal to the plan for bits BitLen(x) - 3 .. 0 run from entry 2 |
| Miller.WrittenPrefix | pairing.go:137-148 | the two unrolled passes fold entries 0 and 1 and hand over to the loop at entry 2 |
| Miller.Accumulate | pairing.go:137-166 | starting from one, the engine's accumulation followed by one conjugation runs the engine's plan |
| Miller.AffineAll | pairing.go:126-129 | every pair is converted to affine coordinates, in place and in order |
| Miller.PreComputeAll | pairing.go:130-133 | one fresh table is precomputed for each pair's G2 point |
| Miller.MillerLoopMatchesReference | pairing.go:137-147 | whenever squaring one gives one, the unrolled engine computes the generic Miller loop |
| Miller.MillerLoop | pairing.go:125-167 | the result is the conjugated run of the engine's plan over the affine pairs and their tables; when squaring one gives one it is the generic Miller loop |
| FinalExp.Exp | pairing.go:169-173 | exp(c, a) writes the conjugated cyclotomic power a^|x|, i.e. a^x, into register c, correct even when c is a, and leaves every other register unchanged |
| FinalExp.FinalExpEasy | pairing.go:178-185 | the register code leaves the easy part f^((p^6-1)(p^2+1)) in t[2] and its conjugated cyclotomic square in t[1] |
| FinalExp.FinalExpHard | pairing.go:186-208 | the register code computes the hard-part chain of five exponentiations by x from those two registers |
| FinalExp.FinalExponentiation | pairing.go:175-209 | the register code computes the final exponentiation formula, whatever the scratch registers held |
| Pairing.FilterLive | pairing.go:215-221 | the loop collects exactly the filtered pairs, appending each live pair in turn |
| Pairing.KeptAppend | pairing.go:216-221 | filtering a concatenation filters each part |
| Pairing.KeptInOrder | pairing.go:216-221 | the filter loop keeps the pairs in the same order as a front-to-back filter of the live pairs |
| Pairing.KeptMembers | pairing.go:216-221 | a pair is kept exactly when it is in the batch and neither of its points is the identity |
| Pairing.KeptLength | pairing.go:216-221 | the filter never grows the batch |
| Pairing.KeptAllLive | pairing.go:216-221 | a batch with no identity points passes the filter whole |
| Pairing.IdentityIgnored | pairing.go:211-228 | inserting a pair with an identity point anywhere does not change the result |
| Pairing.AllIdentity | pairing.go:211-224 | an empty batch, or one whose every pair has an identity point, gives one |
| Pairing.Multipair | pairing.go:211-228 | one when no pair survives the filter; otherwise the final exponentiation of the Miller loop over exactly the surviving pairs, in order |
| Pairing.Check | pairing.go:230-232 | true exactly when the pairing product equals one |

## Left out

- `newRand` (fp.go:74-81) draws from an entropy source; randomness is outside the model.
- `equal` and `isZero` (fp.go:83-89) are integer equality on the stored value and are used directly.
- FpInverse.InverseCorrect: primality of p cannot be established in the model, so correctness and the lower end of the window are stated for inputs coprime to p. For the prime p that is every nonzero input below p.
- FpInverse.Phase1Window: k >= 381, and so a passing window check, is proved only for inputs coprime to p, because primality of p cannot be established in the model. For the prime p that is every nonzero input below p. The upper end k <= 765 is proved for every nonzero input.
- FpInverse.InverseValue: the field values are shown to multiply to 1 only for inputs coprime to p, because primality of p cannot be established in the model. For the prime p that is every nonzero input below p.
- Fp.Sqrt: only the direction "the flag is set, so c is a root" is proved. That a quadratic residue always sets the flag needs Euler's criterion, which rests on the primality of p.
- Fp.Exp: negative exponents are not modelled; the exponent is a `nat`. The only caller, `sqrt`, passes (p+1)/4.
- Fp.Sqrt: the source copies the input before exponentiating so that `c` may alias `a`. Values are immutable here, so aliasing does not arise.
- Fp.FromBig: the limb type's `SetBig` is not part of this model. It is taken to store a non-negative integer exactly, so an integer of 384 bits or more is rejected as not below p. Negative integers are not modelled.
- Fp.FromString: the limb type's `SetString` and `String` are not part of this model. They are passed in as functions.
- Error message text (fp.go:13, 17, 26, 38) is replaced by the error kinds `WrongLength`, `InvalidElement` and `Unparsable`.
- The limb-level 6 x 64-bit arithmetic is described only by what it computes on integers, not by its carries between limbs.
- The extension-tower arithmetic, Frobenius maps, cyclotomic operations, F_p^12 inversion, the multiplication by the twist's b and the G1/G2 operations `IsZero` and `Affine` are uninterpreted. `G2.Copy` is a value copy. The constant `twoInv` is fixed to the Montgomery form of 1/2 mod p (`Tower.TwoInv`).
- `fp12.equal` in `Check` is equality of F_p^12 values.
- Algebraic correctness of the pairing is not modelled: that the steps compute 2R and R + Q, bilinearity, and that the final exponentiation raises to (p^12 - 1)/r.
- The engine's scratch registers `t2` and `t12` are passed in and returned, not shared. Their unsafety under concurrent use is outside the model.
- `NewBLSPairingEngine` (pairing.go:20-39) only allocates the scratch registers and operation tables.
