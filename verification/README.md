# Verified models of the encryption, cache and lifecycle cores

This project models the parts of the inference engine whose correctness is an exact statement, and
proves those statements for all inputs, all runs or all interleavings.

- **Ring and evaluation** (`Residues`, `Primes`, `Ring`, `Rows`, `Evaluation`, `Norms`): polynomials
  modulo x^n + 1 with the naive negacyclic product as the meaning of multiplication, the
  substitution x -> x^k as an automorphism, and a ciphertext as a list of polynomials that
  decryption evaluates at the secret.
- **RNS-CKKS** (`Ckks*`): residue arithmetic in machine words, noise-free key-switch keys, tensor
  product, relinearisation, rotation, decryption with cached signed powers, the descending prime
  chain, modulus switching, rescaling as exact floor division and modulus raising by mixed-radix
  reconstruction. Multiplication, relinearisation and rotation commute with decryption exactly.
- **BFV over the Goldilocks prime** (`Goldilocks`, `Bfv`, `BfvMult`, `BfvNoise`, `BfvMatmul`,
  `BfvSlots`, `BfvSimd`): the carry-sensitive kernels, both encryptions, the tensor product modulo
  q^2 with its rescale, the noise bound that makes one multiplication exact, the plaintext matrix
  product, and slot packing at the roots of x^n + 1. The three meet in `BfvSimd`: packed, encrypted,
  multiplied, decrypted and unpacked numbers multiply slot by slot.
- **Cold-block eviction** (`L3*`): Q4 and int8 quantisation over the reals, the byte layout of a
  block, the cursor allocator, the RAM mirror, and the driver over any sequence of rounds, for
  caches of float rows, int8 rows, or both. The invariant of `L3Rounds` says that a block of the
  sequence is in RAM or has a fresh payload, and that a fresh payload is the packing of rows that the
  block still holds or holds as the payload restores them. `L3Requant` decides when packing a
  restored block reproduces its payload.
- **Load and unload protocol** (`Lifecycle`): the critical sections, unlocked reads and single
  assignments of handlers, loads and one unloader as steps of a machine, and what holds after every
  run.
- **Block pool and scheduler** (`Sets`, `BlockPool`, `Scheduler`): the free list, batch selection,
  preemption and the generation step, with every block free or owned exactly once.
- **Cryptography** (`Bytes`, `BigNum`, `BigNumMod`, `BigNumInv`, `Sm3`, `Sm4`, `Sm4Ctr`): 256-bit limb
  arithmetic with every carry and borrow, the binary extended Euclid, SM3 as an incremental hash,
  SM4 and its counter mode.

`dafny verify dfyconfig.toml` checks everything. The verifier's resource limit used throughout is
2000000. Nothing here executes the program.

## Where the code and its comments differ

The model follows the code.

- The BFV decoder's comment promises values in [-t/2, t/2); the code returns [-6144, 6144], because
  the value t/2 is moved down and then up again (`Goldilocks.CenterT`).
- `vfhe_decrypt_poly` is documented as giving coefficients modulo t that can be unpacked directly. It
  stores negative values as 32-bit patterns. `BfvNoise.StoredWord` says for every ciphertext within
  the noise bound when the stored word is the message modulo t (exactly up to 6144), and
  `BfvNoise.NegativeWord` is one for which it is not; `BfvSimd` goes through the centring that the
  program's own callers apply.
- `ckks_find_prime` is described as searching below its start; the start itself can be returned.
- The powers of the secret are cached by ring degree alone. `CkksDecrypt.CacheHitCorrect` gives the
  exact condition under which a hit is right: the cached key is the key asked for.
- The matrix product's header asks for entries below t/2; the code accepts exactly [-t, t).
- The early return for short sequences leaves before payloads are marked stale.
  `L3Skip.SkipIsHarmless` gives the exact condition under which this loses nothing, and
  `L3Skip.SkippedRunLosesRows` is a run from an empty cache after which a block is dropped whose
  payload packs other rows.
- A restore beside int8 rows keeps the payload for later rounds, although the restored rows need not
  pack to it: `L3Requant.BlockRequant` is the exact condition and `L3Requant.RequantDrifts` an input
  that fails it. What stays true of every round is the bound of `L3Int8.BackNear`.
- The writer keeps a row maximum of exactly 1e-6 as the scale, and the restore replaces it by 1. Such
  rows come back as zeros (`L3Int8.TinyVanishes`).
- The unloader nulls the load context after it has cleared the state and the flag. A load claimed in
  between can be reported ready without a part: `Lifecycle.ClaimIsSafe` is the exact condition and
  `Lifecycle.BrokenRun` the run.
- The flag that is set during an unload refuses new inference, which is said to keep every reader out.
  Five routes are not refused and read the model without a lock: the health report, the listing of
  the rule books, the status page when batching is on, a change of the residency level to 0 (its
  save of the session), and a change of level that first loads a model. `Lifecycle.FreeingIsSafe`
  says exactly which request paths a server may have, `Lifecycle.ProgramPaths` exactly which of the
  program's routes, and `Lifecycle.UnsafeRun` is the run.
- The wrapper that unloads from inside a handler subtracts "the caller's own" count. The policy
  monitor calls it too (`vllm_server.c:4288-4293`, by way of 4242 and 4265 to 4172), has no count,
  and takes that of a request (`main.c:4177-4182`). `Lifecycle.StolenRun` is the run,
  `Lifecycle.NoUseAfterFree` says that nothing else does that, and `Lifecycle.FreeingIsSafe` that
  freeing is alone only without it. The monitor also saves the session without a lock before that
  call (`Lifecycle.SavingRun`). Its residency policy is off by default.
- The thread that loads goes on working on the model after it has reported it ready, and no counter
  covers it. `Lifecycle.TailUnderFree` is a run in which an unload frees the model under it, and
  `Lifecycle.TailIsSafe` the exact condition under which none can.
- A size limit can leave fewer blocks a layer than the sequence has; the table is then indexed past
  the layer's row. `L3Disk.FlatRowsApart` is the exact condition.
- The per-token read of an evicted row copies at most eight payloads, so it shows a whole row only
  for head dimensions up to 512 (`L3Store.State.ReadRow`).

## Side conditions

- CKKS: one secret key per run for decryption, primes between 2^20 and 2^60, the strictly descending
  chain that context creation builds, and pairwise coprime primes (`CkksRns.ChainUnits` derives this
  from primality).
- BFV products: degree at most 32768 (the program uses 1024), a ternary key with at most 64
  non-zeros, two-component fresh inputs. Depth two is outside the noise budget of t = 12289.
- Eviction: at entry every block of the sequence is in RAM and fewer rows are reused than the
  sequence has; the sequence fits the capacity; a full table fits 64-bit offsets; file writes succeed;
  new int8 rows fit their scales, as the writer leaves them (`L3Int8.WriterFits`); a row never
  written has scale 0 and is all zero.
- Unloading: at most one unloader at a time. The busy test does not look at the flag, so the code
  does not enforce this between the monitor and a request for an unload. Which request paths, load
  threads and calls by the monitor an unload tolerates is proved.
- SM3: messages under 2^61 bytes.

## Model

| member | source | states |
|---|---|---|
| Ring.MulComm | src/core/vllm_ckks.c:134-147 | the negacyclic schoolbook product is commutative |
| Ring.MulAssoc | src/core/vllm_ckks.c:134-147 | the negacyclic product is associative, so powers of the secret and nested tensors are well defined |
| Ring.MulAdd | src/core/vllm_ckks.c:134-147 | the product distributes over coefficient-wise addition on both sides |
| Ring.ShiftWrap | src/core/vllm_ckks.c:140-145 | multiplying by x^n negates and by x^2n is the identity: the wrap-around the loops code with a sign |
| Ring.SigmaMul | src/core/vllm_ckks.c:461-471 | for odd k the substitution x -> x^k is multiplicative modulo x^n + 1: a ring automorphism |
| Ring.SigmaPow | src/core/vllm_ckks.c:934-1035 | the substitution commutes with powers of the secret |
| Ring.EqvMul | src/core/vllm_ckks.c:134-147 | reducing the factors modulo a prime does not change the product modulo that prime |
| Rows.NoMoreRows | src/core/vllm_ckks.c:176-198 | stopping the sparse product after the last non-zero key coefficient loses nothing |
| Evaluation.EvalTensor | src/core/vllm_ckks.c:778-806 | evaluating a tensor product of component lists at the secret gives the product of the evaluations |
| Evaluation.SigmaEval | src/core/vllm_ckks.c:934-1035 | applying x -> x^k to every component evaluates, at the rotated secret, to the rotated value |
| Norms.ApplyBounded | src/core/vllm_ckks.c:210-222 | the largest coefficient of a product is at most the 1-norm of one factor times the largest of the other |
| Norms.PrefixBounded | src/core/vllm_ckks.c:210-222 | every partial sum of the integer product loop stays under the bound of the full product |
| CkksArith.AddMod | src/core/vllm_ckks.c:26-30 | one conditional subtraction gives (a + b) mod q for reduced operands and q up to 2^63 |
| CkksArith.SubMod | src/core/vllm_ckks.c:31-33 | the unsigned a + q - b never wraps wrongly and gives (a - b) mod q |
| CkksArith.ModInv | src/core/vllm_ckks.c:47-57 | signed 64-bit extended Euclid never overflows, ends, and returns the inverse of every unit |
| CkksPoly.PolyMul | src/core/vllm_ckks.c:134-147 | the in-place double loop computes the negacyclic product modulo q |
| CkksPoly.PolyMulSparse | src/core/vllm_ckks.c:176-198 | the sparse loop, cut off after hw non-zeros, equals the full negacyclic product |
| CkksPoly.PolyMulSigned | src/core/vllm_ckks.c:245-266 | multiplying by a signed integer power equals the exact product reduced modulo q |
| CkksPoly.Galois | src/core/vllm_ckks.c:461-471 | the index map with sign equals the substitution x -> x^k reduced modulo q |
| CkksKeys.GenericKeyRow | src/core/vllm_ckks.c:376-401 | k0 + s*k1 equals the target modulo q with no noise at all |
| CkksKeys.SquareRow | src/core/vllm_ckks.c:417-436 | the key square accumulated modulo q is s*s |
| CkksKeys.RkGen | src/core/vllm_ckks.c:402-454 | digit d of the relinearisation key decrypts to 2^(20d) * s^2 at every prime |
| CkksKeys.GkGenK | src/core/vllm_ckks.c:478-518 | digit d of the rotation key decrypts to 2^(20d) * sigma_k(s); refused exactly for even k |
| CkksScheme.Digit | src/core/vllm_ckks.c:906-907 | the digit read off is below 2^20 and, weighted by 2^(20d), extends the low part of every residue from d digits to d + 1 |
| CkksScheme.LowAll | src/core/vllm_ckks.c:905-907 | three digits are enough: the low part of three digits of a residue below 2^60 is the residue |
| CkksScheme.SwitchRow | src/core/vllm_ckks.c:1013-1023 | switching a row from a target key to s adds exactly target * row to what the pair decrypts to |
| CkksScheme.Mult | src/core/vllm_ckks.c:778-810 | for every secret and prime the product decrypts to the negacyclic product of the decryptions; refused exactly on different prime counts or too many components |
| CkksKeys.Relin | src/core/vllm_ckks.c:885-918 | three components become two and decryption is unchanged at every prime; refused exactly unless there are three |
| CkksKeys.RotateK | src/core/vllm_ckks.c:934-1035 | for every odd k and 2 to 13 components, decryption commutes exactly with x -> x^k; refused otherwise |
| CkksKeys.Encrypt | src/core/vllm_ckks.c:600-631 | a fresh ciphertext decrypts to message plus one noise polynomial in [-8, 8] shared by all primes |
| CkksDecrypt.PowBounded | src/core/vllm_ckks.c:210-240 | the coefficients of s^e stay within hw^e |
| CkksDecrypt.HwPowerSmall | src/core/vllm_ckks.c:224-240 | 8^12 leaves room for another factor of 8 below 2^62, so no power overflows int64 |
| CkksDecrypt.SpowMul | src/core/vllm_ckks.c:210-222 | the int64 product loop is the exact integer product: no intermediate overflows |
| CkksDecrypt.SecretPowers | src/core/vllm_ckks.c:224-242 | the cached list holds s^1 ... s^12 exactly |
| CkksDecrypt.KeyPowers.Ensure | src/core/vllm_ckks.c:224-242 | a hit on the degree keeps the old powers, a miss rebuilds them for the new key |
| CkksDecrypt.KeyPowers.Decrypt | src/core/vllm_ckks.c:633-653 | the result is the value of the components at the key the cache holds, reduced per prime |
| CkksDecrypt.CacheHitCorrect | src/core/vllm_ckks.c:224-226 | a cache hit decrypts every ciphertext correctly if and only if the cached key is the key asked for |
| CkksRns.FindPrime | src/core/vllm_ckks.c:119-126 | returns the largest candidate on the grid not above the start, or zero when there is none; the start itself is allowed |
| CkksRns.CtxInit | src/core/vllm_ckks.c:323-352 | the chain is strictly descending and holds exactly the largest candidates; it succeeds if and only if a chain of that many candidates exists |
| CkksRns.ChainUnits | src/core/vllm_ckks.c:323-352 | distinct primes of the chain are units modulo each other |
| CkksRns.ModSwitch | src/core/vllm_ckks.c:740-754 | drops the last prime and keeps every other residue |
| CkksRns.RescaleExact | src/core/vllm_ckks.c:831-854 | for the integer X behind the residues the computed residue is floor(X / q_last) mod q_p |
| CkksRns.Rescale | src/core/vllm_ckks.c:831-854 | every output residue is floor(X / q_last) mod q_p, and q_last times the new value is the old one minus its last residues; refused exactly on fewer than two primes |
| CkksRaise.CrtUnique | src/core/vllm_ckks.c:683-735 | two integers below the product of the primes with the same residues are equal |
| CkksRaise.GarnerDigits | src/core/vllm_ckks.c:702-719 | the mixed-radix digits stay below their primes and recompose an integer with the given residues |
| CkksRaise.NewResidue | src/core/vllm_ckks.c:720-729 | Horner in the mixed radix modulo a new prime equals the recomposed integer modulo that prime |
| CkksRaise.ModRaise | src/core/vllm_ckks.c:683-735 | each new residue is X mod q_new for the unique X in [0, q_0...q_(k-1)); dropping the new primes recovers the input; refused exactly outside the chain |
| CkksRaise.RaiseThenSwitch | src/core/vllm_ckks.c:740-754 | switching a raised ciphertext down again, one prime at a time, returns the ciphertext |
| Goldilocks.FoldStep | src/core/vllm_fhe.c:47-54 | one fold keeps the value modulo q through carry and borrow and strictly decreases (high, low) |
| Goldilocks.MulQ | src/core/vllm_fhe.c:38-58 | the fold loop ends with a*b mod q for all 64-bit operands |
| Goldilocks.AddQ | src/core/vllm_fhe.c:62-71 | double wrap-around included, the sum of any two 64-bit words is reduced exactly |
| Goldilocks.SubQ | src/core/vllm_fhe.c:73-75 | the wrapped difference is (a - b) mod q |
| Goldilocks.AddQ2 | src/core/vllm_fhe.c:525-531 | the 128-bit sum modulo q^2 survives wrap-around |
| Goldilocks.SubQ2 | src/core/vllm_fhe.c:538-541 | the doubly wrapped 128-bit difference is (a - b) mod q^2 |
| Goldilocks.RescaleKernel | src/core/vllm_fhe.c:586-595 | no intermediate of the rescale leaves 128 bits and the total is floor((t*x + floor(q/2)) / q) |
| Goldilocks.RescaleQ2 | src/core/vllm_fhe.c:586-595 | the rescale kernel returns that quotient modulo q |
| Goldilocks.RoundKernel | src/core/vllm_fhe.c:434-453 | the folded division of the decoder is floor((t*|v| + floor(q/2)) / q) |
| Goldilocks.NearestUnique | src/core/vllm_fhe.c:434-459 | q is odd, so the nearest multiple of q within floor(q/2) is unique |
| Goldilocks.DecryptRound | src/core/vllm_fhe.c:434-459 | the decoded value is congruent to round(t*v/q) and lies in [-6144, 6144] |
| Goldilocks.DecodeExact | src/core/vllm_fhe.c:434-459 | a coefficient delta*m + e decodes to m modulo t as soon as |t*e - rho*m| <= floor(q/2) |
| Goldilocks.ResidueStored | src/core/vllm_fhe.c:728-732 | centring a stored coefficient and lifting it gives its residue modulo t |
| Goldilocks.DecodedSign | src/core/vllm_fhe.c:434-459 | the decoder returns the residue up to 6144 and the residue less t above it; 6144 exactly for the residue 6144 |
| Goldilocks.StoredIsResidue | src/core/vllm_fhe.c:475-483 | the 32-bit word stored for a coefficient is the residue itself if and only if the residue is at most 6144 |
| Bfv.PolyMulSparse | src/core/vllm_fhe.c:204-226 | the sparse product with a ternary key equals the naive negacyclic product |
| Bfv.PolyMul | src/core/vllm_fhe.c:145-164 | the double loop computes the negacyclic product modulo q |
| Bfv.SkGen | src/core/vllm_fhe.c:231-252 | the key is ternary with at most 64 non-zeros, and fewer only when no place is left |
| Bfv.PublicKeyOf | src/core/vllm_fhe.c:254-277 | b = -(a*s + e) with noise in [-8, 8] |
| Bfv.EncryptSym | src/core/vllm_fhe.c:294-320 | a fresh symmetric ciphertext evaluates to delta*m + e with |e| <= 8; refused exactly for m >= t |
| Bfv.EncryptSymPoly | src/core/vllm_fhe.c:845-868 | the same for a whole plaintext polynomial reduced modulo t |
| Bfv.EncryptPub | src/core/vllm_fhe.c:323-358 | a public-key ciphertext evaluates to delta*m + e with |e| <= 1032 |
| Bfv.SecretPowers | src/core/vllm_fhe.c:361-390 | s, s^2, s^3, s^4 modulo q |
| Bfv.DecryptV | src/core/vllm_fhe.c:393-431 | decryption evaluates the component list at the secret modulo q |
| Bfv.DecryptPoly | src/core/vllm_fhe.c:475-483 | every coefficient is the rounded evaluation, stored in 32 bits; refused exactly below two components |
| Bfv.Decrypt | src/core/vllm_fhe.c:462-473 | the scalar decryption is coefficient 0 of the same |
| Bfv.AddCt | src/core/vllm_fhe.c:488-499 | for every secret the sum decrypts to the sum, the shorter operand padded; refused exactly below two components |
| Bfv.MulScalar | src/core/vllm_fhe.c:633-642 | for every secret the scaled ciphertext evaluates to m times the input; refused exactly for m >= t or below two components |
| BfvMult.ConvCoef | src/core/vllm_fhe.c:562-579 | the gather loop of one coefficient equals the negacyclic product modulo q^2 |
| BfvMult.ConvQ2 | src/core/vllm_fhe.c:562-579 | the whole convolution equals the negacyclic product modulo q^2 |
| BfvMult.Mult | src/core/vllm_fhe.c:598-628 | every output component is the rounded scaled tensor component; refused exactly below two or above five components |
| BfvMult.RoundedIs | src/core/vllm_fhe.c:586-628 | q times a rescaled polynomial is t times the polynomial modulo q^2, off by at most q/2 |
| BfvNoise.ScaledProduct | src/core/vllm_fhe.c:544-628 | t times the product of two uncentred values is q times the cross terms plus a small rest, modulo q^2 |
| BfvNoise.ProductCarries | src/core/vllm_fhe.c:598-628 | a product of two fresh ciphertexts carries the product of the messages with a noise below an explicit bound |
| BfvNoise.CarriesDecodes | src/core/vllm_fhe.c:434-483 | decoding is exact while t*|e| + rho*|m| stays under q/2 |
| BfvNoise.StoredWord | src/core/vllm_fhe.c:475-483 | for every ciphertext within the noise bound the word stored at i is m[i] mod t if and only if that is at most 6144 |
| BfvNoise.NegativeWord | src/core/vllm_fhe.c:475-483 | a noise-free ciphertext of 6145 decrypts to the word 2^32 - 6144 |
| BfvNoise.FreshDecrypts | src/core/vllm_fhe.c:294-358 | decryption undoes both encryptions for every key, message and noise in range |
| BfvNoise.ProductDecrypts | src/core/vllm_fhe.c:598-628 | for degree up to 32768 the product of any two fresh ciphertexts decrypts to the negacyclic product of the messages modulo t |
| BfvNoise.ScalarProductDecrypts | src/core/vllm_fhe.c:598-628 | for scalar messages a and b the product decrypts to a*b mod t |
| BfvMatmul.WeightOk | src/core/vllm_fhe.c:654-664 | an entry is accepted if and only if it lies in [-t, t), and then stands for itself modulo t |
| BfvMatmul.MatmulPlain | src/core/vllm_fhe.c:647-681 | every output decrypts, under every secret, to the sum of the inputs weighted by its column; refused exactly on empty shapes, a short input or an entry that does not fit |
| BfvMatmul.FlatAt | src/core/vllm_fhe.c:647-661 | the matrix is stored row by row: entry (i, j) of the rows laid one after the other is entry j of row i |
| BfvMatmul.ColumnsFit | src/core/vllm_fhe.c:654-664 | every column fits if and only if every entry of the matrix does |
| BfvMatmul.WeightedBounded | src/core/vllm_fhe.c:647-681 | the accumulated noise grows by at most t times the noise of one input per entry |
| BfvMatmul.MatmulDecrypts | src/core/vllm_fhe.c:647-681 | for up to 7,600,000 inputs every output over fresh encryptions decrypts to the integer matrix-vector product modulo t |
| BfvMatmul.MatrixDecrypts | src/core/vllm_fhe.c:643-681 | for the outputs over fresh encryptions and a matrix given as rows: output j decrypts to the sum over the rows of entry j times the message of the input of the row, modulo t |
| BfvSlots.PowMod | src/core/vllm_fhe.c:755-764 | square and multiply computes b^e mod m |
| BfvSlots.SlotRoots | src/core/vllm_fhe.c:766-797 | for every degree whose double divides t - 1 the search ends with the n odd powers of the first point, in order, which are distinct roots of x^n + 1 with unit differences; refused exactly otherwise |
| BfvSlots.Order | src/core/vllm_fhe.c:772-787 | the number the search finds has full order t - 1 |
| BfvSlots.Telescope | src/core/vllm_fhe.c:734-741 | (p - x) times the interpolation polynomial at x is p^n - x^n |
| BfvSlots.Encode | src/core/vllm_fhe.c:799-817 | the encoded polynomial takes slot j as its value at point j |
| BfvSlots.Decode | src/core/vllm_fhe.c:819-842 | Horner in 64-bit words evaluates at every point without overflow |
| BfvSlots.AtMul | src/core/vllm_fhe.c:734-741 | evaluation at a root of x^n + 1 turns the negacyclic product into a product |
| BfvSlots.PackedArithmetic | src/core/vllm_fhe.c:734-842 | sums and negacyclic products of packed polynomials act slot by slot |
| BfvSlots.RoundTrips | src/core/vllm_fhe.c:799-842 | decoding what was encoded returns the slots modulo t, and encoding what was decoded returns the very polynomial |
| BfvSlots.DeterminedBySlots | src/core/vllm_fhe.c:799-842 | a reduced polynomial is determined by its values at the points |
| BfvSlots.RootsArePoints | src/core/vllm_fhe.c:788-795 | for every prime t and every zeta with zeta^n = -1 the odd powers of zeta are n points with unit differences if and only if no even power below the 2n-th is 1 |
| BfvSlots.PowerOfTwoDegree | src/core/vllm_fhe.c:788-795 | for a degree that is a power of two they always are, whatever the prime above 2 |
| BfvSimd.SlotwiseProduct | src/core/vllm_fhe.c:598-868 | packing, encrypting, multiplying once, decrypting and unpacking multiplies slot by slot |
| BfvSimd.SlotwiseSum | src/core/vllm_fhe.c:488-868 | the same for one addition |
| L3Quant.Pack32 | src/core/vllm_l3.c:110-126 | the loops find the largest magnitude and pack 32 values with the scale it gives |
| L3Quant.Q4Pack64 | src/core/vllm_l3.c:128-133 | a payload is scale, nibbles, scale, nibbles |
| L3Quant.PackError | src/core/vllm_l3.c:102-151 | unpacking errs by at most half a step, and by at most a fourteenth of any bound on the values |
| L3Quant.PackStable | src/core/vllm_l3.c:110-151 | packing what was unpacked reproduces the payload byte for byte |
| L3Quant.Store64 | src/core/vllm_l3.c:157-166 | int8 values are clamped before they are scaled back |
| L3Int8.WriterFits | src/model/vllm_safetensors.c:8432-8461 | what the writer stores fits its scale: no value exceeds it, no int8 saturates, and each errs by half a step |
| L3Int8.TinyVanishes | src/core/vllm_l3.c:1016-1022 | a row whose largest magnitude is exactly 1e-6 keeps that scale, is restored with the scale 1, and comes back as zeros |
| L3Quant.Q8Error | src/core/vllm_l3.c:157-166 | a value within the row maximum never saturates int8 and errs by half its step |
| L3Quant.RestoreError | src/core/vllm_l3.c:973-1048 | evicting a row and restoring it to int8 errs by at most maxk*(1/14 + 1/254) |
| L3Int8.BackNear | src/core/vllm_l3.c:973-1048 | a block packed and restored beside int8 rows differs by at most maxk*(1/14 + 1/254) in every value and fits its scales again, the tiny scale 1e-6 included |
| L3Requant.SurvivesIs | src/core/vllm_l3.c:102-165 | a nibble rounded to a grid of j int8 steps and back is itself exactly if j is at least 7 or the nibble is not one the coarser grid merges |
| L3Requant.HalfRequant | src/core/vllm_l3.c:102-165 | a half payload rounded to int8 packs to the same scale and nibbles if and only if its largest magnitude is a whole number of int8 steps and every nibble survives that grid, or it is zero |
| L3Requant.PayloadRequant | src/core/vllm_l3.c:1035-1041 | the exact condition, on the bytes and the scale, for a payload that is restored and packed again |
| L3Requant.BlockRequant | src/core/vllm_l3.c:973-1048 | packing a restored block again reproduces its payload if and only if every payload of it meets the condition |
| L3Requant.RequantDrifts | src/core/vllm_l3.c:1035-1041 | 32 values 1 beside a value 10: restored they are 130/127 and their payload is another one |
| L3Layout.OffsetIs | src/core/vllm_l3.c:641-652 | the computed address of payload (area, head, token, group) is 40 times its index |
| L3Layout.Tiling | src/core/vllm_l3.c:607-652 | payload addresses tile the block: every byte belongs to exactly one payload |
| L3Layout.PackedAt | src/core/vllm_l3.c:641-652 | at its address a packed block holds the packing of exactly that row group |
| L3Layout.RowCellsAt | src/core/vllm_l3.c:918-933 | the bytes a row pointer shows are the packings of the groups of that row, one after another |
| L3Layout.RepackUnpacked | src/core/vllm_l3.c:973-1034 | restoring a block to float rows alone and packing it again reproduces its payload |
| L3Copy.PackBlock | src/core/vllm_l3.c:641-655 | the nested loops fill the buffer with the packed block, from float rows or from int8 rows times their step |
| L3Copy.SourceRow | src/core/vllm_l3.c:785-804 | one row group as a packing reads it: the float row, or the int8 row times scale/127 |
| L3Copy.FillHead | src/core/vllm_l3.c:1009-1041 | the loops over tokens and groups land every payload of a head as float rows, int8 rows, or both |
| L3Disk.SlotsDisjoint | src/core/vllm_l3.c:618-626 | different blocks on disk own disjoint bytes |
| L3Disk.StoredOk | src/core/vllm_l3.c:600-676 | writing a block keeps the allocator consistent, in place or at the cursor |
| L3Disk.StoredPayload | src/core/vllm_l3.c:600-676 | the written block holds the new bytes and every other block keeps its own |
| L3Disk.CursorBounded | src/core/vllm_l3.c:618-626 | the cursor never passes the capacity of the table |
| L3Disk.FlatRowsApart | src/core/vllm_l3.c:618 | entries layer*max_blocks+b of different layers are different entries of the table if and only if the sequence has at most max_blocks blocks |
| L3Pick.SortRanks | src/core/vllm_l3.c:682-706 | the blocks are ordered by importance, ties by index |
| L3Pick.PickBlocks | src/core/vllm_l3.c:688-709 | a block stays exactly when its rank is within the keep count or it is the last; the count is the whole part of (1 - ratio)*n within [1, n], and that many blocks stay, or one more when the last is beyond it |
| L3Pick.StayCount | src/core/vllm_l3.c:703-708 | every choice by rank and recency keeps exactly the count of blocks, and the last one besides when its rank is beyond it |
| L3Pick.MassSplit | src/core/vllm_l3.c:692-699 | the importance of a block is the sum over its positions, however the range is split |
| L3Pick.HotterStays | src/core/vllm_l3.c:678-709 | whatever stays by rank is heavier than whatever goes, or as heavy and earlier |
| L3Evict.DecidedSpec | src/core/vllm_l3.c:724-734 | a repacked block keeps its slot, a good payload is not rewritten, other blocks are untouched |
| L3Evict.LayerRunSpec | src/core/vllm_l3.c:711-737 | after a layer every evicted block has a good payload and every other block is as it was |
| L3Evict.QuietLayer | src/core/vllm_l3.c:711-737 | a layer that packs nothing changes no slot and no byte |
| L3Store.State.Init | src/core/vllm_l3.c:411-462 | opening fails exactly on a bad path, geometry or file; the file then is its header; a mirror handed back is kept but nothing in it is readable |
| L3Store.HeaderReads | src/core/vllm_l3.c:391-406 | the header written at opening reads back, least significant byte first, as magic, version, geometry and block size |
| L3Store.State.Rewind | src/core/vllm_l3.c:479-492 | the state closes and the mirror buffer goes to the caller |
| L3Store.State.EvictBlock | src/core/vllm_l3.c:600-676 | succeeds exactly for a resident block with a slot or room, and then stores the packing of its rows, float or int8 |
| L3Store.State.EvictLayer | src/core/vllm_l3.c:711-737 | takes the decision of every block of the layer, over float or int8 rows, and counts the packed ones |
| L3Store.State.LoadToMem | src/core/vllm_l3.c:536-598 | afterwards the readable mirror repeats the file and covers every block on disk, in a reused or a new buffer |
| L3Store.State.PayloadAt | src/core/vllm_l3.c:918-933 | the pointer shows exactly the packed row; there is none exactly without a payload, without a mirror, or when the mirror ends before the row |
| L3Store.State.FetchBlockArea | src/core/vllm_l3.c:935-969 | the bulk fetch returns exactly one head of the block, from mirror or file; it fails exactly without a payload or when a mirror ends before it |
| L3Store.State.ReadRow | src/core/vllm_l3.c:865-890 | the per-token read returns the first eight payloads of the row; it fails exactly without a payload or when a mirror ends before them |
| L3Store.State.FillBlock | src/core/vllm_l3.c:973-1048 | a restored block is its payload unpacked to float rows, rounded to int8 with the stored scales, or both with the float rows read back from the int8 ones; refused exactly without a payload, a destination or scales, or when a mirror ends before the block |
| L3Store.State.MarkStale | src/main.c:1165-1174 | exactly the payloads of blocks from the first rewritten one on become stale |
| L3Rounds.GoodMeans | src/core/vllm_l3.c:973-1048 | what a good payload says of the current rows: their packing without int8 rows; with them within maxk*(1/14 + 1/254) of the packed rows, and their packing exactly under the stated condition |
| L3Rounds.Inference.PayloadTells | src/main.c:1160-1252 | in every reachable state a fresh payload is the packing of the rows recorded for it, and tells the current rows as above |
| L3Rounds.RoundKeeps | src/main.c:1160-1252 | after a round every fresh payload is good again and a flagged block has one |
| L3Rounds.FreedReach | src/main.c:1253-1289 | the freeing loop drops no block without a fresh payload and never the last block |
| L3Rounds.Inference.EvictAfterPrefill | src/main.c:1036-1306 | a block leaves RAM exactly if its layer chose so, and each layer keeps the count of the ratio or one more; its payload is the carried one or the packing of its rows; the invariant holds after every round, and after a skipped one if no rewritten block had a fresh payload |
| L3Rounds.CapacityIs | src/main.c:1082-1088 | the capacity is the largest whose file stays within the size limit, at least one and at most the full table |
| L3Rounds.Inference.RestorePrefix | src/model/vllm_safetensors.c:17534-17640 | every missing block of a prefix returns to RAM as its payload restores; resident blocks and blocks beyond the prefix keep their rows |
| L3Rounds.Inference.Prefill | src/serve/vllm_server.c:470-517 | a prefill that reuses keep rows replaces the blocks from keep on and nothing else, and leaves the payloads wholly below them good |
| L3Rounds.Inference.AppendTarget | src/model/vllm_safetensors.c:16490-16514 | a block that decode appends to is in RAM |
| L3Rounds.Inference.Append | src/model/vllm_safetensors.c:16490-16514 | appending a position writes one block in RAM and keeps the invariant |
| L3Rounds.Inference.ServeRow | src/core/vllm_l3.c:918-933 | an evicted block serves exactly the packing of the rows recorded for it; without int8 rows that is the packing of its current rows |
| L3Skip.SkipIsHarmless | src/main.c:1136-1174 | for every carried-on state and every rewriting of the blocks from keep/bs to n, skipping leaves every fresh payload good if and only if none of those blocks had one |
| L3Skip.SkippedRunLosesRows | src/main.c:1136-1174 | from an empty cache by real calls: a skipped round, and the next one drops a block whose payload packs other rows |
| Lifecycle.NoUseAfterFree | src/main.c:4096-4170 | in every interleaving, while parts are freed the inference lock is held by the unloader and every handler that may still touch the model is between the test and the read of a path that neither the flag refuses nor the lock covers; if the wrapper has subtracted a handler that is not its caller, at most one more handler may touch it, and only a call of the wrapper by the policy monitor leads there |
| Lifecycle.FreeingIsSafe | src/serve/vllm_server.c:3964-3990 | for every set of request paths and every monitor policy: nobody touches the model while parts are freed, in any interleaving, if and only if the monitor neither saves nor calls the subtracting wrapper and every path of the set that reads the model is refused under the flag or reads under the inference lock |
| Lifecycle.ProgramPaths | src/serve/vllm_server.c:4160-4206 | for every set of the routes of the program: freeing is alone in every interleaving if and only if the monitor neither saves nor calls the wrapper and the set contains none of the health report (src/serve/vllm_server.c:3845-3849), the rule-book listing (src/serve/vllm_rulebook.c:118-147), the status page with batching on (src/serve/vllm_admin.c:513-516), the change to level 0 (4170-4171) and a change of level that first loads a model (4188-4197) |
| Lifecycle.UnsafeRun | src/serve/vllm_rulebook.c:118-147 | for each unsafe path a run in which a request comes in after the last test, sees what it tests, and is about to read it when the unloader is about to free it; behind the configuration pointer the weights are already gone |
| Lifecycle.ReadsNull | src/main.c:4141-4156 | one step later what the request has tested is gone |
| Lifecycle.StolenRun | src/serve/vllm_server.c:4286-4293 | a run in which the monitor calls the wrapper, the wrapper takes the count of an inference request that has passed the flag, and every part is freed under that request |
| Lifecycle.SavingRun | src/serve/vllm_server.c:4086-4093 | a run in which the monitor has tested the inference state and is saving it when an unload is about to free it |
| Lifecycle.OneLoad | src/main.c:4019-4072 | in every interleaving the state says loading if and only if a load has not reported yet, and then exactly one has not; what its thread does after the report is not covered |
| Lifecycle.FailedLoad | src/main.c:4019-4024 | after a load fails no other is under way, and the next claim starts a new one |
| Lifecycle.NothingLeft | src/main.c:4138-4163 | in every interleaving a state that says no model has no part left to serve and no batch scheduler, and none in the load context once the unload has nulled it |
| Lifecycle.ReturnsZero | src/main.c:4096-4170 | over every run without another call an unload returns 0 if and only if it reported the model gone |
| Lifecycle.Refusals | src/main.c:4096-4104 | an unload is refused with -2 if and only if a load is under way at its first look, with -1 if and only if no model is ready at the second, and at the busy test with -3 if and only if a handler other than its caller is inside, unless a count of somebody else was taken |
| Lifecycle.MonitorUnloads | src/serve/vllm_server.c:4286-4293 | a run in which the monitor saves, calls the wrapper with nobody inside, and takes the whole model out |
| Lifecycle.TailIsSafe | src/main.c:4043-4051 | at the last test of an unload: until another unload is asked for, no load thread works on the model while parts are freed if and only if none is in its tail at that test |
| Lifecycle.JoinedRun | src/main.c:4119-4132 | over whole runs: if every last test that passes finds the load threads done, none ever works on freed parts |
| Lifecycle.TailUnderFree | src/main.c:4043-4051 | a run in which an unload right after the report frees every part under the load thread that reported |
| Lifecycle.ReadyIsWhole | src/main.c:4003-4051 | in every interleaving a model reported ready has all its parts unless it is being freed or its load was claimed before the last assignment of an unload |
| Lifecycle.LockedClaims | src/main.c:4058-4072 | loads claimed only while the unloader does not hold the inference lock always end in a whole model |
| Lifecycle.ClaimIsSafe | src/main.c:4153-4164 | a claimed load ends whole in every interleaving if and only if the unloader has nothing left to null in the load context |
| Lifecycle.BrokenRun | src/main.c:4153-4164 | otherwise there is a run that reports a model ready without a part |
| Lifecycle.WindowReached | src/main.c:4153-4164 | such a state is reached from the start, with the unload flag already cleared |
| Lifecycle.Waits | src/main.c:4108-4127 | an unload that finds somebody in flight at every look goes on looking 200 times before its last test |
| Lifecycle.NoneJoins | src/serve/vllm_server.c:92-106 | while the flag is set, and at a full queue, no request joins the active ones and nobody newly touches the model past the flag |
| Lifecycle.BusyIsRunning | src/serve/vllm_server.c:92-124 | in every interleaving without batching the server is busy exactly while a request runs |
| Lifecycle.ServedAlone | src/serve/vllm_server.c:92-124 | a request served alone runs under the lock and leaves counters, lock and flags as they were |
| Lifecycle.ServedInBatch | src/serve/vllm_server.c:138-165 | and so does a request served in a batch |
| Lifecycle.CountRestored | src/main.c:4177-4189 | once no unload is under way the counter is exactly the number of handlers inside |
| Lifecycle.SelfUnloadPasses | src/main.c:4177-4189 | the wrapper that subtracts its caller passes the busy test exactly when nobody else is inside; when it has subtracted another handler it passes exactly when at most one is inside and that one is in no gate |
| Lifecycle.QuietMeansAlone | src/serve/vllm_server.c:3964-3990 | counting in and testing the flag under one lock leaves no user behind once the counters are zero, and at most one handler if the wrapper has subtracted one that is not its caller |
| Lifecycle.RunKeeps | src/main.c:4058-4189 | every step of every thread, the policy monitor among them, keeps the counters, the lock and the flag consistent |
| BlockPool.Pool.constructor | src/core/vllm_attention.c:100-111 | all 256 blocks start free, each once on the list |
| BlockPool.Pool.Alloc | src/core/vllm_attention.c:113-119 | pops a free block; fails exactly when none is left |
| BlockPool.Pool.Release | src/core/vllm_attention.c:121-129 | frees a used block once; a bad or free id is ignored |
| Scheduler.SortByPriority | src/core/vllm_scheduler.c:67-78 | the exchange sort orders exactly the waiting requests by priority |
| Scheduler.Engine.SelectBatch | src/core/vllm_scheduler.c:45-103 | admits by rank within the open places, the first half surely, and rebuilds the mask |
| Scheduler.TopHalfAdmitted | src/core/vllm_scheduler.c:80-102 | a waiting request that fewer than half the open places outrank or tie with is admitted whatever the generator yields |
| Scheduler.CoinsDecide | src/core/vllm_scheduler.c:80-102 | beyond the first half of the open places a rank is admitted exactly as the generator falls |
| Scheduler.Engine.AdaptiveRoute | src/core/vllm_scheduler.c:113-163 | preempts the weakest running request when more than nine tenths of the places are taken, or admits more when less than half are and the requests are nearly done, never both |
| Scheduler.UtilizationIs | src/core/vllm_scheduler.c:123-124 | the two tests of the utilisation are 10*running > 9*places and 2*running < places |
| Scheduler.NearlyDone | src/core/vllm_scheduler.c:126-138 | over requests of one length the progress test says that more than four fifths of their tokens are there |
| Scheduler.ProgressBetween | src/core/vllm_scheduler.c:126-138 | for any lengths the progress lies between the least and the most done of the active requests |
| Scheduler.Engine.Advance | src/core/vllm_scheduler.c:257-274 | one token, one position, and one block at every eighth position |
| Scheduler.Engine.Generate | src/core/vllm_scheduler.c:212-278 | one selection from the old requests, one routing of what it picked, and one token for exactly the running requests the mask names |
| Scheduler.RunLasting | src/core/vllm_scheduler.c:212-278 | over every run of steps and arrivals, whatever the generator yields: finished and preempted requests never change, running ones never wait again, positions grow within the length, written tokens stay |
| Scheduler.RunSound | src/core/vllm_scheduler.c:212-278 | over every run from no requests each request has a token at exactly the positions it has passed, at most one block and one more for every eight of them, and is finished only at its length |
| Scheduler.TopHalfLeavesQueue | src/core/vllm_scheduler.c:45-163 | a waiting request of the top half is no longer waiting after the step, even when it is preempted in it |
| Scheduler.RunningStandStill | src/core/vllm_scheduler.c:45-104 | a request that already ran gets no token in a step that still finds somebody waiting, because the mask is rebuilt from the newly admitted |
| Scheduler.NoBlockLost | src/core/vllm_scheduler.c:257-274 | in every reachable state each block is free or in exactly one table |
| Scheduler.Engine.Submit | src/main.c:268-283 | a new request waits with the given length and priority, at position 0 without tokens, and with one block that was free, if and only if the pool had one; the others and the mask are as they were |
| BigNum.AddMod | src/common/vllm_crypto.c:326-341 | (a + b) mod m through the carry chain and one subtraction, with any aliasing of the operands |
| BigNum.SubMod | src/common/vllm_crypto.c:344-367 | (a - b) mod m through the borrow chain |
| BigNum.Cmp | src/common/vllm_crypto.c:317-322 | the comparison of limbs is the comparison of values |
| BigNum.MulRow | src/common/vllm_crypto.c:372-380 | one row adds a limb times b at its place; the column fits 64 bits |
| BigNum.Mul | src/common/vllm_crypto.c:370-381 | the 512-bit product is exact |
| BigNumMod.BitIs | src/common/vllm_crypto.c:390 | the bit test reads the right bit of the value |
| BigNumMod.Mod | src/common/vllm_crypto.c:384-402 | bitwise long division gives the remainder for every modulus above zero |
| BigNumMod.ModMulInto | src/common/vllm_crypto.c:404-408 | a*b mod m, exactly |
| BigNumMod.AddShr1 | src/common/vllm_crypto.c:417-428 | halving x + m keeps the carry |
| BigNumInv.HalfStands | src/common/vllm_crypto.c:438-445 | halving both sides modulo an odd number keeps the congruence |
| BigNumInv.EuclidHalved | src/common/vllm_crypto.c:437-464 | after halving the two numbers are odd and different |
| BigNumInv.ModInvInto | src/common/vllm_crypto.c:430-468 | for every odd m above 1 and coprime a the loop ends with x < m and a*x = 1 mod m; the result may overwrite a or m |
| Sm3.Context.Update | src/common/vllm_crypto.c:90-109 | absorbs any bytes, whole blocks straight from the input when the buffer is empty |
| Sm3.Context.Final | src/common/vllm_crypto.c:111-124 | for messages under 2^61 bytes the digest is the iterated compression over the padded message, section 5.2 of GB/T 32905-2016 |
| Sm3.PaddedIs | src/common/vllm_crypto.c:111-121 | the padded message is the message, 0x80, zeros and the length in bits read most significant byte first, and the shortest whole number of blocks with room for them |
| Sm3.OutputReads | src/common/vllm_crypto.c:122-123 | read four bytes at a time, most significant first, the digest is the state words in order |
| Bytes.Reads | src/common/vllm_crypto.c:118-121 | a number written in so many bytes, most significant first, reads back modulo 256 to that many |
| Sm3.HashParts | src/common/vllm_crypto.c:84-131 | every way of cutting a message into updates gives the same digest |
| Sm3.HmacContext.constructor | src/common/vllm_crypto.c:133-149 | a long key is hashed, a short one padded, and the inner pad absorbed |
| Sm3.Pads | src/common/vllm_crypto.c:133-149 | each pad gives the key back, and the two differ in every byte |
| Sm3.HmacContext.Final | src/common/vllm_crypto.c:155-163 | the result is the keyed hash of section 2 of RFC 2104 |
| Sm3.DeriveKey | src/common/vllm_crypto.c:174-192 | every byte comes from the hash of the secret and its block counter |
| Sm3.KdfPrefix | src/common/vllm_crypto.c:174-192 | a shorter derived key is a prefix of a longer one |
| Sm4.ExpandKey | src/common/vllm_crypto.c:244-254 | the loop computes the key schedule |
| Sm4.ScheduleBack | src/common/vllm_crypto.c:244-254 | any four neighbouring words of the schedule, walked backwards, give the key back |
| Sm4.CkEnds | src/common/vllm_crypto.c:220-226 | the first and the last constant are those of section 7.3 of GB/T 32907-2016 |
| Sm4.ExpandKeyDec | src/common/vllm_crypto.c:259-264 | the decryption keys are the same keys reversed |
| Sm4.CryptWords | src/common/vllm_crypto.c:266-274 | the rounds and the final reversal |
| Sm4.TauBytes | src/common/vllm_crypto.c:228-233 | the S-box is applied to each byte in its place |
| Sm4.PlainBox | src/common/vllm_crypto.c:235-242 | with an S-box that changes nothing a round spreads one bit to five places and a round key spreads it to three |
| Sm4.DecryptEncrypt | src/common/vllm_crypto.c:244-274 | decryption undoes encryption for every key, block and S-box, section 7.2 of GB/T 32907-2016 |
| Sm4.DecryptBytes | src/common/vllm_crypto.c:266-274 | the same on bytes, through the big-endian words |
| Sm4Ctr.IncInPlace | src/common/vllm_crypto.c:282 | the byte ripple is the increment of the whole counter |
| Sm4Ctr.IncNumber | src/common/vllm_crypto.c:282 | incrementing adds one modulo 2^128 |
| Sm4Ctr.CtrCrypt | src/common/vllm_crypto.c:276-289 | every byte is masked by the key stream and the counter advances by the whole blocks, section 6.5 of NIST SP 800-38A |
| Sm4Ctr.KeyStream | src/common/vllm_crypto.c:276-289 | block k of what masks a message is the cipher at the counter advanced k times |
| Sm4Ctr.CtrTwice | src/common/vllm_crypto.c:276-289 | applying the mode twice from the same counter is the identity |
| Sm4Ctr.CtrSplit | src/common/vllm_crypto.c:276-289 | splitting at whole blocks equals one call with the counter advanced |

## Left out

- The number-theoretic transform: products are the naive negacyclic product that both schemes name as the reference; the transform's file is not part of this model.
- Primality testing and random numbers: a candidate test is a parameter of `CkksRns.FindPrime`, and every random draw is an arbitrary value in its range.
- Floating-point encodings of the CKKS scheme, polynomial fits, bootstrapping fits, softmax and attention scores: no exact claim to prove.
- CKKS addition, plaintext multiplication and key generation: they would only repeat the row operations already modelled.
- Flat residue arrays `c[(comp*nprimes+p)*n+i]` are nested sequences in the CKKS model, and the eviction table is one row per layer; of its flat index `layer*max_blocks+b`, `L3Disk.FlatRowsApart` is all that is modelled.
- Ciphertexts and polynomials are values built in local buffers; an output aliasing an input is not represented for them. Limb arrays of the big numbers are modelled in place, aliasing included.
- Memory allocation failure, null pointers, profiling, page advice and real file operations: the file is a byte sequence and writes succeed.
- L3Quant.PackError: scales are real numbers, so rounding of 32-bit floats is not modelled; a byte of a stored scale is the scale and its position.
- L3Store.State.FillBlock: a newly mapped block starts as zeros, as anonymous pages do; the dense cache of four-bit rows and its attention kernels are not modelled.
- L3Rounds.Inference.RestorePrefix: allocation failures and unreadable payloads are left out, and with them the result -1; a block that lacks only one of its two kinds of rows does not arise.
- L3Rounds.Inference.Prefill: the new rows are arbitrary; the attention that computes them is not modelled.
- L3Pick.SortRanks: the library sort is an insertion sort by the same comparator, which is a total order and so fixes the result.
- Lifecycle.NoUseAfterFree: of the session reset only the batch scheduler is modelled, of an inference request its gates and places and not what it computes; error texts and statistics are left out; an ungated reader is one test of a pointer and one read through it, repeated at will.
- Lifecycle.RunKeeps: two unloaders at once are not modelled.
- Lifecycle.ClaimIsSafe: the model has a vision state; for one without, the last null of the window loses nothing.
- Scheduler.Engine.Generate: emitted tokens are arbitrary, and the running mask is the set of its bits; it is not claimed to equal the running set.
- BfvSlots.SlotRoots: the search itself is modelled for the constant 12289 that the rest of the scheme fixes; which roots give points is proved for every prime modulus.
- Sm3.Context.Final: the compression function is a parameter, so its rounds are not modelled.
- Sm4.DecryptEncrypt: the S-box is a parameter, so its 256 entries are not listed.
- Elliptic-curve groups, SM2 signatures and encryption, NEON variants, transport, command line, web pages and benchmarks.
