# Verification model of SAFRN

SAFRN answers statistical queries by multi-party computation. This project models the algebra on
secret shares and the protocols that drive a regression query, and proves what they are for. Each
module follows one component of the program; loops that work in place stay loops over arrays or
fields, and every method is proved against a property or a specification function.

- `RowReduction`, `LinearSystems`: Gauss-Jordan elimination modulo a prime.
- `Lagrange`, `Polynomials`: the prefix-or polynomial on wrapping 32-bit arithmetic.
- `Mod2ToModp`, `Sharing`: XOR shares of bits into additive shares of the integer.
- `RandomTable`, `LookupProtocol`: the oblivious table lookup.
- `Payload`, `PayloadCompute`: triangular packing of cross products and the Gram matrix of a pair.
- `GramSums`: the payloads of all pairs added up, shares of the Gram sums of the joined data.
- `WeightedProducts`: the two batches of multiplications that the error terms are made of.
- `CrossVertical`, `Join`: cross-vertical sharing and the join of the two asynchronous streams.
- `ErrorTerms`: residuals and R squared from shares.
- `Budget`, `DealerSequence`: the randomness a run needs, and the dealer that hands it out.
- `Wire`, `Framing`: the incremental reader of a connection.
- `Terms`: the splitter of expressions that respects groupings.
- `PeerSets`, `PeerMessages`: peer groups in canonical form, and in messages.
- `FixedPoint`: reals as field elements and back.
- `Modular`, `Powers`, `Words`, `Sequences`: congruences, gcd, inverses, powers of two, word sizes and
  resizing, used by the others.

How the program is represented:

- A `LargeNum` or `BIGNUM` is an unbounded number with an explicit modulus. Where the source uses a
  machine word the wrap-around, truncation or signed remainder is written out, and the bounds under
  which nothing wraps are preconditions (`Mod2ToModp.WithinWords`, s <= 65536 in `Lagrange`,
  s < 2^31 in `Lagrange.Invert`, 2 * tableSize <= m in `LookupProtocol.Run`).
- Every random draw is an argument, so each theorem holds for all randomness.
- Fortissimo's Compare, TypeCastFromBit, Multiply, Divide, SISOSort, ZipAdjacent, ZipReduce, Reveal and
  MatrixMult, and ModConvUp, are ideal: what they return is a premise, and how much randomness they take
  is a number. A row of ZipReduce's output is a matched pair (`GramSums.MatchedRow`) or shares of zeros
  (`GramSums.UnmatchedRow`).
- Orders of messages and completions are arbitrary choices from the set of those outstanding. In
  `LookupProtocol.Interleave` handler completions and messages of all parties are drawn from one set.
- `RowReduction.RowReduce` takes reduced entries, a prime modulus and n >= 1: for n = 0 the bound n - 1
  of the first loop wraps, and without a prime the inverse may not exist.
- `LookupProtocol.Run` delivers a share to the revealer only after its own sendIndexShare: until then
  numPartiesAwaiting is zero and handleReceive would take the sender for the revealer. It needs two
  data owners; a revealer alone waits for a message nobody sends. A comparison may answer either way at
  zero, and both answers are covered.
- `FixedPoint` reads `static_cast<uint64_t>` of a LargeNum as truncation to 64 bits, and asks that the
  rounded integer part of a number to encode fits one.
- `Budget` asks for at least one row in each table and lists that are not empty, since size() - 1 wraps
  otherwise.
- An organisation id is a number in `PeerSets`: the byte arrays have one length and compare as numbers do.

Where the code differs from what one would expect:

- The comment at core/server/src/main/cpp/dataowner/Regression.cpp:1216 announces n - num_IVs - 1; the
  code computes n - num_IVs, and so does `ErrorTerms.AllErrorTerms`.
- kNumGroupingSymbols is five with four pairs listed, so NUL is a grouping symbol
  (`Terms.NulOpensGroup`).
- PeerSet::remove can leave an empty last row, after which operator== tells the set from another with
  the same members; a copy repairs it (`PeerSets.EqualIffNoTrailingGap`).
- The patron and the join stop for ever when a data owner has no cross party (`DealerSequence.RunPatron`,
  `Join.NoCrossParties`).
- The revealed index of a lookup can equal the table size, in one case (`LookupProtocol.RevealedIndex`).
- With 64 bits the top bit of the value does not fit int64_t, and its share is wrong unless p divides
  2^64 (`Mod2ToModp.TopBitLost`).
- A payload of 2^32 bytes or more is framed with a truncated length (`Framing.OnlyThoseThatFit`).

## Model

| member | source | states |
|---|---|---|
| RowReduction.RowReduce | core/server/src/main/cpp/dataowner/RowReduction.cpp:17-83 | for a prime modulus and n >= 1 the matrix ends as the identity if and only if every leading block of the input is nonsingular modulo p, and then x solves the input system exactly when x is congruent to the final right-hand side |
| RowReduction.ForwardPhase | core/server/src/main/cpp/dataowner/RowReduction.cpp:27-48 | phase one keeps the kernel of every leading block and leaves column c clear below the diagonal whenever its pivot was not zero when tested |
| RowReduction.BackwardPhase | core/server/src/main/cpp/dataowner/RowReduction.cpp:49-74 | the back-solve changes no diagonal entry, and if all pivots are nonzero it clears everything above the diagonal without losing a solution |
| RowReduction.DividePhase | core/server/src/main/cpp/dataowner/RowReduction.cpp:75-82 | dividing pivot and right-hand side gives unit pivots and keeps the solutions; a zero pivot stays zero |
| RowReduction.ClearRow | core/server/src/main/cpp/dataowner/RowReduction.cpp:33-45 | one inner row update on the flat arrays adds the negated ratio times the pivot row, from the given column to the right-hand side |
| RowReduction.AddMultipleOfRow | core/server/src/main/cpp/dataowner/RowReduction.cpp:36-45 | the loop over k on the two arrays is a row operation on the augmented matrix and touches no other row |
| RowReduction.ForwardDone | core/server/src/main/cpp/dataowner/RowReduction.cpp:27-48 | after phase one the pivots are all nonzero exactly when every leading block of the input is nonsingular |
| RowReduction.Outcome | core/server/src/main/cpp/dataowner/RowReduction.cpp:17-83 | the three phases together decide the final identity and the solution |
| LinearSystems.RowStepKeepsKernel | core/server/src/main/cpp/dataowner/RowReduction.cpp:37-44 | adding a multiple of one row to another keeps the kernel of every leading block it does not enter from outside |
| LinearSystems.RatioClears | core/server/src/main/cpp/dataowner/RowReduction.cpp:33-44 | the ratio p - M[j][i] / M[i][i] makes the entry below or above the pivot zero |
| LinearSystems.ZeroPivotIsSingular | core/server/src/main/cpp/dataowner/RowReduction.cpp:30 | the first pivot found zero shows a leading block of the input is singular |
| LinearSystems.PivotsAreRegularity | core/server/src/main/cpp/dataowner/RowReduction.cpp:27-48 | with columns cleared below nonzero pivots: all leading blocks nonsingular if and only if all pivots are nonzero |
| Lagrange.LagrangeCoeffsForPrefixOr | core/server/src/main/cpp/dataowner/lagrange.cpp:28-46 | for a prime s with ell + 1 < s <= 65536 the result is a polynomial of degree at most ell, coefficients below s, with value 0 at 1 and 1 at 2, ..., ell + 1 modulo s |
| Lagrange.NoWrap | core/server/src/main/cpp/dataowner/lagrange.cpp:58 | for s <= 65536 no product plus sum of residues leaves 32 bits |
| Lagrange.BoundIsSharp | core/server/src/main/cpp/dataowner/lagrange.cpp:58 | for s = 65537 the product of two residues does wrap, with a wrong residue |
| Lagrange.ProductOneToEllPlusOne | core/server/src/main/cpp/dataowner/lagrange.cpp:48-64 | the in-place update ends with the coefficients of (x - 1)...(x - (ell + 1)) modulo s, on wrapping arithmetic |
| Lagrange.DivideByDegreeOne | core/server/src/main/cpp/dataowner/lagrange.cpp:69-80 | synthetic division of a multiple of x - a by x - a is exact |
| Lagrange.QuotientTimesDivisor | core/server/src/main/cpp/dataowner/lagrange.cpp:66-80 | the quotient times x - a gives back the dividend modulo s |
| Lagrange.MultiplyByScalar | core/server/src/main/cpp/dataowner/lagrange.cpp:93-102 | every coefficient is multiplied modulo s, in place |
| Lagrange.Add | core/server/src/main/cpp/dataowner/lagrange.cpp:82-91 | coefficientwise sum modulo s, in place |
| Lagrange.MultiplyDifferentXValues | core/server/src/main/cpp/dataowner/lagrange.cpp:104-115 | the product of a - i over all other points, modulo s |
| Lagrange.Invert | core/server/src/main/cpp/dataowner/lagrange.cpp:122-141 | for every 32-bit a and 0 < s < 2^31 the result t is below s and a * t is congruent to gcd(s, a) |
| Lagrange.CoprimeInverse | core/server/src/main/cpp/dataowner/lagrange.cpp:117-141 | so t is an inverse of a exactly when a and s are coprime |
| Lagrange.BezoutStep | core/server/src/main/cpp/dataowner/lagrange.cpp:129-137 | one round keeps the unsigned t words congruent modulo 2^32 to signed Bezout coefficients bounded by s |
| Lagrange.InterpolationStep | core/server/src/main/cpp/dataowner/lagrange.cpp:36-45 | adding one scaled quotient puts one more value in place and moves no other |
| Polynomials.RestoreFactor | core/server/src/main/cpp/dataowner/lagrange.cpp:37-38 | the product without root i, times x - i, is the whole product |
| Polynomials.RootProductVanishes | core/server/src/main/cpp/dataowner/lagrange.cpp:48-64 | the product without one root vanishes at all other points |
| Polynomials.RootProductAtSkip | core/server/src/main/cpp/dataowner/lagrange.cpp:104-115 | and at the root left out its value is the product of the differences |
| Mod2ToModp.Convert | core/examples/src/main/cpp/Mod2ToModpExamples.cpp:243-259 | sharing x bitwise, dealing correlated randomness and converting gives numbers that sum modulo p to the integer x spells, for every width up to 63, party count and randomness for which no 64-bit operation overflows |
| Mod2ToModp.CalculateModPForm | core/examples/src/main/cpp/Mod2ToModpExamples.cpp:198-241 | given the dealer's invariant the outputs are below p and sum modulo p to the value of the exclusive or of the mod-2 shares; mismatched sizes are refused |
| Mod2ToModp.GenerateModPCorrelatedRandomness | core/examples/src/main/cpp/Mod2ToModpExamples.cpp:161-196 | the zs share the mask bits and column j of the ys shares the pair for mask bit j; every party but the first holds its draws, reduced modulo p; fewer than two parties are refused |
| Mod2ToModp.GenerateMod2Shares | core/examples/src/main/cpp/Mod2ToModpExamples.cpp:69-96 | the shares have exclusive or x, and all but the first are the random draws |
| Mod2ToModp.GenerateFirstPartyPair | core/examples/src/main/cpp/Mod2ToModpExamples.cpp:142-159 | the first party's pair completes the sums of the others to the pair wanted, modulo p |
| Mod2ToModp.CalculateModPValueFromSumPlusX | core/examples/src/main/cpp/Mod2ToModpExamples.cpp:133-140 | the residue of p - sum + x through a signed remainder of either sign, the words read as int64_t, whenever that arithmetic does not overflow |
| Mod2ToModp.TopBitLost | core/examples/src/main/cpp/Mod2ToModpExamples.cpp:133-140 | for the bit of weight 2^63, which int64_t reads as -2^63, the result is right if and only if p divides 2^64 |
| Mod2ToModp.SelectedBit | core/examples/src/main/cpp/Mod2ToModpExamples.cpp:213-232 | the revealed masked bit selects shares of 2^j exactly when the hidden bit is one |
| Mod2ToModp.SelectColumn | core/examples/src/main/cpp/Mod2ToModpExamples.cpp:213-232 | one round of the main loop extends the shared value by one bit |
| RandomTable.Generate | core/server/src/main/cpp/dealer/RandomTableLookup.cpp:116-164 | the parties' r add up to the offset modulo r_modulus and their u vectors exclusive-or to its unit vector, and every party but the first holds its draws, cut down to bits |
| LookupProtocol.Run | core/server/src/main/cpp/dataowner/Lookup.cpp:34-174 | for every table, location, offset, sharing, party count from two and order of events all parties end with the same revealed value and the exclusive or of their outputs is row x of the table |
| LookupProtocol.Lookup.HandleComplete | core/server/src/main/cpp/dataowner/Lookup.cpp:90-124 | the two-state handler: the comparison starts the type cast, the type cast sends the index share |
| LookupProtocol.Lookup.SendIndexShare | core/server/src/main/cpp/dataowner/Lookup.cpp:134-156 | the revealer keeps its share and waits for all others, the others send theirs |
| LookupProtocol.Lookup.HandleReceive | core/server/src/main/cpp/dataowner/Lookup.cpp:50-88 | the revealer adds up, broadcasts once and finishes with the last share; the others finish with the value received |
| LookupProtocol.Lookup.ComputeFinalShare | core/server/src/main/cpp/dataowner/Lookup.cpp:158-173 | byte j becomes the exclusive or of byte j of the rows the own bit vector selects |
| LookupProtocol.PickedRow | core/server/src/main/cpp/dataowner/Lookup.cpp:158-173 | over all parties the rows selected cancel but for row (v + r) mod table_size |
| LookupProtocol.RevealedIndex | core/server/src/main/cpp/dataowner/Lookup.cpp:115-119 | v = x - r + table_size * b is between 0 and table_size, hits row x, and equals table_size only for x = r and b = 1 |
| LookupProtocol.RevealedTotal | core/server/src/main/cpp/dataowner/Lookup.cpp:37-45 | the index shares of all parties sum modulo r_modulus to that value |
| LookupProtocol.ShareArrives | core/server/src/main/cpp/dataowner/Lookup.cpp:62-87 | a share that arrives keeps what the revealer has added up equal to the shares so far, and the last one makes it broadcast the reconstructed value |
| LookupProtocol.Interleave | core/server/src/main/cpp/dataowner/Lookup.cpp:50-156 | in any interleaving of the parties' completions, the shares and the broadcasts every party finishes with the value, and no event is left |
| Payload.ComputeDV | core/server/src/main/cpp/dataowner/Regression.cpp:95-130 | a record of the dependent side holds the variables, y, the upper triangle of products, x_i * y, y * y, y and 1, zeros up to payloadLength: the resize drops nothing |
| Payload.ComputeNonDV | core/server/src/main/cpp/dataowner/Regression.cpp:131-144 | a record of the other side holds the variables and the upper triangle of products, zeros after |
| Payload.PushCrossProducts | core/server/src/main/cpp/dataowner/Regression.cpp:99-107 | the doubly nested push loop puts the product of columns a <= b at its triangular position |
| Payload.BeforeClosed | core/server/src/main/cpp/dataowner/RegressionPayloadCompute.cpp:107-117 | the closed index formula counts the rows of the triangle before row i |
| Payload.PayloadLengthTight | core/server/src/main/cpp/dataowner/RegressionInfo.cpp:14-20 | payloadLength holds the record of either side, and one of the two fills it |
| PayloadCompute.RegressionPayloadCompute.Init | core/server/src/main/cpp/dataowner/RegressionPayloadCompute.cpp:27-54 | one multiplication per pair of a variable of the first side and a variable or y of the second, each to its own slot |
| PayloadCompute.RegressionPayloadCompute.HandleComplete | core/server/src/main/cpp/dataowner/RegressionPayloadCompute.cpp:64-100 | the output is filled row-major, then the vector, then the three tail terms, every index in range |
| PayloadCompute.GramMatrix | core/server/src/main/cpp/dataowner/RegressionPayloadCompute.cpp:64-119 | over all parties entry (i, j) of the output shares w_i * w_j for every i and j of both sides |
| PayloadCompute.GramVector | core/server/src/main/cpp/dataowner/RegressionPayloadCompute.cpp:77-97 | the entries behind the matrix share w_i * y, y * y, y and 1 |
| CrossVertical.PadList | core/server/src/main/cpp/dataowner/Regression.cpp:150-165 | the list is filled to maxListSize with records of random keys and zero payload, the given records kept in front |
| CrossVertical.ShareList | core/server/src/main/cpp/dataowner/Regression.cpp:185-241 | own shares in the half the side owns, masks to send away |
| CrossVertical.Regression.SetupCrossVerticalShares | core/server/src/main/cpp/dataowner/Regression.cpp:183-249 | the same for every cross party |
| CrossVertical.Regression.HandleReceive | core/server/src/main/cpp/dataowner/Regression.cpp:348-428 | the records of the sender go to the other half of its list only, and the control state makes the step of the join |
| CrossVertical.Regression.HandleComplete | core/server/src/main/cpp/dataowner/Regression.cpp:430-509 | each branch makes exactly the step of the control machine, with the same launch |
| CrossVertical.PairReconstructs | core/server/src/main/cpp/dataowner/Regression.cpp:205-239 | adding the lists of the two parties of a pair entrywise, keys modulo keyModulus, payloads modulo startModulus, bytes by exclusive or, gives the dependent party's padded list followed by the other's, for all masks |
| CrossVertical.ShareAndReceive | core/server/src/main/cpp/dataowner/Regression.cpp:183-428 | after the messages of all cross parties, in any order, every list is complete and the sorts were launched once, with the last message |
| CrossVertical.ReadRecord | core/server/src/main/cpp/dataowner/Regression.cpp:362-382 | a record read back from a message is the record written (290-309) |
| CrossVertical.RecordLayout | core/server/src/main/cpp/dataowner/Regression.cpp:294-309 | a record is sent as its keys, its payload and its bytes, in that order |
| Join.EveryInterleaving | core/server/src/main/cpp/dataowner/Regression.cpp:430-640 | in every interleaving of n >= 1 messages, n sorts and the patron the counter stays nonnegative, and each stage is launched once, exactly when what it waits for is through: the sorts with the last share, ZipAdjacent with the last sort and the randomness, ZipReduce with the last ZipAdjacent, the conversion with the last ZipReduce |
| Join.LaunchedByEvents | core/server/src/main/cpp/dataowner/Regression.cpp:391-640 | the same counted on the events of the run: ZipReduce has been launched if and only if n ZipAdjacents have completed, the conversion if and only if n ZipReduces have, and no stage completes before the stages ahead of it are through |
| Join.RunBalance | core/server/src/main/cpp/dataowner/Regression.cpp:470-585 | every launch puts n children under way, and every completion takes one away |
| Join.EveryRunCompletes | core/server/src/main/cpp/dataowner/Regression.cpp:391-640 | every run has at most 4n + 1 events, can always be continued until then, and ends in one and the same state |
| Join.CounterPositive | core/server/src/main/cpp/dataowner/Regression.cpp:391-461 | a handler that decrements the shared counter finds it positive |
| Join.NoCrossParties | core/server/src/main/cpp/dataowner/Regression.cpp:391-392 | without cross parties no stage is ever launched |
| ErrorTerms.FormIsSquaredError | core/server/src/main/cpp/dataowner/Regression.cpp:1196-1214 | the upper-triangle form with doubled off-diagonal terms is the sum over observations of the squared residual |
| ErrorTerms.SquareOfSum | core/server/src/main/cpp/dataowner/Regression.cpp:1200-1210 | visiting the upper triangle and doubling off the diagonal gives the square of the sum |
| ErrorTerms.ErrorForm | core/server/src/main/cpp/dataowner/Regression.cpp:1199-1214 | the loop over shares computes the form modulo endModulus although subtraction is written as a complement |
| ErrorTerms.ScaledForm | core/server/src/main/cpp/dataowner/Regression.cpp:1232-1254 | the same for the loop with modAdd |
| ErrorTerms.ErrorTerms.Compute | core/server/src/main/cpp/dataowner/Regression.cpp:1199-1273 | all five results of one party as functions of its shares |
| ErrorTerms.ReconstructedError | core/server/src/main/cpp/dataowner/Regression.cpp:1199-1254 | shares that hold the Gram data sum to the factor times the squared error |
| ErrorTerms.AllErrorTerms | core/server/src/main/cpp/dataowner/Regression.cpp:1196-1273 | over all parties numer_MSE is the squared error, denom_MSE is n - num_IVs, denom_RSquared n times the sum of y squared less the square of the sum of y (without an intercept the first alone), numer_RSquared that minus n times the squared error, denom_F_statistic n times the squared error times num_IVs, modulo endModulus |
| ErrorTerms.VariationIsDeviations | core/server/src/main/cpp/dataowner/Regression.cpp:1256-1264 | with an intercept n times denom_RSquared is the sum over the observations of the square of n * y minus the sum of y |
| GramSums.PayloadSums.HandleComplete | core/server/src/main/cpp/dataowner/Regression.cpp:585-603 | the doubly nested loop adds column j of all rows to entry j modulo startModulus |
| GramSums.AddEveryPair | core/server/src/main/cpp/dataowner/Regression.cpp:585-603 | in any order of the completions at both parties of all pairs, the totals of all parties share every Gram sum of everything joined |
| GramSums.MatchedRow | core/server/src/main/cpp/dataowner/RegressionPayloadCompute.cpp:64-119 | the output of a matched pair shares the Gram entries of the one observation its two records make |
| GramSums.PairShares | core/server/src/main/cpp/dataowner/Regression.cpp:591-600 | the rows of both parties of a pair add up to the Gram sums over what the pair joined |
| GramSums.GramAppend | core/server/src/main/cpp/dataowner/Regression.cpp:591-600 | every Gram sum over two parts of the data is the sum of those of the parts |
| GramSums.ConvertGram | core/server/src/main/cpp/dataowner/Regression.cpp:618-640 | after the change of modulus the parties share the Gram sums modulo startModulus, and the sums themselves where they are below it |
| WeightedProducts.Arrange | core/server/src/main/cpp/dataowner/Regression.cpp:658-709 | the converted vector becomes the matrix with x * y as its last column, and the shares of y squared, y and the count |
| WeightedProducts.FirstBatch | core/server/src/main/cpp/dataowner/Regression.cpp:1009-1096 | exactly the products beta_i beta_j and x_i x_j n for i <= j, x_i y beta_i, y squared by n, and the sum of y by itself, each with the party's shares of its factors |
| WeightedProducts.SecondBatch | core/server/src/main/cpp/dataowner/Regression.cpp:1105-1167 | exactly the products of beta_i beta_j with x_i x_j n and with x_i x_j, and of x_i y beta_i with n |
| WeightedProducts.InputsHeld | core/server/src/main/cpp/dataowner/Regression.cpp:1009-1167 | after both batches the parties share, with and without n, the Gram sums weighted by the coefficients, and the square of the sum of y |
| WeightedProducts.ErrorTermsOfGram | core/server/src/main/cpp/dataowner/Regression.cpp:605-1273 | so totals that share the Gram sums of the data lead to shares of its error terms |
| Budget.Conservation | core/server/src/main/cpp/dataowner/RegressionPatron.cpp:41-76 | for every dispenser and all sizes, what the constructor asks for is what all states draw plus the surplus: two comparisons and two casts, nothing else |
| Budget.ClosedTotals | core/server/src/main/cpp/dataowner/RegressionPatron.cpp:41-76 | for d = d1 + d2 the draws are 2d^2 + 11d + 5 final triples, 3d + 3 divisions, 2d + 1 end-modulus comparisons, f + t - 2 comparisons, 2d + f + t - 1 casts, one conversion per entry of a payload, one matrix, 1 lookup in one table and d in the other |
| Budget.ProductTotals | core/server/src/main/cpp/dataowner/RegressionPatron.cpp:45-57 | d^3 + d^2 matrix triples, one per row, column and inner index; per cross party one per row of the zipped list and pair of columns; one ZipAdjacent |
| Budget.ProductCounts | core/server/src/main/cpp/dataowner/RegressionPatron.cpp:45-57 | those numbers count sets of index triples |
| Budget.BatchTriples | core/server/src/main/cpp/dataowner/Regression.cpp:1009-1184 | the two batches of `WeightedProducts` ask for exactly the triples their states draw, the second for d more |
| Budget.EveryBitIsCast | core/server/src/main/cpp/dataowner/Regression.cpp:820-1612 | the bits of the comparisons a state starts are cast in the next state, and no others |
| Budget.RegressionRun.GetPayloadTriples | core/server/src/main/cpp/dataowner/RegressionPayloadCompute.cpp:27-54 | running the payload computation for every row draws as many triples as it makes requests, together the number dealt |
| Budget.Run | core/server/src/main/cpp/dataowner/Regression.cpp:458-1730 | in a whole run every get finds its dispenser nonempty and exactly the surplus is left |
| Budget.RegressionRun.HandleComplete | core/server/src/main/cpp/dataowner/Regression.cpp:458-1730 | each state, awaitingMatrixMultiply included, which draws nothing, keeps the dispensers stocked for exactly what is still to come |
| Budget.RegressionRun.GetPairs | core/server/src/main/cpp/dataowner/Regression.cpp:1019-1035 | the loop over i <= j draws d (d + 1) / 2 triples |
| DealerSequence.SequencesMatch | core/server/src/main/cpp/dealer/RegressionHouse.cpp:85-213 | on every peer set a data owner belongs to, the dealer's invocations and the owner's patron's are the same kinds in the same order |
| DealerSequence.EachDispenserOnce | core/server/src/main/cpp/dataowner/RegressionPatron.cpp:84-391 | a data owner's sequence serves each dispenser that exists with exactly one invocation, of the protocol that deals its kind and with its peers, and holds no other invocation |
| DealerSequence.RegressionRandomnessBasement.Init | core/server/src/main/cpp/dealer/RegressionHouse.cpp:85-213 | numDealersRemaining is the number of children started: ten and two per pair of owners of different verticals |
| DealerSequence.RunBasement | core/server/src/main/cpp/dealer/RegressionHouse.cpp:220-227 | in every order of completions the basement completes once, with the last child |
| DealerSequence.RegressionRandomnessPatron.HandleWhole | core/server/src/main/cpp/dataowner/RegressionPatron.cpp:122-391 | one step of the state machine after a protocol of the whole group: its result is filed and the next one started |
| DealerSequence.RegressionRandomnessPatron.HandleConditionalEvaluate | core/server/src/main/cpp/dataowner/RegressionPatron.cpp:176-222 | the next pairwise round starts with the last cross party, all dispensers filed |
| DealerSequence.RegressionRandomnessPatron.HandleFactory | core/server/src/main/cpp/dataowner/RegressionPatron.cpp:223-254 | and the whole group continues with the last cross party |
| DealerSequence.RunPatron | core/server/src/main/cpp/dataowner/RegressionPatron.cpp:84-391 | in every order of completions the patron gets through if and only if there is a cross party, and then its sequence is complete and every dispenser is filled, by its own protocol run with its own peers, and no other |
| DealerSequence.FilePair | core/server/src/main/cpp/dataowner/RegressionPatron.cpp:176-240 | what comes from a cross party is filed under its number, and moves no other dispenser |
| DealerSequence.CrossListIs | core/server/src/main/cpp/dataowner/RegressionPatron.cpp:84-95 | the owners of other verticals are numbered, each once |
| DealerSequence.SeenAllPairs | core/server/src/main/cpp/dealer/RegressionHouse.cpp:107-151 | the double loop serves each pair of owners of different verticals exactly once |
| Framing.Transfer | core/server/src/main/cpp/network/EventHandler.cpp:100-179 | however the frames are cut into arrivals the messages delivered are exactly those sent if and only if every payload is shorter than 2^32 bytes, and then nothing is left over |
| Framing.AfterArrival | core/server/src/main/cpp/network/EventHandler.cpp:36-179 | after each arrival whole messages have been delivered in order and buffer plus cached header hold a proper part of the next frame |
| Framing.EventHandler.ReadEntireHeader | core/server/src/main/cpp/network/EventHandler.cpp:36-75 | a header is taken out of the buffer once and completely, and nothing is lost |
| Framing.EventHandler.ReadEventHandler | core/server/src/main/cpp/network/EventHandler.cpp:100-179 | one callback delivers every complete message and keeps the rest |
| Framing.ParseAppend | core/server/src/main/cpp/network/EventHandler.cpp:174-178 | parsing in two goes, keeping the unfinished bytes, is parsing at once |
| Framing.OnlyThoseThatFit | core/server/src/main/cpp/framework/QueryHandler.cpp:162 | a payload of 2^32 bytes or more cannot arrive whole: its length is truncated |
| Framing.FrameLayout | core/server/src/main/cpp/framework/QueryHandler.cpp:156-166 | the fifteen bytes in front of a payload: control, sender role, id, receiver role, length |
| Framing.QueryHandler.SendOutgoingMessages | core/server/src/main/cpp/framework/QueryHandler.cpp:144-171 | each connected peer's output grows by the frames of its messages in order, messages to itself are handed over directly, others are dropped |
| Wire.WriteInteger | core/shared/src/main/cpp/EventWrapper/EvBufferWrapper.h:112-125 | most significant byte first |
| Wire.FourBytes | core/shared/src/main/cpp/EventWrapper/EvBufferWrapper.h:112-125 | four bytes spelled out |
| Wire.ReadInteger | core/shared/src/main/cpp/EventWrapper/EvBufferWrapper.h:148-162 | the bytes, shifted and or-ed, most significant first |
| Wire.OrByte | core/shared/src/main/cpp/EventWrapper/EvBufferWrapper.h:160 | or-ing a byte below the bytes before it is adding it: no bit is set in both |
| Wire.ReadsBack | core/shared/src/main/cpp/EventWrapper/EvBufferWrapper.h:112-162 | reading what was written gives the value truncated to the width |
| Terms.GetTerms | core/shared/src/main/cpp/Util/data_structures.cpp:160-185 | terms and separators joined give the input back; without early abort no separator is loose in a term; it fails exactly when a separator stands in a group that is never closed; the suffix shrinks in every step that continues |
| Terms.SplitStep | core/shared/src/main/cpp/Util/data_structures.cpp:69-158 | one step jumps over a whole group, splits at the first loose separator, or finishes |
| Terms.GetClosingSymbol | core/shared/src/main/cpp/Util/data_structures.cpp:5036-5064 | the closing position is the first at which a left-to-right scanner is outside again, and failure means it never is |
| Terms.OneSplitting | core/shared/src/main/cpp/Util/data_structures.cpp:65-158 | a text has only one splitting with no loose separator, so the terms are determined |
| Terms.GetAdditiveTerms | core/shared/src/main/cpp/Util/data_structures.cpp:5331-5346 | a leading minus goes to the first term; otherwise the terms are cut out of the input and end exactly at every + and - outside the groups, a + behind a term of index 0 and a - behind one of index 1; it fails exactly when an operator stands in a group that is never closed |
| Terms.GetMultiplicativeTerms | core/shared/src/main/cpp/Util/data_structures.cpp:5348-5357 | the same at every * (index 0) and / (index 1) |
| Terms.TidyIsSplit | core/shared/src/main/cpp/Util/data_structures.cpp:65-158 | a splitting with no loose separator ends its terms at exactly the separators outside the groups |
| Terms.FourKinds | core/shared/src/main/cpp/Util/data_structures.cpp:36-63 | a text between parentheses, braces, brackets or bars is one group |
| Terms.NulOpensGroup | core/shared/src/main/cpp/Util/data_structures.cpp:39-63 | the fifth of the five grouping pairs is zero, so a NUL character opens a group |
| PeerSets.CanonicalForm | core/shared/src/main/cpp/PeerSet.cpp:149-183 | for sorted sets without an empty last row, operator== holds if and only if the members are the same |
| PeerSets.AddInAnyOrder | core/shared/src/main/cpp/PeerSet.cpp:61-95 | sets built from two lists compare equal if and only if the lists have the same members, in whatever order |
| PeerSets.PeerSet.Add | core/shared/src/main/cpp/PeerSet.cpp:61-95 | one member more; sorted stays sorted, canonical stays canonical |
| PeerSets.PeerSet.Remove | core/shared/src/main/cpp/PeerSet.cpp:97-122 | one member less; stays canonical exactly when it does not empty the last row; an analyst leaves the set as it was |
| PeerSets.PeerSet.Size | core/shared/src/main/cpp/PeerSet.cpp:124-135 | the number of members with multiplicity |
| PeerSets.PeerSet.EnforceSort | core/shared/src/main/cpp/PeerSet.cpp:137-147 | with at least one data owner the set becomes canonical with the same members |
| PeerSets.PeerSet.Equals | core/shared/src/main/cpp/PeerSet.cpp:149-183 | the loops decide equality of dealer, recipients and every row |
| PeerSets.EqualIffNoTrailingGap | core/shared/src/main/cpp/PeerSet.cpp:97-183 | a sorted set compares equal to the canonical one with its members exactly when its last row is not empty |
| PeerSets.RemoveAndCompare | core/shared/src/main/cpp/PeerSet.cpp:61-183 | a set built with Add and then rid of an owner equals the set built without it if and only if an owner of the same or a later vertical is left; the copy of it equals that set whenever any owner is left |
| PeerSets.RemoveLeavesGap | core/shared/src/main/cpp/PeerSet.cpp:97-183 | an input for which it does not: two owners added and the one of the last vertical removed |
| PeerSets.TotalOrder | core/shared/src/main/cpp/Identity.cpp:67-93 | operator< is a strict total order whose ties are operator== |
| PeerSets.SortedUnique | core/shared/src/main/cpp/PeerSet.cpp:61-95 | a sorted vector is determined by its members |
| PeerSets.CanonicalAscends | core/shared/src/main/cpp/PeerSet.cpp:61-95 | in a canonical set, so in every set built by adding, the recipients and every row of owners ascend in organisation id |
| PeerMessages.RoundTrip | core/shared/src/main/cpp/PeerSet.t.h:7-83 | reading what msg_write wrote gives a set that compares equal, for counts below 2^32, and leaves what follows |
| PeerMessages.Write | core/shared/src/main/cpp/PeerSet.t.h:46-83 | the loops write the encoding |
| PeerMessages.EncodeLayout | core/shared/src/main/cpp/PeerSet.t.h:46-83 | the message token by token: dealer, counted recipients, the number of rows, each row counted; an identity is organisation, role and vertical |
| PeerMessages.ReadInto | core/shared/src/main/cpp/PeerSet.t.h:7-44 | the loops succeed exactly on a decodable message, and then add its members behind those the set had |
| PeerMessages.WriteAndRead | core/shared/src/main/cpp/PeerSet.t.h:7-83 | written and read into an empty set gives an equal one |
| FixedPoint.ConvertDoubleToLargeNum | core/server/src/main/cpp/StartupUtils.cpp:15-46 | over the reals: floor(v * 2^b + 1/2), and m minus the encoding of -v for negative v |
| FixedPoint.RecoversIff | core/server/src/main/cpp/recipient/RegressionReceiver.cpp:12-42 | for b <= 64 decoding the encoding is within 2^-(b+1) of v if and only if twice the encoded magnitude is at most m (below m for negative v) |
| FixedPoint.RecoversTruncated | core/server/src/main/cpp/recipient/RegressionReceiver.cpp:33-41 | for b > 64 it is within 2^-(b+1) + 2^-64 when the magnitude is in the right half of the field |
| FixedPoint.RecoversTruncatedIff | core/server/src/main/cpp/recipient/RegressionReceiver.cpp:12-42 | for b > 64 and m above 2^(b-63) that is the case exactly then, by the same test |
| FixedPoint.DecodesExactly | core/server/src/main/cpp/recipient/RegressionReceiver.cpp:21-32 | up to 64 bits the lower half of the field decodes to val / 2^b exactly |

## Left out

- Fortissimo's own protocols: the library is not part of this model; their results and their use of randomness are premises.
- Matrix::MakeIdentity and Matrix::Det, which Regression.cpp calls: they are Fortissimo's and not part of this model.
- Secrecy and the distribution of random values: only correctness is stated.
- libevent, OpenSSL, sockets, connection setup and query teardown, so also the removal of a query by condFinishEvent inside the read callback.
- CSV and JSON reading, command lines, HTML output, logging and table generation: input and output.
- IEEE rounding: `FixedPoint` works over the reals.
- Moments.cpp and its patron: the same join with less algebra.
- RegressionRandomnessHouse, the outer dealer that waits for the pairwise sorting dealers and one basement: the same counter again.
- dispenserSize in the patron: `Budget` is about the share of one regression.
- The rest of data_structures.cpp, in particular ParseExpression, which does not keep the value of mixed + and - chains.
- Terms.GetTerms: the clauses about groups assume separators without grouping symbols, which all separators of GetAdditiveTerms, GetMultiplicativeTerms, GetArgumentTerms and GetExponentTerms are; with other separators only losslessness is stated.
- The products for the variances of the coefficients in the second batch (Regression.cpp:1168-1184) and what is made of them: one factor comes from Fortissimo's Matrix::Det.
- How many items each invocation of the patron asks for: `Budget` states the counts, `DealerSequence` the invocations.
- LookupProtocol.Run: one lookup at a time; the batch of a regression runs independent ones.
