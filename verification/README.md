# Verified model of the QKD post-processing modules

This project models the parts of the QKD software that compute or that two parties run together, and proves what
they promise.

- **Privacy amplification.** The number theoretic transform over Z/p, p = 15 * 2^27 + 1, with its in-place radix-4
  loops; the cyclic convolution built on it; and the Toeplitz hash that takes one bit of every coefficient. The
  convolution is proved through polynomials: a transform evaluates the array at roots of unity, and so does every
  stage of it. What comes out is the exclusive or of the key bits under a sliding window of seed and shift.
- **Evaluation hash.** Polynomials over GF(2) are coded as numbers. Blob shifts, the reduction table that is read while
  it grows, the multiplication tables and the power table are proved against multiplication modulo f; the buffered
  Horner hash against a polynomial in the key. Joining two contexts is hashing the concatenation.
- **Cascade.** Both parties' frames and checkers are modelled together. Every step keeps one invariant: the blocks of
  every pass partition the frame, each flag is the parity of the disagreements inside the block, both parties see the
  same blocks, and no known correct bit is a disagreement. From it follow termination, that exactly the disagreements
  found are corrected, and the bounds on the disclosed parities. A second invariant says what was disclosed: the
  parities that were sent determine those of all blocks and every bit that is known to be correct.
- **Protocols.** Key synchronisation over ordered channels, as a state machine over all interleavings; authentication
  with mirrored key stores over all runs; confirmation by random parities with the exact share of masks that miss a
  difference; resizing of keys with every byte accounted for.

Objects that the source updates are classes here, with a function that gives their value (`View`, `State`), and their
methods are proved against functions on such values. Where two parties exchange messages, one method runs both sides
in step, each on its own object.

## What turned out differently

- `perform` writes one entry behind its array when the number of seed and shift bits is a power of two
  (`PrivacyAmplification.RoomUnlessPowerOfTwo` gives the exact condition). The entry is the last row bit, which the
  source has also put in front, where the cyclic sum looks for it: the output is right in this case too.
- `perform` hashes the bits of its first key, although its documentation speaks of the second one as input; only the
  size and the meta data of the second are used.
- The array of `ntt_dit4_core_inv` may hold p itself after the radix-2 step; the contracts say [0, p] there and [0, p)
  at the end.
- A comment in `authenticate` says that at least one context is present from there on, but the tag of a null context
  is a null tag, and so exactly one null context always fails (`Authentication.OneNullContextFails`).
- Thresholds need not be equal for the stores to stay mirrored: a store is only refilled after a confirmation, and
  with it Bob has taken over Alice's threshold.
- A single bit that a new Cascade checker finds correct while it is built is noted in the frame but not in the new
  checker. The invariant therefore says that what a checker knows is known to the frame, and not the converse.
- The split loop of the exact resize mode counts the next key from zero after a cut, whatever is left of the cut key.
  A buffer takes every next key exactly when the bytes counted since the last cut are those joined since the last
  exact key (`Resizing.TakesEveryKey`), and otherwise a key makes the source throw exactly when it reaches beyond the
  next exact key (`Resizing.LeftExactly`). Below the exact size the counts are equal, so this takes a lowered exact
  size (`Resizing.LoweredSizeFails`).
- A key store in memory stores only the first 65535 keys of its life, in the slots from 1 on
  (`KeyStores.Lifetime`): the search for a free slot starts one slot behind the last insertion without regard to the
  end, is refused there, and never comes back. Deleting keys makes no room for later ones.
- Messages that differ only in the zeros that fill up their last block have the same hash
  (`HashSpecification.FinishedIsPadded`), so an equal tag means equal padded messages at best.

## Main results

- The transform-based convolution is the cyclic convolution, for every length and input (`Ntt.NttConvolution`), and
  privacy amplification is a sliding exclusive or (`PrivacyAmplification.Perform`).
- Table multiplication is multiplication in the field (`FastMultiplication.Gf2FastAlpha.TimesAlpha`,
  `FastMultiplication.Gf2FastAlpha.TimesAlphaPow`), on a reduction table that is right while it is being read
  (`GaloisField2.Gf2.SetupBitReductionTable`); the field is that of polynomials modulo f
  (`BinaryField.TimesIsProduct`, `BinaryField.RemainderUnique`).
- The hash is a polynomial in the key (`HashSpecification.FinishedTag`), does not depend on how the input is split
  (`HashSpecification.FeedConcat`), and adding hashes concatenates messages
  (`HashSpecification.JoinedIsConcatenation`).
- Cascade terminates with every block of every pass even, corrects only disagreements, each once, and counts as
  disclosed exactly the parities that were sent, between two bounds (`BlockCorrection.CorrectBlocks`,
  `Cascade.Process`); they determine every correction (`Cascade.DisclosedMeans`), and leaving one out is sound
  (`ParityExchange.ResolvedIsTrue`). The shuffle reaches every permutation once (`Permutations.ShuffleReachesAll`).
- Both sides of the key synchronisation hand out the same keys and lose none that is pushed
  (`KeySynchronization.SameKeys`, `KeyAccounts.PushedKeyKept`, `KeyAccounts.NothingElse`).
- Both sides of the authentication agree over every run (`Authentication.RunMirrored`, `Authentication.RunAgrees`),
  forward nothing that is not authentic (`Authentication.Process`, `Authentication.RunForwards`), and use no stored
  key for two confirmed keys (`Authentication.NoKeyTwice`), with exact conditions for the verdict
  (`Authentication.VerdictMeans`, `Authentication.SameVerdict`) and for what a key store takes
  (`KeyStores.InsertionStores`, `KeyStores.Lifetime`).
- Confirmation verdicts agree, and the share of masks that confirm is exact (`Confirmation.Process`,
  `Confirmation.ConfirmingShare`).
- Resizing forwards the stretches of the received stream (`Resizing.ProcessAll`, `Resizing.SameKeys`), with the exact
  condition for its errors (`Resizing.TakesEveryKey`, `Resizing.LeftExactly`).

## Model

| member | source | states |
|---|---|---|
| Residues.ModAdd | bin/modules/qkd-privacy-amplification/ntt.cpp:314-318 | The sum modulo p, in [0, p], without leaving 32 bits on the way, although an operand may be p itself |
| Residues.ModSub | bin/modules/qkd-privacy-amplification/ntt.cpp:347-349 | The difference modulo p, in [0, p] |
| Residues.ModMulCong | bin/modules/qkd-privacy-amplification/ntt.cpp:327-337 | The product of any two values in [0, p] is congruent to the integer product and stays in [0, p], shortcuts for 0 and 1 included |
| RootTables.RootSquare | bin/modules/qkd-privacy-amplification/ntt.cpp:151-169 | Every root in the table, and every negative one, squares to the entry before it |
| RootTables.RootInverse | bin/modules/qkd-privacy-amplification/ntt.cpp:151-169 | Root and negative root of the same order are inverse to each other |
| RootTables.InversePower | bin/modules/qkd-privacy-amplification/ntt.cpp:176-184 | Entry k of the third table times 2^k is 1 modulo p, for all 28 entries |
| Butterflies.DifButterflyCong | bin/modules/qkd-privacy-amplification/ntt.cpp:420-443 | The four outputs of a decimation-in-frequency butterfly are the input mixed by the powers of the imaginary unit and twisted by the powers of the root |
| Butterflies.DitButterflyCong | bin/modules/qkd-privacy-amplification/ntt.cpp:480-515 | The decimation-in-time butterfly untwists and unmixes: on mixed input it gives four times the original entries |
| TransformTheorems.PointsAreRoots | bin/modules/qkd-privacy-amplification/ntt.cpp:397-455 | Every evaluation point of the transform of length 2^k is a 2^k-th root of unity |
| TransformTheorems.QuarterEval | bin/modules/qkd-privacy-amplification/ntt.cpp:420-443 | One radix-4 stage sends a block to four quarters, each of which evaluates at z as the block does at the matching twisted point: four ring homomorphisms |
| TransformTheorems.DifEval | bin/modules/qkd-privacy-amplification/ntt.cpp:397-455 | For every length below 2^28 and both parities of the exponent, entry t of the forward transform is the value of the array, read as a polynomial, at point t |
| InverseTransform.DitInverse | bin/modules/qkd-privacy-amplification/ntt.cpp:466-520 | The inverse transform after the forward one gives the length times the original entries modulo p, in place and in the original order |
| CyclicConvolutions.EvalConvolution | bin/modules/qkd-privacy-amplification/ntt.cpp:284-304 | At every root of unity of the length, the cyclic convolution evaluates to the product of the values of its factors |
| Ntt.TransformOfConvolution | bin/modules/qkd-privacy-amplification/ntt.cpp:284-304 | Multiplying two transforms entry by entry is the transform of the cyclic convolution |
| Ntt.ConvolutionByTransforms | bin/modules/qkd-privacy-amplification/ntt.cpp:284-304 | The inverse transform of the products, times the inverse of the length, is the convolution reduced below p |
| Ntt.NttDif4Core | bin/modules/qkd-privacy-amplification/ntt.cpp:397-455 | The in-place triple loop computes the forward transform, stage by stage, with every entry in [0, p] |
| Ntt.NttDit4CoreInv | bin/modules/qkd-privacy-amplification/ntt.cpp:466-520 | The in-place inverse loops, the radix-2 step first, compute the inverse transform, with every entry in [0, p] |
| Ntt.ModSumDiff | bin/modules/qkd-privacy-amplification/ntt.cpp:358-367 | Sum and difference in place; the sum may be left as p itself |
| Ntt.MultiplyVal | bin/modules/qkd-privacy-amplification/ntt.cpp:378-382 | Every entry of the vector is multiplied in the field, the entries behind it are unchanged |
| Ntt.NttConvolution | bin/modules/qkd-privacy-amplification/ntt.cpp:284-304 | For all arrays over [0, p) of length 2^k, k < 28, the first array ends as exactly the cyclic convolution of the two modulo p |
| PrivacyAmplification.LdFloorIsLog | bin/modules/qkd-privacy-amplification/ntt.cpp:233-248 | The five-step shift computation is the rounded-down logarithm of every positive 32 bit number |
| PrivacyAmplification.LdCeilIsLog | bin/modules/qkd-privacy-amplification/ntt.cpp:214-223 | It is the rounded-up logarithm of every positive 32 bit number |
| PrivacyAmplification.ModFromBigint | bin/modules/qkd-privacy-amplification/ntt.cpp:261-271 | The bits as 0 and 1 in the array, in plain or in reverse order, and nothing else changed |
| PrivacyAmplification.RoomUnlessPowerOfTwo | bin/modules/qkd-privacy-amplification/qkd-privacy-amplification.cpp:364-432 | The array has room for the leading entry and all seed and shift bits exactly when their number is not a power of two |
| PrivacyAmplification.FillToeplitz | bin/modules/qkd-privacy-amplification/qkd-privacy-amplification.cpp:411-427 | The row in reverse behind its first entry and zeros behind the row; a row as long as the array goes around: its last bit stands in front |
| PrivacyAmplification.Reindex | bin/modules/qkd-privacy-amplification/qkd-privacy-amplification.cpp:421-438 | Reading the reversed row against the padded key is the sum over pairs of key and row bits at the same distance |
| PrivacyAmplification.CoefficientIsHits | bin/modules/qkd-privacy-amplification/qkd-privacy-amplification.cpp:421-445 | Coefficient i of the convolution is the number of key bits that meet a set row bit, and it stays below p, so the reduction loses nothing |
| PrivacyAmplification.HitsParity | bin/modules/qkd-privacy-amplification/qkd-privacy-amplification.cpp:391-418 | With a seed as long as the key the sum never wraps, not even without padding, and its parity is the exclusive or of the key bits selected by the window of seed and shift |
| PrivacyAmplification.AmplifiedBit | bin/modules/qkd-privacy-amplification/qkd-privacy-amplification.cpp:441-445 | Output bit i is the parity of the key against seed and shift, from bit i on |
| PrivacyAmplification.Perform | bin/modules/qkd-privacy-amplification/qkd-privacy-amplification.cpp:360-456 | The whole computation through the transforms: every output bit is that exclusive or, also when the number of seed and shift bits is a power of two |
| BinaryPolynomials.XorConcat | lib/crypto/evhash.cpp:125-129 | The exclusive or works on high and low parts of a number separately, wherever it is cut |
| Bits.XorBitAt | lib/crypto/evhash.cpp:125-129 | The exclusive or adds the bits modulo two, bit by bit |
| BinaryField.TimesLinearLeft | lib/crypto/evhash.cpp:232-257 | Multiplication in the field is additive in its left factor |
| BinaryField.TimesLinearRight | lib/crypto/evhash.cpp:232-257 | Multiplication in the field is additive in its right factor |
| BinaryField.TimesComm | lib/crypto/evhash.cpp:232-257 | Multiplication in the field is commutative, for every modulus |
| BinaryField.TimesAssoc | lib/crypto/evhash.cpp:232-257 | Multiplication in the field is associative, for every modulus |
| BinaryField.TimesIsProduct | lib/crypto/evhash.cpp:232-257 | The shift-and-reduce product is the remainder of the polynomial product |
| BinaryField.Division | lib/crypto/evhash.cpp:61-79 | Every number is a multiple of the modulus polynomial plus the remainder that the field works with |
| BinaryField.RemainderUnique | lib/crypto/evhash.cpp:61-79 | There is only one such remainder, so the field is the ring of polynomials modulo f |
| BinaryField.TimesModulus | lib/crypto/evhash.cpp:447-470 | Multiplying by x^n reduced is shifting by n |
| BlobShifts.BlobShiftLeftSubbits | lib/crypto/evhash.cpp:361-374 | Shift by less than a word in place: blob and carry together are the number times 2^b |
| BlobShifts.BlobShiftLeftWords | lib/crypto/evhash.cpp:385-412 | Shift by whole words in place: the words that leave are the low words of the overflow |
| BlobShifts.BlobShiftLeft | lib/crypto/evhash.cpp:329-351 | The shifted blob and the overflow split num times x^bits exactly, result plus overflow times x^B |
| GaloisField2.Gf2.ReduceBitSlow | lib/crypto/evhash.cpp:447-470 | x^bit in the field, from table entries of lower bits only, for every bit below 2B |
| GaloisField2.Gf2.SetupBitReductionTable | lib/crypto/evhash.cpp:487-492 | The table that is read while it is filled holds x^i modulo f for all i below 2B |
| GaloisField2.Gf2.Reduce | lib/crypto/evhash.cpp:267-283 | Number plus overflow times x^B, reduced modulo f |
| GaloisField2.Gf2.Shift | lib/crypto/evhash.cpp:293-298 | Times x^bits in the field |
| GaloisField2.Gf2.Mul | lib/crypto/evhash.cpp:232-257 | The word and bit loops compute the product in the field, reading only rows that are ready |
| FastMultiplication.PowerSum | lib/crypto/evhash.cpp:600-614 | Powers of a field element add their exponents |
| FastMultiplication.Gf2FastAlpha.SetupOverflowTable | lib/crypto/evhash.cpp:781-798 | Entry i is the reduction of i times x^n, which fits one word for all five moduli, in one-step and two-step tables |
| FastMultiplication.Gf2FastAlpha.PrecalcBlobMultiplication | lib/crypto/evhash.cpp:726-749 | Entry i of the tables is alpha times i, and alpha times i times x^8 |
| FastMultiplication.Gf2FastAlpha.PrecalcAlphaPow | lib/crypto/evhash.cpp:757-775 | Entry i of the power table is alpha to the power 2^(19 - i) |
| FastMultiplication.Gf2FastAlpha.PrecalcShift | lib/crypto/evhash.cpp:626-661 | The shift by one chunk, reduced by patching the lowest word only |
| FastMultiplication.Gf2FastAlpha.SplitChunks | lib/crypto/evhash.cpp:558-570 | The chunks of a blob, high ones first, are its digits to the base of the chunk size |
| FastMultiplication.Gf2FastAlpha.TimesAlpha | lib/crypto/evhash.cpp:552-588 | Multiplication by alpha through the tables is multiplication by alpha in the field, for every element and both table depths |
| FastMultiplication.Gf2FastAlpha.TimesAlphaPow | lib/crypto/evhash.cpp:600-614 | Multiplication by alpha^n for every n; the search ends and never leaves the table of 20 powers |
| FastMultiplication.Gf2FastAlpha.constructor | lib/crypto/evhash.cpp:529-545 | All tables are right for every modulus of degree below 11 and every key |
| HashSpecification.FeedConcat | lib/crypto/evhash.cpp:1006-1059 | Feeding a then b is feeding a followed by b: the hash does not depend on how the input is split |
| HashSpecification.FeedIsHorner | lib/crypto/evhash.cpp:1006-1079 | The state after a message is the Horner sum over its whole blocks, the rest of the bytes and the number of blocks |
| HashSpecification.HornerIsPolynomial | lib/crypto/evhash.cpp:1068-1079 | The Horner sum is the polynomial of the blocks in the key |
| HashSpecification.FinishedTag | lib/crypto/evhash.cpp:929-939 | The final tag is the polynomial in the key of the blocks of the zero-padded message |
| HashSpecification.JoinedIsConcatenation | lib/crypto/crypto_evhash.cpp:108-128 | Adding one hash to another with the same key gives tag and block count of the concatenation of the two padded messages |
| EvaluationHash.BlobFromMemory | lib/crypto/evhash.cpp:145-151 | Bytes in network order as words, as one number |
| EvaluationHash.BlobToMemory | lib/crypto/evhash.cpp:193-203 | Words as bytes in network order |
| EvaluationHash.MemoryValue | lib/crypto/evhash.cpp:145-203 | Memory written from a blob reads back as the same number |
| EvaluationHash.ValueInjective | lib/crypto/evhash.cpp:145-203 | A blob is determined by its number |
| EvaluationHash.EvHash.UpdateBlock | lib/crypto/evhash.cpp:1068-1079 | One Horner step: add the block, multiply by the key, count |
| EvaluationHash.EvHash.Update | lib/crypto/evhash.cpp:1006-1059 | The buffered update is the feeding of the bytes; the rest stays shorter than a block |
| EvaluationHash.EvHash.Finalize | lib/crypto/evhash.cpp:929-939 | Padding with zeros and one more update give the finished state |
| EvaluationHash.EvHash.MultiplyByKey | lib/crypto/evhash.cpp:990-993 | Tag times key^n, block count plus n |
| EvaluationHash.EvHash.AddTag | lib/crypto/evhash.cpp:893-897 | The other tag is added to the tag, nothing else changes |
| EvaluationHash.EvHash.GetState | lib/crypto/evhash.cpp:963-971 | Tag, rest and block count as they are |
| EvaluationHash.EvHash.SetState | lib/crypto/evhash.cpp:947-956 | The state is the saved one |
| EvaluationHash.SavedStateRestores | lib/crypto/evhash.cpp:947-971 | Saving and restoring leads to the same state |
| EvaluationHash.CryptoEvhash.AddMemory | lib/crypto/crypto_evhash.cpp:137-139 | Data goes into the hash |
| EvaluationHash.CryptoEvhash.AddContext | lib/crypto/crypto_evhash.cpp:108-128 | Two contexts with the same key are finished and joined; other keys are refused and nothing is changed |
| EvaluationHash.CryptoEvhash.FinalTag | lib/crypto/crypto_evhash.cpp:149-165 | The finished tag masked by a final key of the block size; any other key size is refused |
| OneTimePad.WordMask | lib/crypto/crypto_xor.cpp:101-116 | Masking eight bytes as one word masks each of the bytes |
| OneTimePad.CryptoXor.Finalize | lib/crypto/crypto_xor.cpp:93-130 | Word loop and byte tail together mask every byte once; a key shorter than the data is refused |
| OneTimePad.MaskTwice | lib/crypto/crypto_xor.cpp:93-130 | Masking twice with the same key gives the data back |
| OneTimePad.MaskedBits | lib/crypto/crypto_xor.cpp:93-130 | Every bit of the masked data is the sum of a data bit and a key bit |
| OneTimePad.ExactlyOneKey | lib/crypto/crypto_xor.cpp:93-130 | For all data and every masked outcome exactly one key of that length leads there |
| Permutations.GenerateIdentityPermutation | bin/modules/qkd-cascade/qkd-cascade.cpp:149-158 | The identity and its inverse |
| Permutations.GenerateRandomPermutation | bin/modules/qkd-cascade/qkd-cascade.cpp:168-188 | For all draws between i and n - 1 the swaps give a permutation, and the second loop its inverse |
| Permutations.PlaceKept | bin/modules/qkd-cascade/qkd-cascade.cpp:178-182 | Place i of the shuffle gets what stood in the drawn place after i swaps, and keeps it |
| Permutations.ShuffleReachesAll | bin/modules/qkd-cascade/qkd-cascade.cpp:178-182 | Every permutation of the n positions is the shuffle of exactly one choice of n draws |
| Parities.CountFull | bin/modules/qkd-cascade/parity-checker.cpp:480-492 | The distance of the two lower bounds is the block size exactly when every bit of the block is known |
| Parities.CeilLogIsLog | bin/modules/qkd-cascade/parity-checker.cpp:352-372 | The number of halvings of a block is the logarithm of its size, rounded up |
| Parities.FloorLogIsLog | bin/modules/qkd-cascade/parity-checker.cpp:352-372 | The least number of halvings, always into the smaller half, is the logarithm rounded down |
| Parities.WholeParity | bin/modules/qkd-cascade/qkd-cascade.cpp:361-363 | The parity of all bits is that of their number, in every permutation |
| ParityBlocks.ToggledTiles | bin/modules/qkd-cascade/parity-checker.cpp:514-560 | Inverting the flag of the block around a bit keeps the blocks a partition of the frame |
| ParityBlocks.HalvesTile | bin/modules/qkd-cascade/parity-checker.cpp:445-464 | Two halves in place of a block keep the blocks a partition of the frame |
| ParityBlocks.HalvesOdd | bin/modules/qkd-cascade/parity-checker.cpp:445-464 | The odd set exchanges the block for its odd half, which was no block before |
| CascadeStates.SumsGiveParity | bin/modules/qkd-cascade/parity-checker.cpp:208-220 | Running sums and changed bits give the parity of the current permuted key, for every block |
| CascadeStates.AllCorrectEven | bin/modules/qkd-cascade/parity-checker.cpp:174-184 | A block of known correct bits has no disagreement, so its exchange may be skipped |
| CascadeStates.FixJoint | bin/modules/qkd-cascade/frame.cpp:77-144 | Correcting a disagreement keeps the protocol invariant in all checkers of all passes and lowers the number of disagreements by one |
| CascadeStates.NotedJoint | bin/modules/qkd-cascade/frame.cpp:134-144 | Noting agreed bits as correct keeps the protocol invariant |
| CascadeStates.SplitJoint | bin/modules/qkd-cascade/parity-checker.cpp:430-464 | Halving an odd block keeps the protocol invariant when the odd half is named rightly |
| CascadeStates.NoOddBlockEven | bin/modules/qkd-cascade/qkd-cascade.cpp:361-363 | With no odd block left in one checker the parties disagree on an even number of bits |
| CascadeFrame.ParityChecker.constructor | bin/modules/qkd-cascade/parity-checker.cpp:64-87 | Running sums of the permuted key, and the known correct bits moved to their permuted places |
| CascadeFrame.ParityChecker.NotifyBitChangeRemote | bin/modules/qkd-cascade/parity-checker.cpp:514-560 | The block that the ordered search finds is the one around the bit; its flag and its place in the odd set change |
| CascadeFrame.ParityChecker.NotifyBitChangeLocal | bin/modules/qkd-cascade/parity-checker.cpp:499-502 | The same, and the bit is noted as changed |
| CascadeFrame.ParityChecker.CountCorrectBitsInBlock | bin/modules/qkd-cascade/parity-checker.cpp:480-492 | The number of known correct bits of a block inside the frame, zero outside, the full size exactly when all are known |
| CascadeFrame.ParityChecker.SelectHalf | bin/modules/qkd-cascade/parity-checker.cpp:352-374 | The half to compare is the second one exactly when all of its bits are known to be correct, else the first |
| CascadeFrame.ParityChecker.SendParities | bin/modules/qkd-cascade/parity-checker.cpp:155-225 | Blocks of known bits are left out, one parity less when the total is even, and each parity sent is that of its block; a block out of range fails |
| CascadeFrame.ParityChecker.WriteBack | bin/modules/qkd-cascade/parity-checker.cpp:242-290 | Every marked block gets its exchanged difference, an omitted one the running sum; single even bits are noted as correct; a size mismatch changes nothing |
| CascadeFrame.ParityChecker.ReplaceByHalves | bin/modules/qkd-cascade/parity-checker.cpp:411-468 | From the answer about either half the odd one is named, the halves replace the block, a single even bit is noted |
| CascadeFrame.Frame.SetBit | bin/modules/qkd-cascade/frame.cpp:96-109 | Only a real change changes the key, and then every checker hears of it once |
| CascadeFrame.Frame.FlipBit | bin/modules/qkd-cascade/frame.cpp:77-87 | The bit is inverted, all checkers hear of it, and it counts as corrected |
| CascadeFrame.Frame.NotifyBitChangeRemote | bin/modules/qkd-cascade/frame.cpp:117-126 | The key stays, all checkers hear of the change, and the bit counts as corrected |
| CascadeFrame.Frame.NotifyCorrectBit | bin/modules/qkd-cascade/frame.cpp:134-144 | Frame and all checkers note the bit as correct |
| ParityExchange.OwnParities | bin/modules/qkd-cascade/parity-checker.cpp:208-251 | The two parities sent for a block differ exactly when the parties disagree on an odd number of its bits |
| ParityExchange.ResolvedIsTrue | bin/modules/qkd-cascade/parity-checker.cpp:256-287 | Every block gets its true difference, also the last one whose parity is not sent, and also when known blocks are skipped |
| ParityExchange.AskedTold | bin/modules/qkd-cascade/parity-checker.cpp:155-287 | What was sent up to now and for these blocks determines the parity of each of them, also of the one that is left out |
| ParityExchange.AllCost | bin/modules/qkd-cascade/parity-checker.cpp:176-206 | As long as no bit of the blocks is known every block costs a parity |
| ParityExchange.CalculateBlockDiffparities | bin/modules/qkd-cascade/parity-checker.cpp:155-287 | Both parties end with the same blocks and the true differences, have sent exactly one parity for each block that is not known to be correct, one less when the total is even, and note only agreed bits; what was sent still determines the parities of all blocks and the known bits |
| Disclosures.WholeKept | bin/modules/qkd-cascade/qkd-cascade.cpp:361-363 | The parities of the blocks of one pass determine that of the whole key, in any order |
| Disclosures.FixDetermined | bin/modules/qkd-cascade/parity-checker.cpp:375-394 | After a correction the sent parities still determine those of all blocks and the bits known to be correct |
| Disclosures.SplitDetermined | bin/modules/qkd-cascade/parity-checker.cpp:411-468 | So they do after a block is replaced by its halves, with one parity sent for it |
| BlockCorrection.InOrder | bin/modules/qkd-cascade/parity-checker.cpp:316-334 | The odd blocks by size and offset, each once |
| BlockCorrection.OrderUnique | bin/modules/qkd-cascade/parity-checker.cpp:316-334 | There is only one such order, so both parties use the same |
| BlockCorrection.SingleOddBit | bin/modules/qkd-cascade/parity-checker.cpp:375-394 | An odd block of one bit is a disagreement, and correcting it takes just this block out of the odd set |
| BlockCorrection.TrueHalves | bin/modules/qkd-cascade/parity-checker.cpp:411-443 | The flag computed from the comparison of either half is the true parity of the first one |
| BlockCorrection.EffortHalved | bin/modules/qkd-cascade/parity-checker.cpp:340-469 | Each halving lowers the number of parities a block can still cost by one |
| BlockCorrection.ChooseHalves | bin/modules/qkd-cascade/parity-checker.cpp:345-395 | Single bits are corrected and leave the list; for every other block both parties choose the same half |
| BlockCorrection.SplitBlocks | bin/modules/qkd-cascade/parity-checker.cpp:411-468 | Every block of the list is replaced by its odd half on both sides |
| BlockCorrection.UntouchedNext | bin/modules/qkd-cascade/parity-checker.cpp:411-468 | What becomes known in halving a block is in its even half: the odd half and all other blocks stay unknown |
| BlockCorrection.CorrectBlocks | bin/modules/qkd-cascade/parity-checker.cpp:300-470 | On k odd blocks exactly k distinct disagreements are corrected, no block of the checker stays odd, at most k times the logarithm of the block size parities are sent, and when nothing is known of the blocks at least the rounded-down logarithm of each |
| Cascade.MakeBlocks | bin/modules/qkd-cascade/parity-checker.cpp:95-113 | n bits in n / k blocks, rounded up, one behind the other, the last one possibly shorter |
| Cascade.NewChecker | bin/modules/qkd-cascade/parity-checker.cpp:64-134 | The constructor on both sides keeps the protocol invariant, changes no key bit, and costs at most one parity for each block, one less when the total is even, and exactly one for each when nothing is known; the odd blocks are those with an odd number of disagreements |
| Cascade.FirstOdd | bin/modules/qkd-cascade/qkd-cascade.cpp:404-411 | The first checker with an odd block |
| Cascade.EvenAfterPass | bin/modules/qkd-cascade/qkd-cascade.cpp:361-363 | After every pass the parties disagree on an even number of bits, on which the omitted parity rests |
| Cascade.Correct | bin/modules/qkd-cascade/qkd-cascade.cpp:384-428 | The correction loop of a pass ends, and then no checker has an odd block |
| Cascade.FirstParitiesAre | bin/modules/qkd-cascade/qkd-cascade.cpp:300-363 | The first parities of the passes in closed form: one for each block of sizes k1, k2 and at most 4096, one less from the second pass on, and one for every pass from the fourth on |
| Cascade.LargestIs | bin/modules/qkd-cascade/qkd-cascade.cpp:284-320 | The largest block is k1, k2, or half the key, as far as there are such passes |
| Cascade.DisclosedMeans | bin/modules/qkd-cascade/qkd-cascade.cpp:300-432 | Every parity sent is that of a block in the order of a pass, and a change of the key of Alice that none of them notices touches no corrected bit and no parity of any block of any pass |
| Cascade.Process | bin/modules/qkd-cascade/qkd-cascade.cpp:250-434 | Over every run: the keys differ less by exactly the corrected bits, each a real disagreement and corrected once; Alice's key is untouched; both sides note the same corrected bits; both note as disclosed exactly the parities that were sent, and these determine every corrected bit and every block; their number is at least one for each block of the first pass and the logarithm, rounded down, of every odd one, and at most the first parities of the passes plus corrections times the logarithm, rounded up, of the largest block; every block of every pass, of size k1, k2, at most 4096, or half the key, ends with an even number of disagreements |
| Stash.KeyStash.Choose | lib/module/stash.cpp:117-129 | The first own key that is in the list of the peer, or the null key |
| Stash.KeyStash.Push | lib/module/stash.cpp:317-321 | The key goes to the end of the stash; a null key is ignored |
| Stash.KeyStash.Purge | lib/module/stash.cpp:293-309 | The expired keys are removed one by one |
| Stash.KeyStash.Remove | lib/module/stash.cpp:361-376 | The key leaves both lists |
| Stash.KeyStash.Recv | lib/module/stash.cpp:329-353 | The list of the peer replaces the old one; any other message is an error and leaves it empty |
| Stash.KeyStash.ConcludePick | lib/module/stash.cpp:180-214 | An acknowledged key is removed and handed out, a rejected one stays, other answers are protocol errors |
| Stash.KeyStash.AnswerPick | lib/module/stash.cpp:240-286 | A proposed key is acknowledged, removed from both lists and handed out when it is there, and rejected otherwise |
| KeySynchronization.PurgesExpired | lib/module/stash.cpp:293-309 | With unique ids a key survives a purge exactly when it is not older than the time to live |
| KeySynchronization.StepKeeps | lib/module/stash.cpp:153-423 | Every event, in any interleaving, keeps the invariant about stashes, phases and messages on their way |
| KeySynchronization.RunKeeps | lib/module/stash.cpp:153-423 | Every run keeps it |
| KeySynchronization.SameKeys | lib/module/stash.cpp:153-286 | In every run both sides hand out the same ids in the same order, none twice; Bob is ahead by one only while his answer travels; no proposal is rejected and no message is unexpected |
| KeySynchronization.NoKeyLost | lib/module/stash.cpp:293-376 | In every run every pushed key is exactly one of stashed, purged and handed out, on either side |
| KeySynchronization.NeverStuck | lib/module/stash.cpp:153-423 | In every reachable state someone can start a cycle or has a message to read |
| KeySynchronization.ProposesShared | lib/module/stash.cpp:117-129 | A key is proposed exactly when the stashes share one, and it is the first of Alice's |
| KeySynchronization.Cycle | lib/module/module.cpp:1561-1574 | From what the purge leaves: the first key of Alice's that Bob has too goes out of both stashes, each party hands out its own of that id, and when there is none, or it is the null key, nothing is handed out and both stashes stay |
| KeyAccounts.PushedKeyKept | lib/module/stash.cpp:293-376 | In every run every key that is pushed is in exactly one place: stashed as it was pushed, handed out as it was pushed, or purged |
| KeyAccounts.NothingElse | lib/module/stash.cpp:293-376 | In every run whatever is stashed or handed out was pushed by an event of this run, data included, and whatever is purged was pushed before the start of a cycle at which it was older than the time to live |
| KeyAccounts.ProposedInTime | lib/module/stash.cpp:153-179 | In every run a proposed key was not older than the time to live when the cycle began, on either side |
| KeyAccounts.HandsOut | lib/module/stash.cpp:180-286 | In every run the answer to a proposal is that it is acknowledged, and both sides hand out the proposed key and no longer stash it |
| KeyAccounts.Play | lib/module/stash.cpp:153-423 | Two stash objects and two channels, driven by the events of any run, end with the stashes and the handed out keys of the state machine |
| KeyRings.KeyRing.PushBack | lib/key/key_ring.cpp:56-88 | The bytes of the ring grow by exactly the pushed ones, all keys but the last are full, new keys get the next ids |
| KeyRings.ChunkIs | lib/key/key_ring.cpp:56-88 | Key i of a ring is the i-th stretch of its bytes |
| KeyRings.ChunkCount | lib/key/key_ring.cpp:56-88 | There are as many keys as the bytes need, full ones where the bytes allow it |
| KeyStores.KeyDb.Insert | lib/q3p/db/db_ram.cpp:376-407 | The key goes to the next free slot behind the last insertion; a wrong size or a full store leaves the store as it is; behind the end the key is lost |
| KeyStores.InsertionStores | lib/q3p/db/db_ram.cpp:376-407 | A key is stored exactly when it has the right size, the last insertion was not at the end of the store, and a slot other than the last one used is free |
| KeyStores.Lifetime | lib/q3p/db/db_ram.cpp:376-407 | Over every run of insertions and deletions key number n goes to slot n, and from number 65536 on all keys are lost, however many were deleted |
| KeyStores.NothingMoreStored | bin/modules/qkd-auth/qkd-auth.cpp:718-758 | Once the last insertion was at the end of the store, whatever is to be stored is lost |
| KeyStores.KeyDb.Delete | lib/q3p/db/db_ram.cpp:103-125 | None of these keys is left, all others are as before, and so is the place of the last insertion |
| KeyStores.StoredIs | bin/modules/qkd-auth/qkd-auth.cpp:718-758 | In a store that began empty the whole quanta of the bytes stand behind the last insertion, in order, as far as there are slots, and nothing else changes |
| KeyStores.RunFound | lib/q3p/db/db_ram.cpp:158-187 | A run of keys is found exactly when the store holds one |
| KeyStores.FirstStartIsFirst | lib/q3p/db/db_ram.cpp:158-187 | The run that is found is the first one |
| KeyStores.KeyDb.FindContinuous | lib/q3p/db/db_ram.cpp:158-187 | The scan with its restarts finds the first run of keys that covers the bytes, and none only when there is none |
| KeyStores.KeyDb.Ring | lib/q3p/db/db_ram.cpp:464-470 | The keys of these ids as one ring of their bytes |
| Authentication.Authenticator.Tag | bin/modules/qkd-auth/qkd-auth.cpp:775-840 | The hash masked by the first or the second key of the run; nothing for a null context or when no run is long enough |
| Authentication.Authenticator.Prepare | bin/modules/qkd-auth/qkd-auth.cpp:186-228 | All four tags, or nothing is sent |
| Authentication.Authenticator.Conclude | bin/modules/qkd-auth/qkd-auth.cpp:303-329 | The crosswise comparison of the tags; on success the used keys go and Bob takes over Alice's threshold |
| Authentication.Authenticator.StoreBytes | bin/modules/qkd-auth/qkd-auth.cpp:718-758 | Whole quanta go into the store in order, a shorter rest is dropped |
| Authentication.Authenticator.Nibble | bin/modules/qkd-auth/qkd-auth.cpp:692-709 | The high end of the key, at most the threshold, goes into the store, and the key keeps the rest |
| Authentication.Authenticator.RefillLocalKeystores | bin/modules/qkd-auth/qkd-auth.cpp:527-548 | Alice fills incoming first, Bob outgoing, each only below the threshold and only from amplified keys |
| Authentication.TagsCompare | bin/modules/qkd-auth/qkd-auth.cpp:775-840 | From one store two parties get the same tag exactly when their finished hashes are equal |
| Authentication.VerdictMeans | bin/modules/qkd-auth/qkd-auth.cpp:176-329 | With mirrored stores a side confirms exactly when contexts and key ids are consistent crosswise and the stores hold long enough runs |
| Authentication.SameVerdict | bin/modules/qkd-auth/qkd-auth.cpp:176-329 | Both sides reach the same verdict exactly when both or neither of them have no context at all |
| Authentication.OneNullContextFails | bin/modules/qkd-auth/qkd-auth.cpp:180-228 | With exactly one null context a side never confirms, although the code means to go on from there |
| Authentication.DeletesMirrored | bin/modules/qkd-auth/qkd-auth.cpp:316-327 | The same keys are deleted on both sides, and after a confirmation the thresholds are equal |
| Authentication.RolesApart | bin/modules/qkd-auth/qkd-auth.cpp:801-822 | The keys that mask the tags of Alice and of Bob are consecutive parts of the key material |
| Authentication.UsedKeysGone | bin/modules/qkd-auth/qkd-auth.cpp:316-327 | After a confirmation none of the used keys is left in the stores, and all others are |
| Authentication.NoKeyTwice | bin/modules/qkd-auth/qkd-auth.cpp:316-327 | Over every run from empty stores no stored key that masked the tags of a confirmed key is used for the tags of a later one |
| Authentication.RefillMirrored | bin/modules/qkd-auth/qkd-auth.cpp:527-548 | Filling up from equal keys keeps the stores mirrored and leaves equal keys |
| Authentication.RefillFills | bin/modules/qkd-auth/qkd-auth.cpp:527-548 | A long enough amplified key brings both stores up to the threshold, but for less than a quantum, as long as the stores have slots; a store at the threshold stays as it is |
| Authentication.WorkMirrored | bin/modules/qkd-auth/qkd-auth.cpp:457-518 | One key, whatever was hashed: stores stay mirrored, and both sides forward the same bytes or none |
| Authentication.RunMirrored | bin/modules/qkd-auth/qkd-auth.cpp:457-518 | Over every run of keys and threshold changes on either side the stores stay mirrored |
| Authentication.SameKeysDeleted | bin/modules/qkd-auth/qkd-auth.cpp:316-327 | A side that confirms with a context deletes from each store the keys that the other deletes from its mirror image, and the other confirms too |
| Authentication.RunAgrees | bin/modules/qkd-auth/qkd-auth.cpp:457-518 | At every key of every run the verdicts and the forwarded bytes are the same on both sides unless just one of them has no context at all; after a confirmation so are the deleted keys and the thresholds |
| Authentication.RunForwards | bin/modules/qkd-auth/qkd-auth.cpp:475-497 | At every key of every run a side with a context forwards it only when contexts and ids agree crosswise, and changes nothing otherwise |
| Authentication.Authenticate | bin/modules/qkd-auth/qkd-auth.cpp:176-329 | The two modules exchange their tags, each sending before it waits, and reach exactly these verdicts and stores |
| Authentication.Process | bin/modules/qkd-auth/qkd-auth.cpp:457-518 | On one key and mirrored stores a side forwards what is left of the key exactly when it has no context at all, or contexts and ids agree crosswise and both stores hold long enough runs; otherwise key, stores and threshold stay |
| Authentication.RunBoth | bin/modules/qkd-auth/qkd-auth.cpp:457-518 | The two modules over any run end in the states of the run, and forward the same keys when their stores begin mirrored and at every key both or none have a context |
| Confirmation.Confirmer.ProcessBob | bin/modules/qkd-confirmation/qkd-confirmation.cpp:249-325 | Parities under the received masks, counters and state; another id or size is refused without an answer and without counting |
| Confirmation.Confirmer.AliceConcludes | bin/modules/qkd-confirmation/qkd-confirmation.cpp:205-237 | Comparison with Bob's parities, counters and state |
| Confirmation.Process | bin/modules/qkd-confirmation/qkd-confirmation.cpp:148-325 | The verdicts agree unless just one key is disclosed; they mean same id, same size and no difference under any mask; equal keys are always confirmed; both sides count the same |
| Confirmation.MaskedDifference | bin/modules/qkd-confirmation/qkd-confirmation.cpp:179-193 | A mask tells two keys apart exactly when it selects an odd number of their differences |
| Confirmation.CountSelecting | bin/modules/qkd-confirmation/qkd-confirmation.cpp:179-193 | Exactly half of all masks do so when there is a difference, none otherwise |
| Confirmation.ConfirmingShare | bin/modules/qkd-confirmation/qkd-confirmation.cpp:168-240 | Of the 2^(n r) choices of r masks all confirm equal keys and exactly 2^((n - 1) r) confirm unequal ones |
| Resizing.SplitBytes | bin/modules/qkd-resize/qkd-resize.cpp:179-221 | Cutting keeps all bytes in order, for any buffer |
| Resizing.JoinBytes | bin/modules/qkd-resize/qkd-resize.cpp:223-270 | The keys made and what stays buffered are all bytes in order, for any buffer |
| Resizing.CutInStep | bin/modules/qkd-resize/qkd-resize.cpp:190-218 | When both runs count a key from the same start, cutting it leaves less than the exact size behind the last exact key |
| Resizing.CutOutOfStep | bin/modules/qkd-resize/qkd-resize.cpp:190-218 | When they count it from different starts, the exact size or more is left exactly when the key reaches beyond the next exact key |
| Resizing.LeftExactly | bin/modules/qkd-resize/qkd-resize.cpp:184-280 | For any buffer and any next key: the exact size or more is left exactly when the runs are out of step and the key reaches beyond the next exact key |
| Resizing.TakesEveryKey | bin/modules/qkd-resize/qkd-resize.cpp:165-280 | No next key makes the source throw exactly when the bytes counted since the last cut are those joined since the last exact key |
| Resizing.BelowTakes | bin/modules/qkd-resize/qkd-resize.cpp:165-280 | With less than the exact size buffered this is so |
| Resizing.ExactPicks | bin/modules/qkd-resize/qkd-resize.cpp:165-280 | One call gives keys of the exact size and a rest, all bytes in order, and tells exactly when the rest is too long or no key comes out |
| Resizing.Resizer.SplitKeys | bin/modules/qkd-resize/qkd-resize.cpp:179-221 | The first run in place |
| Resizing.Resizer.JoinKeys | bin/modules/qkd-resize/qkd-resize.cpp:223-271 | The second run with its marks and the removal |
| Resizing.Resizer.PickExactKeys | bin/modules/qkd-resize/qkd-resize.cpp:165-280 | The keys picked, the pieces that stay, and exactly for which buffers a logic error is thrown |
| Resizing.Resizer.PickMinimumKey | bin/modules/qkd-resize/qkd-resize.cpp:288-344 | All buffered bytes as one key once there are enough; none of the three errors |
| Resizing.Resizer.Take | bin/modules/qkd-resize/qkd-resize.cpp:379-387 | One more key is buffered and what can be forwarded is appended; a logic error is thrown exactly when the runs are out of step and the key reaches beyond the next exact key |
| Resizing.Resizer.Process | bin/modules/qkd-resize/qkd-resize.cpp:355-392 | Exact size: an error exactly when the first key fails, otherwise the keys are the stretches of what was buffered and received and less than the size stays; minimum size: every forwarded key is what came in since the one before, has at least the size and would not have it without the last key received, and less than the size stays; ids count up; the other modes pass the key as it is or drop it |
| Resizing.ExactStretches | bin/modules/qkd-resize/qkd-resize.cpp:165-280 | Keys of the exact size that make up a stream but for a shorter rest are its consecutive stretches |
| Resizing.ProcessAll | bin/modules/qkd-resize/qkd-resize.cpp:355-392 | Over every list of workloads in the exact mode, from less than the exact size buffered: no call fails, and the forwarded keys are the stretches of everything received, with consecutive ids |
| Resizing.SameKeys | bin/modules/qkd-resize/qkd-resize.cpp:355-392 | Two modules that receive the same bytes, cut in whatever way, forward the same keys and keep the same rest |
| Resizing.LoweredSizeFails | bin/modules/qkd-resize/qkd-resize.cpp:400-404 | After the exact size was lowered from eight to four with seven bytes buffered, the next two bytes make the source throw |

## Left out

- I/O, DBus, configuration, logging, threads, pausing and timeouts: messages are passed in order and none is lost; a
  message that is not sent counts as a failed receive.
- Random sources: masks are arbitrary, and draws of the shuffle lie between i and n - 1.
- Floating point: error rates, the reduction rate, disclosed-bit shares of a cut key, and the choice of the first two
  Cascade block sizes, which are parameters of at least one bit.
- The alternative modulus 13 * 2^20 + 1, which the preprocessor switches off.
- `bigint`, `memory` and `buffer`: bit sequences, byte sequences and messages that arrive as they were sent.
- Blobs that are passed by reference are values; only the shifts and the tables update arrays in place. The aliasing of
  result and operand in `mul` and `shift` is therefore not modelled.
- Irreducibility of the five moduli: nothing proved here needs it.
- Context cloning through scheme strings: a clone is a copy of the state. In resizing the contexts of the keys are not
  modelled, only the keys.
- 32-bit block offsets: offsets and sizes of Cascade blocks are unbounded.
- Cascade with more than one category, which the source never uses.
- The ordered sets of blocks are sets; the order in which they are visited is that of `BlockCorrection.InOrder`, and
  the search by offset picks the last block that does not start behind the bit.
- Sanity checks of `correct_blocks` on its argument: it is always the odd set of the checker itself, whose blocks exist
  and are odd by the invariant.
- Flags of the key store other than the one for valid keys, and its counters, which `find_continuous` is never asked to
  set here.
- KeyStores.KeyDb.Insert: the number of a slot behind the end is not modelled, because it depends on what the memory
  behind the flags holds; no such slot is stored to and the search never comes back from there.
- KeyStores.KeyDb.FindContinuous: does not model the reservation of keys, because the authentication module asks for
  none.
- PrivacyAmplification.Perform: what the entry behind the array does to other memory is not modelled; and there must be
  a shift bit when the number of bits is a power of two, because the source reads the last one.
- Cascade.Process: needs keys of at least one bit, because the source divides by a block size of zero without.
- Authentication.Process: creation of the next contexts after the authentication is not part of this model.
- BB84 sifting, error estimation, the simple pipeline modules, key serialisation and the second copy of the field code
  in `lib/crypto/gf2.h`: nothing harder than the members above.
