# A verified model of AFL++ and SWAM algorithms

This project models the algorithmic cores of the fuzzer in Dafny and proves
what they are for. The models keep the branches, constants and error cases of
the sources; code that changes state in place is modelled by classes, arrays
and loops that are proved against functions on values.

| files | what they model |
|---|---|
| `Words`, `Bits`, `Wrappers` | machine words, bytes, copies, bitwise operations |
| `Xxh3Mix`, `Xxh3Short`, `Xxh3Medium`, `Xxh3Long`, `Xxh3Stream`, `Xxh3State` | the 64-bit XXH3 hash, one-shot and streaming |
| `Xxh64`, `Xxh32` | the older two hashes, one-shot and streaming |
| `Literals`, `DigestSteps`, `Xxh3Digests`, `Xxh64Digests`, `Xxh32Digests` | the hashes of some inputs, worked out to numbers |
| `CminWorker`, `CminQueue`, `CminRuns`, `CminMerge`, `CminCover`, `CminWhole` | the parallel corpus minimiser |
| `HavocDice`, `HavocNumber`, `Sattolo`, `HavocSpec`, `HavocStep`, `Havoc`, `HavocRun`, `HavocReach` | the havoc mutator |
| `List` | the intrusive list with its pool of elements |
| `Coverage`, `CoverageMap` | classification and discovery on coverage maps |
| `LtoPrune`, `LtoIds` | block pruning and counter numbering of the LTO pass |
| `T1ha`, `Random`, `Realloc` | carry multiplication, unbiased random numbers, growing buffers |

Machine words are natural numbers below a power of two; sums, products and
left shifts wrap explicitly, and exclusive or is defined bit by bit, so that
its laws are proved and not taken from a bit-vector theory.

How the main results hang together:

- **Hashes.** One reference (`StripesAcc` for XXH3, `Steps` for XXH64 and
  XXH32) says what n stripes do. The one-shot loops, the scalar and the vector
  code, and every update of the streaming state refine it, so `HashChunks`
  holds for every way of cutting the input. What the reference itself computes is
  fixed by the unrolled and rolled forms of the code, by exact conditions for
  equal hashes (`Xxh3Medium`), and by hashes worked out to numbers.
- **Minimiser.** `CminQueue` is a step model of dispatcher, workers and main
  process; its invariant counts files, sentinels and messages. `MinimiseCorpus`
  takes any complete run of it through the workers (`RunWorkers`), the merging
  (`AnyRunGivesPlan`) and the two phases (`Minimise`).
- **Mutator.** The random numbers are given as arbitrary dice, by what they are
  asked for. Each operator is proved equal to a plain sequence operation, although
  it works through a staging buffer or by moving bytes within the buffer.
  `StepEffect` gives the effect of each of the 37 operators for the numbers it
  draws, `ChosenBy` says that these are what the dice give, `GivesWay` where an
  operator has to leave its step to another one. `AflMutate` strings them together,
  `DiceDetermine` says that input and dice leave no freedom, and
  `EveryChainComesOut` that every chain of such effects is what it does with some
  dice: no draw of the code is lost.
- **Coverage.** The bytewise meaning is the reference. Words of four and eight
  bytes and packs of words are parameters of the same methods, so all forms
  agree by having the same contract. `VerdictByCounts` says in terms of hit counts
  alone what the verdicts mean.
- **LTO.** The pruned blocks follow from the counted ones: first locally, for
  one pruned block, then for whole runs, of which one returns
  (`CountersDetermineBlocks`); and no block is counted in vain
  (`CountedExactly`). Numbers are counted in 32 bits as in the code; `IndicesFit` and `IndicesDistinct` hold under a condition on the inputs that
  `FitsExactly` and `IndicesFitExactly` show to be the exact one.

Where code and comments or intentions disagree, the model follows the code:

- The comment on `rand_below` admits a slight bias; `EveryResidueAlike` proves
  there is none.
- `MUT_ARITH32BE` adds before it swaps, so it acts on the little-endian value;
  `ArithMeetsIntent` says exactly when that makes no difference.
- `MUT_ASCIINUM` limits the printed text to seven characters
  (`ShownIsWhole` says exactly when nothing is cut off).
- `next_pow2` smears over 32 bits only, and neither rounds all larger inputs to
  a power of two nor becomes zero for all that overflow; `NextPow2Exact` gives
  the exact condition and `NextPow2Fails` an input.
- `afl_realloc` is documented to return NULL for a size below one; it does not.
- A refused `XXH3_64bits_reset_withSecret` has already overwritten the state,
  whereas the variant with secret and seed refuses first.
- The check for a negative `AFL_LLVM_LTO_STARTID` compares an unsigned number
  and never fires; start numbers are only raised to 4. With -1 the first index
  is 0 (`StartIdWraps`).

## Model

| member | source | states |
|---|---|---|
| Xxh3State.HashChunks | aflpp/include/xxhash.h:7084-7247 | for every cut of the input into updates, in every mode and from any earlier state of the object, the streaming digest is the one-shot hash |
| Xxh3State.State.Update | aflpp/include/xxhash.h:7084-7178 | after an update the accumulators, the buffer with its kept tail of 64 bytes, and the stripe counter are those of the whole input so far, for any chunk |
| Xxh3State.State.Digest | aflpp/include/xxhash.h:7227-7247 | the digest is the one-shot hash of everything since the reset, and leaves the state alone |
| Xxh3State.DigestLong | aflpp/include/xxhash.h:7184-7225 | from copied accumulators, buffered stripes and a last stripe patched together from old and new bytes come the accumulators of the whole input |
| Xxh3State.LastStripe | aflpp/include/xxhash.h:7203-7222 | the patched last stripe is the last 64 bytes of the input |
| Xxh3State.State.ResetInternal | aflpp/include/xxhash.h:6933-6957 | all streaming fields start over, the seed and the external secret are recorded |
| Xxh3State.State.Reset | aflpp/include/xxhash.h:6962-6968 | default mode, ready for an empty input |
| Xxh3State.State.ResetWithSecret | aflpp/include/xxhash.h:6971-6981 | accepts a secret of at least 136 bytes, and reports anything else as an error |
| Xxh3State.State.ResetWithSeed | aflpp/include/xxhash.h:6984-6994 | seeded mode; afterwards the derived secret is the one of this seed, whether it was derived now or before |
| Xxh3State.State.ResetWithSecretAndSeed | aflpp/include/xxhash.h:6997-7008 | secret and seed together; refused without any change if the secret is missing or short |
| Xxh3State.State.SecretIsCurrent | aflpp/include/xxhash.h:6984-6994 | in every valid ready state the secret in use is the one the mode calls for: a stale derived secret is never used |
| Xxh3Stream.GeneratedSecretAgrees | aflpp/include/xxhash.h:6795-6805 | with the 192-byte secret generated from a seed, secret-and-seed hashing equals seeded hashing on all inputs |
| Xxh3Stream.ZeroSeedSecret | aflpp/include/xxhash.h:6703-6707 | seed zero derives the default secret, so the shortcut for it changes nothing |
| Xxh3Stream.InitCustomSecret | aflpp/include/xxhash.h:6403-6470 | the scalar loop derives the secret of the seed |
| Xxh3Stream.InitCustomSecretVector | aflpp/include/xxhash.h:5620-5658 | whole registers with alternating plus and minus seed derive the same secret, for all three register widths |
| Xxh3Stream.ConsumeStripes | aflpp/include/xxhash.h:7029-7071 | any number of stripes, across any number of block ends, moves the accumulators from n to n + k stripes of the input, and the counter to the place in the block |
| Xxh3Long.HashLongLoop | aflpp/include/xxhash.h:6533-6578 | the nested block loop computes the accumulators defined stripe by stripe |
| Xxh3Long.HashLongOneShot | aflpp/include/xxhash.h:6629-6649 | the long one-shot hash is the reference hash of the stripes |
| Xxh3Long.MergeLoop | aflpp/include/xxhash.h:6580-6603 | the loop over four pairs of lanes, keyed from byte 11 of the secret on, merges the accumulators |
| Xxh3Long.BlockIsStripes | aflpp/include/xxhash.h:6544-6556 | accumulating a whole block and scrambling once equals taking its stripes one by one with a scramble at the end of the block |
| Xxh3Long.AccumulateScalar | aflpp/include/xxhash.h:6307-6353 | lane after lane, each touching its neighbour, equals all lanes at once |
| Xxh3Long.AccumulateVector | aflpp/include/xxhash.h:5540-5580 | registers with swapped neighbours compute the same lanes, for two, four or eight lanes at a time |
| Xxh3Long.ScrambleScalar | aflpp/include/xxhash.h:6364-6398 | the scalar scramble is the scramble of all lanes |
| Xxh3Long.ScrambleVector | aflpp/include/xxhash.h:5584-5618 | multiplying in two halves gives the same lanes modulo 2^64 |
| Xxh3Long.StripesAccPrefix | aflpp/include/xxhash.h:6533-6578 | later input does not change what earlier stripes contributed |
| Xxh3Mix.Mult64to128Exact | aflpp/include/xxhash.h:4913-4927 | high * 2^64 + low is the exact product, and no intermediate sum wraps |
| Xxh3Mix.Avalanche64Bijective | aflpp/include/xxhash.h:3736-3745 | the avalanche has a two-sided inverse on 64-bit words |
| Xxh3Mix.ShortestInputsNeverCollide | aflpp/include/xxhash.h:5021-5048 | for any one secret and seed, equal hashes of inputs of one to three bytes mean equal inputs |
| Xxh3Medium.UnrolledPairs | aflpp/include/xxhash.h:5203-5226 | the unrolled sum over explicit positions of input and key is the hash of 17 to 128 bytes |
| Xxh3Medium.RolledPairs | aflpp/include/xxhash.h:5189-5202 | so is the loop that ends with pair zero |
| Xxh3Medium.TwoSums | aflpp/include/xxhash.h:5238-5308 | the two loops and the last 16 bytes give the hash of 129 to 240 bytes |
| Xxh3Medium.Avalanche3Bijective | aflpp/include/xxhash.h:4962-4969 | the avalanche of XXH3 has a two-sided inverse |
| Xxh3Medium.HighWordDecides | aflpp/include/xxhash.h:5073-5095 | 9 to 16 bytes of which the first eight are the same have equal hashes exactly if their high words plus folded products are equal |
| Xxh3Medium.LowWordDecides | aflpp/include/xxhash.h:5073-5095 | and if the last eight are the same, exactly if their turned low words plus folded products are |
| Xxh3Medium.LastSixteenDecide | aflpp/include/xxhash.h:5180-5231 | 17 to 32 bytes of which the first 16 are the same have equal hashes exactly if the last 16 mix to the same word under the key at 16 |
| Xxh3Medium.FirstSixteenDecide | aflpp/include/xxhash.h:5180-5231 | and if the last 16 are the same, exactly if the first 16 do under the key at 0 |
| Xxh3Medium.EarlyRoundDecides | aflpp/include/xxhash.h:5255-5260 | 129 to 240 bytes that differ in one of the first eight rounds only have equal hashes exactly if that round mixes to the same word |
| Xxh3Medium.LateRoundDecides | aflpp/include/xxhash.h:5289-5304 | the same for one of the later rounds, whose keys start at 3 |
| Xxh3Medium.TailDecides | aflpp/include/xxhash.h:5262-5265 | and if only bytes after the last whole round differ, exactly if the last 16 bytes mix to the same word under the key at 119 |
| Xxh3Digests.Empty | aflpp/include/xxhash.h:5112-5113 | the hash of no bytes with a seed, as a number |
| Xxh3Digests.Three | aflpp/include/xxhash.h:5021-5048 | the hash of three bytes with a seed, as a number |
| Xxh3Digests.Six | aflpp/include/xxhash.h:5050-5071 | the hash of six bytes with a seed, as a number |
| Xxh3Digests.Twelve | aflpp/include/xxhash.h:5073-5095 | the hash of twelve bytes with a seed, as a number |
| Xxh3Digests.Full | aflpp/include/xxhash.h:5180-5231 | the hash of 24 bytes with a seed, as a number, by way of two 16-byte mixes |
| Xxh3Short.RotlIsRot | aflpp/include/xxhash.h:4976-4987 | the shifts of a rotation are that many rotations by one bit |
| Xxh3Short.RrmxmxInjective | aflpp/include/xxhash.h:4976-4987 | for a given length the mixer is injective, rotations, products and shifted length alike |
| Xxh3Short.ShortInputsNeverCollide | aflpp/include/xxhash.h:5050-5071 | for any one secret and seed, equal hashes of inputs of one length from four to eight bytes mean equal inputs |
| Xxh64.HashChunks | aflpp/include/xxhash.h:3920-4029 | for every cut of the input, of fewer than 2^64 bytes, streaming equals the one-shot hash |
| Xxh64.OneShot | aflpp/include/xxhash.h:3818-3864 | the one-shot loop computes the hash defined stripe by stripe |
| Xxh64.State.Update | aflpp/include/xxhash.h:3934-3998 | lanes and buffer after an update are those of the whole input |
| Xxh64.State.Digest | aflpp/include/xxhash.h:4005-4029 | the digest is the reference hash of all input |
| Xxh64.FinalizeLoop | aflpp/include/xxhash.h:3764-3798 | the loops over words of eight, four and one bytes compute the reference finalisation |
| Xxh64.HashOfStream | aflpp/include/xxhash.h:4005-4029 | the reference hash, from lanes, buffer and length alone |
| Xxh64Digests.Long64 | aflpp/include/xxhash.h:3818-3864 | the hash of 47 bytes with a seed, as a number: one stripe, then a word of eight, one of four and three bytes |
| Xxh32.HashChunks | aflpp/include/xxhash.h:3393-3507 | for every cut, streaming equals the one-shot hash, also after the 32-bit length has wrapped |
| Xxh32.LengthCounts | aflpp/include/xxhash.h:3422-3426 | the wrapped length with the flag for large inputs tells whether at least 16 bytes came, for any true total |
| Xxh32.OneShot | aflpp/include/xxhash.h:3295-3338 | the one-shot loop computes the hash defined stripe by stripe |
| Xxh32.State.Update | aflpp/include/xxhash.h:3407-3484 | lanes, buffer, wrapped length and flag after an update are those of the whole input |
| Xxh32.State.Digest | aflpp/include/xxhash.h:3487-3507 | the digest is the reference hash of all input |
| Xxh32.FinalizeLoop | aflpp/include/xxhash.h:3191-3210 | the loop form of the finalisation computes the reference one |
| Xxh32.FinalizeSwitch | aflpp/include/xxhash.h:3212-3268 | the unrolled switch computes the same finalisation as the loop |
| Xxh32Digests.Long32 | aflpp/include/xxhash.h:3295-3338 | the hash of 47 bytes with a seed, as a number: two stripes, then three words and three bytes |
| CminRuns.EveryFileOnce | aflpp/afl-cmin.py:457-525 | in every interleaving that ends, all workers stopped, every file was handled exactly once, and every message and result arrived exactly once |
| CminRuns.EveryRunEnds | aflpp/afl-cmin.py:465-496 | every run is shorter than a bound fixed at the start, and a state without a next step is final: no deadlock |
| CminRuns.NeverStuck | aflpp/afl-cmin.py:465-496 | short of the end, some process can always make a step |
| CminQueue.StepInv | aflpp/afl-cmin.py:457-525 | every step of the dispatcher, of a worker and of the main process keeps the conservation laws for files, sentinels and messages |
| CminQueue.StepCosts | aflpp/afl-cmin.py:457-525 | every step lowers the measure of what is left to do |
| CminWhole.BatchedInOrder | aflpp/afl-cmin.py:37-55 | the batches together are the files in their order, none is empty or too large, and only the last may be short |
| CminWorker.Worker.HandleFile | aflpp/afl-cmin.py:497-523 | after a file, table, counter, crash list, pack and records are those of all files handled so far; a record is sent exactly if the file is a new best for some tuple |
| CminWorker.Worker.Run | aflpp/afl-cmin.py:490-525 | all batches up to the sentinel: every file handled in order, with one message each, and tables, pack and records are those of all of them |
| CminWorker.LowerTable | aflpp/afl-cmin.py:511-515 | the table keeps the least file index for each tuple, and reports whether any entry went down |
| CminWorker.EncodeThenDecode | aflpp/afl-cmin.py:536-544 | what was packed reads back, at the recorded place and length, whatever was packed before and after |
| CminWorker.DetectedSizesFit | aflpp/afl-cmin.py:289-292 | the item sizes chosen hold every tuple index and leave room above every file index |
| CminMerge.AnyRunGivesPlan | aflpp/afl-cmin.py:665-705 | given what the workers hold, whatever their number and the schedule, the merged table holds the smallest file index with each tuple, the merged counter all occurrences, and every best file has a record that points at its own trace |
| CminWhole.HandledOnce | aflpp/afl-cmin.py:490-525 | in a complete run every worker handles different files of the corpus |
| CminWhole.MessagesAnyOrder | aflpp/afl-cmin.py:685-692 | whatever order the messages of a complete run arrive in, the records known in the end are the same |
| CminWhole.RunWorkers | aflpp/afl-cmin.py:482-525 | the workers, run on the files that any complete run gave them, hold exactly what the merging needs |
| CminWhole.MinimiseCorpus | aflpp/afl-cmin.py:457-791 | from any complete run of the queues through workers, merging and both phases: the files saved are distinct and cover every tuple, the first ones are indispensable, and each later one is the first file with a rarest tuple still missing |
| CminMerge.MergedMinTable | aflpp/afl-cmin.py:694-705 | the entrywise minimum of the workers' tables is the table of all files |
| CminMerge.OccurrencesPermute | aflpp/afl-cmin.py:696-702 | the counter does not depend on the order in which files were handled |
| CminMerge.MergedTableAnyOrder | aflpp/afl-cmin.py:696-705 | the merged table is the same in whatever order the results arrive |
| CminMerge.InfoAnyOrder | aflpp/afl-cmin.py:685-692 | the records known after all messages are the same in whatever order these arrive, if each file has at most one |
| CminCover.Minimise | aflpp/afl-cmin.py:722-791 | the files saved are distinct and cover every tuple seen; phase one saves exactly the indispensable files if no trace repeats a tuple, and only such files in any case; every later file is the first one with a rarest missing tuple |
| CminCover.EssentialIsEverywhere | aflpp/afl-cmin.py:746-762 | a file that alone has some tuple is in every covering choice |
| CminCover.SaveUnique | aflpp/afl-cmin.py:746-762 | phase one saves the best files of the tuples counted once, each once, with a job that points at its trace |
| CminCover.CombineTraces | aflpp/afl-cmin.py:528-546 | a combining worker reads exactly the traces of the files saved so far |
| CminCover.SaveMissing | aflpp/afl-cmin.py:777-791 | phase two leaves no counted tuple uncovered, and every file it saves is the first of the corpus with a tuple that is missing and than which no missing one is rarer |
| CminCover.RarestAdds | aflpp/afl-cmin.py:777-791 | so every file saved has a tuple that none before it has |
| CminWhole.ListTuples | aflpp/afl-cmin.py:722-722 | all tuples of the counter, each once, none before a more common one |
| Havoc.AflMutate | aflpp/include/afl-mutations.h:1860-2792 | zero for an empty input or without memory; otherwise all steps are done, and no more, or all draws are used up; every state follows from the one before by the operator that the dice give and by what it draws from them, or is the same where that operator has to give way |
| Havoc.Mutator.Mutate | aflpp/include/afl-mutations.h:1922-2792 | the states of a run have lengths from 1 to max_len; every draw is on record with what became of it, and the run ends with the last step or the last draw |
| Havoc.Mutator.Step | aflpp/include/afl-mutations.h:1924-2790 | each of the 37 operators has exactly its own effect with exactly the numbers that the dice give, or gives way exactly where there is no room, no number, no dictionary, no entry that fits, or nothing to splice from |
| HavocStep.EffectDetermined | aflpp/include/afl-mutations.h:1924-2790 | the numbers an operator draws leave no freedom, the strategy and the place where a search for digits starts included: they determine the result |
| HavocStep.WayOrEffect | aflpp/include/afl-mutations.h:1924-2790 | an operator that gives way could have no effect with what it drew; those on bytes, words and blocks within the input never give way |
| HavocRun.FollowsOnce | aflpp/include/afl-mutations.h:1924-2790 | from the same bytes, the dice determine whether an operator has its effect and the bytes after it |
| HavocRun.DiceDetermine | aflpp/include/afl-mutations.h:1922-2792 | two runs with the same input, dice and bounds go through the same states |
| HavocReach.EveryChoiceIsDrawn | aflpp/include/afl-mutations.h:1924-2790 | there are dice for every effect and for every choice with which an operator gives way, so the effects are exactly what the operators can do |
| HavocReach.EveryChainComesOut | aflpp/include/afl-mutations.h:1922-2792 | every chain of effects and of operators that give way, up to the last step or draw, is what the mutator does with some dice |
| HavocReach.BlockReached | aflpp/include/afl-mutations.h:1819-1858 | every block length up to 32768 and within the limit is drawn |
| HavocStep.EffectLength | aflpp/include/afl-mutations.h:1924-2790 | no effect leaves the bounds from 1 to max_len, and only insertions, deletions and number rewriting change the length |
| HavocStep.EffectBag | aflpp/include/afl-mutations.h:2292-2380 | switching and shuffling lose no byte |
| HavocStep.ExchangeUndone | aflpp/include/afl-mutations.h:2292-2334 | switching again with the same choices undoes it |
| HavocStep.StoredReads | aflpp/include/afl-mutations.h:1951-2001 | a stored word reads back in the byte order of its operator |
| HavocDice.ChooseBlockLen | aflpp/include/afl-mutations.h:1819-1858 | the length that the dice give in the range of its class, never zero, never above 32768, and within the limit unless that is zero |
| HavocDice.RandOther | aflpp/include/afl-mutations.h:2301-2305 | a draw repeated until it differs gives the first number that does |
| Havoc.Mutator.EditByte | aflpp/include/afl-mutations.h:1930-2290 | one byte gets the value of its operator for the number drawn: a bit flipped, an interesting value, a bounded difference, another byte, the complement |
| HavocStep.EditChanges | aflpp/include/afl-mutations.h:1930-2290 | except for the interesting values, no draw leaves the byte as it was |
| HavocStep.EditFlips | aflpp/include/afl-mutations.h:1930-1939 | the bit flip changes the bit drawn and no other |
| HavocStep.EditInteresting | aflpp/include/afl-mutations.h:1941-1949 | the byte stored, read with its sign, is the entry of the table |
| HavocStep.EditUndone | aflpp/include/afl-mutations.h:1930-2290 | for equal draws adding and subtracting on a byte undo each other, as do one more and one less, and a flip, an exclusive or and the complement undo themselves |
| HavocStep.TableHasEdges | aflpp/include/config.h:396-438 | the interesting values of a width have the numbers at which words of that width and of every smaller one overflow, signed and unsigned, and the first numbers that the smaller ones do not hold |
| HavocStep.TableFits | aflpp/include/config.h:396-438 | every interesting value fits a signed word of its width |
| HavocStep.EditReaches | aflpp/include/afl-mutations.h:2135-2145 | the random byte operator makes every other byte, each by one draw alone |
| Havoc.Mutator.StoreWord | aflpp/include/afl-mutations.h:1951-2001 | the entry drawn from the interesting values of the width is stored in the chosen byte order, or nothing happens if it does not fit |
| Havoc.Mutator.ArithWord | aflpp/include/afl-mutations.h:2023-2133 | one more than the number drawn, at most 35, is added or subtracted modulo the word size, in the byte order that takes effect |
| HavocStep.ArithBytesMeans | aflpp/include/afl-mutations.h:2023-2133 | the swaps around the addition amount to arithmetic in one byte order: the one named, or the little-endian one for the big-endian 32-bit addition |
| HavocStep.ArithMeetsIntent | aflpp/include/afl-mutations.h:2121-2133 | arithmetic takes effect in the byte order named, except that the big-endian 32-bit addition does so exactly if one is added to four bytes of 255 |
| HavocStep.Arith32BEFails | aflpp/include/afl-mutations.h:2121-2133 | adding one to four zero bytes changes the first byte and not the last |
| Havoc.Mutator.Stage | aflpp/include/afl-mutations.h:2163-2180 | head, block and tail by way of the staging buffer are one replacement in the sequence |
| Havoc.Mutator.CloneCopy | aflpp/include/afl-mutations.h:2148-2185 | a block of the input is inserted exactly if 32768 more bytes would fit |
| Havoc.Mutator.CloneFixed | aflpp/include/afl-mutations.h:2187-2226 | a block of the byte drawn, or of the byte before it, is inserted exactly if 32768 more bytes would fit |
| Havoc.Mutator.OverwriteCopy | aflpp/include/afl-mutations.h:2228-2246 | a block overwrites another one as if copied first, also when they overlap |
| Havoc.Mutator.OverwriteFixed | aflpp/include/afl-mutations.h:2248-2263 | a block is overwritten with the byte drawn, or with the byte before it |
| Havoc.Mutator.Switch | aflpp/include/afl-mutations.h:2292-2334 | two regions that do not overlap change places, and no byte is lost |
| HavocSpec.SwitchLaws | aflpp/include/afl-mutations.h:2292-2334 | switching twice restores the input, the order of the two regions does not matter, and the bytes are kept |
| Havoc.Mutator.Delete | aflpp/include/afl-mutations.h:2336-2352 | a block is removed, never the whole input |
| Havoc.Mutator.Shuffle | aflpp/include/afl-mutations.h:2354-2380 | a block is permuted by the exchanges drawn, in one single cycle, so that of two bytes or more none stays in place; no byte is lost |
| Havoc.ShuffleBlock | aflpp/include/afl-mutations.h:2363-2376 | the loop, whatever it draws, permutes the block in one single cycle, and its bytes stay the same as a multiset |
| Sattolo.ShuffleStep | aflpp/include/afl-mutations.h:2363-2376 | one exchange settles a position with a byte from elsewhere and keeps the map a permutation |
| Sattolo.CyclicStep | aflpp/include/afl-mutations.h:2363-2376 | an exchange joins the cycles of the two positions and leaves the other cycles alone |
| Sattolo.ArrangedIsCycle | aflpp/include/afl-mutations.h:2363-2376 | after the last exchange the positions form one single cycle, whatever was drawn |
| Sattolo.VisitsAll | aflpp/include/afl-mutations.h:2363-2376 | following the map from any position visits every position |
| Sattolo.DrawsDiffer | aflpp/include/afl-mutations.h:2363-2376 | different draws give different permutations, so that draws that are all alike favour none |
| Havoc.Mutator.InsertOne | aflpp/include/afl-mutations.h:2401-2428 | the byte drawn, or the one before, is inserted if there is room |
| Havoc.Mutator.AsciiNumber | aflpp/include/afl-mutations.h:2430-2609 | the number found from the place drawn gives way to what the strategy and its draw make of it, as printed; nothing else changes |
| HavocNumber.FindDigit | aflpp/include/afl-mutations.h:2434-2468 | finds a digit exactly if there is one, the first from the start on or else the first at all |
| HavocNumber.ParseNumber | aflpp/include/afl-mutations.h:2470-2495 | the value of the digits, as many of them as a signed 64-bit number can hold |
| HavocNumber.AdjustNumber | aflpp/include/afl-mutations.h:2499-2571 | the new value is that of the strategy and its draw, within the 64-bit range, from the number or from the number without its last digit |
| HavocNumber.StaysInRange | aflpp/include/afl-mutations.h:2499-2571 | no strategy leaves the 64-bit range; a digit is given up wherever some draw would have left it, and only where the largest draw or one more would have |
| HavocNumber.NumberOnce | aflpp/include/afl-mutations.h:2470-2495 | a number has one end and one value: the longest run of digits that a signed 64-bit number can hold |
| HavocNumber.ShownIsWhole | aflpp/include/afl-mutations.h:2573-2574 | the number written back is the number computed exactly from -999999 to 9999999, since the buffer size given is that of a pointer |
| HavocNumber.PrintThenParse | aflpp/include/afl-mutations.h:2573-2574 | a printed number parses to itself |
| HavocNumber.PrintedIsRead | aflpp/include/afl-mutations.h:2495-2497 | a printed number, sign included, is the number that the mutation reads at its first digit, for every value but the smallest |
| HavocNumber.ParsePrintExactly | aflpp/include/afl-mutations.h:2470-2574 | parsing and printing restores a text exactly if it has no leading zero |
| Havoc.Mutator.InsertAsciiNumber | aflpp/include/afl-mutations.h:2611-2652 | the last digits of a random number overwrite as many bytes |
| Havoc.Mutator.ExtraOverwrite | aflpp/include/afl-mutations.h:2654-2670 | the dictionary entry drawn overwrites part of the input; it gives way exactly without entries or if that entry is too long |
| Havoc.Mutator.ExtraInsert | aflpp/include/afl-mutations.h:2672-2692 | the dictionary entry drawn is inserted by moving the tail within the buffer; it gives way exactly without entries or if that entry has no room |
| Havoc.Mutator.SpliceOverwrite | aflpp/include/afl-mutations.h:2734-2752 | part of the other input overwrites part of this one |
| Havoc.Mutator.SpliceInsert | aflpp/include/afl-mutations.h:2754-2786 | part of the other input is inserted; retried exactly if there is none or no room |
| HavocSpec.InsertThenDelete | aflpp/include/afl-mutations.h:2336-2352 | deleting what was inserted restores the input |
| LinkedList.List.Append | aflpp/include/list.h:78-106 | the ring stays a cycle, the contents grow by the item at the end, and the element linked was not linked before |
| LinkedList.RunAll | aflpp/include/list.h:61-192 | any history of appends, removals and iterations leaves what a plain sequence would hold, and ends the program exactly where that has no answer |
| LinkedList.List.Allocate | aflpp/include/afl-prealloc.h:58-88 | finds a free slot whenever the counter says there is one, otherwise allocates; never an element of the ring |
| LinkedList.List.Free | aflpp/include/afl-prealloc.h:107-140 | the slot is free again; neither the double-free nor the negative-counter check can fail |
| LinkedList.List.Foreach | aflpp/include/list.h:114-158 | every item is seen once and in order, while the body removes or keeps each of them as it likes; what is left is what was kept |
| LinkedList.List.Clear | aflpp/include/list.h:146-156 | a clearing iteration sees every item once and in order, and leaves the head alone in the ring, one slot in use and both counters to match |
| LinkedList.List.Unlink | aflpp/include/list.h:135-142 | the current element leaves the ring, everything else stays |
| LinkedList.List.Remove | aflpp/include/list.h:160-178 | removes the first occurrence; fatal exactly if there is none or no list |
| LinkedList.List.Contains | aflpp/include/list.h:182-192 | true exactly if the item is in the list |
| LinkedList.List.CountersMean | aflpp/include/list.h:51-59 | the pool counter is the number of slots held by the head and the linked elements, exactly these are marked used, and the other counter is the length |
| Coverage.InitCountClass16 | aflpp/src/afl-fuzz-bitmap.c:193-209 | the table for sixteen bits is the table for eight applied twice |
| Coverage.ClassBits | aflpp/src/afl-fuzz-bitmap.c:46-58 | each of the eight classes, starting at 1, 2, 3, 4, 8, 16, 32 and 128, has a bit of its own: bit i of a classified count is set exactly if the count lies in class i |
| Coverage.SimpleBits | aflpp/src/afl-fuzz-bitmap.c:38-42 | a simplified byte has its lowest bit exactly if there was no hit, its highest exactly if there was one, and no other |
| Coverage.ClassifyWordIsBytewise | aflpp/include/coverage-64.h:17-30 | classifying a word sixteen bits at a time classifies each of its bytes, for words of four and eight bytes |
| Coverage.ClassifyCounts | aflpp/include/coverage-64.h:64-79 | every byte of the words is classified, although zero words are skipped |
| Coverage.SimplifyTrace | aflpp/include/coverage-64.h:32-62 | every byte becomes 1 or 128, although zero words take a shortcut |
| Coverage.DiscoverWord | aflpp/include/coverage-64.h:83-113 | the word test and mask give 2, 1 or 0 by the bytewise rule, keep the larger result, and clear exactly the hit bits |
| Coverage.OverlapWord | aflpp/include/coverage-64.h:89-89 | the words have a bit in common exactly if some bytes do |
| CoverageMap.HasNewBits | aflpp/src/afl-fuzz-bitmap.c:219-252 | the result is the bytewise verdict on the whole map, and the virgin map loses exactly what the trace hit |
| CoverageMap.Skim | aflpp/include/coverage-64.h:117-199 | 1 exactly if the classified trace has a bit the virgin map still has, for words of 4 or 8 bytes, packs of any size, with or without the test of a whole pack |
| CoverageMap.SkimPack | aflpp/include/coverage-64.h:151-178 | one round of it, with the lane mask and without |
| CoverageMap.HasNewBitsUnclassified | aflpp/src/afl-fuzz-bitmap.c:264-285 | result and virgin map are as if the trace had been classified first; it is classified exactly if something was found |
| CoverageMap.Runs | aflpp/src/afl-fuzz-bitmap.c:264-285 | over any sequence of traces, every verdict is what the trace is worth by the hit counts of the traces before it |
| CoverageMap.VerdictByCounts | aflpp/src/afl-fuzz-bitmap.c:211-252 | the verdict by the virgin map that earlier traces have left is 2 exactly for a byte that was untouched and that none of them hit, else 1 exactly for a count in a class that was open and that none of them had there |
| CoverageMap.SweptBits | aflpp/include/coverage-64.h:83-113 | after any sequence of traces a bit is left in the virgin map exactly if it was there and no trace had a hit count in its class |
| CoverageMap.SeenIsNeverNew | aflpp/src/afl-fuzz-bitmap.c:211-217 | a trace that was seen before is never new again |
| CoverageMap.NewTuples | aflpp/src/afl-fuzz-bitmap.c:211-217 | a byte pristine and hit is one that was untouched before all traces, was hit by none of them, and is hit now |
| CoverageMap.NewCounts | aflpp/include/coverage-64.h:83-113 | trace and virgin map overlap exactly if some hit count is of a class that was open and that no earlier trace had at that byte |
| Bits.MinusWords | aflpp/include/coverage-64.h:109-109 | one masking of a word clears the bits byte by byte |
| LtoPrune.CountersDetermineBlocks | aflpp/instrumentation/SanitizerCoverageLTO.so.cc:1412-1474 | if all edges but those into unreachable-only blocks are split, a run that returns and any complete run that leaves the same counters visit the same blocks, and both return |
| LtoPrune.CountedExactly | aflpp/instrumentation/SanitizerCoverageLTO.so.cc:1443-1474 | without cycles exactly the blocks that complete runs need are counted: some run visits a successor, and if there are several ways into the block some run visits a predecessor, and not the block |
| LtoPrune.CountedByPaths | aflpp/instrumentation/SanitizerCoverageLTO.so.cc:1443-1474 | with cycles the same holds of paths from the entry and of paths to an exit |
| LtoPrune.LoopCounted | aflpp/instrumentation/SanitizerCoverageLTO.so.cc:1443-1474 | a loop whose second block is counted although every complete run visits it: that there are no cycles is needed |
| LtoPrune.CountedOtherwise | aflpp/instrumentation/SanitizerCoverageLTO.so.cc:1457-1468 | without pruning exactly the plain blocks are counted; with it the entry only if it is the whole function, and on the level of functions nothing else |
| LtoPrune.DominatorIffSuccessor | aflpp/instrumentation/SanitizerCoverageLTO.so.cc:1412-1424 | a block pruned as full dominator is executed exactly if one of its successors is |
| LtoPrune.FullDominatorExactly | aflpp/instrumentation/SanitizerCoverageLTO.so.cc:1412-1424 | a full dominator is a block that every path from the entry to one of its successors visits |
| LtoPrune.PostDominatorIffPredecessor | aflpp/instrumentation/SanitizerCoverageLTO.so.cc:1427-1440 | a block pruned as full postdominator is executed exactly if one of its predecessors is |
| LtoPrune.FullPostDominatorExactly | aflpp/instrumentation/SanitizerCoverageLTO.so.cc:1427-1440 | a full postdominator is a block that every path from one of its predecessors to an exit visits |
| LtoPrune.DominanceGoesOn | aflpp/instrumentation/SanitizerCoverageLTO.so.cc:1598-1600 | where a block with several predecessors follows one that dominates it, it dominates the next block in turn |
| LtoPrune.UnreachableRunsLookAlike | aflpp/instrumentation/SanitizerCoverageLTO.so.cc:1446-1450 | a function without any critical edge in which two runs into unreachable instructions visit different blocks and leave the same counters: that one of the runs returns is needed |
| LtoIds.Allocator.InstrumentFunction | aflpp/instrumentation/SanitizerCoverageLTO.so.cc:1598-2167 | the numbers handed out are, modulo 2^32, consecutive and followed by room for the contexts; the program ends exactly if the two passes disagree |
| LtoIds.Allocator.InstrumentModule | aflpp/instrumentation/SanitizerCoverageLTO.so.cc:2147-2167 | all functions of a module, one range after the other, and the map size computed from the last number, for every start number and with all wrapping of 32-bit numbers |
| LtoIds.LayoutsChained | aflpp/instrumentation/SanitizerCoverageLTO.so.cc:2159-2163 | without wrapping, the ranges of all functions follow each other from the start on |
| LtoIds.IndexInRange | aflpp/instrumentation/SanitizerCoverageLTO.so.cc:1813-1820 | every index of a function, in any of its contexts, lies in its range |
| LtoIds.IndexInjective | aflpp/instrumentation/SanitizerCoverageLTO.so.cc:1813-1820 | within a function equal indices mean the same counter and, if it is moved by the context, the same context |
| LtoIds.IndexWraps | aflpp/instrumentation/SanitizerCoverageLTO.so.cc:1813-1820 | the index that the program computes in 32 bits is the intended one modulo 2^32 |
| LtoIds.IndicesDistinct | aflpp/instrumentation/SanitizerCoverageLTO.so.cc:2147-2165 | if start, counters and copies leave room for eight numbers below 2^32, no two counters of a module share an index, in whatever functions and contexts |
| LtoIds.IndicesFit | aflpp/instrumentation/SanitizerCoverageLTO.so.cc:1261-1263 | and every index is at least 5 and below the map size |
| LtoIds.FitsExactly | aflpp/instrumentation/SanitizerCoverageLTO.so.cc:1261-1263 | the numbers taken for counters and copies all lie between 5 and the map size exactly under that condition |
| LtoIds.IndicesFitExactly | aflpp/instrumentation/SanitizerCoverageLTO.so.cc:1261-1263 | where all counters are moved by their contexts, their indices do so exactly under that condition |
| LtoIds.StartIdWraps | aflpp/instrumentation/SanitizerCoverageLTO.so.cc:633-637 | with -1 as the start number, which is not refused, the first index is 0 |
| T1ha.Mul64x64Exact | aflpp/include/t1ha_bits.h:1174-1203 | the product from four smaller ones is exact |
| T1ha.CarryFirstExact | aflpp/include/t1ha_bits.h:1117-1130 | the comparison finds the carry |
| T1ha.CarryNextExact | aflpp/include/t1ha_bits.h:1135-1149 | the comparison finds the carry of a sum with a carry in |
| T1ha.Mul128Exact | aflpp/include/t1ha_bits.h:1383-1396 | the product of two 128-bit numbers is exact modulo 2^128 |
| T1ha.TailsAgree | aflpp/include/t1ha_bits.h:675-750 | the masked and the shifted one-shot reads, the bytewise and the wordwise switch read the same tail |
| Random.Rng.RandBelow | aflpp/include/afl-fuzz.h:1372-1399 | the first draw below the threshold decides, by its remainder |
| Random.EveryResidueAlike | aflpp/include/afl-fuzz.h:1389-1397 | the threshold is a positive multiple of the limit, and every remainder has the same number of accepted draws |
| Random.Rng.RandBelowDatalen | aflpp/include/afl-fuzz.h:1404-1424 | the first accepted draw, as it is or brought down once or twice to its remainder by one more than another draw, as a draw below three decides; below the limit on every path |
| Random.LowerThanPlain | aflpp/include/afl-fuzz.h:1400-1404 | lower values are preferred: the result is never above the plain draw it comes from |
| Random.NextP2 | aflpp/include/afl-fuzz.h:1440-1450 | the smallest power of two that is not below the value, up to 2^63 |
| Realloc.NextPow2Exact | aflpp/include/alloc-inl.h:606-625 | the result is the smallest power of two not below the input, or zero where that is 2^64, exactly if no 32 bits in a row are clear below the highest bit of the input minus one |
| Realloc.NextPow2Fails | aflpp/include/alloc-inl.h:606-625 | 2^32 + 1 is not rounded to a power of two: the result is odd |
| Realloc.NextPow2OfZero | aflpp/include/alloc-inl.h:606-625 | zero becomes zero |
| Realloc.NextPow2Small | aflpp/include/alloc-inl.h:606-625 | so it is for all inputs from 1 to 2^32 |
| Realloc.Buffer.Realloc | aflpp/include/alloc-inl.h:663-716 | capacity suffices and, unless it is the initial one, is less than twice what is needed; old bytes are kept and new ones zero, for any request; up to 4 GiB it is a power of two, every reallocation at least doubles it, and all bytes ever carried over are fewer than the buffer has |
| Realloc.SufficesLeast | aflpp/include/alloc-inl.h:663-716 | up to 4 GiB it is the smallest power of two that suffices and is at least 64 |
| Realloc.NextPow2Below | aflpp/include/alloc-inl.h:606-625 | rounding never doubles an input |

## Left out

- The 128-bit XXH3 variants, including their streaming digest.
- XXH3 states hold an external secret by value: a caller that changes the secret's memory between updates is not modelled.
- A null input to an update counts as an empty chunk; aligned and unaligned reads, prefetching and padding are not modelled.
- NEON, VSX and SVE code, and AES instructions: only the lane arithmetic of the SSE2, AVX2 and AVX-512 forms is modelled.
- The collision behaviour of inputs of different lengths from four bytes on, or of more than eight bytes.
- In the minimiser: running the target, reading trace files, hashing and naming of output files, the path without deduplication, the crash directory's contents. Traces are given data.
- In `CminQueue` a message reaches the queue in the step that handles its file, whereas the queues of the source buffer per process, so that messages of different workers may overtake each other; by `MessagesAnyOrder` their order does not matter.
- The interleaving of the combining workers: they share nothing, so `CombineAll` runs them one after the other. Likewise `RunWorkers` runs each worker on the files the run gave it, in one batch.
- The tables of interesting values are those of the build without `AFL_SWAM`, whose 32-bit table has one value less.
- Havoc.Mutator.Mutate: bounds the number of draws, since random retries need not end; every finite part of a run is covered. Lengths are unbounded numbers, which agrees with the 32-bit code as long as max_len + 32768 is below 2^32.
- The weighting tables that choose an operator: the dice may give any operator at any time. So may they the class of block lengths that the queue's cycle and the age of the campaign allow.
- The order in which the code asks for its random numbers: the dice give them by role, and each is one that the thresholds of `Random` accepted.
- Havoc.Mutator.Step: asks the dice to be fair, so that a draw which is repeated until it differs comes to an end; the loops of the code rely on the same.
- A body of LIST_FOREACH that appends to the list it walks.
- LinkedList.List.Initialise: memory exhaustion in malloc, which ends the program, is not modelled, nor is the memory of a freed element.
- The fields `real_map_size` and `map_size`: both are numbers of words given to the methods.
- Skim compares words of a pack in a loop where the code is unrolled; the vector compare is the test of the whole pack against zero.
- The search for the caller whose calls become contexts, and the scan of instructions: both are given data of `LtoIds.Func`.
- LtoPrune.CountersDetermineBlocks: assumes that every block with successors has an insertion point, so functions with catchswitch blocks are not covered, and that only edges into unreachable-only blocks are left unsplit, so neither are functions with critical edges into landing pads or from an indirectbr, which LLVM does not split; it does not speak of runs that end inside a function.
- LtoIds.IndicesDistinct: is about programs built without IJON, where the index is not combined with the IJON state and reduced modulo the map size; with it indices may coincide. The same goes for LtoIds.IndicesFit and the other results on indices.
- LLVM's dominator trees: dominance is defined by paths.
- Random.Rng.RandBelow: the generator's output is arbitrary, reseeding included; whether an accepted draw ever comes is left open.
- Realloc.Buffer.Realloc: sizes that overflow size_t when the header is added.
- Big-endian machines.
