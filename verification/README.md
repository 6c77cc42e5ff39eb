# PropMiner host core: a verified model

PropMiner is a GPU miner. Its CUDA kernels and its Rust library are foreign code; the host side
around them hashes, schedules, encodes and checks. This project models the host cores whose
correctness is not visible from one function and proves what they are for. `dafny verify
dfyconfig.toml` checks everything.

| files | what they model |
|---|---|
| `Blake3Tree`, `Blake3Hasher`, `Blake3Compress` | the recursive BLAKE3 tree hash (sections 2.1 to 2.6 of the BLAKE3 specification), the incremental hasher with its chaining-value stack (section 5.1.2), and the compression function |
| `LeadingZeros`, `Challenge`, `ChallengeSearch` | the unrolled one-block challenge solver, the independent check, and the threaded nonce search as a state machine |
| `GpuWorker`, `GpuWorkerSafety`, `GpuWorkerInstall`, `GpuWorkerRuns`, `GpuWorkerScan`, `GpuWorkerTargets`, `GpuWorkerProgress` | the per-GPU worker: mining loop, deferred share rebuilder, background installer, device streams and environment as interleaved atomic steps |
| `GraphLaunch` | queueing one batch through a captured graph that only writes the first slots |
| `CompactTarget`, `TargetBytes`, `TargetConvert`, `Difficulty`, `ShareGuard` | 256-bit targets, compact nbits, difficulty, and the last checks before a share is sent |
| `Noise`, `Transcript`, `TranscriptBits`, `ClaimedHash` | the noisy-product transcript behind a share's claimed hash |
| `PeriodicPattern`, `PatternSearch` | factoring an index list into nested strides |
| `Json`, `JsonNumeral`, `JsonGrammar`, `JsonRoundTrip`, `JsonNumbers`, `Binary64`, `JsonParser` | the JSON printer and parser, the JSON grammar (RFC 8259), and the conversion of decimals to doubles |
| `GrpcFraming`, `ProtoWire`, `ProtoMessages`, `ShareProto`, `Base64`, `Bincode` | the wire formats |
| `WaveAlign` | choosing a width that fills whole waves |
| `Arithmetic`, `Words`, `WordBits`, `Slices`, `Wrappers` | shared definitions and the few arithmetic facts the proofs need |

Machine integers are unbounded integers with explicit wrap-around (`Words.dfy`); bit operations
are defined on numbers. Objects that the program updates in place are classes or arrays, loops
are loops, and each is tied to a function on values; the main results are lemmas about those
functions. A concurrent protocol is a step function over a state, and a run is any sequence of
actions.

Where the code does less than its intent, the code is modelled and the exact condition is proved:

- Division of a target by a 64-bit number is exact for every target only up to a divisor of 2^56
  (`TargetBytes.DivideExactIff`). Beyond it a larger difficulty can get a larger target: the order
  is kept up to a bound if and only if the bound is below 72061107336574155 millionths
  (`Difficulty.OrderKeptIff`, with a pair at `Difficulty.InvertedPair`).
- A failed sub-batch wait still counts as a graph launch (src/host/pearl/gpu_worker.cpp:1088 is
  overwritten by line 1108), and after an exception the direct path runs over slots that are not
  cleared again, so winners can be lost or misplaced (`GraphLaunch.SameAsDirectIff`,
  `GraphLaunch.NeverWrongIff`).
- Levels beyond three are dropped (`PatternSearch.FourthLevelIsDropped`), and the list of all 2^32
  indices loses its length (`PatternSearch.FullListLosesItsLength`); the condition is
  `PatternSearch.FaithfulIffThreeLevels`.
- Doubles never survive registration, because a fixed 64-bit field carries no data
  (`ProtoMessages.RegisterRoundTrip`).
- The vardiff guard looks at the hash the device reported; without one it passes
  (`ShareGuard.LiveEnforcedIff`).
- A noise rank of one, or one that is no power of two, yields indices outside the rank; proved for
  ranks up to 2^16 (`Noise.RankIsSafeIff`).
- A gRPC length above 2^32 - 6 makes the 32-bit frame length wrap and pass the loop's guard
  (`GrpcFraming.FrameLenExactIff`, `GrpcFraming.OversizedPassesGuard`); reassembly is independent of
  chunking for streams without one (`GrpcFraming.Receive`).
- JSON numbers are printed with six decimals, so exactly the doubles nearest to some millionth come
  back (`Binary64.DoublesRoundTripIff`).
- Vardiff can lose an update: a rebind loads the target before it clears the dirty flag
  (src/host/pearl/gpu_worker.cpp:846-850 with 1584 and 1611). A store inside that window is lost
  unless it repeats the value loaded (`GpuWorkerTargets.LostIff`, with a run at
  `GpuWorkerTargets.UpdateIsLost`), and without one every announced change reaches every half
  (`GpuWorkerTargets.SettledTargetIsLive`).

## Model

| member | source | states |
|---|---|---|
| `Blake3Hasher.HashInPieces` | src/host/tests/blake3_reference.c:321-365 | any way of cutting the input into update calls, for every key, mode flags and compression function, gives the recursive tree hash of the whole input, extended to any output length |
| `Blake3Hasher.Hasher.Update` | src/host/tests/blake3_reference.c:321-347 | after any update the completed chunks are on the stack and the rest is in a lazily completed, nonempty chunk state; the absorbed data grows by exactly the input |
| `Blake3Hasher.Hasher.AddChunkCv` | src/host/tests/blake3_reference.c:290-318 | merging on the trailing zero bits of the chunk count leaves one subtree root per set bit, largest first; pops never underflow and 54 entries suffice below 2^54 chunks |
| `Blake3Hasher.Hasher.CompleteChunk` | src/host/tests/blake3_reference.c:328-337 | a full chunk becomes a stack entry only when more input follows, and the next chunk starts empty under the next counter |
| `Blake3Hasher.Hasher.Absorb` | src/host/tests/blake3_reference.c:338-345 | taking at most the room left in the chunk keeps the hasher's invariant |
| `Blake3Hasher.Hasher.Finalize` | src/host/tests/blake3_reference.c:350-365 | folding the stack from the top into the last chunk's output gives the root output of the whole tree; the hasher is not changed |
| `Blake3Hasher.Hasher.constructor` | src/host/tests/blake3_reference.c:254-262 | a fresh hasher has absorbed nothing |
| `Blake3Hasher.ChunkState.Update` | src/host/tests/blake3_reference.c:184-215 | a chunk state holds exactly the bytes given to it, with its last block uncompressed |
| `Blake3Hasher.ChunkState.FinalOutput` | src/host/tests/blake3_reference.c:217-227 | the chunk's output is the one of the tree definition, start and end flags included |
| `Blake3Hasher.WriteRootBytes` | src/host/tests/blake3_reference.c:138-158 | output bytes are those of the extendable output with the block counter of their position |
| `Blake3Hasher.WordsFromLittleEndianBytes` | src/host/tests/blake3_reference.c:107-118 | little-endian words of a byte string |
| `Blake3Hasher.ParentNode` | src/host/tests/blake3_reference.c:229-243 | copying both children leaves the left words in the first half of the block and the right in the second, with the key, counter 0, length 64 and the parent flag |
| `Blake3Stack.FoldRootsIsTree` | src/host/tests/blake3_reference.c:350-365 | folding the subtree roots of a prefix, one per set bit of its length, into the tree of the rest is the tree of the whole |
| `Blake3Merge.PendingMerge` | src/host/tests/blake3_reference.c:303-318 | one merge step turns two subtrees of q bytes into one of 2q and keeps the roots of what remains on the stack |
| `Blake3Tree.TreeJoin` | src/host/tests/blake3_reference.c:229-252 | a complete left part and a right part no longer than it form a parent node of the tree, because the left length is the unique largest power of two of chunks below the total |
| `Blake3Tree.NodeOfChildren` | src/host/tests/blake3_reference.c:229-243 | every node of the tree above the chunks, word by word: chaining values of the left and the right part in that order, key, counter 0, length 64, mode and parent flags |
| `Blake3Tree.ChunkOfBlocks` | src/host/tests/blake3_reference.c:184-227 | every chunk, block by block: little-endian words padded with zeros, the chunk's number as counter, start flag on the first block only, end flag and true length on the last |
| `Blake3Tree.EchoOfTwoChunks` | src/host/tests/blake3_reference.c:229-365 | with a compression that returns its block, two chunks hash to the first halves of their last blocks, left before right, byte for byte |
| `Blake3Compress.CompressBlock` | src/host/tests/blake3_reference.c:60-105 | the in-place rounds, permutations and feed-forward compute the compression function |
| `Blake3Compress.RoundInPlace` | src/host/tests/blake3_reference.c:27-50 | eight in-place mixes are the column and diagonal round on values |
| `Blake3Compress.PermuteInPlace` | src/host/tests/blake3_reference.c:52-58 | the buffered copy is the message permutation |
| `Blake3Compress.ScheduleIsPermutation` | src/host/tests/blake3_reference.c:19-20 | the schedule uses every message word exactly once |
| `Blake3Compress.FlagWordAdds` | src/host/tests/blake3_reference.c:6-12 | each flag contributes its own power of two to the flags word |
| `WordBits.RotrBit` | src/host/tests/blake3_reference.c:22-25 | rotation moves every bit down n places, around the end |
| `WordBits.XorBit` | src/host/tests/blake3_reference.c:27-36 | exclusive or sets exactly the bits that differ |
| `Challenge.TryNonce` | src/host/pearl/pearl_challenge.cpp:51-143 | accepts a nonce exactly when the general BLAKE3 tree hash of seed and nonce has at least the required number of leading zero bits, for every seed, nonce and difficulty |
| `Challenge.UnrolledRounds` | src/host/pearl/pearl_challenge.cpp:54-124 | the rounds with their message words spelled out equal seven generic rounds with the message permutation between them |
| `Challenge.NextWords` | src/host/pearl/pearl_challenge.cpp:64-124 | each round's spelled-out word list is the permutation of the list before |
| `Challenge.MixWords` | src/host/pearl/pearl_challenge.cpp:39-45 | the mixing step on four variables equals G of the reference, whose additions associate the other way |
| `Challenge.HashIsWords` | src/host/pearl/pearl_challenge.cpp:52-62 | the 40-byte hash is the first half of a single compression with counter 0, length 40 and flags 11 |
| `Challenge.EnoughZeros` | src/host/pearl/pearl_challenge.cpp:126-143 | counting on byte-swapped words decides the leading zero bits of the little-endian byte stream |
| `Challenge.Verify` | src/host/pearl/pearl_challenge.cpp:204-219 | the independent check decides the same predicate as the unrolled solver |
| `Challenge.SolvesIsBelow` | src/host/pearl/pearl_challenge.cpp:204-219 | at least d leading zero bits means a hash below 2^(256-d) |
| `LeadingZeros.CountLeadingZeros` | src/host/pearl/pearl_challenge.cpp:145-154 | the bytewise loop counts the leading zeros of the big-endian number |
| `LeadingZeros.CountLeadingZeros32` | src/host/pearl/pearl_challenge.cpp:29-37 | the portable count is 32 minus the bit length, 32 for zero |
| `LeadingZeros.ReversedIsBigEndian` | src/host/pearl/pearl_challenge.cpp:24-27 | byte swapping gives the big-endian value of the word's little-endian bytes |
| `ChallengeSearch.EveryRun` | src/host/pearl/pearl_challenge.cpp:179-199 | under every interleaving there is at most one winner, the flag is set exactly when there is one, and each thread has tried its whole stride class up to its nonce, wrap-around included |
| `ChallengeSearch.ReturnedNoncePasses` | src/host/pearl/pearl_challenge.cpp:179-202 | after joining, a returned nonce passes; nothing is returned only after a cancellation |
| `ChallengeSearch.ReturnedNonceIsLeast` | src/host/pearl/pearl_challenge.cpp:182-199 | if every stride class has a passing nonce, the returned one is the least of its class |
| `ChallengeSearch.AnswerVerifies` | src/host/pearl/pearl_challenge.cpp:158-219 | every nonce the threaded search returns satisfies the independent check |
| `ChallengeSearch.PollsOnceIn8192` | src/host/pearl/pearl_challenge.cpp:183-188 | of any 8192 consecutive nonces of a thread exactly one polls the stop flags |
| `GpuWorkerRuns.EveryRunIsSafe` | src/host/pearl/gpu_worker.cpp:1525-1883 | the whole invariant (pipeline, counters, provenance, installer, nonce log, queued batches) holds in every state of every interleaving of publish, vardiff, mining, rebuild, install and device steps, for the two-half and the three-half loop |
| `GpuWorkerRuns.TriggersMatchTheirLaunch` | src/host/pearl/gpu_worker.cpp:426-455 | every share trigger carries the sigma and a nonce of the batch it came from, and the target that batch was launched under whenever one was set |
| `GpuWorkerScan.WinnerAddsOneTrigger` | src/host/pearl/gpu_worker.cpp:1689-1702 | in every run a winning slot k adds exactly one trigger, under nonce seed + k modulo 2^64 of the logged launch whose header it carries, and that launch's target, or the live one if it had none |
| `GpuWorkerScan.ScanIsExact` | src/host/pearl/gpu_worker.cpp:1689-1702 | one scan of a batch, from the end of the wait to the top of the loop and under any interleaving with the other threads, adds the triggers of the winning slots from 0 to the batch size and no others, one each and in slot order |
| `GpuWorkerScan.ScanReports` | src/host/pearl/gpu_worker.cpp:1689-1702 | the same for any part of a scan; while rebuilds succeed, triggers are handed on in the order they were found |
| `GpuWorkerScan.ReportedIffWon` | src/host/pearl/gpu_worker.cpp:1689-1702 | a slot is among those reported if and only if it won and was sent or deferred |
| `GpuWorkerScan.RebuilderHandsOn` | src/host/pearl/gpu_worker.cpp:457-490 | the rebuilder takes the oldest queued trigger and sends it exactly when the rebuild succeeds |
| `GpuWorkerRuns.ScannedBatchIsCurrent` | src/host/pearl/gpu_worker.cpp:1626-1883 | whenever winners are read, the headers belong to a batch launched for the current job: nothing queued under an old sigma is scanned after a switch |
| `GpuWorkerRuns.PendingCountsJobs` | src/host/pearl/gpu_worker.cpp:444-490 | each half's pending counter is its queued plus in-progress rebuild jobs |
| `GpuWorkerRuns.HeldHalfIsLeftAlone` | src/host/pearl/gpu_worker.cpp:405-424 | no launch on a half and no rebind of it happens while its counter is nonzero or a batch is on its stream |
| `GpuWorkerRuns.RingOrder` | src/host/pearl/gpu_worker.cpp:1640-1680 | after a switch three halves start over at half 0 and two go on where they were; launches go round the ring and nothing else moves it |
| `GpuWorkerRuns.BatchSizeIsRead` | src/host/pearl/gpu_worker.cpp:1594-1596 | the batch size is the one read when the job was adopted |
| `GpuWorkerRuns.FreedIsUnreachable` | src/host/pearl/gpu_worker.cpp:652-756 | a freed resident set is bound to no half, is not current, and is named by no queued, in-progress or sent trigger and by no batch still queued on a stream |
| `GpuWorkerRuns.NothingLeaks` | src/host/pearl/gpu_worker.cpp:652-756 | in every run a resident context was adopted, was freed, or waits in the ready slot or in the loop's hands |
| `GpuWorkerRuns.BoundIsInstalled` | src/host/pearl/gpu_worker.cpp:839-918 | whatever is bound to a half is resident |
| `GpuWorkerRuns.SwapIsLatest` | src/host/pearl/gpu_worker.cpp:1586-1613 | a background swap takes a resident context that is the latest published and not the current one |
| `GpuWorkerRuns.NeverWedged` | src/host/pearl/gpu_worker.cpp:535-555 | while a job is live, a newer published and requested sigma is pending, being installed, ready, marked failed or already in the loop's hands |
| `GpuWorkerRuns.FailureIsConsumed` | src/host/pearl/gpu_worker.cpp:1541-1547 | the fallback to the synchronous path consumes the failure marker of the latest job, and the loop clears it nowhere else |
| `GpuWorkerProgress.LatestCanBeAdopted` | src/host/pearl/gpu_worker.cpp:535-1613 | from every reachable state with a published job there is a continuation, publishing nothing more, after which the latest job is the current one: through a background install, its failure marker or the synchronous path |
| `GpuWorkerProgress.ResidentCanBeSettled` | src/host/pearl/gpu_worker.cpp:535-1618 | from every reachable state with a published job every resident context can still be adopted or freed, without further publication |
| `GpuWorkerProgress.ComesRound` | src/host/pearl/gpu_worker.cpp:1525-1883 | from every reachable state the mining loop can come back to its top |
| `GpuWorkerProgress.SwitchCompletes` | src/host/pearl/gpu_worker.cpp:1540-1613 | a switch once decided on can be carried through to adoption |
| `GpuWorkerRuns.LaunchesAreDisjoint` | src/host/pearl/gpu_worker.cpp:1016-1018 | different launches of a run use disjoint nonce ranges while fewer than 2^64 seeds are used |
| `GpuWorkerRuns.GpusAreDisjoint` | src/host/pearl/gpu_worker.cpp:330-331 | in any two runs of workers of different GPUs, of at most 2^32 iterations each, no launch shares a nonce with a launch of the other |
| `GpuWorkerPipeline.StepKeepsPipeline` | src/host/pearl/gpu_worker.cpp:1525-1883 | every step keeps: device target, headers and stream of each half agree with what the loop believes about it |
| `GpuWorkerShares.StepKeepsCounters` | src/host/pearl/gpu_worker.cpp:444-490 | every step keeps the pending counters exact |
| `GpuWorkerShares.StepKeepsProvenance` | src/host/pearl/gpu_worker.cpp:426-455 | every step keeps triggers tied to a launch |
| `GpuWorkerInstall.StepKeepsInstall` | src/host/pearl/gpu_worker.cpp:535-765 | every step keeps the slot order, residency and frontier of the installer protocol |
| `GpuWorkerRuns.StepKeepsStreams` | src/host/pearl/gpu_worker.cpp:1525-1883 | every batch queued on a stream is for the current job, through every switch |
| `GpuWorkerTargets.SettledTargetIsLive` | src/host/pearl/gpu_worker.cpp:767-850 | in every run without a store of another target inside a rebind window, whenever the loop is about to mine with the flag clear and no store unannounced, every half mines under the live target |
| `GpuWorkerTargets.RunKeepsTarget` | src/host/pearl/gpu_worker.cpp:1540-1631 | the invariant behind it, for every program point, failed rebinds included |
| `GpuWorkerTargets.LostIff` | src/host/pearl/gpu_worker.cpp:846-850 | a target stored between the first half's load and the clearing of the flag reaches every half by then if and only if it is the one the rebind loaded; any other is lost with the flag clear |
| `GpuWorkerTargets.UpdateIsLost` | src/host/pearl/gpu_worker.cpp:1570-1584 | a run in which 9 is stored and announced just before the flag is cleared and both halves go on mining 7 |
| `GraphLaunch.QueueBatch` | src/host/pearl/gpu_worker.cpp:1016-1126 | what the header slots hold after queueing a batch, for every device, every end of a sub-batch (finished, failed wait, exception) with any set of its slots written, and either seed upload mode; unless something stopped the loop, slot j holds what the device found for seed start + j with 64-bit wrap-around; whether the graph stays in use |
| `GraphLaunch.GraphPath` | src/host/pearl/gpu_worker.cpp:1036-1108 | the descending loop over shared scratch slots leaves each finished group in its own slots although launches only set hits, and a preloaded seed is always the one of its sub-batch; what a sub-batch that stops it wrote stays in the scratch slots |
| `GraphLaunch.SameAsDirectIff` | src/host/pearl/gpu_worker.cpp:1036-1126 | graph and direct path leave the same headers for every device if and only if nothing stopped the loop, or an exception did at offset 0 or before anything was written, or a failed wait did at offset 0 with everything written |
| `GraphLaunch.NeverWrongIff` | src/host/pearl/gpu_worker.cpp:1079-1126 | no winner is reported in a slot it does not belong to, whatever the device finds, if and only if the loop did not stop above offset 0 with something in the scratch slots |
| `GraphLaunch.ReportedNonceRan` | src/host/pearl/gpu_worker.cpp:1694 | the nonce the worker reports for slot j is the seed the device ran there |
| `GraphLaunch.CopyOut` | src/host/pearl/gpu_worker.cpp:1102-1106 | scratch is copied to disjoint slots, or to itself for offset 0 |
| `CompactTarget.DecodeEncode` | src/host/pearl/pow_target_utils.cpp:46-75 | expanding a compacted target gives it rounded down to the unit of its bit length |
| `CompactTarget.CompactBelow` | src/host/pearl/pow_target_utils.cpp:46-75 | the rounded target is at most the target and less than one unit below it |
| `CompactTarget.LossIsSmall` | src/host/pearl/pow_target_utils.cpp:46-75 | rounding loses less than one part in 2^15 |
| `CompactTarget.CompactMonotone` | src/host/pearl/pow_target_utils.cpp:46-75 | a larger target never rounds to a smaller one |
| `CompactTarget.CompactIdempotent` | src/host/pearl/pow_target_utils.cpp:46-75 | rounding twice is rounding once |
| `CompactTarget.EncodeCompact` | src/host/pearl/pow_target_utils.cpp:46-75 | a rounded target encodes to the same word |
| `TargetBytes.MultiplyInPlace` | src/host/pearl/pow_target_utils.cpp:21-31 | the big-endian carry loop multiplies exactly, clamped to 2^256 - 1 |
| `TargetBytes.MultiplyTarget` | src/host/pearl/pow_target_utils.cpp:149-167 | the little-endian product is min(T * f, 2^256 - 1) for f at least 1; f = 0 counts as 1 |
| `TargetBytes.ScaledMonotone` | src/host/pearl/pow_target_utils.cpp:149-167 | scaling preserves order |
| `TargetBytes.DivideTarget` | src/host/pearl/pow_target_utils.cpp:33-42 | the remainder loop with its 64-bit shift, and d = 0 returning the input |
| `TargetBytes.DivideExact` | src/host/pearl/pow_target_utils.cpp:33-42 | for divisors up to 2^56 the result is the exact quotient |
| `TargetBytes.DivideWraps` | src/host/pearl/pow_target_utils.cpp:36-40 | for every 64-bit divisor above 2^56 the quotient of 2^248 comes out as zero |
| `TargetBytes.DivideExactIff` | src/host/pearl/pow_target_utils.cpp:33-42 | division is exact for every target if and only if the divisor is at most 2^56 |
| `TargetConvert.TargetToNbits` | src/host/pearl/pow_target_utils.cpp:46-75 | the byte scan computes the compact word of the number |
| `TargetConvert.NbitsToTarget` | src/host/pearl/pow_target_utils.cpp:126-147 | the bytes placed denote the expanded target, mantissa bytes beyond bit 255 dropped |
| `Difficulty.DifficultyToNbits` | src/host/pearl/pow_target_utils.cpp:77-87 | for every 64-bit divisor the result is the compact form of the byte division |
| `Difficulty.CodeIsExact` | src/host/pearl/pow_target_utils.cpp:77-87 | up to 2^56 millionths that is the compact form of the exact difficulty-1 quotient |
| `Difficulty.HarderIsTighter` | src/host/pearl/pow_target_utils.cpp:77-87 | up to 2^56 millionths a larger difficulty never gives a larger target, after compaction too |
| `Difficulty.InvertedPair` | src/host/pearl/pow_target_utils.cpp:77-87 | two neighbouring difficulties above 2^56 of which the larger gets the larger target |
| `Difficulty.OrderKeptIff` | src/host/pearl/pow_target_utils.cpp:77-87 | the order of difficulties up to a bound is kept if and only if the bound is below 72061107336574155 millionths |
| `TargetConvert.AtMost` | src/host/pearl/pow_target_utils.cpp:179-188 | bytewise comparison from the top is numeric comparison |
| `TargetConvert.TighterTarget` | src/host/pearl/pow_target_utils.h:51-62 | the compact word with the smaller expansion, zero meaning unset, ties to the first |
| `TargetConvert.HashClears` | src/host/pearl/pow_target_utils.cpp:203-207 | clears exactly when the hash is at most the expanded target times the factor, clamped |
| `ShareGuard.SendBatch` | src/host/pearl/worker_orchestrator.cpp:777-817 | exactly the shares that verify and pass the vardiff guard are kept, in order |
| `ShareGuard.VerifyShare` | src/host/pearl/share_builder.cpp:468-566 | leaves were opened, both proofs verify, the stored tree has the device's B hash, both roots have 32 bytes and agree with whatever the device filled in, a reported hash equals the recomputed one, and the recomputed hash clears the mined target |
| `ShareGuard.ProofRootsMatch` | src/host/pearl/share_builder.cpp:127-165 | roots of at least 32 bytes that equal the device's hashes wherever the device filled them in |
| `ShareGuard.PassesGuard` | src/host/pearl/worker_orchestrator.cpp:799-817 | the guard compares the reported hash with a strictly tighter live target only |
| `ShareGuard.SentClears` | src/host/pearl/worker_orchestrator.cpp:792-817 | every sent share clears its mined target, and the live target read for it when the device reported a hash |
| `ShareGuard.SentProofsAgree` | src/host/pearl/worker_orchestrator.cpp:777-817 | in every sent share the proved roots, the stored tree and the recomputed hash agree with what the device reported |
| `ShareGuard.GoodIsSent` | src/host/pearl/worker_orchestrator.cpp:777-817 | a share whose proofs agree, whose reported hash is the recomputed one and clears the mined and the live target, is sent |
| `ShareGuard.UnreportedEscapes` | src/host/pearl/worker_orchestrator.cpp:799-817 | a share without a reported hash that is sent although it misses the live target |
| `ShareGuard.LiveEnforcedIff` | src/host/pearl/worker_orchestrator.cpp:792-817 | the live target is enforced for every hash if and only if the device reported one or the mined target is no easier |
| `Noise.GenerateRow` | src/host/pearl/share_builder.cpp:54-78 | an opened noise row is a slice of one flat hash stream, for every row and width |
| `Noise.GenerateRows` | src/host/pearl/share_builder.cpp:54-78 | all opened rows, in order |
| `Noise.GeneratePermutation` | src/host/pearl/share_builder.cpp:82-99 | line l comes from word l mod 8 of block l / 8 |
| `Noise.PairsAreProper` | src/host/pearl/share_builder.cpp:82-99 | for a rank 2^e, e from 1 to 31, both indices are below the rank and different, the first being the word modulo the rank |
| `Noise.PairForPower` | src/host/pearl/share_builder.cpp:82-99 | for a rank of 2^e the first index is the random word modulo the rank |
| `Noise.LinePair` | src/host/pearl/share_builder.cpp:91-95 | both indices from the little-endian word of the hash, the mask and the high word of the product |
| `Noise.RankOneIsImproper` | src/host/pearl/share_builder.cpp:82-99 | rank one gives the pair (0, 1), whose second index is out of range |
| `Noise.RankIsSafeIff` | src/host/pearl/share_builder.cpp:82-99 | for ranks up to 2^16 all second indices stay below the rank if and only if the rank is 2, 4, 8, ... |
| `Noise.ApplyPermutation` | src/host/pearl/share_builder.cpp:101-106 | noise is the difference of two entries and fits a signed byte, so the cast keeps it |
| `Transcript.AdvanceTile` | src/host/pearl/share_builder.cpp:276-292 | after a block every tile cell is the dot product of the longer prefix |
| `Transcript.XorCells` | src/host/pearl/share_builder.cpp:294-299 | exclusive or of all cells as 32-bit words |
| `Transcript.RunTranscript` | src/host/pearl/share_builder.cpp:273-303 | word t is the rotate-13 and exclusive-or fold over exactly the blocks congruent to t modulo 16 |
| `TranscriptBits.JackpotWordBit` | src/host/pearl/share_builder.cpp:280-306 | bit b of word t after n turns is the parity of bit b - 13 (n - 1 - i), modulo 32, of every dot product of the tile at block t + 16 i, over i below n |
| `TranscriptBits.Rotl13Bit` | src/host/pearl/share_builder.cpp:302 | the rotation moves every bit up 13 places, around the end |
| `Transcript.TileFitsIff` | src/host/pearl/share_builder.cpp:282-287 | no cell leaves the int32 range for any rows if and only if at most 58865 columns are summed |
| `ClaimedHash.ExpandColumns` | src/host/pearl/share_builder.cpp:229-252 | seeking each column and slicing the full expansion give the same bytes |
| `ClaimedHash.GetRandomHash` | src/host/pearl/share_builder.cpp:45-53 | the 64-byte message with the one-based index at its word and the seed in its second half, hashed under the key |
| `ClaimedHash.KeyedHashOfBlock` | src/host/pearl/share_builder.cpp:51 | a keyed hash of one block is a single compression under the key's words with counter 0, length 64 and flags 27 |
| `ClaimedHash.LabelText` | src/host/pearl/share_builder.cpp:28-39 | both labels are their ASCII text padded with zeros |
| `ClaimedHash.NoiseLines` | src/host/pearl/share_builder.cpp:254-270 | every opened line is secret plus permuted noise |
| `ClaimedHash.ComputeClaimedHash` | src/host/pearl/share_builder.cpp:177-305 | seeds, noise, transcript and final keyed hash together compute the closed form, on both expansion paths |
| `ClaimedHash.TranscriptFits` | src/host/pearl/share_builder.cpp:273-292 | with signed-byte secrets no cell of a share's tile overflows up to 58865 columns |
| `PatternSearch.FromIndices` | src/host/pearl/pearl_types.cpp:22-62 | the search with its error cases, 32-bit wrap-around and padding |
| `PatternSearch.CheckIncreasing` | src/host/pearl/pearl_types.cpp:24-27 | accepts exactly the strictly increasing lists |
| `PatternSearch.Factor` | src/host/pearl/pearl_types.cpp:34-51 | the shrinking loop finds the levels of the greedy factorisation, outermost first |
| `PatternSearch.FindPeriod` | src/host/pearl/pearl_types.cpp:36-49 | the first dividing period that fits |
| `PatternSearch.Matches` | src/host/pearl/pearl_types.cpp:38-43 | periodicity with wrapping addition |
| `PatternSearch.AcceptsGood` | src/host/pearl/pearl_types.cpp:38-43 | on increasing 32-bit lists the wrapping comparison accepts exactly the true dividing periods |
| `PeriodicPattern.GcdPeriod` | src/host/pearl/pearl_types.cpp:34-51 | two periods that fit together have their gcd as a period |
| `PeriodicPattern.GcdGood` | src/host/pearl/pearl_types.cpp:34-51 | so the smallest dividing period divides every other |
| `PatternSearch.GreedySound` | src/host/pearl/pearl_types.cpp:34-51 | the levels found expand to the input |
| `PatternSearch.GreedyComplete` | src/host/pearl/pearl_types.cpp:34-51 | if any nested shape generates the list the greedy search succeeds, with no more levels than that shape |
| `PatternSearch.SucceedsIffGenerated` | src/host/pearl/pearl_types.cpp:22-62 | from_indices does not throw exactly on lists generated by some nested shape |
| `PatternSearch.FaithfulIffThreeLevels` | src/host/pearl/pearl_types.cpp:53-62 | the returned pattern expands to the input if and only if some shape of at most three levels does and the list is shorter than 2^32 |
| `PatternSearch.FourthLevelIsDropped` | src/host/pearl/pearl_types.cpp:53-62 | a list of 16 indices with four levels that is accepted, and whose returned pattern does not expand to it |
| `PatternSearch.FullListLosesItsLength` | src/host/pearl/pearl_types.cpp:45-60 | the one longer list, all 2^32 indices, loses its length to the cast |
| `PatternSearch.MixedRadix` | src/host/pearl/pearl_types.cpp:53-62 | element i is the mixed-radix expansion of i over strides and lengths |
| `PatternSearch.BytesDetermineIffChained` | src/host/pearl/pearl_types.cpp:77-89 | the six bytes determine the pattern if and only if each stride is a multiple of the previous stride times length and all factors and lengths are 1 to 256 |
| `JsonRoundTrip.ValueRoundTrip` | src/host/stratum/simple_json.cpp:71-255 | for every decimal-to-double conversion and in any context, reading a printed value returns it with its numbers as printed and converted, or the first range error, and stops exactly at its end; nested values, arbitrary strings and duplicate keys included |
| `JsonGrammar.GrammarRead` | src/host/stratum/simple_json.cpp:138-262 | every text of the JSON grammar, with any white space around every token, any form of number and any escape, is read as the value it denotes, up to exactly its end |
| `JsonNumeral.NumeralRead` | src/host/stratum/simple_json.cpp:194-209 | every number token, with sign, fraction and exponent, is read to its end with its exact value |
| `JsonGrammar.BodyRead` | src/host/stratum/simple_json.cpp:162-192 | every string token is read with each escape replaced by what it stands for, unicode escapes by a question mark |
| `JsonGrammar.StrangeCharacter` | src/host/stratum/simple_json.cpp:150-160 | a character no value starts with is a conversion error |
| `JsonGrammar.LoneMinus` | src/host/stratum/simple_json.cpp:194-209 | a minus sign without a digit or point after it is a conversion error |
| `Binary64.DoublesRoundTripIff` | src/host/stratum/simple_json.cpp:71-262 | with IEEE 754 round-to-nearest-even conversion, a value whose numbers are doubles is printed and read back unchanged if and only if every number is the double nearest to some whole number of millionths |
| `JsonNumbers.RoundTripIff` | src/host/stratum/simple_json.cpp:71-262 | the same for every conversion that is convex, symmetric around doubles with a fraction beyond 1, and finer than a quarter millionth below 1 |
| `JsonNumbers.NumberSurvivesIff` | src/host/stratum/simple_json.cpp:92-97 | a double survives six decimals and the conversion back if and only if some millionth converts to it |
| `JsonNumbers.TieGoesToEven` | src/host/stratum/simple_json.cpp:92-97 | a number halfway between two printed or representable neighbours goes to the even one |
| `Binary64.ConvertRounds` | src/host/stratum/simple_json.cpp:206-208 | conversion to the nearest double, ties to even, subnormals and range errors included, has those three properties |
| `Binary64.TenthSurvives` | src/host/stratum/simple_json.cpp:92-97 | 0.1, as a double no whole number of millionths, comes back unchanged |
| `Binary64.SmallBinaryFractionIsLost` | src/host/stratum/simple_json.cpp:92-97 | 1/1024 is a double and does not come back |
| `JsonRoundTrip.StringRoundTrip` | src/host/stratum/simple_json.cpp:71-86 | every string survives escaping |
| `JsonRoundTrip.NumberRoundTrip` | src/host/stratum/simple_json.cpp:92-97 | the exact value of the printed token is the number rounded to six decimals, the number itself for integers below 10^15 |
| `JsonRoundTrip.PrintedForm` | src/host/stratum/simple_json.cpp:92-97 | integers below 10^15 are printed without a point, every other number with exactly six decimals |
| `JsonParser.Parser.ReadValue` | src/host/stratum/simple_json.cpp:150-160 | terminates on every input at every position, with the value and cursor of the positional reading, or the error of a number that does not convert or is out of range |
| `JsonParser.Parser.ReadArray` | src/host/stratum/simple_json.cpp:222-235 | the element loop, missing brackets and commas included |
| `JsonParser.Parser.ReadObject` | src/host/stratum/simple_json.cpp:237-254 | the member loop, keys in order |
| `JsonParser.Parser.ReadString` | src/host/stratum/simple_json.cpp:162-192 | escapes, unicode escapes replaced, unterminated strings ending at the input's end |
| `JsonParser.Parser.ReadNumber` | src/host/stratum/simple_json.cpp:194-209 | converts the value the text has in place, or fails as the conversion does |
| `JsonParser.TokenRead` | src/host/stratum/simple_json.cpp:206-208 | cutting the scanned token out does not change its value |
| `JsonParser.Parse` | src/host/stratum/simple_json.cpp:257-262 | value and number of characters used |
| `GrpcFraming.Receive` | src/host/pearl/grpc_client.cpp:482-485 | for every split of a stream without an oversized length into payloads, events and leftover are those of one-shot parsing |
| `GrpcFraming.Reader.ParseMessages` | src/host/pearl/grpc_client.cpp:498-512 | with the source's guard alone the loop equals one-shot parsing of a buffer without an oversized length |
| `GrpcFraming.Reader.Feed` | src/host/pearl/grpc_client.cpp:482-485 | appending a payload continues the parse |
| `GrpcFraming.ParsePrefix` | src/host/pearl/grpc_client.cpp:498-512 | parsing a prefix and continuing is parsing the whole, up to the first oversized length |
| `GrpcFraming.FrameLenExactIff` | src/host/pearl/grpc_client.cpp:500-502 | the 32-bit frame length is exact if and only if the body length is at most 2^32 - 6 |
| `GrpcFraming.OversizedPassesGuard` | src/host/pearl/grpc_client.cpp:498-504 | every larger body length passes the loop's guard with a frame length of at most 4 |
| `GrpcFraming.WrappingHeader` | src/host/pearl/grpc_client.cpp:498-504 | a five-byte header whose frame length wraps to 0 |
| `GrpcFraming.FramesComeBack` | src/host/pearl/grpc_client.cpp:456-466 | framed messages come back in order, and what follows is parsed as if it stood alone |
| `GrpcFraming.MessagesComeBack` | src/host/pearl/grpc_client.cpp:498-512 | of any messages a peer sends, with bodies up to 2^32 - 6 bytes, the uncompressed ones that decode are delivered, in order, before what follows |
| `ProtoWire.VarintRoundTrip` | src/host/pearl/proto/mining_v2.cpp:33-44 | varints up to 2^64 - 1 read back in any context |
| `ProtoWire.ItemRoundTrip` | src/host/pearl/proto/mining_v2.cpp:71-106 | every kind of field written reads back in any context |
| `ProtoWire.MessageRoundTrip` | src/host/pearl/proto/mining_v2.cpp:71-106 | a written message reads back as exactly the fields written, in order |
| `ProtoMessages.Writer.WriteVarint` | src/host/pearl/proto/mining_v2.cpp:109-115 | appends the varint |
| `ProtoMessages.Writer.WriteNumber` | src/host/pearl/proto/mining_v2.cpp:121-124 | appends one varint field |
| `ProtoMessages.Writer.WriteBytes` | src/host/pearl/proto/mining_v2.cpp:142-146 | appends one length-delimited field |
| `ProtoMessages.Writer.WriteDouble` | src/host/pearl/proto/mining_v2.cpp:152-155 | appends one fixed 64-bit field |
| `ProtoMessages.Writer.WriteFixed32` | src/host/pearl/protobuf_encoder.cpp:33-38 | appends one fixed 32-bit field |
| `ProtoMessages.Reader.DecodeVarint` | src/host/pearl/proto/mining_v2.cpp:33-44 | value and position, truncation and overflow errors |
| `ProtoMessages.Reader.NextField` | src/host/pearl/proto/mining_v2.cpp:71-106 | the next field, the end, or an exception, for every input |
| `ProtoMessages.CardRoundTrip` | src/host/pearl/proto/mining_v2.cpp:164-189 | a card is restored but for its hashrate |
| `ProtoMessages.RegisterRoundTrip` | src/host/pearl/proto/mining_v2.cpp:192-255 | registration is restored but for its doubles, repeated cards in order, unknown trailing fields ignored |
| `ProtoMessages.EncodeRegister` | src/host/pearl/proto/mining_v2.cpp:192-220 | the writer emits the items of the message, optional ones only when set |
| `ProtoMessages.DecodeRegister` | src/host/pearl/proto/mining_v2.cpp:226-255 | the reading loop folds the fields into a blank message, or fails as a nested card does |
| `ProtoMessages.EncodeCard` | src/host/pearl/proto/mining_v2.cpp:164-171 | the items of a card |
| `ProtoMessages.DecodeCard` | src/host/pearl/proto/mining_v2.cpp:173-189 | the reading loop of a card |
| `ShareProto.ProofRoundTrip` | src/host/pearl/protobuf_encoder.cpp:46-59 | a reader recovers exactly the whole leaves and siblings of a proof, and the proof itself if and only if it consists of whole ones |
| `ShareProto.ShareRoundTrip` | src/host/pearl/protobuf_encoder.cpp:67-120 | a reader on the wire format recovers the submission with the whole pieces of its nested proofs, and the submission itself if and only if both proofs consist of whole ones |
| `ShareProto.EncodeProof` | src/host/pearl/protobuf_encoder.cpp:46-59 | leaves, indices, total and siblings as repeated fields |
| `ShareProto.EncodeShare` | src/host/pearl/protobuf_encoder.cpp:67-120 | the items of the submission, audit siblings only when present |
| `Base64.TextRoundTrip` | src/host/pearl/pearl_stratum_client.cpp:39-71 | base64 decodes to the original bytes for every length |
| `Base64.EncodeText` | src/host/pearl/pearl_stratum_client.cpp:39-71 | the loop with its tail case computes the encoding |
| `Bincode.MatrixRoundTrip` | src/host/pearl/bincode_encoder.cpp:17-52 | a reader recovers the whole leaves and siblings, indices, total, root and opened lines in any context |
| `Bincode.PlainRoundTrip` | src/host/pearl/bincode_encoder.cpp:54-78 | a reader recovers dimensions and both matrix proofs, and what is left tells certificate version 2 from version 1 |
| `Bincode.SubmittedTextRoundTrip` | src/host/pearl/pearl_stratum_client.cpp:39-71 | the submitted text is lossless |
| `Bincode.Writer.WriteMatrix` | src/host/pearl/bincode_encoder.cpp:17-52 | the write helpers append the matrix proof |
| `Bincode.EncodePlain` | src/host/pearl/bincode_encoder.cpp:54-78 | the whole plain proof, version suffix included |
| `WaveAlign.WholeWavesIff` | src/host/pearl/rtx5090_profile.h:72-82 | 170 divides g * t exactly when 170 / gcd(g, 170) divides t |
| `WaveAlign.WaveAlignedWidth` | src/host/pearl/rtx5090_profile.h:86-95 | the least tile-aligned width at or above a positive bound whose block count is a multiple of 170, for every number of rows |

## Left out

- CUDA calls, kernels, the Merkle and hash code in Rust: foreign; they appear as functions, streams of operations or parameters.
- Sockets, TLS, HTTP/2 frames other than DATA payloads, HPACK, reconnect and backoff, telemetry, logging, command line, environment flags: input and output.
- Stop, pause and stall exits of the worker, and thread start-up: the worker model covers running threads; `set_target` is two environment steps, and the installer's free is one step with publishing ready.
- Weak memory order: atomic operations are taken one at a time, in program order.
- The range guards of the challenge solver (difficulty outside 0 to 255, or above a maximum) return no nonce before any thread starts; these and the hexadecimal conversion of seeds and nonces are not modelled.
- Keyed and derive-key initialisation of the hasher: the results hold for every key and every set of mode flags, so these are choices of parameters.
- Floating-point difficulty: the model starts from the scaled integer. JSON numbers are the exact values of finite doubles; negative zero is zero, and infinities and NaN are not modelled.
- Exceptions thrown while decoding a pool event inside the gRPC reader: a body decodes, or is skipped.
- Address overflow in bounds checks such as `p_ + len > end_`: positions are unbounded.
- 32-bit overflow of loop bounds and products in the grid profile and in matrix offsets.
- The other protobuf messages (heartbeat, job assignment, authentication), default patterns, the mining-configuration bytes and the hexadecimal target text: same shapes as what is modelled, with easier properties.
- Tuners, metrics, test helpers, legacy Stratum and multiplexer code.
- Transcript.RunTranscript: the tile is a two-dimensional array instead of one flat buffer, and its cells are unbounded; `Transcript.TileFitsIff` says when they fit.
- ClaimedHash.ComputeClaimedHash: stated for noise ranks 2, 4, 8, ... and, where the whole expansion is sliced, for column indices below n; other ranks index outside the noise row, as `Noise.RankIsSafeIff` shows.
- Noise.RankIsSafeIff: stated for ranks up to 2^16, which covers every rank the 16-bit field of the mining configuration carries (src/host/pearl/pearl_types.cpp:94); the witness for an unsafe rank needs the rank squared below 2^32. `Noise.PairsAreProper` covers every power of two up to 2^31.
- Challenge.Verify: the build without the Rust library returns true for every nonce (src/host/pearl/pearl_challenge.cpp:211-214); only the other build is modelled.
- GrpcFraming.Reader.ParseMessages: says nothing about a buffer with an oversized length, on which the source reads and erases past the end of the buffer.
- GpuWorkerProgress.LatestCanBeAdopted: a continuation exists; no fairness is assumed, so it is not claimed that every run takes it.
- GpuWorkerRuns.TriggersMatchTheirLaunch: a batch launched before any target was set has target zero, and its triggers then carry the live target, as the code does.
