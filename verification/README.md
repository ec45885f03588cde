# Verification of the Zebra-Crosslink core

This project models the stateful core of Zebra with Crosslink in Dafny 4.11 and proves what its assertions and
comments claim. `dafny verify dfyconfig.toml` checks everything. There are five parts.

- **Checkpoint verifier** (`CheckpointTypes`, `CheckpointRanges`, `CheckpointReach`, `CheckpointAnswers`,
  `CheckpointVerifier`). Blocks wait in a queue by height until an unbroken run reaches a checkpoint, and are then
  verified backwards along the hash chain. A panic is an outcome: range processing panics exactly if a checkpoint
  contradicts the chain it walks, and on one collision-free chain never does. There it reaches every checkpoint whose
  blocks are delivered, as long as no others are.
- **History tree** (`Integers`, `MountainRange`, `Upgrades`, `HistoryTree`). The Merkle mountain range of ZIP 221,
  section "Tree Node specification", of which only the peaks are kept. Hashing is a free term algebra, so equal terms
  are equal under every hash function. The unseen library that appends leaves is modelled after ZIP 221: it returns
  the leaf and then each newly completed parent, in array order.
- **Crosslink finality** (`Bytes`, `FatPointers`, `BftBlocks`, `Rewards`, `Roster`, `PowChain`, `Finality`,
  `FinalityRuns`, `FinalityService`). Decided BFT blocks form a log; the proof-of-work blocks they finalize are
  rewarded and have their staking commands applied. Both build profiles abort on a panic, so a panic ends a run. The
  state service is an oracle over one best chain per decision, which holds the block that it has just finalized, plus
  the heights of blocks known on any chain. Hashes are assumed to have 32 bytes, never to be zero and never to equal
  that of a placeholder block; that a signature batch verifies is an input.
- **Value pools** (`Amounts`, `ValueBalances`, `ValuePools`). Bounded amounts are summed over transactions and blocks
  into chain pools, as section "Specification" of ZIP 209 requires.
- **Batch worker** (`Batching`, `BatchRuns`, `BatchProgress`, `BatchWorker`). A state machine with one step per poll
  of the worker, from one await point to the next, per client call and for dropping the worker where it waits, and the
  classes that implement it. Readiness of the wrapped service, finished batches and the timer are inputs to each poll.
  A select with every arm disabled, a join handle polled after its end and a send without a permit panic, which ends a
  run.

Eight promises turn out not to hold of the code as it is. Each is proved with the exact condition under which it does.

- Blocks are not always rewarded once: nothing keeps a finalization candidate from going back, also if the state
  finalizes every candidate (`Finality.ExactThroughout`, `FinalityRuns.ExactIfNeverFalling`,
  `FinalityRuns.TwiceFromStart`), and a candidate on a side chain that the state fails to finalize rewards blocks that
  are not final (`FinalityRuns.SideFromStart`).
- A checkpoint is not always reached once its blocks wait: a foreign block above it, requested again and again, keeps
  the checkpoint verifier from it (`CheckpointReach.ReachedExactly`, `CheckpointReach.SampleNeverReaches`).
- The transparent pool is not always the sum of unspent outputs: `flat_map` drops transactions whose balance is an
  error (`ValuePools.UnspentThroughout`, `ValuePools.DroppedTransaction`).
- A batch worker does not always answer every request: one that is dropped while it waits for the service with a
  request in hand leaves that one unanswered (`BatchRuns.AnswersAllExactly`, `BatchRuns.DroppedRequest`).
- A failed batch worker is not always without a timer, and turns in which that has elapsed do nothing
  (`BatchRuns.FailedWorkerSetsTimer`, `BatchRuns.FailedWithTimer`, `BatchRuns.FailedWorkerDrains`).
- A gone batch worker does not always refuse clients: the second one that asks panics if the worker task is watched
  (`BatchRuns.PanicsExactly`, `BatchRuns.SecondAskPanics`).
- The limit on concurrent batches is not clamped, and with zero the worker panics on its first turn
  (`BatchRuns.PanicsExactly`).
- Votes with a negative round, fat pointers with 65536 or more signatures and BFT blocks with more than 2048 headers
  do not survive their encodings (`FatPointers.VoteRoundTrip`, `FatPointers.FatPointerRoundTrip`,
  `BftBlocks.BlockRoundTrip`).

## Model

| member | source | states |
|---|---|---|
| CheckpointVerifier.Lifetime | zebra-consensus/src/checkpoint.rs:257-300 | A verifier created at any tip, run on any requests and resets and then dropped: the states between the calls are those that each request determines; if the checkpoints and all tips lie on one collision-free chain no assertion fires; without a panic every accepted request is answered, as the run answered it or with `Dropped`; the run tells a request that a newer one replaced it exactly if one did; without resets the blocks answered `Ok`, in sending order, are one hash-linked chain of consecutive heights from genesis or just above the tip up to the verified height, matching every checkpoint on it; and on one chain exactly those checkpoints have been reached up to which some call completed the chain's own blocks |
| CheckpointVerifier.CheckpointVerifier.Run | zebra-consensus/src/checkpoint.rs:1082-1100 | Over any sequence of requests and resets from any valid state: each call takes the state before it to the state after it as determined, up to the first call that panics; answers sent stay and the `Ok` answers only grow |
| CheckpointVerifier.CheckpointVerifier.Call | zebra-consensus/src/checkpoint.rs:1082-1100 | One request with an optional reset first: panics exactly if the request is queued and the range then contradicts a checkpoint; otherwise it is refused with the stated error and nothing changes, or it is queued and one round of range processing follows; answers sent stay; everything stays on the one chain |
| CheckpointVerifier.CheckpointVerifier.ProcessCheckpointRange | zebra-consensus/src/checkpoint.rs:779-933 | Panics exactly if an interim checkpoint or the previous hash contradicts the chain walked from the target; otherwise the outcome is the verified or the failed range, answers sent stay, new ones are `Ok` or name the hash expected instead, and the "make progress", "decrease target" and "cover all" assertions hold |
| CheckpointVerifier.CheckpointVerifier.VerifyRange | zebra-consensus/src/checkpoint.rs:833-933 | The same once a target is found |
| CheckpointVerifier.CheckpointVerifier.WalkRange | zebra-consensus/src/checkpoint.rs:833-848 | The loop over the range: panics exactly where the backwards walk contradicts a checkpoint; otherwise it ends with the blocks of the walk held and every other block of the heights passed answered |
| CheckpointVerifier.CheckpointVerifier.CompleteRange | zebra-consensus/src/checkpoint.rs:884-932 | A complete range answers its blocks in height order, moves progress to the target, extends the verified chain and leaves no reachable checkpoint |
| CheckpointVerifier.CheckpointVerifier.FailRange | zebra-consensus/src/checkpoint.rs:849-880 | A failed range puts the held blocks back one per height; the new target is below the failing height or gone |
| CheckpointVerifier.CheckpointVerifier.PutBack | zebra-consensus/src/checkpoint.rs:856-861 | Re-inserting the held blocks gives the queue narrowed to one chain block per height above the failing one |
| CheckpointVerifier.CheckpointVerifier.ProcessHeight | zebra-consensus/src/checkpoint.rs:716-770 | Empties a height, returns its only block with the expected hash, answers all others as side chain; panics exactly on a contradicting interim checkpoint; the duplicate branch is unreachable |
| CheckpointVerifier.CheckpointVerifier.QueueBlock | zebra-consensus/src/checkpoint.rs:651-710 | Each error case changes nothing; an accepted request is queued exactly once and an older request for the same block is answered `NewerRequest`; lists stay short and free of duplicates |
| CheckpointVerifier.CheckpointVerifier.TargetCheckpointHeight | zebra-consensus/src/checkpoint.rs:409-479 | The target is the highest checkpoint reached by an unbroken run of queued heights, and waiting means that there is none |
| CheckpointVerifier.CheckpointVerifier.UpdateProgress | zebra-consensus/src/checkpoint.rs:539-582 | Progress moves exactly to unverified checkpoints |
| CheckpointVerifier.CheckpointVerifier.ResetProgress | zebra-consensus/src/checkpoint.rs:366-372 | A reset keeps the queue and the accounting, and starts a new chain at the height and hash of the tip |
| CheckpointVerifier.CheckpointVerifier.Drop | zebra-consensus/src/checkpoint.rs:946-960 | After drop every accepted request has been answered, those still queued with `Dropped` |
| CheckpointVerifier.CheckpointVerifier.constructor | zebra-consensus/src/checkpoint.rs:257-300 | A new verifier is valid and starts at its tip |
| CheckpointVerifier.CheckpointVerifier.AnswerOk | zebra-consensus/src/checkpoint.rs:896-900 | The blocks of a complete range are answered `Ok` once each, in height order |
| CheckpointRanges.FailedRange | zebra-consensus/src/checkpoint.rs:833-881 | A failed range leaves progress unchanged, empties the failing height, keeps exactly one block at each range height above it, hash-linked down from the target checkpoint, and touches no other height; no block at the failing height had the expected hash |
| CheckpointRanges.FailedRangeTarget | zebra-consensus/src/checkpoint.rs:863-878 | A failed range strictly lowers or removes the target |
| CheckpointRanges.FailureLowersTarget | zebra-consensus/src/checkpoint.rs:870-878 | Losing one height of the range puts the new target below that height |
| CheckpointRanges.SuccessCoversAll | zebra-consensus/src/checkpoint.rs:924-932 | After a complete range the queue reaches no further checkpoint |
| CheckpointRanges.NoPanicOnOneChain | zebra-consensus/src/checkpoint.rs:779-894 | On one chain with no collision the walk never contradicts a checkpoint or the previous hash |
| CheckpointRanges.OnChainKept | zebra-consensus/src/checkpoint.rs:779-933 | Range processing keeps every queued block and the tip on the one chain |
| CheckpointRanges.TipKeepsOnChain | zebra-consensus/src/checkpoint.rs:100-120 | A reset to a tip on the chain stays on the chain |
| CheckpointVerifier.FrontierAdvances | zebra-consensus/src/checkpoint.rs:884-906 | A complete walk extends the chain of `Ok` answers up to the target checkpoint |
| CheckpointRanges.ProcessedShrinks | zebra-consensus/src/checkpoint.rs:833-881 | Range processing queues nothing new |
| CheckpointVerifier.QueueKeeps | zebra-consensus/src/checkpoint.rs:669-705 | Queueing keeps lists non-empty, at most four long, distinct and filed by height, and every request queued or answered |
| CheckpointVerifier.AccountedStep | zebra-consensus/src/checkpoint.rs:748-767 | Answering the side-chain blocks of a height keeps every request queued or answered, never both |
| CheckpointTypes.QueuedExactlyOnce | zebra-consensus/src/checkpoint.rs:669-705 | A waiting request occupies exactly one place in the queue |
| CheckpointTypes.CheckHeight | zebra-consensus/src/checkpoint.rs:508-535 | Accepts exactly the heights above the verified one up to the last checkpoint; the others are too high, already verified or come after the last checkpoint, with the heights named |
| CheckpointTypes.TargetUnique | zebra-consensus/src/checkpoint.rs:409-479 | The target is determined by the queue and the verified height |
| CheckpointTypes.DescendHeld | zebra-consensus/src/checkpoint.rs:833-848 | A complete backwards walk holds one queued block per height, each the parent of the one above |
| CheckpointTypes.DescendOnChain | zebra-consensus/src/checkpoint.rs:884-888 | On one chain a complete walk ends at the chain's own hash |
| CheckpointTypes.HeldIsChain | zebra-consensus/src/checkpoint.rs:896-900 | Read forwards, the held blocks are a chain that matches its checkpoints |
| CheckpointVerifier.MaxHeightInRange | zebra-consensus/src/checkpoint/list.rs:228-233 | The highest checkpoint in a range of heights |
| CheckpointRanges.Admit | zebra-consensus/src/checkpoint.rs:591-651 | Exactly the valid blocks at unverified heights are queued, as requested, unless four blocks with other hashes wait at that height; every refusal has its own error |
| CheckpointAnswers.AnswersExplained | zebra-consensus/src/checkpoint.rs:674-693 | Over every run a request is answered with `NewerRequest`, for its own height and hash, exactly if a later request for the same block was accepted while it waited; every other answer is success with its hash or names the other hash expected |
| CheckpointAnswers.RepliesExactly | zebra-consensus/src/checkpoint.rs:591-705 | The reply to every call, error by error, and that a refused request changes nothing |
| CheckpointAnswers.CallAnswers | zebra-consensus/src/checkpoint.rs:674-693 | The same for one call: the replaced request is answered in it, and no other with that error |
| CheckpointReach.OwnRefused | zebra-consensus/src/checkpoint.rs:669-705 | A block of the chain is refused for lack of room exactly if its height is unverified and four other blocks wait there |
| CheckpointReach.DescendFinds | zebra-consensus/src/checkpoint.rs:833-888 | On one chain the backwards walk is complete exactly if the chain's own block waits at each of its heights, and else breaks at the highest one where it does not |
| CheckpointReach.RoundOutcome | zebra-consensus/src/checkpoint.rs:779-933 | If the chain's own blocks wait up to a checkpoint, a round verifies up to its target exactly if they wait up to there; otherwise it keeps those up to the checkpoint and lowers the target, but not below the checkpoint |
| CheckpointReach.ReachedExactly | zebra-consensus/src/checkpoint.rs:1082-1100 | Over every run of requests for any blocks that do not collide with the chain, without resets: a checkpoint has been reached if and only if some call queued a block after which the chain's own blocks waited up to the target, and that target was at or above the checkpoint |
| CheckpointReach.WaitsUntilReached | zebra-consensus/src/checkpoint.rs:1082-1100 | Once the chain's own blocks wait up to a checkpoint they keep waiting until it is reached, and it is reached exactly by the first call that completes a range |
| CheckpointReach.CallAdvances | zebra-consensus/src/checkpoint.rs:1082-1100 | A call moves progress to its target exactly if the chain's own blocks then wait up to there, and otherwise leaves it |
| CheckpointReach.StallStep | zebra-consensus/src/checkpoint.rs:833-881 | If only one height below the target is missing and the chain's own blocks wait above it, a foreign block there is queued, breaks the round and is thrown out: queue and progress are as before |
| CheckpointReach.StallsForever | zebra-consensus/src/checkpoint.rs:1082-1100 | So over any number of such requests, all accepted, nothing more is verified |
| CheckpointReach.SampleNeverReaches | zebra-consensus/src/checkpoint.rs:1082-1100 | From a new verifier, three requests lead there although the block of the next checkpoint waits, and then it waits for as long as the foreign block is requested again |
| CheckpointVerifier.StallingRun | zebra-consensus/src/checkpoint.rs:1082-1100 | The verifier runs these requests without a panic |
| CheckpointReach.OwnCall | zebra-consensus/src/checkpoint.rs:1082-1100 | A request for a block of the chain is refused only as already verified, leaves the block queued or verified, and leaves no covered checkpoint unverified |
| CheckpointReach.RunReaches | zebra-consensus/src/checkpoint.rs:1082-1100 | In particular, over runs of requests for blocks of the chain alone, in any order and with repetitions: once the blocks of all heights up to a checkpoint were delivered, that checkpoint has been reached |
| MountainRange.AppendLeafCorrect | zebra-chain/src/history_tree.rs:251-263 | Appending a leaf to the mountain range over some leaves gives the mountain range over one more, and adds exactly the returned nodes at the end of the array |
| MountainRange.RangeUnique | zebra-chain/src/history_tree.rs:293-307 | Perfect trees of descending altitudes are the only decomposition of their leaves |
| MountainRange.MountainsAreRange | zebra-chain/src/history_tree.rs:293-307 | Every leaf sequence has that decomposition |
| MountainRange.PeakCount | zebra-chain/src/history_tree.rs:293-307 | One peak per set bit of the leaf count |
| MountainRange.RootCommits | zebra-chain/src/history_tree.rs:555-557 | With a collision-free hash equal roots mean equal leaf sequences |
| MountainRange.RootLeaves | zebra-chain/src/history_tree.rs:555-557 | The leaves below the root are all leaves, in order |
| MountainRange.PeakMapIsRestriction | zebra-chain/src/history_tree.rs:354-356 | The peak map is the full array restricted to the peak positions |
| MountainRange.CarryPeaks | zebra-chain/src/history_tree.rs:251-264 | After an append every peak is an old peak in its place or the last node added |
| HistoryTree.PrunedCache | zebra-chain/src/history_tree.rs:251-264 | Old peaks plus appended nodes, cut down to the peak positions, are the peak map over one more leaf |
| HistoryTree.WalkPeaks | zebra-chain/src/history_tree.rs:308-352 | The peak loop, on 32-bit words, ends without underflow or overflow and collects exactly the peak positions of any range |
| HistoryTree.PeakPositions | zebra-chain/src/history_tree.rs:284-352 | From `size = 2n - popcount(n)` alone, for all `1 <= n < 2^31`, the positions of the roots of the maximal perfect subtrees over `n` leaves |
| HistoryTree.SizeFormula | zebra-chain/src/history_tree.rs:308-308 | The array over `n` leaves has `2n - popcount(n)` nodes |
| HistoryTree.WordSizeExactly | zebra-chain/src/history_tree.rs:308-308 | `size + 1` fits in a `u32` exactly for fewer than `2^31` leaves |
| HistoryTree.SizeFits | zebra-chain/src/history_tree.rs:259-264 | Block heights are bounded, so the size always fits |
| HistoryTree.WalkInside | zebra-chain/src/history_tree.rs:334-345 | A candidate position is inside the array exactly if a peak of that altitude is there |
| HistoryTree.PeakMapInKeyOrder | zebra-chain/src/history_tree.rs:409-441 | Reading the cached peaks in key order gives the range back |
| HistoryTree.HighestAltitude | zebra-chain/src/history_tree.rs:308-308 | The altitude from the leading zeros brackets the size between powers of two |
| HistoryTree.NonEmptyHistoryTree.Push | zebra-chain/src/history_tree.rs:220-267 | The kept size, peaks and runtime tree are those of the full tree over all leaves; an activation block starts a new tree; the last leaf commits to the block and its Sapling root, and to its Orchard root exactly from NU5 on |
| HistoryTree.NonEmptyHistoryTree.Insert | zebra-chain/src/history_tree.rs:259-263 | New entries are stored one after another at the end |
| HistoryTree.NonEmptyHistoryTree.Prune | zebra-chain/src/history_tree.rs:284-376 | Exactly the peaks are kept, and the rebuilt tree has the root over all leaves |
| HistoryTree.NonEmptyHistoryTree.TryExtend | zebra-chain/src/history_tree.rs:270-281 | A run of pushes from any tree gives the leaves of the upgrade in force |
| HistoryTree.NonEmptyHistoryTree.FromBlock | zebra-chain/src/history_tree.rs:147-208 | The tree of one block, whose leaf commits to the block and its Sapling root, and to its Orchard root exactly from NU5 on |
| HistoryTree.NonEmptyHistoryTree.FromCache | zebra-chain/src/history_tree.rs:80-138 | Rebuilding from the saved peaks gives the tree over all leaves |
| HistoryTree.NonEmptyHistoryTree.Clone | zebra-chain/src/history_tree.rs:409-441 | A copy rebuilt from the peaks has the same root, size and leaves |
| HistoryTree.NonEmptyHistoryTree.Hash | zebra-chain/src/history_tree.rs:381-386 | The root is the root over every leaf pushed, and the leaves below it are those leaves in order |
| HistoryTree.HistoryTree.FromBlock | zebra-chain/src/history_tree.rs:454-475 | Empty exactly below Heartwood, otherwise the tree of that block |
| HistoryTree.HistoryTree.Push | zebra-chain/src/history_tree.rs:482-527 | The tree is absent exactly below Heartwood; otherwise its leaves are exactly the blocks since the activation of the upgrade in force |
| HistoryTree.HistoryTree.PushAll | zebra-chain/src/history_tree.rs:482-527 | The same over any run of consecutive heights from an empty tree: one leaf per block since the activation of the upgrade in force, each committing to its own block and roots |
| HistoryTree.LeavesInForceStep | zebra-chain/src/history_tree.rs:240-249 | Within one upgrade the leaves grow by one; an activation block starts over |
| HistoryTree.LeavesInForceCommit | zebra-chain/src/history_tree.rs:147-208 | Leaf by leaf, the leaves in force commit to the blocks since the activation of the current upgrade and their Sapling roots, and to the Orchard roots exactly for NU5, NU6, NU6.1 and NU7 |
| HistoryTree.HeartwoodBoundary | zebra-chain/src/history_tree.rs:495-512 | From the Heartwood activation height on, and only then, an upgrade with history is in force |
| Upgrades.CurrentActivation | zebra-chain/src/parameters/network_upgrade.rs:315-336 | The highest activation height not above a height |
| Upgrades.ActivationBoundary | zebra-chain/src/parameters/network_upgrade.rs:373-385 | An upgrade or a later one is in force exactly from the activation height on |
| Upgrades.RankIsPlace | zebra-chain/src/parameters/network_upgrade.rs:39-72 | The rank of an upgrade is its place in the list of all upgrades in activation order |
| FinalityService.Run | zebra-crosslink/src/lib.rs:499-748 | A run from an empty log returns normally exactly if every decision is acceptable at its place, stated without the state machine, and then ends in the state those decisions determine |
| FinalityService.TflServiceInternal.NewDecided | zebra-crosslink/src/lib.rs:499-748 | Panics exactly if the pointer, signatures, previous pointer, candidate, height or finalize response is wrong; in particular the height must be the next one; otherwise the whole new state and the returned roster |
| FinalityService.TflServiceInternal.Append | zebra-crosslink/src/lib.rs:546-577 | The padding and the assertions together accept a block exactly at the next height, and leave no placeholder |
| FinalityService.TflServiceInternal.PadTo | zebra-crosslink/src/lib.rs:548-561 | The log is filled with placeholders up to the index |
| FinalityService.TflServiceInternal.Validate | zebra-crosslink/src/lib.rs:790-820 | A block fails exactly if it does not name the tip; otherwise it panics exactly if it has no headers, passes exactly if its first header is of a known block and else is indeterminate |
| FinalityService.TflServiceInternal.WalkFinal | zebra-crosslink/src/lib.rs:595-744 | The walk rewards exactly the newly final blocks, in order, and applies their commands, skipping only the repeated boundary block |
| FinalityService.TflServiceInternal.PayBlock | zebra-crosslink/src/lib.rs:647-735 | A block pays one reward, applies its staking commands and is recorded as rewarded |
| FinalityService.TflServiceInternal.HistoricalBlockAtHeight | zebra-crosslink/src/lib.rs:843-861 | A block of the log comes with a pointer to that very block; the unwrap never fails |
| FinalityService.TflServiceInternal.constructor | zebra-crosslink/src/lib.rs:162-182 | An empty log with a null tip pointer |
| FinalityService.SkipsBoundary | zebra-crosslink/src/lib.rs:636-642 | The boundary check skips exactly the last final block |
| Finality.OnlyNextHeight | zebra-crosslink/src/lib.rs:563-574 | Below the next height a decided block is in the way, above it the parent would be a placeholder |
| Finality.DecideKeepsLog | zebra-crosslink/src/lib.rs:546-577 | A decision keeps block `i` at height `i + 1`, each previous pointer naming the block before, the tip pointer naming the last |
| Finality.RunKeepsLog | zebra-crosslink/src/lib.rs:546-577 | Over every run the log grows by exactly the decided blocks in order and stays linked |
| Finality.RunsExactly | zebra-crosslink/src/lib.rs:523-592 | A run returns normally exactly if each pointer is validly signed and names its block, each block names the one before, has the next height and starts with a known header, and the state finalizes no other block |
| Finality.RunFinalizes | zebra-crosslink/src/lib.rs:542-577 | After every run the latest final block is the first header of the block decided last, at its known height |
| Finality.FatPointerToBlockAtHeight | zebra-crosslink/src/lib.rs:823-841 | A pointer is found exactly for the heights of the log |
| Finality.PointerNamesBlock | zebra-crosslink/src/lib.rs:823-841 | The pointer found names the block of the requested height |
| Finality.ExactThroughout | zebra-crosslink/src/lib.rs:595-744 | After every decision of a run all blocks from the first final one to the latest are rewarded exactly once and in height order, if and only if every candidate is the last final block again or continues from it on the best chain |
| FinalityRuns.ExactIfNeverFalling | zebra-crosslink/src/lib.rs:581-744 | If the state finalizes every candidate and what it has finalized stays on the best chain, then rewards are exact after every decision if and only if the heights of the candidates never fall |
| Finality.ExactContinues | zebra-crosslink/src/lib.rs:595-744 | A continuing candidate extends the rewarded stretch up to itself |
| Finality.ExactBreaks | zebra-crosslink/src/lib.rs:595-744 | Any other candidate leaves blocks rewarded that are not final, or final blocks unrewarded |
| Finality.NewlyFinalCases | zebra-crosslink/src/lib.rs:595-642 | What a candidate newly finalizes, for every position of it and of the last final block |
| FinalityRuns.GoingBackPaysTwice | zebra-crosslink/src/lib.rs:595-744 | Whenever the code takes two decisions that go back to a lower candidate and forward again, it rewards the blocks in between once more |
| FinalityRuns.SideChainPaysToTip | zebra-crosslink/src/lib.rs:595-744 | Whenever the code takes a decision whose candidate is known only on a side chain, the state has failed to finalize it, and the best chain is rewarded up to its tip |
| FinalityRuns.TwiceFromStart | zebra-crosslink/src/lib.rs:595-744 | From an empty log and for every sound hash there is a run of three decisions that rewards a block twice, although the state finalizes every candidate and keeps what it has finalized |
| FinalityRuns.SideFromStart | zebra-crosslink/src/lib.rs:595-744 | And a run of two decisions, the second of which the state fails to finalize, that rewards a block which is not final |
| Finality.RunPays | zebra-crosslink/src/lib.rs:634-740 | Over every run the roster is what the rewarded blocks, in order, pay out and command |
| Finality.RunTotal | zebra-crosslink/src/lib.rs:654-719 | Over every run total stake is the initial total, plus one full reward per rewarded block that found stake, plus adds, minus subtractions and clears; distinct keys stay distinct |
| Finality.PaidTotal | zebra-crosslink/src/lib.rs:654-719 | The same for any sequence of rewarded blocks |
| PowChain.BlockSequence | zebra-crosslink/src/lib.rs:1503-1627 | For every chunk size of at least one the fetch loop ends and returns, with consecutive heights and their hashes, exactly the blocks from the start, or from the one after it, that are not after the final block; none if the start is unknown or above the final height; the first-hash assertion never fires |
| PowChain.SequenceExact | zebra-crosslink/src/lib.rs:1503-1627 | The blocks between the computed bounds are exactly those to be read, by height |
| PowChain.ReadChunks | zebra-crosslink/src/lib.rs:1555-1608 | The chunked reading loop returns the stretch up to the stop hash, or to the tip if that is not on the chain |
| PowChain.FindFrom | zebra-state/src/service/read/find.rs:342-436 | A query from a hash returns the hashes after it, and none only at the stop |
| PowChain.HeightByHash | zebra-state/src/service/read/find.rs:183-195 | The height of a block on the best chain |
| Rewards.DivideReward | zebra-crosslink/src/lib.rs:654-719 | The two loops compute the reward round: everyone but the first largest staker gets the rounded-down share of 6000, and that one the rest; neither the subtraction nor the remainder assertion can fail; every addition stays within a `u64` exactly if the total before and each stake after the round do |
| Rewards.RewardDivided | zebra-crosslink/src/lib.rs:654-719 | The outcome of a round, outright: shares, rest, keys and the new total |
| Rewards.GiveShares | zebra-crosslink/src/lib.rs:680-698 | Every member but the largest staker is given its rounded-down share, and the shares are added up |
| Rewards.TotalAndMax | zebra-crosslink/src/lib.rs:654-673 | The total stake and the first member with the largest stake |
| Rewards.RewardConserved | zebra-crosslink/src/lib.rs:654-719 | A round with any stake adds exactly the whole reward |
| Rewards.RewardFair | zebra-crosslink/src/lib.rs:654-719 | Keys stay, members without stake get nothing, no stake falls, and every strict difference in stake is kept |
| Rewards.LargestStakerBonus | zebra-crosslink/src/lib.rs:701-717 | The largest staker gets at least its share, with a bonus smaller than the number of staked members |
| Rewards.RewardFits | zebra-crosslink/src/lib.rs:680-700 | The rounded shares add up to at most the reward and miss it by less than one per staked member |
| Rewards.RewardUnique | zebra-crosslink/src/lib.rs:654-719 | The outcome of a round is determined by the stakes |
| Rewards.RewardRoundFits | zebra-crosslink/src/lib.rs:691-717 | No stake of a round exceeds the new total and no share the reward |
| Roster.UpdateRosterForCmd | zebra-crosslink/src/lib.rs:988-1061 | Applies each kind of command, and counts it, exactly if stake is only added or the member it takes from is there with at least that stake; otherwise nothing changes; and exactly when its addition stays within a `u64` |
| Roster.AddToRoster | zebra-crosslink/src/lib.rs:1049-1058 | Stake is added to the member, or a new member at the end |
| Roster.UpdateRosterForBlock | zebra-crosslink/src/lib.rs:1063-1081 | Applies the commands of a block in order, counts those accepted, and tells exactly whether all additions stay within a `u64` |
| Roster.FitsIfTotalFits | zebra-crosslink/src/lib.rs:1046-1058 | No addition overflows as long as the total stake fits |
| Roster.CommandEffect | zebra-crosslink/src/lib.rs:988-1061 | Key by key, what a command takes from one member and adds to another; a rejected command changes nothing; at most the target joins |
| Roster.CommandByKind | zebra-crosslink/src/lib.rs:988-1061 | Kind by kind, the stake of every key afterwards, which commands are applied, and exactly when the target joins |
| Roster.MoveConserves | zebra-crosslink/src/lib.rs:988-1061 | Move and MoveClear conserve the total, also when source and target are the same |
| Roster.CommandKeepsKeysDistinct | zebra-crosslink/src/lib.rs:1046-1058 | Distinct keys stay distinct |
| Roster.CommandsTotal | zebra-crosslink/src/lib.rs:1063-1081 | The total after a block's commands is accounted for |
| Roster.RosterFromInternal | zebra-crosslink/src/lib.rs:751-781 | The roster lists exactly the members, larger stakes first and larger keys among equal stakes, each with the sum of the stakes up to it; these stay within a `u64` exactly if the total does |
| Roster.CanonicalIgnoresOrder | zebra-crosslink/src/lib.rs:751-781 | Every permutation of the members gives the same roster |
| Roster.CanonicalCorrect | zebra-crosslink/src/lib.rs:751-781 | The roster lists exactly the members, larger stakes and then larger keys first; its cumulative stakes are prefix sums and the last is the total |
| Roster.SortedStrictly | zebra-crosslink/src/lib.rs:768-774 | With distinct keys the order by stake and key is strict |
| FatPointers.VoteRoundTrip | zebra-crosslink/src/lib.rs:2031-2065 | A vote survives its 76 bytes exactly if its round is not negative |
| FatPointers.VoteBytesRoundTrip | zebra-crosslink/src/lib.rs:2031-2065 | Every 76-byte string is the encoding of one vote |
| FatPointers.VoteLayout | zebra-crosslink/src/lib.rs:2031-2043 | Key, hash, height and round at their offsets, least significant byte first; the top bit is set exactly for a commit |
| FatPointers.InflatedVoteBytes | zebra-crosslink/src/lib.rs:1917-1932 | Each inflated vote is the signer's key followed by the 44 template bytes, for the block pointed at |
| FatPointers.SerializeFatPointer | zebra-crosslink/src/lib.rs:1956-1965 | The writing loop produces the encoding |
| FatPointers.DeserializeFatPointer | zebra-crosslink/src/lib.rs:1967-1985 | The reading loop decodes it, failing exactly when bytes run out |
| FatPointers.FatPointerRoundTrip | zebra-crosslink/src/lib.rs:1956-1985 | A fat pointer decodes to itself, leaving trailing bytes, exactly if it has fewer than 65536 signatures; otherwise signatures are lost to the trailing bytes |
| FatPointers.FatPointerCanonical | zebra-crosslink/src/lib.rs:1956-1985 | What decodes re-encodes to the same bytes |
| FatPointers.FatPointerLayout | zebra-crosslink/src/lib.rs:1956-1965 | Template, 16-bit signature count and then key and vote signature of each signer, at their offsets |
| BftBlocks.SerializeBlock | zebra-crosslink/src/chain.rs:77-91 | The writing loop produces the encoding |
| BftBlocks.DeserializeBlock | zebra-crosslink/src/chain.rs:93-118 | The reader decodes it, refusing more than 2048 headers |
| BftBlocks.DeserializeHeaders | zebra-crosslink/src/chain.rs:106-109 | The header loop reads exactly the announced number |
| BftBlocks.BlockRoundTrip | zebra-crosslink/src/chain.rs:77-118 | A BFT block decodes to itself, leaving trailing bytes, exactly if it has at most 2048 headers and fewer than 65536 signatures in its previous pointer |
| BftBlocks.BlockLayout | zebra-crosslink/src/chain.rs:77-91 | Version, height, previous pointer, candidate height, header count and headers at their offsets, least significant byte first |
| BftBlocks.HeaderAt | zebra-crosslink/src/chain.rs:85-89 | The headers follow each other in order |
| BftBlocks.PairRoundTrip | zebra-crosslink/src/chain.rs:269-284 | The same for a block followed by the pointer to it |
| Amounts.SumCorrect | zebra-chain/src/amount.rs:420-436 | A sum is exact if every partial sum is an amount; otherwise the error names the first partial sum that is none and the items left |
| Amounts.NonNegativeSum | zebra-chain/src/amount.rs:420-436 | A sum of non-negative amounts is an amount exactly if the whole sum is |
| Amounts.DivStaysInRange | zebra-chain/src/amount.rs:403-417 | A quotient stays within every constraint, so the expect cannot fail, and is rounded toward zero |
| Amounts.AmountRoundTrip | zebra-chain/src/amount.rs:109-123 | An `i64` survives its eight bytes exactly if it is an amount |
| Amounts.AmountLayout | zebra-chain/src/amount.rs:109-123 | The bytes are those of the two's complement, least significant byte first |
| Amounts.AmountBytesRoundTrip | zebra-chain/src/amount.rs:109-123 | Bytes that decode re-encode to the same bytes |
| Amounts.Add | zebra-chain/src/amount.rs:133-147 | Adding two amounts never overflows an `i64` |
| Amounts.Sub | zebra-chain/src/amount.rs:182-196 | Nor does subtracting them |
| ValueBalances.SumBalancesCorrect | zebra-chain/src/value_balance.rs:532-541 | A sum of balances is exact in every pool and exists exactly if every partial sum is in range in every pool |
| ValueBalances.Constrain | zebra-chain/src/value_balance.rs:143-154 | Accepts exactly the balances in range; the error names a pool out of range |
| ValueBalances.PoolChangeExact | zebra-chain/src/value_balance.rs:285-295 | A change is accepted exactly if no pool would leave its range, is then exact, and the opposite change undoes it |
| ValueBalances.RemainingValueExact | zebra-chain/src/value_balance.rs:170-177 | The remaining value is the exact sum over the pools and never negative |
| ValueBalances.BalanceRoundTrip | zebra-chain/src/value_balance.rs:322-397 | Pools survive their 40 bytes; from 32 bytes only the deferred pool is lost |
| ValueBalances.BalanceLayout | zebra-chain/src/value_balance.rs:322-338 | Eight bytes for each of the transparent, Sprout, Sapling, Orchard and deferred pools, in this order |
| ValuePools.TransactionBalanceExact | zebra-chain/src/transaction.rs:1557-1565 | A transaction has a balance exactly if its inputs, its outputs and every partial sum over its join splits are amounts; it is then exact in every pool, by transaction version; otherwise the error blames the transparent or the Sprout pool |
| ValuePools.TransparentExact | zebra-chain/src/transaction.rs:1219-1244 | The transparent balance is inputs minus outputs, and exists exactly if both are amounts |
| ValuePools.SproutExact | zebra-chain/src/transaction.rs:1354-1405 | The sprout balance is the sum over the join splits of new minus old |
| ValuePools.InputValues | zebra-chain/src/transparent.rs:330-349 | Each input is worth the output it spends, a coinbase input nothing |
| ValuePools.PoolChangeMisses | zebra-chain/src/block.rs:227-243 | A block's pool change exists exactly if every partial sum of its transactions' balances does, and is in each pool the opposite of what the transactions that have a balance take; its transparent part is what all transactions change, less what those without a balance change |
| ValuePools.AcceptExact | zebra-chain/src/value_balance.rs:271-295 | A block is accepted exactly if its pool change exists and takes no pool below zero or above the maximum; every pool then changes by exactly that |
| ValuePools.ApplyTotal | zebra-chain/src/value_balance.rs:271-279 | The unspent outputs change by exactly what the transactions add and take, also for outputs spent in the block that made them |
| ValuePools.AcceptKeepsTransparentPool | zebra-chain/src/value_balance.rs:271-295 | Accepting a block moves the unspent outputs and the transparent pool apart by exactly what the dropped transactions change; so equal totals stay equal if and only if that is nothing, and always if every transaction has a balance |
| ValuePools.TransparentPoolIsUnspent | zebra-chain/src/value_balance.rs:271-295 | Over every run of accepted blocks the unspent outputs and the transparent pool drift apart by exactly what all dropped transactions change; the Sprout, Sapling and Orchard pools each lose exactly what the others take, and the deferred pool grows by the sum of its changes |
| ValuePools.UnspentThroughout | zebra-chain/src/value_balance.rs:271-295 | Over every run from equal totals the transparent pool is the sum of all unspent outputs after every block, if and only if the dropped transactions of every block change nothing in total |
| ValuePools.DroppedTransaction | zebra-chain/src/block.rs:232-236 | A transaction without a balance leaves the pools unchanged although it adds unspent outputs |
| ValuePools.OnlyCoinbaseCreatesValue | zebra-chain/src/value_balance.rs:157-177 | If all transactions but the first leave a non-negative remaining value, a block creates no more value than its first transaction does |
| Batching.RunKeepsInv | tower-batch-control/src/worker.rs:197-290 | In every state that any run reaches, also with the worker waiting for the service and dropped there: no more batches in flight than allowed although the timer arm flushes unguarded; until a failure pending weight is below the limit or about to be flushed, and has a timer; after one nothing waits for the service and a timer is only set while no weight is pending; each flushed batch without its last item is below the limit; errors agree; every request is in exactly one place: in hand or queued once, answered, or dropped unanswered; no permit is lost |
| Batching.NextKeeps | tower-batch-control/src/worker.rs:197-290 | The same for each single event, including a drop at any await point |
| Batching.StepKeepsInv | tower-batch-control/src/worker.rs:137-290 | Each poll of the worker, from one await point to the next, keeps the invariant |
| Batching.ReceiveKeepsInv | tower-batch-control/src/worker.rs:235-281 | Taking a message off the channel keeps the invariant |
| Batching.ProcessKeepsInv | tower-batch-control/src/worker.rs:147-161 | Processing it once the service is ready, or has failed, keeps the invariant |
| Batching.FlushKeepsInv | tower-batch-control/src/worker.rs:168-187 | Flushing a full or timed-out batch once the service is ready, or has failed, keeps the invariant |
| Batching.ExitKeepsInv | tower-batch-control/src/worker.rs:364-396 | When the worker goes away, wherever it waits, every request sent has a response |
| Batching.PollReadyKeepsInv | tower-batch-control/src/service.rs:238-302 | Asking for a permit keeps the invariant; it is refused only because a watched task was cancelled, or with the worker's error, and panics exactly if the end of the watched task was reported before |
| Batching.PollReadyExact | tower-batch-control/src/service.rs:238-302 | A client gets a permit exactly if the channel is open and one is free or its own, and waits exactly if it is open and none is; no other client's permit is touched |
| Batching.CallKeepsInv | tower-batch-control/src/service.rs:304-329 | Sending keeps the invariant; a send fails only with the worker's error |
| Batching.CallExact | tower-batch-control/src/service.rs:304-329 | Exactly with a permit and an open channel a request is queued, last, with its own weight and a new number |
| Batching.RunGrows | tower-batch-control/src/worker.rs:298-335 | Responses are never changed, requests never forgotten, and the first error stays |
| BatchRuns.RunInOrder | tower-batch-control/src/worker.rs:197-290 | Over every run items reach the service as sent and in sending order, each in exactly one batch, and a request is told the service was called exactly if its item was handed over |
| BatchRuns.NextInOrder | tower-batch-control/src/worker.rs:197-290 | The same for each single event |
| BatchProgress.FlushesExactly | tower-batch-control/src/worker.rs:223-233 | Once its timer has elapsed, whatever clients do, the pending batch of a healthy worker is flushed exactly with the last of the advancing turns it needs, at most three; until then its items stay pending and no other batch is flushed |
| BatchProgress.TimerFlushes | tower-batch-control/src/worker.rs:223-233 | In particular an elapsed timer and then a ready service flush the batch in two turns |
| BatchProgress.ServesExactly | tower-batch-control/src/worker.rs:235-252 | While no timer elapses, whatever clients do, the first waiting request reaches the service exactly with the last of the serving turns it needs |
| BatchProgress.BatchesCounted | tower-batch-control/src/worker.rs:168-187 | Over every run the running batches are those flushed and not finished, and at most one batch below the limit is flushed per turn with an elapsed timer |
| BatchProgress.FailsWithFirstError | tower-batch-control/src/worker.rs:298-335 | Over every run the worker has failed exactly if a finished batch, the service or its own end reported an error, and with the first one reported |
| BatchProgress.RefusesWithFirstError | tower-batch-control/src/worker.rs:137-162 | Over every run each refused request was told that first error |
| Batching.GoneRespondsToAll | tower-batch-control/src/worker.rs:364-396 | Once the worker is gone every request has its answer, but for one that it had in hand when it was dropped, whose sender was dropped; later sends are refused with the worker's error; asking is refused with it, or as cancelled if the task is watched, and panics the second time if the task is watched |
| BatchRuns.AbandonsExactly | tower-batch-control/src/worker.rs:145-147 | Over every run a request is dropped unanswered if and only if the worker is dropped while it waits for the service with that request in hand |
| BatchRuns.AnswersAllExactly | tower-batch-control/src/worker.rs:364-396 | A worker that is gone has answered every request ever sent, if and only if it was not dropped with one in hand; that one only sees its sender dropped |
| BatchRuns.DroppedRequest | tower-batch-control/tests/worker.rs:19-43 | A new worker that takes a request and is dropped while the service is not ready never answers it |
| BatchRuns.FailedWorkerSetsTimer | tower-batch-control/src/worker.rs:245-272 | Whenever a request has been handled and the worker has failed, the timer is set exactly if no weight is pending; so also by the request on which the service fails |
| BatchRuns.FailedWithTimer | tower-batch-control/src/worker.rs:245-272 | From a new worker, two requests and a failing service lead to a failed worker with a timer and a queued request |
| BatchRuns.FailedTurn | tower-batch-control/src/worker.rs:204-288 | A turn of a failed worker answers the first queued request, or returns if there is none, exactly if no batch has finished, no set timer has elapsed and another batch may run |
| BatchRuns.FailedWorkerDrains | tower-batch-control/src/worker.rs:197-290 | Over every run without a drop, a failed worker with `n` queued requests answers them all and returns, if and only if it takes `n + 1` such turns |
| BatchRuns.FailedWorkerSpins | tower-batch-control/src/worker.rs:223-233 | A failed worker whose timer stays elapsed stays in the same state over every run of turns in which no batch finishes |
| BatchRuns.PanicsExactly | tower-batch-control/src/service.rs:238-263 | A run panics exactly if the worker takes a turn although no concurrent batch is allowed, so that every arm of the select is disabled, or the handle of a gone worker is polled a second time, or a client sends without a permit |
| BatchRuns.SecondAskPanics | tower-batch-control/src/service.rs:242-263 | After a new worker is dropped the second client that asks panics, exactly if the worker task is watched |
| BatchRuns.SomeArmEnabled | tower-batch-control/src/worker.rs:204-235 | In every state of the invariant some arm of the select is enabled exactly if a concurrent batch is allowed |
| Batching.Clamped | tower-batch-control/src/service.rs:171-188 | The batch limit is at least one, the number of concurrent batches is not clamped, and the semaphore has room for exactly that many batches, but for at least one and at most 64 |
| BatchWorker.Worker.constructor | tower-batch-control/src/worker.rs:107-134 | A new worker is in the initial state |
| BatchWorker.Worker.RegisterFailure | tower-batch-control/src/worker.rs:298-335 | The first failure is shared, closes both channels and stops the timer; later ones change nothing |
| BatchWorker.Worker.ProcessReq | tower-batch-control/src/worker.rs:147-161 | Once the service is ready a request is handed to it, or answered with the error, which is always there when needed |
| BatchWorker.Worker.FlushService | tower-batch-control/src/worker.rs:174-187 | Once the service is ready a flush starts a batch and empties the pending one, or fails the worker |
| BatchWorker.Worker.CanSpawnNewBatches | tower-batch-control/src/worker.rs:190-192 | False exactly at the limit, never while a timer is set, and if true then any flush stays within the limit |
| BatchWorker.Worker.ReceiveMessage | tower-batch-control/src/worker.rs:235-251 | A message is taken off the channel, and answered at once by a failed worker |
| BatchWorker.Worker.SettleBatch | tower-batch-control/src/worker.rs:253-281 | After a request a full batch is to be flushed, a new one gets a timer, and else the permit is released |
| BatchWorker.Worker.Drain | tower-batch-control/src/worker.rs:376-381 | Every queued request is answered with the error |
| BatchWorker.Worker.Drop | tower-batch-control/src/worker.rs:364-381 | Dropping the worker, wherever it waits, fails it and answers every queued request; it has answered all requests exactly if it had none in hand |
| BatchWorker.Worker.Turn | tower-batch-control/src/worker.rs:197-290 | One poll of the worker keeps the invariant; a running worker in its select panics exactly if no concurrent batch is allowed; an elapsed timer leads to a flush, a ready service performs it, and the error of a finished batch fails the worker |
| BatchWorker.Worker.SelectArm | tower-batch-control/src/worker.rs:204-235 | The select panics if every arm is disabled |
| BatchWorker.Worker.TakeArm | tower-batch-control/src/worker.rs:204-288 | The first enabled arm that is ready runs; an elapsed timer of a healthy worker with no finished batch leads to a flush |
| BatchWorker.Worker.BatchFinished | tower-batch-control/src/worker.rs:207-221 | A finished batch leaves room for another, and fails the worker if it failed |
| BatchWorker.Batch.PollReady | tower-batch-control/src/service.rs:238-302 | A client gets a permit exactly if the channel is open and one is free or its own; otherwise it waits or is refused: as cancelled if the watched worker task was, otherwise with the worker's error; it panics exactly if the end of the watched task was reported before |
| BatchWorker.Batch.Acquire | tower-batch-control/src/service.rs:265-301 | An earlier permit is given up before a new one is taken |
| BatchWorker.Batch.Call | tower-batch-control/src/service.rs:304-329 | The request is queued, last and with its own weight, exactly if the client has a permit and the channel is open; without a permit it panics |
| BatchWorker.Batch.constructor | tower-batch-control/src/service.rs:336-344 | A new handle holds no permit |

## Left out

- Rewards.DivideReward: tells exactly when a `u64` would overflow, but does not wrap or panic there; `Rewards.RewardRoundFits` bounds every stake by the total.
- Roster.UpdateRosterForCmd: tells exactly when a `u64` would overflow, but does not wrap or panic there, nor does `Roster.RosterFromInternal`.
- FinalityService.TflServiceInternal.Append: for height 0 a build without overflow checks wraps the index and pads the log until memory runs out; the model panics, as a build with them does.
- CheckpointRanges.Admit: the proof-of-work, subsidy and Merkle root checks are one boolean of the request.
- FinalityService.TflServiceInternal.NewDecided: the best chain does not change while one decision is processed.
- BatchWorker.Worker.Turn: a wrapped service that panics is not modelled.
- State commits in the spawned checkpoint task: only the reset that follows a failed one, as an arbitrary tip.
- Diagnostics, metrics, logging and progress bars.
- `FatPointerToBftBlock2::try_from_bytes`: its slice range is reversed, so it panics on every input long enough to parse.
- Version 6 transactions, which are behind a build feature, and the mutable accessors that only tests use.
- `Amount` multiplication, negation and the in-place operators: they would only add easy members.
- The main loop of the finality service, block proposals, networking, key handling and the user interface.
- Signatures, proofs, hash functions, difficulty, Equihash and scripts.
- The semantic transaction and block verifiers, and the mempool.
- Response futures, layers and configuration of the batch service.
