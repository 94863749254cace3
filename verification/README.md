# Verified model of the Hyperscale node

This project models the consensus core of the Hyperscale node in Dafny 4.11 and proves what its
state machines keep. `dafny verify dfyconfig.toml` checks all of it. Nothing here executes the node.

What is modelled, and where:

- **Commit and sync pipeline** of one BFT node. `CommitPipeline` gives every handler as a function on
  values. `BftNode` gives the handlers in the node's own form, a class whose methods update maps and
  counters in nested loops, each proved equal to its function. `PipelineRuns` proves what every run
  keeps (order of emitted blocks, no commit left behind, the sync verification window), `PipelineSteps`
  what each event does to one block and what a run may emit, and `ConfluentCommits` that the arrival
  order of commits and data does not matter.
- **Voting.** `Quorum` and `VoteLock`: stake-weighted quorums, and vote locking over crashes and
  restarts. `VoteCounting` and `VoteAccounting`: the vote set with deferred verification, as a class,
  and the accounting over its lifetime. `DataAvailability`: every path to a vote.
- **Blocks.** `BlockAssembly`: assembling a block from hash lists and arriving items. `BlockForm`: the
  ordering check as a canonical form. `CertificateDedup`: certificates along a chain of proposals.
- **Cross-shard overlay store.** `StorageKeys`: byte order, key layout and the end of a prefix scan.
  `Overlay`: the merge iterator against point reads. `Writes` and `WritesCommitment`: conversion of
  writes to database updates and back, and the commitment hash.
- **Livelock detection.** `CrossShardTracker`, `LivelockDetection`, `LivelockRuns`: indexes, cycle
  detection and deferrals over any number of shards. `DeferralProposals`: from the queue through the
  proposer's filter to the validators' rules.
- **Speculative execution cache** (`SpeculativeCache`), the verified vote cache (`VerifiedVotes`) and
  the reverse index both use (`ReverseIndex`). `Options`, `Sequences` and `Quorum` hold what several
  modules share.

Conventions:

- Hashes are natural numbers with their order; a hash determines its header, and a transaction hash its
  transaction. In the pipeline a block is named by its hash, which carries its height, and the zero hash
  is `None`. Where the contents behind a hash matter (`BlockAssembly`), nothing is assumed about them.
- Foreign code is a parameter: hash functions, the node key mapper (a 20-byte prefix before the 30-byte
  id), the shard of a node, outcomes of signature and root checks, and readiness of the state tree.
- The runner is the environment: it may answer any request at any time, in any order and with any
  content. What its answers have to satisfy is stated where it matters, as the exact condition.
- Maps and sets that the node iterates in unspecified order are iterated in arbitrary order. Where the
  order shows in the result, the contracts leave it open (`LivelockDetection`) or hold for every order
  (`CommitPipeline.Pick`).
- Integers are unbounded. With clean answers the vote power sums stay at or below the committee's total
  (`VoteAccounting.RunCountsEachMemberOnce`), so the 64-bit sums of a vote set do not overflow then.

Where the code is not what one may expect, it is modelled as it is:

- A synced block whose certificate does not name it is not submitted; the branch for a genesis
  certificate is therefore never reached, since a block's hash is not the zero hash.
- `CompetingDeliveryParksTheNextHeight` shows that the sync window needs agreeing deliveries, and
  `DeliverySettlesIffNoConflict` says exactly when one delivery breaks it.
- `try_vote_on_block` goes on to vote when the pending block is gone or not constructed. Data availability
  holds all the same, because every path to it started from a complete block.
- A prefix scan never selects the bare partition prefix, so a provision at the empty sort key is seen by
  point reads only (`EmptyKeyAgreesIffProvisionRepeatsBase`).
- The commitment hash sorts writes with a stable sort and concatenates them without lengths. Writes to
  one key are therefore hashed in the order given, and the hash depends on that order exactly when their
  encodings do not commute (`HashesAlikeIffEqualKeysCommute`). Bytes may move between a sort key and a
  value without changing it (`SingleWritesCommitAlikeIff`); with the lengths given it fixes the writes.
- Both runners answer a vote batch with the votes verified before as well as those of the batch, and the
  vote set counts what it is given. `RunnerAnswerIsCleanIffNothingVerified` says when that is right, and
  `EchoedVoteCountsTwice` and `AnswerToDiscardedSetCountsTwice` are the two runs where it is not.
- A validator counts its own vote before it is on storage. `AtMostOneCertificatePerHeight` needs it to
  wait, and `UnpersistedVoteAllowsTwoCertificates` is the run where it does not.
- The proposer compares a number of signers with a threshold of voting power. The two agree exactly in
  committees of unit weights (`HeadCountIsStakeIffUnitWeights`).
- A committed certificate may be finalized again and then be proposed again (`FinalizedAgainRepeats`).
- A view change, or a second trigger for a block, makes the speculative cache record no reads for results
  that complete afterwards (`CompletedDeclaredIffKnown`).
- Adding a transaction to the tracker, or a result to the speculative cache, again with fewer shards or
  reads leaves old reverse entries behind. The exact conditions are proved for both.
- The comment on verified votes speaks of retention by age, but votes are always recorded with height
  zero, so pruning at any cutoff drops them all. The model records height zero too.

## Model

| member | source | states |
|---|---|---|
| `BftNode.BftState.CleanupOldState` | crates/bft/src/state.rs:4872-4931 | Drops exactly the pending, certified, awaiting, buffered and verifying entries at or below the committed height; the whole new state equals the value-level function |
| `BftNode.BftState.CommitSuccessors` | crates/bft/src/state.rs:3804-3903 | The in-place commit loop ends in the state `CommitFrom` gives: the block and every buffered successor up to the first gap, terminating on the shrinking set of buffered commits |
| `BftNode.BftState.CommitBlockAndBuffered` | crates/bft/src/state.rs:3804-3903 | Commit loop, clean-up and draining of synced blocks together equal the value-level handler |
| `BftNode.BftState.OnBlockReadyToCommit` | crates/bft/src/state.rs:3703-3782 | A ready block is committed, buffered by height, set aside for data, or dropped, as the value-level handler says for every state |
| `BftNode.BftState.TryCommitPendingData` | crates/bft/src/state.rs:3785-3797 | A commit that waited for data resumes when its block is complete, and only then |
| `BftNode.BftState.DrainPendingCommits` | crates/bft/src/state.rs:4197-4228 | The drain loop after sync commits buffered consensus commits from the next height on |
| `BftNode.BftState.OnSyncedBlockReady` | crates/bft/src/state.rs:3916-3999 | A delivered synced block is ignored, buffered and drained, or submitted, by its height against the window |
| `BftNode.BftState.SubmitSyncedBlock` | crates/bft/src/state.rs:4002-4057 | Submission adds the block to the verification table and asks for its certificate |
| `BftNode.BftState.TryDrainBuffered` | crates/bft/src/state.rs:4065-4107 | The drain loop submits consecutive buffered blocks above the highest one under verification while slots of 16 are free |
| `BftNode.BftState.ApplySyncedBlock` | crates/bft/src/state.rs:4110-4189 | Applying a synced block commits it, cleans up and drains the buffered commits; the whole new state equals the value-level handler, of which `ApplyDrains` says what it drains |
| `BftNode.BftState.TryApplyVerified` | crates/bft/src/state.rs:4235-4288 | The apply loop commits verified blocks one height after another, taking whichever of several the table yields first in any iteration order, and terminates on verifying plus buffered blocks |
| `BftNode.BftState.OnQcSignatureVerified` | crates/bft/src/state.rs:2900-2937 | A valid answer marks the block and applies what is consecutive; an invalid one clears the whole verification table |
| `CommitPipeline.CommitFromShrinks` | crates/bft/src/state.rs:3804-3903 | The commit loop never adds buffered commits, and a block that can be committed strictly advances the height |
| `CommitPipeline.ApplyShrinks` | crates/bft/src/state.rs:4235-4288 | Applying the next verified block strictly shrinks the blocks held for sync |
| `PipelineRuns.RunEmitsConsecutiveHeights` | crates/bft/src/state.rs:3804-3903 | In every run of headers, data, commits, sync deliveries and verification answers, for any iteration order of the verification table, the emitted blocks have heights c0+1, c0+2, … with none skipped or repeated, across the consensus path, the sync path and their nested drains |
| `PipelineRuns.RunKeepsWindow` | crates/bft/src/state.rs:3916-4107 | In every run whose deliveries agree on one block per height: the heights under verification are exactly a contiguous interval from committed+1 of at most 16 blocks, buffered blocks lie strictly above it, and committed+1 is never left in the buffer |
| `PipelineRuns.DeliverySettlesIffNoConflict` | crates/bft/src/state.rs:3916-3999 | A delivery keeps that invariant if and only if it does not compete with another block of its height under verification |
| `PipelineRuns.CompetingDeliveryParksTheNextHeight` | crates/bft/src/state.rs:3916-3999 | A concrete run with a competing delivery after which the next height is parked in the buffer and deliveries of either block change nothing |
| `PipelineRuns.VerifiedSettles` | crates/bft/src/state.rs:2909-2937 | Every verification answer, valid or not, keeps the window invariant |
| `PipelineRuns.ApplyVerifiedKeepsWindow` | crates/bft/src/state.rs:4235-4288 | Applying any number of verified blocks, with the commits they release, keeps the window |
| `PipelineRuns.TryDrainSettles` | crates/bft/src/state.rs:4065-4107 | Draining restores the invariant: the next height is submitted if it was buffered |
| `PipelineRuns.DrainCommitsDrains` | crates/bft/src/state.rs:4197-4228 | From every state the drain takes buffered commits at consecutive heights, emits exactly those, and leaves none at the next height |
| `PipelineRuns.ApplyDrains` | crates/bft/src/state.rs:4110-4189 | Applying a synced block emits it and the buffered commits above it, and leaves no buffered commit at the next height |
| `PipelineRuns.RunLeavesNothingNext` | crates/bft/src/state.rs:3703-4288 | In every run no buffered commit is left at the next height between events, whichever path moved the tip |
| `PipelineRuns.AnswerAppliesOrClears` | crates/bft/src/state.rs:2900-2937 | After a valid answer no verified block is left at the next height, and the tip has reached the answered block if it was next; an invalid answer empties the verification table and changes nothing else |
| `PipelineSteps.HeldAfterStepIff` | crates/bft/src/state.rs:3916-4288 | After any event a node holds a synced block above the tip if and only if it held it before or accepted it now, less those under verification when an answer is invalid: no drain or clean-up loses one |
| `PipelineSteps.AvailableAfterStepIff` | crates/bft/src/state.rs:3703-4288 | Which blocks above the tip can be committed, and which are certified, changes exactly as the event itself says, whatever is committed, drained and cleaned up on the way |
| `PipelineSteps.StepForgetsPassedBlocks` | crates/bft/src/state.rs:4872-4931 | After an event that moves the tip the chain remembers no block at or below it, nor waits for its data |
| `PipelineSteps.RunEmitsOnlyBacked` | crates/bft/src/state.rs:3703-4288 | In every run a block is emitted only if it was complete at hand or had a valid signature answer, at the start or through an earlier event |
| `PipelineSteps.TryDrainFills` | crates/bft/src/state.rs:4065-4107 | Draining leaves all 16 slots taken or the block after the window missing |
| `ConfluentCommits.EveryInterleavingReachesTheGap` | crates/bft/src/state.rs:3703-3797 | For a contiguous run of known blocks, any interleaving of ready events and data arrivals ends at the first block lacking one of the two, with everything before it emitted in order and no commit buffered at the next height |
| `ConfluentCommits.CommitsAreConfluent` | crates/bft/src/state.rs:3703-3903 | Two runs over the same events, in any order and with repetitions, end with the same height and the same emitted blocks |
| `ConfluentCommits.CompleteEventsCommitAll` | crates/bft/src/state.rs:3703-3903 | Once every block is announced and its data has arrived, all are committed, as with in-order delivery |
| `Quorum.QuorumsShareAnHonestMember` | crates/types/src/identifiers.rs:83-85 | Any two stake-weighted quorums share a member outside any set holding less than a third of the weight |
| `VoteLock.KeepsOneVoteIffLockRespected` | crates/bft/src/state.rs:1976-2007 | For a validator with a stored vote at an uncommitted height, an event keeps memory, queue, storage and broadcast votes in agreement on that one vote if and only if it leaves the lock alone or repeats the vote |
| `VoteLock.LocalStepKeepsOneVote` | crates/bft/src/state.rs:2533-2578 | Memory, runner queue and storage tell one story about a height across votes, persistence, crashes, restarts and commits |
| `VoteLock.EscapesAllowASecondVote` | crates/bft/src/state.rs:4325-4344 | With a first vote at the height persisted, releasing the lock on round advance or on a certificate, or voting from a callback, gets a second, different vote persisted beside it |
| `VoteLock.SecondVoteIffEscape` | crates/bft/src/state.rs:1976-2007 | A validator with a stored vote at an uncommitted height hands a different vote to the runner right after an event if and only if the event releases the lock or is a callback vote for that block |
| `VoteLock.RestartLosesVoteIffNotPersisted` | crates/production/src/runner.rs:3302-3330 | A restart forgets a vote already counted, so that the validator can vote for another block, if and only if the vote is queued and not yet persisted |
| `VoteLock.CommittedHeightsAreClosed` | crates/bft/src/state.rs:4872-4931 | After a commit or restart at a height, no run hands over another vote at or below it unless it restarts lower or a callback votes there; the locks above are as before |
| `VoteLock.AtMostOneQuorumPerHeight` | crates/bft/src/state.rs:1976-2007 | For any committee, stake weights and less than a third faulty weight, in any run with crashes and restarts where honest members respect their locks at a height, at most one block there gathers a quorum of broadcast votes |
| `VoteLock.AtMostOneCertificatePerHeight` | crates/bft/src/state.rs:2533-2584 | With own votes counted as soon as they are created, at most one block at the height is ever certified if moreover honest builders count their own vote only once it is persisted |
| `VoteLock.UnpersistedVoteAllowsTwoCertificates` | crates/bft/src/state.rs:2580-2584 | A run without that guard, with one faulty member of four and every lock respected, that certifies two blocks at one height |
| `VoteCounting.VoteSet.constructor` | crates/bft/src/vote_set.rs:71-97 | A new vote set holds no votes and its totals are zero |
| `VoteCounting.VoteSet.BufferUnverifiedVote` | crates/bft/src/vote_set.rs:151-181 | A first vote is buffered and marked, a second one of the same validator is refused, and the running totals stay equal to the sums |
| `VoteCounting.VoteSet.AddVerifiedVote` | crates/bft/src/vote_set.rs:264-294 | An own vote goes straight to the verified list under the same duplicate check, with power and weighted-time sums kept |
| `VoteCounting.VoteSet.ShouldTriggerVerification` | crates/bft/src/vote_set.rs:189-198 | Verification is due exactly when none is pending, no certificate was built, votes wait, the header is known and verified plus waiting power could be a quorum |
| `VoteCounting.VoteSet.TakeUnverifiedVotes` | crates/bft/src/vote_set.rs:204-208 | Hands over exactly the waiting votes and marks a batch in flight |
| `VoteCounting.VoteSet.OnVotesVerified` | crates/bft/src/vote_set.rs:245-255 | The loop appends the verified votes and keeps both sums exact |
| `VoteCounting.OnBlockVote` | crates/bft/src/state.rs:2620-2715 | A vote for a committed height, from outside the committee, without power, without a known key or already seen changes nothing; any other is added and may send a batch |
| `VoteCounting.OnQcResult` | crates/bft/src/state.rs:2786-2893 | A built certificate ends the set; otherwise the valid votes are counted and the next batch may be sent |
| `VoteAccounting.RunCountsEachMemberOnce` | crates/bft/src/vote_set.rs:151-294 | Over every run whose answers are clean, however often the set is discarded, each committee member occurs at most once among verified, buffered and in-flight votes, counted power equals the power of those members and never exceeds the committee, and at most one batch is in flight |
| `VoteAccounting.StepKeepsInv` | crates/bft/src/state.rs:2620-2893 | Votes, headers and discarding the set always keep that invariant, and so does every clean answer |
| `VoteAccounting.AnswerKeepsMembersIff` | crates/bft/src/vote_set.rs:245-255 | One answer, with any votes at all, keeps every member counted at most once if and only if the returned members are distinct and not verified, buffered or in another batch |
| `VoteAccounting.AnswerKeepsOneBatchIff` | crates/bft/src/state.rs:2786-2893 | An answer keeps at most one batch in flight, as the flag tells, if and only if it is to the set's own request or nothing of the set is in flight |
| `VoteAccounting.AnswerKeepsInvIff` | crates/bft/src/state.rs:2786-2893 | An answer keeps the whole invariant if and only if it is clean: distinct members, counted nowhere else, seen by the set, and no newer batch in flight |
| `VoteAccounting.RunnerAnswerIsCleanIffNothingVerified` | crates/production/src/runner.rs:2086-2196 | The runners return the votes verified before along with the valid ones of the batch; such an answer is clean if and only if nothing was verified when the batch was sent |
| `VoteAccounting.EchoedVoteCountsTwice` | crates/simulation/src/runner.rs:831-930 | A run in which the own vote comes back with the answer and counts twice, so that two members of four pass for a quorum |
| `VoteAccounting.AnswerToDiscardedSetCountsTwice` | crates/bft/src/state.rs:4859-4863 | A run in which the set is discarded and created anew while its batch is verified, and the old answer counts a member twice |
| `VoteAccounting.StepConserves` | crates/bft/src/state.rs:2620-2893 | With answers taken from their batch every accepted vote is in exactly one place: verified, buffered, in flight, or gone with an answered batch |
| `VoteAccounting.RunSendsOnlyWhenDue` | crates/bft/src/state.rs:2786-2893 | In every run, whatever the answers, no batch is sent without a possible quorum by the set's own count, and none after a certificate was built as long as the set is not discarded |
| `VoteAccounting.RunSendsNothingWithoutHeader` | crates/bft/src/vote_set.rs:189-198 | In every run no batch is sent before the header is known |
| `VoteAccounting.RunLeavesNothingDue` | crates/bft/src/state.rs:2620-2893 | In every run no batch that could be sent is left waiting between events |
| `VoteAccounting.RunAcceptsOnlyMembers` | crates/bft/src/state.rs:2620-2715 | In every run each accepted vote is from a committee member with power and counts with exactly that power |
| `VoteAccounting.WeightedTimeIsBetween` | crates/bft/src/vote_set.rs:264-294 | The weighted-time sum lies between the power times the earliest and the latest vote time |
| `BlockAssembly.PendingBlock.AddTransaction` | crates/bft/src/pending.rs:157-166 | An item is taken if and only if its hash is still missing; everything else is unchanged |
| `BlockAssembly.PendingBlock.AddCertificate` | crates/bft/src/pending.rs:171-180 | The same for certificates, keyed by transaction hash |
| `BlockAssembly.PendingBlock.ConstructBlock` | crates/bft/src/pending.rs:225-283 | Refuses an incomplete block, returns the cached one, and otherwise drains the received items section by section in list order |
| `BlockAssembly.CompleteIffAllArrived` | crates/bft/src/pending.rs:183-185 | For any sequence of arrivals, with repeats and strangers, the block is complete, and can be constructed, if and only if some item of each listed kind and hash has arrived |
| `BlockAssembly.RoundTripIffGenuineAndRepeatless` | crates/bft/src/state.rs:3287-3345 | Splitting a block and feeding arrivals gives back the original if and only if its hashes are distinct and the first arrival under each hash is its own item |
| `BlockAssembly.ConstructedBlockStays` | crates/bft/src/pending.rs:234-236 | Further arrivals and constructions leave a constructed block as it is |
| `BlockAssembly.ConstructionMovesAllOut` | crates/bft/src/pending.rs:225-283 | For any arrivals that complete it, construction leaves no received item and no deferral, abort or proof behind |
| `BlockAssembly.CollectExact` | crates/bft/src/pending.rs:240-262 | Taking items out by hash gives the list back if and only if hashes are distinct and each holds the right item |
| `BlockForm.VerifyHashSorted` | crates/bft/src/state.rs:2513-2525 | Comparing neighbours accepts exactly the strictly increasing lists |
| `BlockForm.ValidateTransactionOrdering` | crates/bft/src/state.rs:2459-2511 | Accepts exactly the canonical blocks, and any error it returns is a real violation |
| `BlockForm.CanonicalHasNoRepeats` | crates/bft/src/state.rs:2459-2511 | An accepted block has pairwise distinct transactions across all three sections |
| `BlockForm.CanonicalIsUnique` | crates/bft/src/state.rs:2459-2511 | Two accepted blocks with the same transactions and proofs have identical sections |
| `BlockForm.CanonicalExists` | crates/bft/src/state.rs:2459-2511 | Every set of transactions has an accepted arrangement |
| `DataAvailability.Validator.Run` | crates/bft/src/state.rs:6-13 | In every run each vote ever cast is for a block of which the validator had every item of a listing it got, at the moment of the vote; between two votes at one height, the later one through the lock check, the height was unlocked or committed; and a vote at the end of a block's checks comes after valid answers to all it needs |
| `DataAvailability.VotesSeparated` | crates/bft/src/state.rs:1975-2007 | In any history whose direct votes found their height unlocked, an earlier vote at the height of a direct vote was released in between |
| `DataAvailability.LockedUntilReleased` | crates/bft/src/state.rs:2533-2537 | A voted height stays locked until it is unlocked or a commit at or above it prunes it |
| `DataAvailability.Validator.CreateVote` | crates/bft/src/state.rs:2533-2584 | Casting a vote needs the listed data, sets the lock at the height and appends exactly this vote |
| `DataAvailability.Validator.TryVoteOnBlock` | crates/bft/src/state.rs:1975-2065 | Votes and sets the lock exactly when the height is not locked and a constructed block is well formed with no check left to send off, else leaves both alone; starts exactly the checks the block needs, and a constructed block is voted on only once all of them have been started |
| `DataAvailability.Validator.TriggerQcVerificationOrVote` | crates/bft/src/state.rs:1900-1969 | A block with nothing missing is sent to certificate verification exactly if its parent certificate is not verified yet, and else voted on as the lock check allows |
| `DataAvailability.Validator.OnQcSignatureVerified` | crates/bft/src/state.rs:2939-2981 | A valid answer to a request caches the certificate and votes as the lock check allows, an invalid one drops the block, and an answer nobody asked for changes nothing |
| `DataAvailability.Validator.OnCycleProofVerified` | crates/bft/src/state.rs:2989-3081 | The last of the cycle proof answers votes for a constructed block with every check done, or drops the block |
| `DataAvailability.Validator.OnRootVerified` | crates/bft/src/state.rs:3089-3136 | A state or transaction root answer votes for a constructed block with every check done, or drops the block |
| `DataAvailability.Validator.VoteIfComplete` | crates/bft/src/state.rs:2201-2233 | The vote is cast exactly if the block is constructed and all checks it needs are verified |
| `DataAvailability.Validator.OnBlockHeader` | crates/bft/src/state.rs:1614-1737 | An accepted new header is stored with what it misses; if that is nothing it is voted on, or its parent certificate sent off, exactly when the lock and the checks allow; a rejected, repeated or incomplete one gets neither |
| `DataAvailability.Validator.OnFetchReceived` | crates/bft/src/state.rs:4467-4575 | Fetched items leave the block's missing list, and a vote is cast exactly if nothing is missing any more and lock and checks allow it |
| `DataAvailability.Validator.AddItems` | crates/bft/src/state.rs:4589-4697 | The addition that completes a block leads to its vote or to the request for its parent certificate exactly when lock and checks allow; no vote while items are missing |
| `DataAvailability.Validator.CleanupOldState` | crates/bft/src/state.rs:4872-4963 | Drops exactly the blocks at or below the committed height, with their requests and checks; casts no vote |
| `DataAvailability.Validator.CheckPendingBlocksFor` | crates/bft/src/state.rs:4708-4818 | The arriving item is off the missing list of every block that is still pending, under commits that may drop blocks in between |
| `DataAvailability.Validator.OnProposalBuilt` | crates/bft/src/state.rs:3255-3373 | An own block that is being waited for, with all its items at hand, gets exactly one vote, any other is dropped; own empty blocks are the case of an empty listing |
| `StorageKeys.NextPrefixInPlace` | crates/engine/src/storage.rs:128-139 | The backward walk over the byte vector computes the prefix end: trailing 255s become 0 and the byte before them is incremented |
| `StorageKeys.PrefixScanIsExact` | crates/engine/src/storage.rs:128-139 | For a prefix with a byte below 255, a longer key lies between the prefix and its end if and only if it starts with the prefix |
| `StorageKeys.ScanIsExactIffRoom` | crates/engine/src/storage.rs:128-139 | The scan is exact for all longer keys if and only if some byte of the prefix is below 255 |
| `StorageKeys.PartitionPrefixHasRoom` | crates/engine/src/storage.rs:107-125 | Every partition prefix has such a byte |
| `StorageKeys.StorageKeysTellApart` | crates/engine/src/storage.rs:107-125 | Among node keys of one length a storage key determines its partition and sort key, and starts with the prefix of its own partition only |
| `StorageKeys.StorageKeysOfTwoLengthsMayMeet` | crates/engine/src/storage.rs:107-125 | With node keys of different lengths two partitions may share a storage key |
| `Overlay.MergedPartitionIterator.Next` | crates/engine/src/execution.rs:317-364 | Each call yields the next item of the merge, and nothing exactly at its end |
| `Overlay.MergeContents` | crates/engine/src/execution.rs:317-364 | The merge holds a pair exactly if the provisions set it, or the base holds it and no provision covers the key |
| `Overlay.ListRawValues` | crates/engine/src/execution.rs:242-291 | Draining the iterator gives the whole listing, and the base listing when no provision is in range |
| `Overlay.SelectedIffInPartition` | crates/engine/src/execution.rs:247-281 | The range and length filter select exactly the provisions of the partition at or after the start |
| `Overlay.RangeIsWellFormed` | crates/engine/src/execution.rs:252-270 | The range start is below its end for every start key |
| `Overlay.ListingAgreesWithGet` | crates/engine/src/execution.rs:222-364 | Listing from any start yields, in strictly increasing order, exactly the pairs with a nonempty key at or after the start that point reads return |
| `Overlay.EmptyKeyAgreesIffProvisionRepeatsBase` | crates/engine/src/execution.rs:268-281 | For the empty sort key the listing agrees with point reads if and only if no provision sits at the bare prefix or it repeats the base |
| `Writes.SubstateWritesToDatabaseUpdates` | crates/engine/src/execution.rs:88-120 | The loop builds the nested, insertion-ordered updates write by write |
| `Writes.ExtractSubstateWrites` | crates/engine/src/execution.rs:38-74 | The nested loops collect the values set, node by node; a receipt without a commit gives nothing |
| `Writes.ExtractFindsValues` | crates/engine/src/execution.rs:38-74 | Extraction lists a write exactly if nested lookups by node, partition and sort key find its value |
| `Writes.UpdatesHoldLastValues` | crates/engine/src/execution.rs:88-120 | The updates hold, under every key, the value of the last write to it |
| `Writes.RoundTripKeepsLastWrites` | crates/engine/src/execution.rs:38-120 | Converting and extracting gives each key once with its last value: the same write map |
| `Writes.RoundTripOfDistinctWrites` | crates/engine/src/execution.rs:38-120 | Writes with distinct keys come back as the same writes |
| `WritesCommitment.SortSpec` | crates/engine/src/execution.rs:137-141 | The sort is a permutation in key order that keeps writes to one key in order |
| `WritesCommitment.ComputeWritesCommitment` | crates/engine/src/execution.rs:132-153 | The loop hashes the sorted writes, and no writes give the zero hash; `CommitmentBindsSortedWrites` and `SingleWritesCommitAlikeIff` say what the hash fixes |
| `WritesCommitment.OrderFixedIffEqualKeysAgree` | crates/engine/src/execution.rs:137-141 | All orders of the writes are sorted into the same list if and only if writes to the same key are equal |
| `WritesCommitment.SwappedPairSortsDifferently` | crates/engine/src/execution.rs:137-141 | Two different writes to one key are sorted in the order given |
| `WritesCommitment.HashesAlikeIffEqualKeysCommute` | crates/engine/src/execution.rs:132-153 | All orders of the writes give the same bytes to hash if and only if the encodings of any two writes to the same key commute |
| `WritesCommitment.SwapHashesAlikeIffCommute` | crates/engine/src/execution.rs:143-150 | Swapping two writes to one key leaves the hashed bytes alone if and only if their encodings commute |
| `WritesCommitment.CommitmentFixedIffEqualKeysCommute` | crates/engine/src/execution.rs:132-153 | The commitment is the same for every order if such encodings commute, and with a hash that never collides only then |
| `WritesCommitment.CommitmentBindsSortedWrites` | crates/engine/src/execution.rs:143-152 | With a hash that never collides, two nonempty lists whose sorted forms have sort keys and values of the same lengths commit alike if and only if the sorted forms are equal |
| `WritesCommitment.CommitmentBindsWrites` | crates/engine/src/execution.rs:132-153 | If moreover the keys are distinct, they commit alike if and only if one list is a permutation of the other |
| `WritesCommitment.CommitmentBindsValue` | crates/engine/src/execution.rs:143-152 | Single writes to one key commit alike if and only if their values are equal, whatever their lengths |
| `WritesCommitment.SingleWritesCommitAlikeIff` | crates/engine/src/execution.rs:143-152 | Any two single writes commit alike if and only if they agree on node, partition, and sort key and value run together |
| `WritesCommitment.DifferentWritesMayCommute` | crates/engine/src/execution.rs:143-150 | Two different writes to one key whose encodings commute, since no lengths are hashed |
| `WritesCommitment.CommitmentIgnoresOrderAndRoundTrip` | crates/engine/src/execution.rs:132-153 | With distinct keys the commitment is the same for every order and after the round trip through updates |
| `CrossShardTracker.CommittedCrossShardTracker.Add` | crates/livelock/src/tracker.rs:51-62 | The loop files the transaction under each shard it needs and stores its needs |
| `CrossShardTracker.CommittedCrossShardTracker.Remove` | crates/livelock/src/tracker.rs:67-79 | Removes the transaction from both directions and leaves no empty bucket |
| `CrossShardTracker.RemoveKeepsAgreement` | crates/livelock/src/tracker.rs:67-79 | Forward and reverse index still agree after a removal |
| `CrossShardTracker.AddKeepsAgreementIffShardsGrow` | crates/livelock/src/tracker.rs:51-62 | They agree after an addition if and only if the transaction is new or its new shards include the old ones |
| `LivelockDetection.ComputeRemoteStateNeeds` | crates/livelock/src/state.rs:155-186 | Groups exactly the declared nodes on other shards by shard |
| `LivelockDetection.LivelockState.OnCrossShardCommitted` | crates/livelock/src/state.rs:133-152 | Tracks the transaction unless it needs no other shard |
| `LivelockDetection.LivelockState.QueueDeferral` | crates/livelock/src/state.rs:326-366 | Queues once per loser, and only with a stored proof of the winner |
| `LivelockDetection.LivelockState.FindLosers` | crates/livelock/src/state.rs:245-319 | Walking the reverse index finds each conflicting local transaction of higher hash exactly once |
| `LivelockDetection.LivelockState.CheckForCycle` | crates/livelock/src/state.rs:245-319 | Queues exactly the losers of a scan of all tracked transactions, so the missing-proof branch is never taken |
| `LivelockDetection.LivelockState.OnProvisionQuorumReached` | crates/livelock/src/state.rs:196-232 | A tombstoned or repeated quorum changes nothing; the first one stores the proof and checks for cycles |
| `LivelockDetection.LivelockState.OnBlockCommitted` | crates/livelock/src/state.rs:379-450 | The loops over deferred, aborted and certified transactions end in the state of the value-level function; `BlockCommitClears` says what that state is |
| `LivelockDetection.LivelockState.Cleanup` | crates/livelock/src/state.rs:455-469 | Keeps exactly the tombstones that have not expired |
| `LivelockRuns.StepKeepsInv` | crates/livelock/src/state.rs:133-450 | Every event keeps both indexes in agreement and the queue free of repeats, matching its hash set and pointing to lower hashes |
| `LivelockRuns.BlockCommitClears` | crates/livelock/src/state.rs:379-450 | After a committed block no deferred, aborted or certified transaction is in either index, the proofs or the pairs seen, exactly the deferred ones are buried until the expiry and taken off the queue, in order, and every other transaction is untouched |
| `LivelockRuns.TrackedAfterStepIff` | crates/livelock/src/state.rs:133-450 | A transaction is tracked after an event if and only if the event commits it while it declares a node elsewhere, or it was tracked and no block finished it |
| `LivelockRuns.SeenAfterStepIff` | crates/livelock/src/state.rs:196-232 | A quorum counts as seen, and its proof is kept, exactly from the first one for a transaction not buried until a block finishes it; a repeated or buried one changes nothing |
| `LivelockRuns.BuriedAfterStepIff` | crates/livelock/src/state.rs:414-469 | A transaction is buried after an event if and only if the event commits its deferral, or it was and no clean-up at or after its expiry came |
| `LivelockRuns.DeferredWinsNothingUntilExpiry` | crates/livelock/src/state.rs:196-232 | From the block that commits its deferral until a clean-up at or after its expiry, in every run, no late quorum lets a deferred transaction win against another |
| `LivelockRuns.QuorumQueuesExactlyTheConflicts` | crates/livelock/src/state.rs:245-319 | In every reachable state the first quorum queues exactly the tracked, not yet queued transactions of higher hash that declare one of the proof's nodes on that shard |
| `LivelockRuns.DeferralsNeverFormACycle` | crates/livelock/src/state.rs:260-319 | Over any run of any number of shards no chain of deferrals is circular, no two transactions defer to each other, and the smallest of any set is never deferred to another of it |
| `DeferralProposals.FilterDeferrals` | crates/bft/src/state.rs:1030-1116 | The proposer's passes keep the deferrals whose signers pass the head count, set the height and drop stale ones |
| `DeferralProposals.ThresholdIsQuorum` | crates/types/src/topology.rs:82-84 | Meeting the threshold is the same as holding more than two thirds |
| `DeferralProposals.ProposedContents` | crates/bft/src/state.rs:1030-1116 | A deferral is proposed if and only if its number of signers reaches the source shard's power threshold and neither transaction completes in the block |
| `DeferralProposals.ProposedInOrder` | crates/bft/src/state.rs:1030-1116 | The proposer goes through the queue in order and takes each deferral once or not at all |
| `DeferralProposals.HeadCountIsStakeIffUnitWeights` | crates/bft/src/state.rs:1033-1046 | Counting signers by head against the power threshold decides like a quorum of stake for every set of signers if and only if every member has weight one |
| `DeferralProposals.HeadCountImpliesStake` | crates/bft/src/state.rs:1033-1046 | With positive weights signers that pass the head count hold a quorum of stake |
| `DeferralProposals.FullCommitteeIsRefused` | crates/bft/src/state.rs:1033-1046 | Four members of weight ten all sign and the deferral is still dropped |
| `DeferralProposals.ValidateDeferralsAndAborts` | crates/bft/src/state.rs:2351-2440 | Accepts exactly the deferrals and aborts that meet every structural rule |
| `DeferralProposals.AcceptedDeferralsNeverCycle` | crates/bft/src/state.rs:2351-2407 | Whatever proposers do, chains of deferrals from accepted blocks descend in hash and so never close |
| `DeferralProposals.ProposalsAreAcceptable` | crates/bft/src/state.rs:2351-2407 | What any reachable detector queued and the proposer filtered passes every structural rule, for any certificate list and after dropping any certificates |
| `CertificateDedup.WalkQcChain` | crates/bft/src/state.rs:1062-1081 | The walk over uncommitted ancestors terminates because heights decrease and collects their certificates |
| `CertificateDedup.WalkFindsReachable` | crates/bft/src/state.rs:1062-1081 | It finds exactly the certificates of ancestors reached over held, uncommitted blocks |
| `CertificateDedup.SelectCertificates` | crates/bft/src/state.rs:1083-1088 | Takes the first candidates not excluded, up to the limit |
| `CertificateDedup.ProposalAvoidsAncestors` | crates/bft/src/state.rs:1062-1088 | A proposal respects the limit, repeats nothing, holds no certificate of a reachable ancestor, and below the limit omits only those |
| `CertificateDedup.NoCertificateRepeats` | crates/bft/src/state.rs:1062-1088 | In a chain built this way, by any proposers at any committed heights that keep committed certificates out of their candidates, no certificate occurs twice |
| `CertificateDedup.BackInStoreIffFinalizedAgain` | crates/node/src/state.rs:594-597 | A committed certificate is among the candidates again if and only if it was finalized again since |
| `CertificateDedup.FinalizedAgainRepeats` | crates/execution/src/state.rs:1801-1822 | A certificate finalized again after its block was committed is selected a second time |
| `ReverseIndex.Unfile` | crates/execution/src/state.rs:2127-2139 | The removal loop deletes the member from each bucket and drops buckets it empties |
| `SpeculativeCache.Speculation.TriggerSpeculativeExecution` | crates/execution/src/state.rs:1950-2006 | Sends off exactly the eligible transactions and remembers the batch; `ReadsOfDeclared` says that it holds each of them with its declared reads |
| `SpeculativeCache.Speculation.OnSpeculativeExecutionComplete` | crates/execution/src/state.rs:2014-2079 | Completed transactions not executed meanwhile are indexed and cached; the rest of cache and index is unchanged |
| `SpeculativeCache.CompletedContents` | crates/execution/src/state.rs:2034-2066 | Each such transaction is cached with the reads its batch declared, or none if the batch was forgotten |
| `SpeculativeCache.Speculation.InvalidateOnCommit` | crates/execution/src/state.rs:2086-2124 | Drops exactly the results indexed under a written node |
| `SpeculativeCache.HitsCoverConflicts` | crates/execution/src/state.rs:2086-2124 | No result that read a written node survives; with an exact index exactly those are dropped, as by a full scan |
| `SpeculativeCache.InsertKeepsExactIffReadsGrow` | crates/execution/src/state.rs:2048-2069 | Caching keeps the index exact if and only if the result is new or reads at least what it replaces read |
| `SpeculativeCache.Speculation.TakeResult` | crates/execution/src/state.rs:2151-2174 | A hit is reported exactly for a cached transaction, which then leaves the cache |
| `SpeculativeCache.Speculation.CleanupStale` | crates/execution/src/state.rs:2195-2211 | Keeps exactly the results within the maximum age |
| `SpeculativeCache.Speculation.Run` | crates/node/src/state.rs:594-610 | In every run no cached result has a recorded read of a node written by a certificate committed since it was cached, and each recorded read is indexed |
| `SpeculativeCache.CompletedDeclaredIffKnown` | crates/execution/src/state.rs:2024-2066 | A completed batch leaves recorded and declared reads the same if and only if each of its transactions is still known, was executed meanwhile, or reads nothing |
| `SpeculativeCache.Speculation.RunWhileKnown` | crates/node/src/state.rs:594-610 | As long as completed batches are known, no cached result declared a read of a node written since it was cached |
| `SpeculativeCache.ReadsOfDeclared` | crates/execution/src/state.rs:1994-1996 | A remembered batch holds every transaction sent, and nothing else, each with exactly the reads it declared |
| `SpeculativeCache.Speculation.SpeculateToCompletion` | crates/execution/src/state.rs:1950-2079 | From a trigger to the completion of what it sent, over any events in between without a view change or another trigger or completion for the block, the batch is known and each transaction not executed meanwhile is cached with exactly its declared reads |
| `SpeculativeCache.Speculation.WriteAfterCompletion` | crates/execution/src/state.rs:2086-2124 | After such a completion a committed write to a node one of them declared leaves no result of it in the cache |
| `SpeculativeCache.ViewChangeForgetsReads` | crates/execution/src/state.rs:1915-1925 | A run in which a view change forgets the batch and the result survives a write to a node it declared |
| `SpeculativeCache.SecondTriggerForgetsReads` | crates/execution/src/state.rs:1994-1996 | A run in which a second trigger for the block does the same |
| `VerifiedVotes.VerifiedVoteCache.Record` | crates/execution/src/state.rs:1002-1007 | Recording a vote keeps table and index in exact agreement |
| `VerifiedVotes.VerifiedVoteCache.CleanupTransaction` | crates/execution/src/state.rs:1502-1508 | Cleaning up by the index removes exactly what a filter of the whole table would |
| `VerifiedVotes.VerifiedVoteCache.Prune` | crates/execution/src/state.rs:1594-1628 | Keeps exactly the votes above the cutoff, with the index in agreement and no empty buckets; as votes are recorded with height zero that is none, whatever the cutoff |
| `VerifiedVotes.CleanupKeepsAgreement` | crates/execution/src/state.rs:1727-1732 | The index knows every vote of a transaction, so cleaning up through it is a full filter |

## Left out

- Signatures and their aggregation, Merkle and state tree computation, the Radix Engine and its key mapper: foreign code, present only as parameters.
- Runners, networking, RocksDB, timers, metrics, tracing and message encoding: I/O and plumbing.
- Mempool, provision coordinator, vote and certificate trackers of execution: their state is not read by the properties proved. Epochs and shard reconfiguration: stubs.
- The recovery event that resets the committed height from storage is not an event of the pipeline runs.
- Contents of certificates, `latest_qc`, unlocking and persistence actions in the commit path: the pipeline properties do not read them.
- Rounds and views: a lock is per height; the ways a lock is released are events of their own in `VoteLock`.
- Agreement at a height without the lock condition: the code releases locks on purpose, and `VoteLock.EscapesAllowASecondVote` shows what that allows.
- `VoteLock` models a validator as a value and not as an object updated in place; the order of memory, storage and broadcast is kept as separate steps.
- VoteLock.AtMostOneQuorumPerHeight: counts broadcast votes only; own votes counted before they are persisted are the subject of `VoteLock.AtMostOneCertificatePerHeight`. Own votes are not pruned from storage.
- BftNode.BftState.SubmitSyncedBlock: the branch where committee keys cannot be collected is left out; the keys depend on the committee only.
- VoteCounting.OnQcResult: advancing the view to a vote's round and recording votes for equivocation warnings are left out; neither touches the vote set.
- BlockAssembly.PendingBlock.ConstructBlock: error texts are not modelled; re-gossip of a constructed block, whose deferrals, aborts and proofs were moved out, is not covered by the round trip.
- DataAvailability.Validator.TriggerQcVerificationOrVote: missing committee keys, which would only suppress votes, are not modelled.
- "All root checks finish before every vote" is claimed only for votes at the end of a block's checks: elsewhere a queued state root check does not hold back the vote.
- LivelockDetection.LivelockState.OnProvisionQuorumReached: complete for transactions tracked at the time of the event; a transaction committed later is tracked but not compared with earlier quorums.
- CertificateDedup.NoCertificateRepeats: proposers hold their uncommitted ancestors; a missing one ends the walk.
- SpeculativeCache.Speculation.Run: the guarantee starts when a result is cached; writes committed while the execution is still running are not compared with its reads, in the code either.
- The reverse index of pending certificate verifications; unlike the others it keeps empty buckets until the transaction is cleaned up.
