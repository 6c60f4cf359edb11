# Shasper in Dafny

Shasper is a Rust client of the Ethereum 2.0 phase 0 beacon chain. This project models its consensus
core and proves what holds over whole runs of it:

- the **beacon state machine**: slots, blocks and epochs over `BeaconState`, with Casper FFG
  justification and finalization, the exit and activation queues, slashing, rewards and the ring
  buffers for block roots, randao mixes and slashings;
- the **swap-or-not shuffle** and the committees cut from it;
- the **LMD-GHOST fork choice** with overlaid latest votes, and its import step;
- the **SSZ codec** over a universe of types;
- **pairs of implementations** that should agree: the block builder and the block executor, the
  generic reward component and the direct reward code, the Merkle tree of deposits and its proofs.

`dafny verify dfyconfig.toml` checks the whole project.

## How it is built

Each operation has a specification function on values (`Accessors`, `Mutators`, `EpochProcessing`,
`BlockProcessing`, `Transition`, `Builder`, `SszSeries`, `Ssz`, `Merkle`, `Shuffle`). The code that
Rust runs by updating things is a method or a class with the same loops and updates, proved to compute
that function: `Executive.BeaconExecutive`, `Building.BlockBuilder`, `Justification.Justifier`,
`ForkChoice.ArchiveGhost`, the loops of `SszLoops`, `SszBits`, `Merkle`, `Rewards` and
`RewardComponent`. The theorems are about the functions, so they hold of the methods.

A *run* (`Transition.Run`) starts from any genesis state and takes any number of single steps: a slot,
a header, a randao reveal, an eth1 vote or one operation, in any order. Every chain of blocks is a run
that passes through the state after each of its blocks (`Chains.ChainIsRun`), so what holds between two
moments of every run holds between two blocks of every chain.

Hashing, tree roots, the exclusive or of two hashes and BLS are function-valued fields of the
configuration (`BeaconTypes.Crypto`). Every result holds for every choice of them; only the examples, which
are there to show that something does happen, fix one (`SmallChain`). The other fields are
the constants of `beacon/src/config.rs`; `ValidConfig` is what the results need of them and
`PresetsAreValid` shows that the three shipped presets provide it. The clock, the operation pool, the
executor and the backend behind the fork choice are parameters.

Epochs, slots, indices and balances are natural numbers. `FAR_FUTURE_EPOCH` is 2^64-1 as in the source,
and `BoundedRun` is a run whose last state leaves room below it for every exit its registry can still
queue; where 64-bit arithmetic is the point (`Rewards`, `SszSeries`) the widths are explicit. A Rust
panic is an error value. `beacon_proposer_index` does not end for every hash function: its function
answers `Err(Diverges)` then, and a method that searches for the proposer requires that its function
does not answer so. It ends for every hash function exactly when some active validator has the maximal
effective balance (`Accessors.SearchEndsForEveryHash`).

One place follows the code against the documentation: `README.md` of the repository speaks of version
0.8, but the committees by slot and index are those of version 0.9.

Seven properties that one might expect are false of the code, and are stated with the exact condition:

- the builder and the executor agree on a block with deposits only if it carries as many as a block may
  (`Builder.ExecutorAcceptsBuilt`): with one deposit in the block and two outstanding, the builder counts
  the one that is left and accepts while the executor counts two and refuses
  (`Disagreement.OneOfTwoIsRefused`, and `Disagreement.BuilderAndExecutorDisagree` on a genesis state);
- an attester slashing slashes only validators who signed both attestations only if nobody else it names
  can be slashed (`Accused.OnlyCommonSlashed`): two validators who signed one attestation each are both
  slashed (`Accused.BothAreSlashed`, and `OneVote.OneVoteEach` on a genesis state);
- the inclusion reward of a validator is computed from an attestation that contains it, as section
  "Rewards and penalties" of the Ethereum 2.0 Phase 0 Beacon Chain specification asks, only if one of those
  was included no later than the first of the list, because the fold in the code starts from that one
  whoever it contains (`EpochProcessing.InclusionContains`): otherwise the proposer of the first is paid,
  for a delay smaller than any of the validator's own (`EpochProcessing.FirstIsPaidFor`, and
  `Inclusions.OtherProposerIsPaid` at the end of a run from genesis);
- a validator that was not eligible in an epoch and proposed nothing keeps its balance only if no vote of it
  is counted (`Payouts.IneligibleKeeps`): the slot of a vote need not lie in the epoch of its target, so
  one that became active since can be paid (`Latecomer.IneligibleGains` on such a state);
- an effective balance is a whole number of increments only if it is not a maximum that is none
  (`Stakes.HysteresisIs`), as the maximum of the sapphire preset is (`Stakes.SapphireIsUneven`);
- a fixed-size SSZ value has its declared size only if no compact bitvector of two or more bits sits in
  a container inside it (`Ssz.FixedSize`, with `Ssz.CompactFieldIsLost` as an example);
- an empty set of voters is not a quorum only if the active balance is at least two
  (`AccountableSafety.EmptyQuorum`), because a total balance is never less than one.

## Model

| member | source | states |
|---|---|---|
| `Justification.Justifier.ProcessEpoch` | beacon/src/components/justification.rs:13-77 | the in-place shift, the two quorum updates and the four overwriting rules leave the four fields that `Process` gives in closed form |
| `Justification.RunKeepsRecord` | beacon/src/components/justification.rs:19-74 | over every run of consecutive epochs, bit i is set exactly when the i-th most recent epoch reached two thirds, the checkpoints are ordered, and the current justified epoch is that of the lowest set bit |
| `Justification.RunIsMonotone` | beacon/src/components/justification.rs:19-74 | over every run none of the three checkpoint epochs is ever lower later than earlier |
| `Finalization.RunJustifies` | beacon/src/components/justification.rs:23-43 | after every run of ballots the justified checkpoint is that of the latest epoch that gathered two thirds, under the checkpoint it was last counted for, and the previous one is what was justified a ballot before |
| `Finalization.RunFinalizes` | beacon/src/components/justification.rs:45-74 | over every run of ballots, said by which epochs gathered two thirds and by the two checkpoints justified before: the finalized checkpoint becomes one of these by the spans 1/2, 1/2/3, 2/3 and 2/3/4, the first of them that applies deciding, and otherwise stays |
| `Finalization.OnTimeTwice` | beacon/src/components/justification.rs:68-74 | two consecutive epochs that each gather two thirds while current finalize the first |
| `Finalization.NeverTwice` | beacon/src/components/justification.rs:45-74 | where no two consecutive epochs gather two thirds nothing is ever finalized |
| `FinalityHistory.RunFeedsJustifier` | beacon/src/executive/transition/per_epoch/justification.rs:23-54 | in every state of every run the finality fields are those of a justifier run whose ballots are, epoch by epoch from the third on, the roots and attesting balances that the run counted at the end of that epoch |
| `FinalityHistory.RunFinalityInOrder` | beacon/src/executive/transition/per_epoch/justification.rs:23-54 | in every reachable state the bits record the quorums of those ballots, the checkpoints are in order up to the previous epoch, and the lowest set bit names the current justified epoch |
| `FinalityHistory.RunBitsRecordQuorums` | beacon/src/executive/transition/per_epoch/justification.rs:23-54 | bit i of a reachable state is set exactly when two thirds of the active balance stood behind the target of the i-th most recent epoch, at its own end or one epoch later |
| `Finalization.RunJustifiesLatest` | beacon/src/executive/transition/per_epoch/justification.rs:39-51 | in every state of every run the justified checkpoint is the default one or of an epoch that had its quorum, and no later epoch had |
| `Finalization.RunFinalizesQuorums` | beacon/src/executive/transition/per_epoch/justification.rs:39-51 | what the step that ends an epoch of a run finalizes, by which epochs had their quorum: the four spans in order, or nothing new |
| `Finalization.OnTimeTwiceFinalizes` | beacon/src/executive/transition/per_epoch/justification.rs:39-51 | two consecutive epochs of a run that each have their quorum when they end finalize the first, under its root |
| `Payouts.TargetBalanceIs` | beacon/src/executive/transition/per_epoch/helpers.rs:37-91 | the balance counted for a target is that of the unslashed validators with a stored vote for the root of the epoch |
| `FinalityHistory.RunFinalityNeverDecreases` | beacon/src/executive/transition/per_epoch/justification.rs:23-54 | between any two states of a run no finality checkpoint moves back |
| `FinalityHistory.RunCheckpointsAreRecorded` | beacon/src/executive/transition/per_epoch/justification.rs:28-37 | in every reachable state each justified or finalized checkpoint is the default one or names the root recorded when the run left the first slot of its epoch |
| `AccountableSafety.EmptyQuorum` | beacon/src/executive/helpers/accessors.rs:161-168 | nobody voting counts as two thirds exactly when the whole weight is below two |
| `AccountableSafety.QuorumsIntersect` | beacon/src/components/justification.rs:32-43 | two quorums of a weight of at least two share at least one third of it |
| `AccountableSafety.RunIsExplained` | beacon/src/components/justification.rs:19-74 | everything a run justifies or finalizes rests on quorums of that run, and a finalized checkpoint is the source of a link of length one or two over justified epochs |
| `AccountableSafety.LinkAcross` | beacon/src/components/justification.rs:24-43 | from every justified epoch, links lead back across any earlier epoch |
| `AccountableSafety.ConflictingFinalityIsSlashable` | beacon/src/components/justification.rs:13-77 | accountable safety: if two runs finalize conflicting checkpoints, validators with a third of the weight each signed two attestations that `is_slashable` accepts in one order |
| `Shuffle.RoundTwice` | beacon/src/utils/mod.rs:80-97 | for every hash function a round of the shuffle undoes itself |
| `Shuffle.ComputeShuffledIndex` | beacon/src/utils/mod.rs:67-100 | fails exactly on an index out of range or a count above 2^40; otherwise the answer ends a trace that starts at the index and in each round goes to the mirror around the pivot exactly when bit p % 8 of byte (p % 256) / 8 of the hash of seed, round and p / 256 is set, p being the larger of the two |
| `Shuffle.RoundsAreTraced` | beacon/src/utils/mod.rs:80-97 | so are the rounds behind committees and proposers |
| `Shuffle.TraceIsUnique` | beacon/src/utils/mod.rs:80-97 | only one place can be reached in so many rounds |
| `Shuffle.SliceStartIsFloor` | beacon/src/utils/mod.rs:109-110 | a committee starts at its share of the list rounded down |
| `Shuffle.ShuffleIsBijection` | beacon/src/utils/mod.rs:67-100 | for every hash function and every count up to 2^40 each index is hit exactly once |
| `Shuffle.SliceSize` | beacon/src/utils/mod.rs:109-110 | two committees of one list differ in size by at most one |
| `Shuffle.MemberHasPlace` | beacon/src/utils/mod.rs:103-117 | every member of the list is in some committee |
| `Shuffle.PlaceIsUnique` | beacon/src/utils/mod.rs:103-117 | and in only one, at only one place |
| `Accessors.ActiveIndicesAre` | beacon/src/executive/helpers/accessors.rs:64-71 | the active indices are exactly the active validators, in increasing order |
| `Accessors.CommitteeMembersActive` | beacon/src/executive/helpers/accessors.rs:114-125 | every committee member is a registered validator active in the epoch of the slot |
| `Sorting.SortAscends` | beacon/src/executive/helpers/accessors.rs:223-229 | the sorted list of attesters is in ascending order and a permutation of the unsorted one |
| `Accessors.IndexingSplits` | beacon/src/executive/helpers/accessors.rs:188-209 | indexing an attestation splits its attesters by custody bit: none is lost and none is in both lists |
| `Accessors.DomainsSeparate` | beacon/src/executive/helpers/accessors.rs:176-185 | signing domains of different types differ, whatever the fork versions |
| `Accessors.FullBalanceEndsSearch` | beacon/src/executive/helpers/accessors.rs:128-157 | one active validator at the maximal effective balance makes the proposer search end within one round through the active list |
| `Accessors.SearchDiverges` | beacon/src/executive/helpers/accessors.rs:136-157 | without one, a hash whose bytes are all 255 makes it go on for ever |
| `Accessors.SearchEndsForEveryHash` | beacon/src/executive/helpers/accessors.rs:128-157 | so the search ends for every hash function exactly when some active validator has the maximal effective balance |
| `Committees.RunKeepsCommittees` | beacon/src/executive/helpers/accessors.rs:88-125 | committee stability: between any two states of a run whose current epochs are both from x-1 to x+2, the active list and the mix behind the committees of epoch x are the same |
| `Committees.SameCommitteesSameAnswers` | beacon/src/executive/helpers/accessors.rs:99-125 | so every committee, committee count and attester list of that epoch is the same |
| `Committees.ActiveHasPlace` | beacon/src/executive/helpers/accessors.rs:99-125 | every validator active in an epoch sits in some committee of some slot of it |
| `Committees.CommitteePlaceUnique` | beacon/src/executive/helpers/accessors.rs:99-125 | and in only one, at only one place |
| `Committees.SeatsInOrder` | beacon/src/executive/helpers/accessors.rs:113-125 | the committees of an epoch, by slot and then by index, follow one another in the shuffled list |
| `Committees.CommitteeSizes` | beacon/src/executive/helpers/accessors.rs:99-125 | every committee lookup inside an epoch succeeds and sizes differ by at most one |
| `Committees.CommitteeCountIsLargest` | beacon/src/executive/helpers/accessors.rs:99-111 | the number of committees per slot is the largest, up to the maximum, that leaves every committee its target size, and one at least |
| `Committees.AssignmentFindsSeat` | beacon/src/executive/assignment.rs:32-57 | the search answers with the one committee that seats the validator, and with none exactly when it is not active in the epoch |
| `Executive.BeaconExecutive.BeaconProposerIndex` | beacon/src/executive/helpers/accessors.rs:128-157 | the loop ends at the first accepted attempt, with that candidate |
| `Executive.BeaconExecutive.ValidatorChurnLimit` | beacon/src/executive/helpers/accessors.rs:79-85 | the active count over the quotient, or the minimum where that is more |
| `Executive.BeaconExecutive.TotalBalanceOf` | beacon/src/executive/helpers/accessors.rs:161-168 | the loop sums the effective balances, and answers at least one |
| `Executive.BeaconExecutive.IsValidIndexed` | beacon/src/executive/helpers/predicates.rs:23-86 | false on a custody bit, too many indices or indices out of order, a panic on an unregistered index, otherwise what the signature check says |
| `Turn.OperationKeepsTurn` | beacon/src/executive/helpers/accessors.rs:128-157 | no operation of a block changes what the choice of the proposer depends on |
| `Turn.RandaoKeepsTurn` | beacon/src/executive/transition/per_block/randao.rs:37-41 | neither does the write to the mix of the current epoch |
| `Turn.SameProposer` | beacon/src/executive/helpers/accessors.rs:128-157 | states that agree on it choose the same proposer, or fail alike |
| `Executive.BeaconExecutive.IncreaseBalance` | beacon/src/executive/helpers/mutators.rs:23-25 | one balance grows by the amount, every other balance and every other field stays |
| `Executive.BeaconExecutive.DecreaseBalance` | beacon/src/executive/helpers/mutators.rs:28-31 | one balance shrinks by the amount, or to zero where it is smaller; every other balance and every other field stays |
| `Executive.BeaconExecutive.InitiateValidatorExit` | beacon/src/executive/helpers/mutators.rs:34-61 | the loops over the registry queue the exit that `Mutators.InitiateExit` specifies, about which the lifecycle lemmas speak |
| `Executive.BeaconExecutive.SlashValidator` | beacon/src/executive/helpers/mutators.rs:64-97 | the sequence of writes leaves the state of `Mutators.SlashValidator`, or its error |
| `Stakes.SlashingPays` | beacon/src/executive/helpers/mutators.rs:77-96 | what every validator has after a slashing: the slashed one loses its part, the proposer and the reporter share the reward, and nobody else is touched |
| `Stakes.ReporterGains` | beacon/src/executive/helpers/mutators.rs:84-94 | without another reporter the proposer gains the whole reward |
| `Lifecycle.InitiateExitKeeps` | beacon/src/executive/helpers/mutators.rs:34-61 | an exit keeps every record in order, every epoch within the churn cap and the queue short, and gets an epoch |
| `Lifecycle.MarkSlashedKeeps` | beacon/src/executive/helpers/mutators.rs:64-83 | so does a slashing |
| `Lifecycle.QueueEpochHasRoom` | beacon/src/executive/helpers/mutators.rs:46-56 | the epoch an exit is queued for holds fewer exits than the cap |
| `RegistryPass.ExitEpochIsFirst` | beacon/src/executive/helpers/mutators.rs:41-58 | an exit is queued for the first epoch after the lookahead that nobody is queued beyond and whose churn is not used up |
| `RegistryPass.CountExitsIsSize` | beacon/src/executive/helpers/mutators.rs:49-51 | the count of an epoch is the number of validators who exit in it |
| `Lifecycle.ActiveSetsFixed` | beacon/src/utils/mod.rs:130-132 | nothing an epoch's operations may do to the registry changes who is active up to the lookahead |
| `Invariants.RunIsReady` | beacon/src/executive/helpers/mutators.rs:34-97 | in every reachable state each validator has eligibility <= activation <= exit <= withdrawable, and no epoch holds more exits than max(min churn, registry length / quotient) |
| `Invariants.RunKeepsExits` | beacon/src/executive/helpers/mutators.rs:34-61 | along a run a set exit epoch never changes, a slashing is never undone, and a slashed record keeps its withdrawable epoch |
| `Invariants.RunQueuesInOrder` | beacon/src/executive/helpers/mutators.rs:41-56 | an exit epoch assigned later is never below one assigned earlier |
| `Invariants.GenesisInOrder` | beacon/src/genesis.rs:39-75 | a genesis state satisfies the registry invariants, with empty lists, an empty slashings ring and all checkpoints at epoch zero |
| `EpochTotality.AcceptedIsSound` | beacon/src/executive/transition/per_block/operations/attestation.rs:22-70 | an accepted attestation resolves to a committee of its bitfield's length, with a positive delay and a registered proposer |
| `EpochTotality.RootsInWindow` | beacon/src/executive/helpers/accessors.rs:39-54 | at the end of an epoch the roots of this and the previous epoch are still in the ring |
| `EpochTotality.EpochSucceeds` | beacon/src/executive/transition/per_epoch/mod.rs:28-36 | the epoch transition returns no error on any state that keeps the invariant |
| `EpochTotality.StepKeepsInv` | beacon/src/executive/transition/mod.rs:42-56 | every step keeps it |
| `EpochTotality.RunNeverStalls` | beacon/src/executive/transition/per_epoch/mod.rs:28-36 | on every state of every run the slot loop and the epoch transition in it succeed |
| `EpochTotality.RunSourcesVotes` | beacon/src/executive/transition/per_block/operations/attestation.rs:48-67 | in every state of every run each attestation stored for the current epoch has that epoch as target and the current justified checkpoint as source |
| `EpochTotality.OnTimeVotesAreSourced` | beacon/src/executive/transition/per_epoch/justification.rs:33-46 | so every vote counted at the end of its own epoch leads from the checkpoint justified then to the checkpoint of that epoch |
| `Upkeep.RunTargetsVotes` | beacon/src/executive/transition/per_block/operations/attestation.rs:27-31 | in every state of every run each attestation stored for the previous epoch has that epoch as target |
| `EpochProcessing.UnslashedAttestingAre` | beacon/src/executive/transition/per_epoch/helpers.rs:68-84 | the result is exactly the unslashed validators that some attestation of the list resolves to, ascending and without repetition |
| `EpochProcessing.Inclusion` | beacon/src/executive/transition/per_epoch/reward.rs:74-86 | the chosen attestation is one of the list, with a delay at most that of every attestation that contains the validator |
| `EpochProcessing.InclusionContains` | beacon/src/executive/transition/per_epoch/reward.rs:74-86 | it contains the validator exactly when some attestation that does was included no later than the first of the list, and otherwise it is the first |
| `EpochProcessing.InclusionIsLast` | beacon/src/executive/transition/per_epoch/reward.rs:84-86 | where it does, it is the last of the earliest attestations that contain the validator |
| `EpochProcessing.FirstIsPaidFor` | beacon/src/executive/transition/per_epoch/reward.rs:72-92 | in that case the proposer of the first attestation and nobody else is paid for the validator, and the validator is paid by that delay |
| `Inclusions.OtherProposerIsPaid` | beacon/src/executive/transition/per_epoch/reward.rs:72-92 | a run of the minimal preset from genesis that ends so: the proposer who included the validator earns nothing |
| `Executive.BeaconExecutive.UnslashedAttestingIndices` | beacon/src/executive/transition/per_epoch/helpers.rs:68-84 | the pushing, retaining and sorting loop computes the sorted unslashed attesters, or the first error |
| `Executive.BeaconExecutive.ProcessJustificationAndFinalization` | beacon/src/executive/transition/per_epoch/justification.rs:23-54 | copying out, running the justifier and writing back leaves the state of `ProcessJustification`, or its error |
| `Rewards.IntegerSquareroot` | beacon/src/utils/mod.rs:44-52 | Newton's iteration ends with the integer square root for all n below 2^64-1 |
| `Rewards.NewtonSumBounded` | beacon/src/utils/mod.rs:44-52 | no sum of the iteration exceeds n + 1, so none overflows |
| `Rewards.ComputeBaseReward` | beacon/src/executive/transition/per_epoch/reward.rs:21-30 | the square root loop and the divisions give the base reward that the bounds and both reward codes use |
| `Rewards.RewardProductsFit` | beacon/src/executive/transition/per_epoch/reward.rs:21-70 | with effective balances at most 32*10^9, total active balance at most 10^15 and attesting balance at most the total, every product of the reward formula fits in 64 bits |
| `Rewards.MatchRewardBounded` | beacon/src/executive/transition/per_epoch/reward.rs:59-69 | a matching reward is above the base reward exactly when the attesters outweigh the active set by more than the rounding takes back, which they never do while they weigh at most that set |
| `Rewards.AddMatching` | beacon/src/executive/transition/per_epoch/reward.rs:55-70 | one pass adds to each validator its matching reward or penalty |
| `Rewards.AddInclusions` | beacon/src/executive/transition/per_epoch/reward.rs:72-92 | the inclusion pass adds to each validator what it earns as attester and as proposer, and fails exactly on a zero delay or an unknown proposer |
| `Rewards.AddInactivity` | beacon/src/executive/transition/per_epoch/reward.rs:94-108 | the last pass adds the inactivity penalties |
| `Rewards.AttestationDeltas` | beacon/src/executive/transition/per_epoch/reward.rs:32-111 | the accumulated vectors are the closed-form reward and penalty of every validator |
| `Payouts.InputsAre` | beacon/src/executive/transition/per_epoch/reward.rs:49-60 | past genesis the three lists hold exactly the unslashed validators with a stored vote, with one for the root of the previous epoch, and with one for the root of its slot |
| `Payouts.BaseRewardIs` | beacon/src/executive/transition/per_epoch/reward.rs:21-30 | the base reward is effective balance times factor over the largest number whose square is at most the active balance, over four |
| `Payouts.BalanceAfterRewards` | beacon/src/executive/transition/per_epoch/reward.rs:119-123 | a balance grows by the shares of the votes that count, the share by delay and what was proposed, and shrinks by a base reward for each vote that is missing and by the leak, not below zero |
| `Payouts.FullVoterGains` | beacon/src/executive/transition/per_epoch/reward.rs:62-91 | without a leak an eligible validator whose votes count in all three ways gains its three shares and its share by delay at least |
| `Payouts.AbsentLoses` | beacon/src/executive/transition/per_epoch/reward.rs:66-68 | without a leak an eligible validator with no vote that proposed nothing loses three base rewards, or everything |
| `Payouts.LateVoter` | beacon/src/executive/transition/per_epoch/reward.rs:62-91 | one that missed target, head or both loses a base reward for each and gains the rest |
| `Payouts.SlashedLoses` | beacon/src/executive/transition/per_epoch/reward.rs:39-46 | a slashed validator loses three base rewards until it may withdraw, whatever it votes |
| `Payouts.IneligibleKeeps` | beacon/src/executive/transition/per_epoch/reward.rs:39-46 | an ineligible validator that proposed nothing keeps its balance, unless a vote of it counts all the same; then it gains its share by delay |
| `Latecomer.IneligibleGains` | beacon/src/executive/transition/per_block/operations/attestation.rs:27-39 | a state on which one gains |
| `Payouts.LeakDrains` | beacon/src/executive/transition/per_epoch/reward.rs:94-108 | under a leak an absent validator loses seven base rewards and its stake times the delay over the quotient |
| `Payouts.LeakTaxes` | beacon/src/executive/transition/per_epoch/reward.rs:94-108 | and one that voted in all three ways has its gains against four base rewards |
| `Payouts.EachInclusionPays` | beacon/src/executive/transition/per_epoch/reward.rs:88-89 | every inclusion pays its proposer |
| `Payouts.ProposersShareAll` | beacon/src/executive/transition/per_epoch/reward.rs:88-89 | the proposers together earn the proposer part of every attester's base reward |
| `Executive.BeaconExecutive.ProcessRewardsAndPenalties` | beacon/src/executive/transition/per_epoch/reward.rs:114-126 | interleaving rewards and penalties validator by validator leaves each balance at old plus reward minus penalty, not below zero |
| `RewardComponent.AccumulateMatching` | beacon/src/components/reward.rs:26-48 | the map entries grow by the same matching rewards and penalties as the vectors |
| `RewardComponent.ApplyRewards` | beacon/src/components/reward.rs:84-86 | adding a map of rewards in whatever order its entries come adds each entry once |
| `RewardComponent.ProcessComponent` | beacon/src/components/reward.rs:17-93 | the generic component, rewards before penalties, succeeds exactly when the direct code does and leaves the same balances |
| `Executive.BeaconExecutive.ProcessRegistryUpdates` | beacon/src/executive/transition/per_epoch/registry.rs:22-62 | the two loops leave the registry of `ProcessRegistry`, about which the queue lemmas speak |
| `Executive.BeaconExecutive.SweepValidators` | beacon/src/executive/transition/per_epoch/registry.rs:23-35 | the first loop marks and ejects validators one by one, each seeing the exits queued before it |
| `Executive.BeaconExecutive.ActivateEach` | beacon/src/executive/transition/per_epoch/registry.rs:50-59 | the second loop gives an activation epoch to exactly those admitted that have none |
| `Sorting.StableSortOrders` | beacon/src/executive/transition/per_epoch/registry.rs:46-48 | sorting increasing indices by a key orders them by key and, where keys agree, by index |
| `ActivationQueue.ActivatesWithinChurn` | beacon/src/executive/transition/per_epoch/registry.rs:50-59 | a pass activates at most as many validators as the churn limit |
| `ActivationQueue.NobodyIsSkipped` | beacon/src/executive/transition/per_epoch/registry.rs:37-59 | no waiting validator with a smaller eligibility epoch, or the same and a smaller index, is passed over |
| `RegistryPass.ActivatedWhenNear` | beacon/src/executive/transition/per_epoch/registry.rs:37-59 | a waiting validator is activated exactly when fewer are ahead of it than the churn limit lets in |
| `RegistryPass.PassDecides` | beacon/src/executive/transition/per_epoch/registry.rs:23-35 | a pass marks as eligible exactly who was unmarked at the maximal balance, and gives an exit epoch exactly to the active at or below the ejection balance |
| `ActivationQueue.RegistryKeepsActive` | beacon/src/executive/transition/per_epoch/registry.rs:22-62 | a pass changes nobody's activity up to the lookahead after the current epoch |
| `Executive.BeaconExecutive.ProcessSlashings` | beacon/src/executive/transition/per_epoch/slashing.rs:22-47 | the loop charges exactly the validators halfway to their withdrawal |
| `SlashingHistory.RunRing` | beacon/src/executive/helpers/mutators.rs:64-97 | in every reachable state each ring entry is what was slashed in its epoch, and the ring sums what was slashed in exactly the last ring-length epochs |
| `SlashingHistory.PenaltyBounded` | beacon/src/executive/transition/per_epoch/slashing.rs:33-37 | the correlated penalty is at most the effective balance |
| `Stakes.PenaltyGrows` | beacon/src/executive/transition/per_epoch/slashing.rs:33-37 | the penalty grows with what was slashed |
| `Stakes.PenaltyIsShare` | beacon/src/executive/transition/per_epoch/slashing.rs:33-37 | below a third it is three times the slashed share of the effective balance, in increments |
| `Stakes.ThirdTakesAll` | beacon/src/executive/transition/per_epoch/slashing.rs:33-37 | once a third of the active balance was slashed it is the whole effective balance, in increments |
| `SlashingHistory.ChargeIsApplied` | beacon/src/executive/transition/per_epoch/slashing.rs:22-47 | after the registry updates, who is due loses the penalty that the state before them determines, and nobody else loses anything |
| `SlashingHistory.RunCharges` | beacon/src/executive/transition/per_epoch/slashing.rs:22-47 | at every epoch end of every run each balance is what the rewards left of it, less the correlated penalty exactly for those due, and that penalty is at most the effective balance |
| `SlashingHistory.PenaltyOfRun` | beacon/src/executive/transition/per_epoch/slashing.rs:33-37 | the penalty is computed from exactly what the run slashed in the last ring-length epochs |
| `OwnSlashing.OwnSlashingHeld` | beacon/src/executive/transition/per_epoch/slashing.rs:26-46 | when the penalty is due the ring sums what was slashed since the validator's own slashing, and holds that slashing besides exactly when the withdrawal is less than one and a half ring lengths after it |
| `OwnSlashing.OwnSlashingForgotten` | beacon/src/executive/helpers/mutators.rs:34-99 | where exiting takes at least one and a half ring lengths, the ring never holds the slashing of a validator that had not begun to exit |
| `OwnSlashing.PresetsForget` | beacon/src/config.rs:213-390 | so it is in every run of the minimal and of the sapphire preset |
| `SlashingHistory.SlashedIsCharged` | beacon/src/executive/transition/per_epoch/slashing.rs:22-47 | in a run that passes the halfway point to its withdrawal, every slashed validator has lost the penalty from its balance at some epoch end |
| `SlashingHistory.ChargedOnce` | beacon/src/executive/transition/per_epoch/slashing.rs:22-47 | and every other epoch end of the run leaves its balance at what the rewards left of it |
| `SlashingHistory.EpochClearsEntry` | beacon/src/executive/transition/per_epoch/finalize.rs:48-51 | an epoch transition clears the ring entry of the next epoch, touches no other and slashes nobody |
| `Executive.BeaconExecutive.ProcessFinalUpdates` | beacon/src/executive/transition/per_epoch/finalize.rs:24-75 | the writes in sequence leave the state of `ProcessFinalUpdates` |
| `Executive.BeaconExecutive.UpdateEffectiveBalances` | beacon/src/executive/transition/per_epoch/finalize.rs:33-46 | the loop gives every validator the effective balance that the hysteresis of its own balance says |
| `Stakes.HysteresisIs` | beacon/src/executive/transition/per_epoch/finalize.rs:37-45 | the new effective balance is a whole number of increments or the maximum; it moves exactly outside the two margins, except that at the maximum it stays; and then the balance is between its margins or above the maximum |
| `Stakes.RunKeepsWhole` | beacon/src/executive/transition/per_epoch/finalize.rs:33-46 | so every effective balance is in every state of every run |
| `Stakes.EpochEndsClose` | beacon/src/executive/transition/per_epoch/finalize.rs:33-46 | and whenever a run ends an epoch every balance is close to its effective balance |
| `Stakes.SapphireIsUneven` | beacon/src/config.rs:337-390 | the sapphire maximum is not a whole number of increments |
| `Upkeep.EpochBatches` | beacon/src/executive/transition/per_epoch/finalize.rs:58-67 | a batch of roots is added exactly at the epochs that complete one |
| `Upkeep.RunBatches` | beacon/src/executive/transition/per_epoch/finalize.rs:58-67 | in every state of every run there is one batch for each whole batch of epochs passed |
| `Upkeep.VotesAreReset` | beacon/src/executive/transition/per_epoch/finalize.rs:28-31 | the deposit votes are dropped exactly at the epoch end that ends a voting period |
| `Executive.BeaconExecutive.ProcessEpoch` | beacon/src/executive/transition/per_epoch/mod.rs:28-36 | the five stages in order leave the state of `ProcessEpoch`, or the first error |
| `Executive.BeaconExecutive.ProcessSlot` | beacon/src/executive/transition/mod.rs:59-75 | the state root, the filled-in header and the block root are recorded under the slot |
| `Upkeep.AdvanceRecordsHeader` | beacon/src/executive/transition/mod.rs:59-75 | leaving a slot records the root of the latest header, with the root of the state in it |
| `Executive.BeaconExecutive.ProcessSlots` | beacon/src/executive/transition/mod.rs:42-56 | the loop leaves the state of `ProcessSlots`, or its error, and ends |
| `RingHistory.LookupFindsRecord` | beacon/src/executive/helpers/accessors.rs:44-54 | in every run a root lookup that succeeds answers with the root recorded when the run left that slot |
| `RingHistory.LeavesOnce` | beacon/src/executive/transition/mod.rs:42-56 | a run leaves a slot only once |
| `RingHistory.SlotsCompose` | beacon/src/executive/transition/mod.rs:42-56 | advancing to a and then to b is advancing straight to b, errors included |
| `RingHistory.TransitionPerBoundary` | beacon/src/executive/transition/mod.rs:42-56 | the states that the slot loop hands to the epoch transition on its way are one for each epoch boundary crossed, at the last slot before it, and each transition succeeds |
| `Executive.BeaconExecutive.ProcessBlockHeader` | beacon/src/executive/transition/per_block/header.rs:23-65 | checks and header write leave the state of `ProcessHeader`, or the error of the first failing check |
| `Upkeep.ParentIsRecorded` | beacon/src/executive/transition/per_block/header.rs:23-65 | an accepted block names as its parent the root recorded for the slot before it |
| `Upkeep.AcceptedBlockIsSound` | beacon/src/executive/transition/per_block/header.rs:23-65 | its proposer is not slashed, its signature verifies, its state root is that of the state it leads to, and its header is stored there |
| `Executive.BeaconExecutive.ProcessRandao` | beacon/src/executive/transition/per_block/randao.rs:23-44 | a verified reveal is mixed into the ring entry of the current epoch and nothing else changes |
| `Executive.BeaconExecutive.ProcessEth1Data` | beacon/src/executive/transition/per_block/eth1.rs:22-31 | the vote is added, and its data adopted exactly when its votes exceed half of the voting period |
| `Eth1Votes.PeriodAdopts` | beacon/src/executive/transition/per_block/eth1.rs:22-31 | over a voting period the data that more than half of its slots voted for is adopted, and without one what was adopted before stays |
| `Eth1Votes.OneWinner` | beacon/src/executive/transition/per_block/eth1.rs:24-30 | no two data can win in one period |
| `Eth1Votes.CountIsMultiplicity` | beacon/src/executive/transition/per_block/eth1.rs:24-26 | the count of a data is its multiplicity among the votes |
| `Executive.BeaconExecutive.ProcessProposerSlashing` | beacon/src/executive/transition/per_block/operations/proposer_slashing.rs:23-66 | the first failing check is the error, otherwise the proposer is slashed |
| `Accused.ProposerIsSlashed` | beacon/src/executive/transition/per_block/operations/proposer_slashing.rs:23-66 | it succeeds exactly when two different headers of one slot are signed by a slashable proposer, and slashes that one and nobody else |
| `Executive.BeaconExecutive.SlashEach` | beacon/src/executive/transition/per_block/operations/attester_slashing.rs:52-59 | the loop slashes whoever can be slashed when its turn comes and tells whether anyone was |
| `Executive.BeaconExecutive.ProcessAttesterSlashing` | beacon/src/executive/transition/per_block/operations/attester_slashing.rs:22-66 | the union of both attestations' indices is slashed in order, without repetition: afterwards those are slashed who were before and everyone named who could be; nobody slashable is an error |
| `Accused.NamedAreSlashed` | beacon/src/executive/transition/per_block/operations/attester_slashing.rs:44-65 | after a success a validator is slashed exactly when it was before, or one of the attestations names it and it could be slashed |
| `Accused.OnlyCommonSlashed` | beacon/src/executive/transition/per_block/operations/attester_slashing.rs:44-65 | everyone newly slashed signed both attestations exactly when everyone named who could be slashed did |
| `Accused.SlashingSucceeds` | beacon/src/executive/transition/per_block/operations/attester_slashing.rs:22-66 | it succeeds exactly when the attestations pass the checks and name someone who can be slashed |
| `Accused.BothAreSlashed` | beacon/src/executive/transition/per_block/operations/attester_slashing.rs:44-65 | two slashable validators who signed one attestation each are both slashed |
| `OneVote.OneVoteEach` | beacon/src/executive/transition/per_block/operations/attester_slashing.rs:44-65 | this happens on a genesis state of the minimal preset |
| `Executive.BeaconExecutive.ProcessAttestation` | beacon/src/executive/transition/per_block/operations/attestation.rs:22-70 | an attestation that passes the checks is stored in the list of its target epoch |
| `Executive.BeaconExecutive.ProcessDeposit` | beacon/src/executive/transition/per_block/operations/deposit.rs:24-77 | the deposit index grows, a known key is credited, a new key with a valid signature is registered and one without is ignored |
| `Stakes.DepositPays` | beacon/src/executive/transition/per_block/operations/deposit.rs:24-77 | a deposit tops up the first validator with its key, or with a new key and a valid signature adds one with that balance, or changes no balance |
| `BlockProcessing.Position` | beacon/src/executive/transition/per_block/operations/deposit.rs:71-72 | the first validator with the key, or none exactly when nobody has it |
| `Executive.BeaconExecutive.ProcessVoluntaryExit` | beacon/src/executive/transition/per_block/operations/voluntary_exit.rs:23-66 | the first failing guard is the error, otherwise the exit is queued |
| `RegistryPass.VoluntaryExitLeaves` | beacon/src/executive/transition/per_block/operations/voluntary_exit.rs:23-66 | accepted exactly for an active validator that served its period and has no exit, signed and not before its epoch; it gets the next exit epoch and nobody else is touched |
| `Executive.BeaconExecutive.ApplyEach` | beacon/src/executive/transition/per_block/operations/mod.rs:46-48 | a loop over operations leaves the state after all of them, or the error of the first that fails |
| `Executive.BeaconExecutive.ProcessOperations` | beacon/src/executive/transition/per_block/operations/mod.rs:29-79 | counts and loops in the source's order leave the state of `ProcessOperations`, or the first error |
| `Executive.BeaconExecutive.ProcessBlock` | beacon/src/executive/transition/per_block/mod.rs:27-39 | header, randao, eth1 data and operations in order |
| `Executive.BeaconExecutive.StateTransition` | beacon/src/executive/transition/mod.rs:27-39 | slots, block and the final state root check leave the state of `StateTransition`, or the first error |
| `Chains.ChainIsRun` | beacon/src/lib.rs:56-62 | any chain of executed blocks over genesis is a run that passes, in order, through the state after every block |
| `Chains.ChainFinalityNeverDecreases` | beacon/src/lib.rs:56-62 | between any two blocks of a chain no finality checkpoint moves back |
| `Building.Build` | beacon/src/lib.rs:92-199 | the four parts run in order build the block that `Builder.BuildBlock` gives, or fail with its error |
| `Building.BlockBuilder.ApplyInherent` | beacon/src/lib.rs:101-128 | the draft block and the state are those of `Builder.ApplyInherent`, or its error |
| `Building.BlockBuilder.ApplyTransaction` | beacon/src/lib.rs:131-175 | a transaction within its limit changes the state and is listed in the body; on an error the block is unchanged |
| `Building.BlockBuilder.FinalizeBlock` | beacon/src/lib.rs:178-199 | the count check after the index has moved, the header last, then the state root |
| `Builder.PushedInOrder` | beacon/src/lib.rs:131-175 | transactions applied in the executor's kind order are listed by the body in that order |
| `Builder.OperationsIgnoreHeader` | beacon/src/executive/transition/per_block/operations/mod.rs:29-79 | operations do the same whatever the latest block header is, and leave it as it is |
| `Builder.HeaderAcceptedFirst` | beacon/src/executive/transition/per_block/header.rs:23-65 | a header accepted after the operations is accepted before them |
| `Builder.ExecutorAcceptsBuilt` | beacon/src/lib.rs:56-199 | if every builder step succeeds on transactions in kind order, the executor on the same parent state gives the identical post-state exactly when the transactions hold no deposit or the maximal number, and otherwise refuses their count |
| `Disagreement.OneOfTwoIsBuilt` | beacon/src/lib.rs:178-199 | wherever an unslashed proposer opens a block with two deposits outstanding, the builder finishes a block with one of them |
| `Disagreement.OneOfTwoIsRefused` | beacon/src/executive/transition/per_block/operations/mod.rs:35-41 | and the executor refuses that block |
| `Disagreement.BuilderAndExecutorDisagree` | beacon/src/lib.rs:186-191 | this happens on a genesis state of the minimal preset |
| `Building.Genesis` | beacon/src/genesis.rs:39-75 | the loops over deposits and validators compute the genesis state, or the first error |
| `Merkle.SingleTop` | blockchain/src/main.rs:61-75 | the halving layers end in one node exactly for 1 to 2^32 leaves |
| `Merkle.DepositTree` | blockchain/src/main.rs:45-90 | the loop builds all 34 layers, and fails exactly outside 1 to 2^32 leaves |
| `Merkle.LayersAreComplete` | blockchain/src/main.rs:61-75 | the layers and their padding are those of the complete tree over the leaves and zero leaves |
| `Merkle.DepositRootIsComplete` | blockchain/src/main.rs:61-90 | the root is that of the complete tree of height 32, hashed with the number of deposits |
| `Merkle.DepositProof` | blockchain/src/main.rs:96-116 | the loop reads off the sibling at every height, padded with zero hashes, and the mixed-in length |
| `Merkle.ProofVerifies` | blockchain/src/main.rs:92-116 | for every list of deposits and every index, folding the leaf with its proof along the index bits gives the deposit root |
| `Chains.ProvenIsAccepted` | beacon/src/executive/transition/per_block/operations/deposit.rs:25-35 | a deposit with its proof is accepted when its index is next |
| `Chains.ProvenDepositsStartChain` | blockchain/src/main.rs:255-275 | genesis succeeds on any deposits proved in their own tree and consumes them all |
| `ForkChoice.AncestorOfAncestor` | blockchain/lmd-ghost/src/archive.rs:48-62 | an ancestor's ancestor at a depth is the block's own |
| `ForkChoice.ArchiveGhost.Ancestor` | blockchain/lmd-ghost/src/archive.rs:48-62 | the loop finds the ancestor at the depth, and fails exactly on an unknown block |
| `ForkChoice.ArchiveGhost.CommitOverlay` | blockchain/lmd-ghost/src/archive.rs:87-96 | the overlay is emptied and the votes that count stay the same, hence every vote count and every head |
| `ForkChoice.ArchiveGhost.UpdateActive` | blockchain/lmd-ghost/src/archive.rs:104-111 | the votes are cut to the active validators |
| `ForkChoice.ArchiveGhost.VoteCount` | blockchain/lmd-ghost/src/archive.rs:113-132 | the number of validators whose counting vote descends from the block; an error exactly when a counting vote is for an unknown block |
| `ForkChoice.ArchiveGhost.ChooseChild` | blockchain/lmd-ghost/src/archive.rs:145-153 | the first of the most supported children: none has more support and none before it has as much; fails exactly when a counting vote is for an unknown block |
| `ForkChoice.ArchiveGhost.FindHead` | blockchain/lmd-ghost/src/archive.rs:134-157 | the walk ends, at a leaf below the justified block on the way to which every block has at least the support of each sibling and more than each before it; fails exactly on an unknown start or, off a leaf, an unknown vote |
| `ForkChoice.HeadIsLeaf` | blockchain/lmd-ghost/src/archive.rs:134-157 | the head is a leaf that descends from the justified block |
| `ForkChoice.HeadIsGreedy` | blockchain/lmd-ghost/src/archive.rs:140-156 | on the way from the start to the head every block has at least the support of each sibling, and more than each that comes before it |
| `ForkChoice.GreedyIsUnique` | blockchain/lmd-ghost/src/archive.rs:140-156 | only one leaf is reached so |
| `ForkChoice.MajorityHoldsHead` | blockchain/lmd-ghost/src/archive.rs:134-157 | if a descendant of the justified block holds more than half of all counting votes, the head lies in its subtree |
| `ForkChoice.ArchiveGhost.ImportRaw` | blockchain/lmd-ghost/src/archive.rs:230-282 | an overlay empty on entry is empty on every exit; the kept votes are the old ones cut to the justified active set, overridden by the block's votes exactly when the head was set; every error case leaves votes and head as stated |
| `Bytes.LittleEndianRoundTrip` | utils/ssz/src/basic.rs:9-25 | reading back k little-endian bytes of n gives n modulo 256^k |
| `SszBits.UnpackPack` | utils/ssz/src/fixed.rs:185-222 | unpacking packed bits gives them back |
| `SszBits.SentinelMarksLength` | utils/ssz/src/variable.rs:124-145 | the highest set bit of the last byte tells the length of a bitlist |
| `SszLayout.PackHolds` | utils/ssz/src/fixed.rs:188-196 | bit i of the bytes is bit i % 8, from the lowest, of byte i / 8, and nothing follows the bits |
| `SszBits.EncodeBitVector` | utils/ssz/src/fixed.rs:188-196 | the loop of bitwise ors packs eight bits to a byte, lowest first |
| `SszBits.EncodeBitList` | utils/ssz/src/variable.rs:124-135 | so does the bitlist loop, with a sentinel after the last bit |
| `SszBits.UnpackLoop` | utils/ssz/src/fixed.rs:211-221 | the loop reads n bits, and fails exactly when the bytes are too few |
| `SszSeries.DecodeVectorUndoes` | utils/ssz/src/series.rs:21-98 | decoding a series with the sizes of its items undoes encoding, below 2^32 bytes |
| `SszSeries.DecodeListUndoes` | utils/ssz/src/series.rs:21-140 | so does decoding a list of items that are all variable or all of one non-zero size |
| `SszLoops.EncodeItems` | utils/ssz/src/series.rs:21-56 | the three loops lay the series out: each fixed item after the heads before it, each variable item behind all heads in order, and in its head four bytes, lowest first, with that place |
| `SszLayout.SeriesIsLaidOut` | utils/ssz/src/series.rs:21-56 | so is every encoded series |
| `SszLayout.LayoutIsUnique` | utils/ssz/src/series.rs:21-56 | the layout of a series leaves no choice |
| `SszLoops.DecodeVectorItems` | utils/ssz/src/series.rs:60-98 | the pass over the sizes and the pass over the queued offsets recover the items, or panic where a slice is out of range |
| `SszLoops.DecodeListItems` | utils/ssz/src/series.rs:101-140 | so do the loops over pieces and over offsets up to the first one |
| `SszLoops.EncodeValue` | utils/ssz/src/utils.rs:4-16 | encoding by pushing items onto series writes the wire format of every value of every type |
| `SszLayout.EncodedIsWire` | utils/ssz/src/basic.rs:9-47 | an encoding is in the wire format: integers lowest byte first, true as 1 and false as 0, bits lowest first with the sentinel after the last, elements and fields laid out as a series |
| `SszLayout.WireIsEncoded` | utils/ssz/src/basic.rs:9-47 | and nothing else is: a value has one wire format |
| `SszLayout.WireIsRead` | utils/ssz/src/utils.rs:18-45 | decoding reads a value of a sound type off it |
| `SszLoops.DecodeValue` | utils/ssz/src/utils.rs:18-45 | decoding item by item computes `Ssz.Decode` on every type, with the first error, and reads every value of a sound type off its wire format below 2^32 bytes |
| `SszLoops.EncodeFields` | utils/ssz/derive/src/lib.rs:88-122 | a container encodes its fields as fixed or variable items by their uncompacted types |
| `SszLoops.DecodeContainer` | utils/ssz/derive/src/lib.rs:150-218 | a container decodes its fields by the sizes of their compact types |
| `Ssz.FixedSize` | utils/ssz/src/size.rs:14-64 | a fixed-size value is never longer than its declared size, and as long exactly when no compact bitvector of two or more bits sits in a container inside it |
| `Ssz.RoundTrip` | utils/ssz/src/series.rs:21-140 | decode undoes encode, over all integers, bools, vectors, lists, bitvectors, bitlists and containers with non-zero element sizes, exact element and field sizes and encodings below 2^32 bytes |
| `Ssz.ListComesBack` | utils/ssz/src/utils.rs:18-45 | a list of fixed-size elements comes back exactly when it is empty or its elements' size is exact |
| `Ssz.CompactFieldIsLost` | utils/ssz/derive/src/lib.rs:46-57 | a list of one struct with eight compact bits comes back empty |

## Left out

- Networking, RPC, discovery, wire codecs, RocksDB, the command line, wasm bindings and the YAML test runner: input and output, or thin layers over libraries.
- BLS, SHA-256, tree roots and the `bm` Merkle library: foreign code, any function here. `is_valid_merkle_branch` calls that library; the model is the fold of the specification's `is_valid_merkle_branch`.
- 64-bit overflow of balances, slots and epochs, apart from the bounds stated in `Rewards` and the room that `BoundedRun` asks for.
- The state that is left behind when an operation fails: Rust does not roll it back and callers drop it, so the methods say only which error it is.
- Accountable safety takes as a hypothesis that every counted vote has the source justified when its target epoch was current. For the votes counted on time this holds of every run (`EpochTotality.OnTimeVotesAreSourced`); for the late ones it does not follow, because the source checks it for votes of the current epoch only. It also takes a fixed weighted validator set, and that a checkpoint root commits to every earlier checkpoint root of its chain (`RootsCommit`), because hashing is any function here.
- `blockchain/src/pool.rs`, `substrate/casper` and the validator client: the pool's overlap test and the second copy of the FFG rule differ from the code modelled here.
- `import_block` of the fork choice: two lookups before `import_raw`.
- Decoding of malformed SSZ bytes beyond which error it is, serde and YAML forms, and record conversions.
- `components::reward::process` has no caller in the repository; it is modelled against the direct code all the same.
- Executive.BeaconExecutive.BeaconProposerIndex: requires that the search ends, which it does not for every hash function; `Accessors.SearchEndsForEveryHash` gives the exact condition under which it does.
- SszLoops.DecodeListItems: answers `NoProgress` for elements of no bytes, where the source loops for ever.
