/**
 What the transition keeps beside balances and finality: the targets of stored votes, the link from a
 block to its parent, the batches of historical roots, and the reset of the deposit vote.
 */
module Upkeep {
  import opened Bytes
  import opened BeaconTypes
  import opened Accessors
  import opened Mutators
  import opened EpochProcessing
  import opened BlockProcessing
  import opened Transition
  import opened Invariants
  import opened EpochTotality
  import opened RingHistory
  import opened Builder
  import opened Arith

  // Targets of late votes

  /** The votes stored for the previous epoch name it as their target. */
  predicate PreviousTargeted(c: Config, s: BeaconState)
    requires ValidConfig(c)
  {
    forall k :: 0 <= k < |s.previousEpochAttestations| ==>
      s.previousEpochAttestations[k].data.target.epoch + 1 == CurrentEpoch(c, s)
  }

  lemma {:induction false} AdvanceKeepsTargets(c: Config, s: BeaconState)
    requires StateInv(c, s) && CurrentSourced(c, s) && PreviousTargeted(c, s) && AdvanceSlot(c, s).Ok?
    ensures PreviousTargeted(c, AdvanceSlot(c, s).value)
  {
    hide ProcessEpoch, AllSound;
    SlotKeepsPending(c, s);
    EpochOfNextSlot(c, s.slot);
    if AtEpochEnd(c, ProcessSlot(c, s)) {
      EpochRotates(c, ProcessSlot(c, s));
    }
  }

  lemma {:induction false} OperationKeepsTargets(c: Config, s: BeaconState, tx: Transaction)
    requires Shape(c, s) && PreviousTargeted(c, s) && ApplyOperation(c, s, tx).Ok?
    ensures PreviousTargeted(c, ApplyOperation(c, s, tx).value)
  {
    if tx.OfAttestation? {
      hide CheckAttestationVote, ProposerIndex, CommitteeCountAtSlot;
    } else {
      OtherOperationFrame(c, s, tx);
      hide ApplyOperation;
    }
  }

  lemma {:induction false} StepKeepsTargets(c: Config, s: BeaconState, s': BeaconState)
    requires StateInv(c, s) && CurrentSourced(c, s) && PreviousTargeted(c, s) && Step(c, s, s')
    ensures PreviousTargeted(c, s')
  {
    hide StateInv, AdvanceSlot, ApplyOperation, CurrentSourced;
    var a :| Act(c, s, a) == Ok(s');
    match a
    case Advance =>
      AdvanceKeepsTargets(c, s);
    case Operate(tx) =>
      OperationKeepsTargets(c, s, tx);
    case _ =>
  }

  /** So it is in every state of every run. */
  lemma {:induction false} RunTargetsVotes(c: Config, t: seq<BeaconState>, k: nat)
    requires BoundedRun(c, t) && k < |t|
    ensures PreviousTargeted(c, t[k])
  {
    hide Step, IsGenesis, StateInv, CurrentSourced;
    if k == 0 {
      RoomThroughout(c, t, 0);
      GenesisInOrder(c, t[0]);
    } else {
      RunTargetsVotes(c, t, k - 1);
      RunKeepsInv(c, t, k - 1);
      RunSourcesVotes(c, t, k - 1);
      assert Step(c, t[k - 1], t[k - 1 + 1]);
      StepKeepsTargets(c, t[k - 1], t[k]);
    }
  }

  // Parents

  lemma {:induction false} EpochKeepsRoots(c: Config, s: BeaconState)
    requires Shape(c, s) && ProcessEpoch(c, s).Ok?
    ensures var s' := ProcessEpoch(c, s).value;
      s'.blockRoots == s.blockRoots && s'.stateRoots == s.stateRoots && s'.latestBlockHeader == s.latestBlockHeader
  {
    hide ProcessEpoch, ProcessJustification, ProcessRewards, ProcessRegistry, ProcessSlashings;
    var s1, s2, s3, s4 := EpochStages(c, s);
  }

  /** Leaving a slot records the root of the latest header, with the root of the state in it. */
  lemma {:induction false} AdvanceRecordsHeader(c: Config, s: BeaconState)
    requires Shape(c, s) && AdvanceSlot(c, s).Ok?
    ensures var s' := AdvanceSlot(c, s).value;
      && BlockRootAtSlot(c, s', s.slot) == Ok(c.crypto.headerRoot(Signing(s'.latestBlockHeader)))
      && s'.stateRoots[Mod(s.slot, c.slotsPerHistoricalRoot)] == c.crypto.stateRoot(s)
      && s'.latestBlockHeader == s.latestBlockHeader.(stateRoot :=
           if s.latestBlockHeader.stateRoot == ZERO_HASH then c.crypto.stateRoot(s) else s.latestBlockHeader.stateRoot)
  {
    hide ProcessEpoch;
    var s1 := ProcessSlot(c, s);
    if AtEpochEnd(c, s1) {
      EpochKeepsRoots(c, s1);
    }
  }

  lemma {:induction false} SlotsRecordHeader(c: Config, s: BeaconState, slot: Slot)
    requires Shape(c, s) && s.slot < slot && ProcessSlots(c, s, slot).Ok?
    ensures var s' := ProcessSlots(c, s, slot).value;
      BlockRootAtSlot(c, s', slot - 1) == Ok(c.crypto.headerRoot(Signing(s'.latestBlockHeader)))
    decreases slot - s.slot
  {
    hide AdvanceSlot, BlockRootAtSlot;
    AdvanceRecordsHeader(c, s);
    var s1 := AdvanceSlot(c, s).value;
    if s1.slot < slot {
      SlotsRecordHeader(c, s1, slot);
    }
  }

  /** An accepted block names as its parent the root that was recorded for the slot before it. */
  lemma {:induction false} ParentIsRecorded(c: Config, s: BeaconState, block: UnsealedBlock,
                                            signature: Option<Signature>)
    requires Shape(c, s) && s.slot < block.slot && StateTransition(c, s, block, signature).Ok?
    ensures ProcessSlots(c, s, block.slot).Ok?
    ensures BlockRootAtSlot(c, ProcessSlots(c, s, block.slot).value, block.slot - 1) == Ok(block.parentRoot)
  {
    hide ProcessSlots, ProcessRandao, ProcessOperations, ProposerIndex, BlockRootAtSlot;
    SlotsRecordHeader(c, s, block.slot);
  }

  /** What an accepted block has shown: its proposer is the one of the slot and not slashed, its signature verifies,
      its state root is that of the state it leads to, and its header is stored there for the next block. */
  lemma {:induction false} AcceptedBlockIsSound(c: Config, s: BeaconState, block: UnsealedBlock, signature: Signature)
    requires Shape(c, s) && StateTransition(c, s, block, Some(signature)).Ok?
    ensures ProcessSlots(c, s, block.slot).Ok? && Shape(c, ProcessSlots(c, s, block.slot).value)
    ensures var s1, s' := ProcessSlots(c, s, block.slot).value, StateTransition(c, s, block, Some(signature)).value;
      && block.stateRoot == c.crypto.stateRoot(s') && s'.slot == block.slot
      && s'.latestBlockHeader == HeaderOf(c, block)
      && var r := ProposerIndex(c, WithHeader(s1, HeaderOf(c, block)));
         && r.Ok? && !s1.validators[r.value].slashed
         && c.crypto.verify(s1.validators[r.value].pubkey, c.crypto.blockRoot(block), signature,
                            Domain(c, s1, DOMAIN_BEACON_PROPOSER, None))
  {
    hide ProcessSlots, ProcessRandao, ProcessOperations, ProposerIndex, EpochOf, LittleEndian, FromLittleEndian;
  }

  // Historical batches

  /** Epochs per batch. */
  function BatchLength(c: Config): (n: nat)
    requires ValidConfig(c)
    ensures n >= 1
  {
    DivAtLeast(c.slotsPerHistoricalRoot, c.slotsPerEpoch, 3);
    Div(c.slotsPerHistoricalRoot, c.slotsPerEpoch)
  }

  lemma {:induction false} EpochBatches(c: Config, s: BeaconState)
    requires Shape(c, s) && ProcessEpoch(c, s).Ok?
    ensures ProcessEpoch(c, s).value.historicalRoots
         == if Mod(CurrentEpoch(c, s) + 1, BatchLength(c)) == 0
            then s.historicalRoots + [c.crypto.batchRoot(s.blockRoots, s.stateRoots)] else s.historicalRoots
  {
    hide ProcessEpoch, ProcessJustification, ProcessRewards, ProcessRegistry, ProcessSlashings;
    var s1, s2, s3, s4 := EpochStages(c, s);
  }

  lemma NextBatch(e: nat, n: nat)
    requires n >= 1
    ensures (e + 1) / n == e / n + if Mod(e + 1, n) == 0 then 1 else 0
  {
    DivModLaw(e, n);
    DivModAreOperators(e, n);
    DivModAreOperators(e + 1, n);
    var q, r := Div(e, n), Mod(e, n);
    if r + 1 < n {
      DivModUnique(e + 1, n, q, r + 1);
    } else {
      Distribute(q, 1, n);
      DivModUnique(e + 1, n, q + 1, 0);
    }
  }

  lemma {:induction false} StepKeepsBatches(c: Config, s: BeaconState, s': BeaconState)
    requires Step(c, s, s') && |s.historicalRoots| == CurrentEpoch(c, s) / BatchLength(c)
    ensures |s'.historicalRoots| == CurrentEpoch(c, s') / BatchLength(c)
  {
    hide ApplyOperation, ProcessHeader, ProcessRandao, ProcessEth1Data, ProcessEpoch, BatchLength;
    var a :| Act(c, s, a) == Ok(s');
    if a.Advance? {
      EpochOfNextSlot(c, s.slot);
      if AtEpochEnd(c, ProcessSlot(c, s)) {
        EpochBatches(c, ProcessSlot(c, s));
        NextBatch(CurrentEpoch(c, s), BatchLength(c));
      }
    }
  }

  /** In every state of every run there is one batch for each whole batch of epochs that has passed. */
  lemma {:induction false} RunBatches(c: Config, t: seq<BeaconState>, k: nat)
    requires Run(c, t) && k < |t|
    ensures |t[k].historicalRoots| == CurrentEpoch(c, t[k]) / BatchLength(c)
  {
    hide Step, IsGenesis, BatchLength;
    if k == 0 {
      GenesisHasNoBatch(c, t[0]);
    } else {
      RunBatches(c, t, k - 1);
      assert Step(c, t[k - 1], t[k - 1 + 1]);
      StepKeepsBatches(c, t[k - 1], t[k]);
    }
  }

  lemma {:induction false} GenesisHasNoBatch(c: Config, s: BeaconState)
    requires ValidConfig(c) && IsGenesis(c, s)
    ensures s.historicalRoots == [] && CurrentEpoch(c, s) == 0
  {
    hide ApplyDeposits;
    var deposits, time, eth1 :| GenesisState(c, deposits, time, eth1) == Ok(s);
    DepositsKeepBatches(c, BlankState(c, time, eth1), deposits);
    DivModUnique(0, c.slotsPerEpoch, 0, 0);
  }

  lemma {:induction false} DepositsKeepBatches(c: Config, s: BeaconState, deposits: seq<Deposit>)
    requires Shape(c, s) && ApplyDeposits(c, s, deposits).Ok?
    ensures ApplyDeposits(c, s, deposits).value.historicalRoots == s.historicalRoots
    decreases |deposits|
  {
    hide ProcessDeposit;
    if deposits != [] {
      DepositsKeepBatches(c, s, deposits[..|deposits| - 1]);
    }
  }

  // The deposit vote

  /** The votes are dropped at the epoch end at which a voting period ends, and at no other. */
  lemma {:induction false} VotesAreReset(c: Config, s: BeaconState)
    requires Shape(c, s) && ProcessEpoch(c, s).Ok?
    ensures ProcessEpoch(c, s).value.eth1DataVotes
         == if (s.slot + 1) % c.slotsPerEth1VotingPeriod == 0 then [] else s.eth1DataVotes
  {
    hide ProcessEpoch, ProcessJustification, ProcessRewards, ProcessRegistry, ProcessSlashings;
    var s1, s2, s3, s4 := EpochStages(c, s);
    DivModAreOperators(s.slot + 1, c.slotsPerEth1VotingPeriod);
  }
}
