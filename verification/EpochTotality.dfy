/**
 The epoch transition never fails on a reachable state: stored attestations still resolve, every
 root lookup is inside its window, and the finality delay never goes below zero.
 */
module EpochTotality {
  import opened Bytes
  import opened BeaconTypes
  import opened Accessors
  import opened Mutators
  import opened Lifecycle
  import opened EpochProcessing
  import opened BlockProcessing
  import opened Transition
  import opened Evolution
  import opened Invariants
  import opened Committees
  import opened Arith
  import J = Justification

  /** A stored attestation about epoch `x` that is at most `age` epochs old. */
  ghost predicate Sound(c: Config, s: BeaconState, a: PendingAttestation, age: nat)
    requires Shape(c, s)
  {
    && Resolves(c, s, a)
    && a.data.slot < s.slot
    && EpochOf(c, a.data.slot) <= CurrentEpoch(c, s) <= EpochOf(c, a.data.slot) + age
    && a.inclusionDelay >= 1
    && a.proposerIndex < |s.validators|
  }

  ghost predicate AllSound(c: Config, s: BeaconState, atts: seq<PendingAttestation>, age: nat)
    requires Shape(c, s)
  {
    forall k :: 0 <= k < |atts| ==> Sound(c, s, atts[k], age)
  }

  ghost predicate PendingInv(c: Config, s: BeaconState)
    requires Shape(c, s)
  {
    AllSound(c, s, s.currentEpochAttestations, 1) && AllSound(c, s, s.previousEpochAttestations, 2)
  }

  predicate FinalityInv(c: Config, s: BeaconState)
    requires ValidConfig(c)
  {
    J.Ordered(FinalityOf(s), PreviousEpoch(c, s))
  }

  /** Everything a reachable state keeps. */
  ghost predicate StateInv(c: Config, s: BeaconState) {
    Ready(c, s) && PendingInv(c, s) && FinalityInv(c, s)
  }

  // Stored attestations stay sound

  lemma {:induction false} EffectKeepsSound(c: Config, s: BeaconState, s': BeaconState, a: PendingAttestation,
                                            age: nat, age': nat)
    requires Effect(c, s, s') && Room(c, CurrentEpoch(c, s), |s.validators|) && s.slot <= s'.slot
    requires Sound(c, s, a, age) && age' <= 2 && age <= age'
    requires CurrentEpoch(c, s') == CurrentEpoch(c, s) || age < age'
    ensures Sound(c, s', a, age')
  {
    EffectKeepsCommittees(c, s, s', EpochOf(c, a.data.slot));
    SameCommitteesSameAnswers(c, s, s', a.data.slot);
    hide AttestingIndices;
  }

  lemma {:induction false} EffectKeepsAllSound(c: Config, s: BeaconState, s': BeaconState,
                                               atts: seq<PendingAttestation>, age: nat, age': nat)
    requires Effect(c, s, s') && Room(c, CurrentEpoch(c, s), |s.validators|) && s.slot <= s'.slot
    requires AllSound(c, s, atts, age) && age' <= 2 && age <= age'
    requires CurrentEpoch(c, s') == CurrentEpoch(c, s) || age < age'
    ensures AllSound(c, s', atts, age')
  {
    hide Sound;
    forall k | 0 <= k < |atts|
      ensures Sound(c, s', atts[k], age')
    {
      EffectKeepsSound(c, s, s', atts[k], age, age');
    }
  }

  /** An attestation that is accepted is sound when it is stored. */
  lemma {:induction false} AcceptedIsSound(c: Config, s: BeaconState, a: Attestation, proposer: ValidatorIndex)
    requires Shape(c, s) && proposer < |s.validators|
    requires CheckAttestationData(c, s, a.data).Ok? && CheckAttestationVote(c, s, a).Ok?
    ensures Sound(c, s, PendingAttestation(a.aggregationBits, a.data, s.slot - a.data.slot, proposer), 1)
  {
    hide AttestingIndices, IsValidIndexedAttestation;
    DivMonotone(a.data.slot, s.slot, c.slotsPerEpoch);
    DivMonotone(s.slot, a.data.slot + c.slotsPerEpoch, c.slotsPerEpoch);
    ModShift(a.data.slot, c.slotsPerEpoch);
  }

  lemma {:induction false} SoundDependsOn(c: Config, s: BeaconState, s': BeaconState, atts: seq<PendingAttestation>,
                                          age: nat)
    requires Shape(c, s) && Shape(c, s') && s'.slot == s.slot
    requires s'.validators == s.validators && s'.randaoMixes == s.randaoMixes
    requires AllSound(c, s, atts, age)
    ensures AllSound(c, s', atts, age)
  {
    forall k | 0 <= k < |atts|
      ensures Sound(c, s', atts[k], age)
    {
      assert Sound(c, s, atts[k], age);
      SameCommitteesSameAnswers(c, s, s', atts[k].data.slot);
      hide AttestingIndices;
    }
  }

  lemma {:induction false} AllSoundExtend(c: Config, s: BeaconState, atts: seq<PendingAttestation>,
                                          a: PendingAttestation, age: nat)
    requires Shape(c, s) && AllSound(c, s, atts, age) && Sound(c, s, a, 1) && age >= 1
    ensures AllSound(c, s, atts + [a], age)
  {
    hide Resolves;
  }

  lemma {:induction false} AttestationKeepsPending(c: Config, s: BeaconState, a: Attestation)
    requires StateInv(c, s) && ProcessAttestation(c, s, a).Ok?
    ensures PendingInv(c, ProcessAttestation(c, s, a).value)
  {
    hide CheckAttestationData, CheckAttestationVote, ProposerIndex, AllSound, Sound;
    var proposer := ProposerIndex(c, s).value;
    var s' := ProcessAttestation(c, s, a).value;
    var pending := PendingAttestation(a.aggregationBits, a.data, s.slot - a.data.slot, proposer);
    AcceptedIsSound(c, s, a, proposer);
    AllSoundExtend(c, s, s.currentEpochAttestations, pending, 1);
    AllSoundExtend(c, s, s.previousEpochAttestations, pending, 2);
    SoundDependsOn(c, s, s', s'.currentEpochAttestations, 1);
    SoundDependsOn(c, s, s', s'.previousEpochAttestations, 2);
  }

  // The epoch transition

  /** At the last slot of an epoch the roots of this and the previous epoch are known. */
  lemma {:induction false} RootsInWindow(c: Config, s: BeaconState, e: Epoch)
    requires Shape(c, s) && AtEpochEnd(c, s)
    requires e == CurrentEpoch(c, s) || e == PreviousEpoch(c, s)
    ensures BlockRoot(c, s, e).Ok?
  {
    hide Mul;
    LastSlot(c, s);
    MulIsProduct(e, c.slotsPerEpoch);
    MulIsProduct(CurrentEpoch(c, s), c.slotsPerEpoch);
    Distribute(e, 1, c.slotsPerEpoch);
  }

  /** So is the root at the slot of every stored attestation. */
  lemma {:induction false} SoundSlotInWindow(c: Config, s: BeaconState, a: PendingAttestation)
    requires Shape(c, s) && AtEpochEnd(c, s) && Sound(c, s, a, 2)
    ensures BlockRootAtSlot(c, s, a.data.slot).Ok?
  {
    hide Resolves;
    var x, d := EpochOf(c, a.data.slot), c.slotsPerEpoch;
    LastSlot(c, s);
    DivModLaw(a.data.slot, d);
    MulIsProduct(CurrentEpoch(c, s), d);
    MulMonotone(CurrentEpoch(c, s), x + 2, d);
    Distribute(x, 2, d);
  }

  lemma {:induction false} AllSoundResolve(c: Config, s: BeaconState, atts: seq<PendingAttestation>, age: nat)
    requires Shape(c, s) && AllSound(c, s, atts, age)
    ensures forall a :: a in atts ==> Resolves(c, s, a)
  {
    hide Resolves;
    forall a | a in atts
      ensures Resolves(c, s, a)
    {
      var k :| 0 <= k < |atts| && atts[k] == a;
      assert Sound(c, s, atts[k], age);
    }
  }

  lemma {:induction false} TargetBalanceOk(c: Config, s: BeaconState, e: Epoch)
    requires Shape(c, s) && AtEpochEnd(c, s) && PendingInv(c, s)
    requires e == CurrentEpoch(c, s) || e == PreviousEpoch(c, s)
    ensures AttestingTargetBalance(c, s, e).Ok?
  {
    hide AllSound, UnslashedAttesting, Resolves;
    RootsInWindow(c, s, e);
    AllSoundResolve(c, s, s.currentEpochAttestations, 1);
    AllSoundResolve(c, s, s.previousEpochAttestations, 2);
  }

  lemma {:induction false} JustificationOk(c: Config, s: BeaconState)
    requires Shape(c, s) && AtEpochEnd(c, s) && PendingInv(c, s) && FinalityInv(c, s)
    ensures ProcessJustification(c, s).Ok?
    ensures J.Ordered(FinalityOf(ProcessJustification(c, s).value), CurrentEpoch(c, s))
    ensures ProcessJustification(c, s).value.finalizedCheckpoint.epoch <= PreviousEpoch(c, s)
  {
    hide AttestingTargetBalance, BlockRoot, AllSound;
    var previous, current := PreviousEpoch(c, s), CurrentEpoch(c, s);
    RootsInWindow(c, s, previous);
    RootsInWindow(c, s, current);
    TargetBalanceOk(c, s, previous);
    TargetBalanceOk(c, s, current);
    if current > GENESIS_EPOCH + 1 {
      J.ProcessKeepsOrder(FinalityOf(s), EpochBallot(c, s).value);
    }
  }

  lemma {:induction false} InputsOk(c: Config, s: BeaconState)
    requires Shape(c, s) && AtEpochEnd(c, s) && PendingInv(c, s)
    requires s.finalizedCheckpoint.epoch <= PreviousEpoch(c, s)
    ensures GatherInputs(c, s).Ok?
    ensures GatherInputs(c, s).value.attestations == s.currentEpochAttestations
         || GatherInputs(c, s).value.attestations == s.previousEpochAttestations
  {
    hide UnslashedAttesting, Resolves, BlockRoot, BlockRootAtSlot;
    RootsInWindow(c, s, PreviousEpoch(c, s));
    AllSoundResolve(c, s, s.currentEpochAttestations, 1);
    AllSoundResolve(c, s, s.previousEpochAttestations, 2);
    forall a | a in s.currentEpochAttestations + s.previousEpochAttestations
      ensures BlockRootAtSlot(c, s, a.data.slot).Ok?
    {
      SoundMember(c, s, a);
      SoundSlotInWindow(c, s, a);
    }
  }

  lemma {:induction false} SoundMember(c: Config, s: BeaconState, a: PendingAttestation)
    requires Shape(c, s) && PendingInv(c, s)
    requires a in s.currentEpochAttestations + s.previousEpochAttestations
    ensures Sound(c, s, a, 2)
  {
    hide Resolves;
    if a in s.currentEpochAttestations {
      var k :| 0 <= k < |s.currentEpochAttestations| && s.currentEpochAttestations[k] == a;
      assert Sound(c, s, s.currentEpochAttestations[k], 1);
    } else {
      var k :| 0 <= k < |s.previousEpochAttestations| && s.previousEpochAttestations[k] == a;
      assert Sound(c, s, s.previousEpochAttestations[k], 2);
    }
  }

  lemma {:induction false} RewardsOk(c: Config, s: BeaconState)
    requires Shape(c, s) && AtEpochEnd(c, s) && PendingInv(c, s)
    requires s.finalizedCheckpoint.epoch <= PreviousEpoch(c, s)
    ensures ProcessRewards(c, s).Ok?
  {
    hide GatherInputs, RewardedBalances, Inclusion, Resolves, PendingInv;
    InputsOk(c, s);
    var x := GatherInputs(c, s).value;
    forall i | i in x.source
      ensures Inclusion(c, s, x, i).inclusionDelay >= 1 && Inclusion(c, s, x, i).proposerIndex < |s.validators|
    {
      SoundMember(c, s, Inclusion(c, s, x, i));
    }
  }

  /** The epoch transition succeeds on every state that keeps the invariant. */
  lemma {:induction false} EpochSucceeds(c: Config, s: BeaconState)
    requires Shape(c, s) && AtEpochEnd(c, s) && PendingInv(c, s) && FinalityInv(c, s)
    ensures ProcessEpoch(c, s).Ok?
  {
    hide ProcessJustification, ProcessRewards, ProcessRegistry, ProcessSlashings, ProcessFinalUpdates, AllSound;
    JustificationOk(c, s);
    var s1 := ProcessJustification(c, s).value;
    SoundDependsOn(c, s, s1, s1.currentEpochAttestations, 1);
    SoundDependsOn(c, s, s1, s1.previousEpochAttestations, 2);
    RewardsOk(c, s1);
  }

  // Steps keep the invariant

  lemma {:induction false} SlotKeepsPending(c: Config, s: BeaconState)
    requires StateInv(c, s)
    ensures Ready(c, ProcessSlot(c, s)) && PendingInv(c, ProcessSlot(c, s)) && FinalityInv(c, ProcessSlot(c, s))
  {
    hide AllSound;
    var s1 := ProcessSlot(c, s);
    SoundDependsOn(c, s, s1, s.currentEpochAttestations, 1);
    SoundDependsOn(c, s, s1, s.previousEpochAttestations, 2);
  }

  /** On a state that keeps the invariant, the slot loop never fails. */
  lemma {:induction false} AdvanceSucceeds(c: Config, s: BeaconState)
    requires StateInv(c, s)
    ensures AdvanceSlot(c, s).Ok?
  {
    SlotKeepsPending(c, s);
    hide ProcessEpoch, ProcessSlot;
    if AtEpochEnd(c, ProcessSlot(c, s)) {
      EpochSucceeds(c, ProcessSlot(c, s));
    }
  }

  lemma {:induction false} EpochRotates(c: Config, s: BeaconState)
    requires Shape(c, s) && AtEpochEnd(c, s) && PendingInv(c, s) && FinalityInv(c, s)
    ensures ProcessEpoch(c, s).Ok?
    ensures var s' := ProcessEpoch(c, s).value;
      && s'.previousEpochAttestations == s.currentEpochAttestations && s'.currentEpochAttestations == []
      && J.Ordered(FinalityOf(s'), CurrentEpoch(c, s))
  {
    hide ProcessEpoch, ProcessJustification, ProcessRewards, ProcessRegistry, ProcessSlashings, AllSound;
    EpochSucceeds(c, s);
    JustificationOk(c, s);
    var s1, s2, s3, s4 := EpochStages(c, s);
  }

  lemma {:induction false} AdvanceKeepsInv(c: Config, s: BeaconState)
    requires StateInv(c, s) && AdvanceSlot(c, s).Ok?
    ensures PendingInv(c, AdvanceSlot(c, s).value) && FinalityInv(c, AdvanceSlot(c, s).value)
  {
    hide ProcessEpoch, AllSound;
    var s1, s' := ProcessSlot(c, s), AdvanceSlot(c, s).value;
    AdvanceEffect(c, s);
    SlotKeepsPending(c, s);
    EpochOfNextSlot(c, s.slot);
    if AtEpochEnd(c, s1) {
      EpochRotates(c, s1);
      EffectKeepsAllSound(c, s, s', s.currentEpochAttestations, 1, 2);
      assert AllSound(c, s', [], 1) by { NothingSound(c, s'); }
    } else {
      EffectKeepsAllSound(c, s, s', s.currentEpochAttestations, 1, 1);
      EffectKeepsAllSound(c, s, s', s.previousEpochAttestations, 2, 2);
    }
  }

  lemma NothingSound(c: Config, s: BeaconState)
    requires Shape(c, s)
    ensures AllSound(c, s, [], 1)
  {
  }

  lemma {:induction false} OperationKeepsInv(c: Config, s: BeaconState, tx: Transaction)
    requires StateInv(c, s) && ApplyOperation(c, s, tx).Ok?
    ensures PendingInv(c, ApplyOperation(c, s, tx).value) && FinalityInv(c, ApplyOperation(c, s, tx).value)
  {
    hide AllSound;
    var s' := ApplyOperation(c, s, tx).value;
    if tx.OfAttestation? {
      AttestationKeepsPending(c, s, tx.attestation);
    } else {
      OtherOperationFrame(c, s, tx);
      OperationEffect(c, s, tx);
      hide ApplyOperation;
      EffectKeepsAllSound(c, s, s', s.currentEpochAttestations, 1, 1);
      EffectKeepsAllSound(c, s, s', s.previousEpochAttestations, 2, 2);
    }
  }

  lemma {:induction false} OtherOperationFrame(c: Config, s: BeaconState, tx: Transaction)
    requires Shape(c, s) && ApplyOperation(c, s, tx).Ok? && !tx.OfAttestation?
    ensures ApplyOperation(c, s, tx).value.currentEpochAttestations == s.currentEpochAttestations
    ensures ApplyOperation(c, s, tx).value.previousEpochAttestations == s.previousEpochAttestations
  {
    hide MarkSlashed, InitiateExit, Credit, SlashAll, SlashValidator;
  }

  /** Every step keeps the invariant. */
  lemma {:induction false} StepKeepsInv(c: Config, s: BeaconState, s': BeaconState)
    requires StateInv(c, s) && Step(c, s, s')
    requires Room(c, CurrentEpoch(c, s'), |s'.validators|)
    ensures StateInv(c, s')
  {
    hide AllSound, AdvanceSlot, ProcessHeader, ProcessRandao, ProcessEth1Data, ApplyOperation;
    StepKeepsReady(c, s, s');
    var a :| Act(c, s, a) == Ok(s');
    match a
    case Advance =>
      AdvanceKeepsInv(c, s);
    case Operate(tx) =>
      OperationKeepsInv(c, s, tx);
    case _ =>
      StepEffect(c, s, s');
      EffectKeepsAllSound(c, s, s', s.currentEpochAttestations, 1, 1);
      EffectKeepsAllSound(c, s, s', s.previousEpochAttestations, 2, 2);
  }

  lemma {:induction false} RunKeepsInv(c: Config, t: seq<BeaconState>, k: nat)
    requires BoundedRun(c, t) && k < |t|
    ensures StateInv(c, t[k])
  {
    hide Step, IsGenesis;
    RunIsReady(c, t, k);
    RoomThroughout(c, t, k);
    if k == 0 {
      GenesisInOrder(c, t[0]);
    } else {
      RunKeepsInv(c, t, k - 1);
      assert Step(c, t[k - 1], t[k - 1 + 1]);
      StepKeepsInv(c, t[k - 1], t[k]);
    }
  }

  /** On every state of every run the slot loop, and the epoch transition in it, succeeds. */
  lemma {:induction false} RunNeverStalls(c: Config, t: seq<BeaconState>, k: nat)
    requires BoundedRun(c, t) && k < |t|
    ensures Shape(c, t[k]) && AdvanceSlot(c, t[k]).Ok?
    ensures AtEpochEnd(c, t[k]) ==> ProcessEpoch(c, ProcessSlot(c, t[k])).Ok?
  {
    hide Run, ProcessEpoch;
    RunKeepsInv(c, t, k);
    AdvanceSucceeds(c, t[k]);
  }

  // Sources of the votes of the current epoch

  /** The votes stored for the current epoch name it as their target and the justified checkpoint as their source. */
  predicate CurrentSourced(c: Config, s: BeaconState)
    requires ValidConfig(c)
  {
    forall k :: 0 <= k < |s.currentEpochAttestations| ==>
      var data := s.currentEpochAttestations[k].data;
      data.source == s.currentJustifiedCheckpoint && data.target.epoch == CurrentEpoch(c, s)
  }

  lemma {:induction false} AdvanceKeepsSources(c: Config, s: BeaconState)
    requires StateInv(c, s) && CurrentSourced(c, s) && AdvanceSlot(c, s).Ok?
    ensures CurrentSourced(c, AdvanceSlot(c, s).value)
  {
    hide ProcessEpoch, AllSound;
    SlotKeepsPending(c, s);
    EpochOfNextSlot(c, s.slot);
    if AtEpochEnd(c, ProcessSlot(c, s)) {
      EpochRotates(c, ProcessSlot(c, s));
    }
  }

  lemma {:induction false} OperationKeepsSources(c: Config, s: BeaconState, tx: Transaction)
    requires Shape(c, s) && CurrentSourced(c, s) && ApplyOperation(c, s, tx).Ok?
    ensures CurrentSourced(c, ApplyOperation(c, s, tx).value)
  {
    if tx.OfAttestation? {
      hide IndexAttestation, IsValidIndexedAttestation, ProposerIndex, CheckAttestationData;
    } else {
      OtherOperationFrame(c, s, tx);
      hide ApplyOperation;
    }
  }

  lemma {:induction false} StepKeepsSources(c: Config, s: BeaconState, s': BeaconState)
    requires StateInv(c, s) && CurrentSourced(c, s) && Step(c, s, s')
    ensures CurrentSourced(c, s')
  {
    hide StateInv, AdvanceSlot, ApplyOperation;
    var a :| Act(c, s, a) == Ok(s');
    match a
    case Advance =>
      AdvanceKeepsSources(c, s);
    case Operate(tx) =>
      OperationKeepsSources(c, s, tx);
    case _ =>
  }

  /** So it is in every state of every run. */
  lemma {:induction false} RunSourcesVotes(c: Config, t: seq<BeaconState>, k: nat)
    requires BoundedRun(c, t) && k < |t|
    ensures CurrentSourced(c, t[k])
  {
    hide Step, IsGenesis, StateInv;
    if k == 0 {
      RoomThroughout(c, t, 0);
      GenesisInOrder(c, t[0]);
    } else {
      RunSourcesVotes(c, t, k - 1);
      RunKeepsInv(c, t, k - 1);
      assert Step(c, t[k - 1], t[k - 1 + 1]);
      StepKeepsSources(c, t[k - 1], t[k]);
    }
  }

  /** Every vote that the epoch transition of a run counts on time leads from the checkpoint justified then
      to the checkpoint of the epoch. */
  lemma {:induction false} OnTimeVotesAreSourced(c: Config, t: seq<BeaconState>, k: nat, a: PendingAttestation)
    requires BoundedRun(c, t) && k < |t| && Shape(c, t[k]) && AtEpochEnd(c, t[k])
    ensures var s := ProcessSlot(c, t[k]);
      && MatchingTarget(c, s, CurrentEpoch(c, s)).Ok? && BlockRoot(c, s, CurrentEpoch(c, s)).Ok?
      && (a in MatchingTarget(c, s, CurrentEpoch(c, s)).value ==>
            && a.data.source == t[k].currentJustifiedCheckpoint
            && a.data.target == Checkpoint(CurrentEpoch(c, s), BlockRoot(c, s, CurrentEpoch(c, s)).value))
  {
    hide Step, IsGenesis, BlockRoot;
    RunSourcesVotes(c, t, k);
    RootsInWindow(c, ProcessSlot(c, t[k]), CurrentEpoch(c, t[k]));
  }
}
