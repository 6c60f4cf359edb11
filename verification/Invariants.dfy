/** Every state of every run keeps the registry in order, and its committees never move under it. */
module Invariants {
  import opened Bytes
  import opened BeaconTypes
  import opened Accessors
  import opened Mutators
  import opened Lifecycle
  import opened EpochProcessing
  import opened BlockProcessing
  import opened Transition
  import opened Evolution
  import opened Arith

  // Epochs advance with slots

  lemma EpochOfNextSlot(c: Config, slot: Slot)
    requires ValidConfig(c)
    ensures Mod(slot + 1, c.slotsPerEpoch) == 0 ==> EpochOf(c, slot + 1) == EpochOf(c, slot) + 1
    ensures Mod(slot + 1, c.slotsPerEpoch) != 0 ==> EpochOf(c, slot + 1) == EpochOf(c, slot)
  {
    var d := c.slotsPerEpoch;
    DivModLaw(slot, d);
    var q, r := Div(slot, d), Mod(slot, d);
    if r + 1 < d {
      DivModUnique(slot + 1, d, q, r + 1);
    } else {
      Distribute(q, 1, d);
      DivModUnique(slot + 1, d, q + 1, 0);
    }
  }

  lemma LastSlot(c: Config, s: BeaconState)
    requires ValidConfig(c) && AtEpochEnd(c, s)
    ensures s.slot + 1 == StartSlot(c, CurrentEpoch(c, s)) + c.slotsPerEpoch
  {
    EpochOfNextSlot(c, s.slot);
    DivModLaw(s.slot + 1, c.slotsPerEpoch);
    var now := CurrentEpoch(c, s);
    MulIsProduct(now, c.slotsPerEpoch);
    Distribute(now, 1, c.slotsPerEpoch);
  }

  // The randao ring

  /** A step writes the mix of the current epoch and, on entering an epoch, the mix of that one. */
  predicate MixesStep(c: Config, s: BeaconState, s': BeaconState)
    requires ValidConfig(c)
  {
    && |s'.randaoMixes| == |s.randaoMixes|
    && forall k :: 0 <= k < |s.randaoMixes|
         && k != Mod(CurrentEpoch(c, s), c.epochsPerHistoricalVector)
         && k != Mod(CurrentEpoch(c, s'), c.epochsPerHistoricalVector)
         ==> s'.randaoMixes[k] == s.randaoMixes[k]
  }

  ghost predicate Effect(c: Config, s: BeaconState, s': BeaconState) {
    && Shape(c, s) && Shape(c, s')
    && CurrentEpoch(c, s) <= CurrentEpoch(c, s') <= CurrentEpoch(c, s) + 1
    && Follows(c, s, s'.validators)
    && MixesStep(c, s, s')
  }

  lemma {:induction false} EpochMixes(c: Config, s: BeaconState)
    requires Shape(c, s) && ProcessEpoch(c, s).Ok?
    ensures var now := CurrentEpoch(c, s);
      ProcessEpoch(c, s).value.randaoMixes
      == s.randaoMixes[Mod(now + 1, c.epochsPerHistoricalVector) := RandaoMix(c, s, now)]
  {
    hide ProcessEpoch, ProcessJustification, ProcessRewards, ProcessRegistry, ProcessSlashings;
    var s1, s2, s3, s4 := EpochStages(c, s);
  }

  lemma {:induction false} AdvanceEffect(c: Config, s: BeaconState)
    requires Ready(c, s) && AdvanceSlot(c, s).Ok?
    ensures Effect(c, s, AdvanceSlot(c, s).value)
  {
    hide ProcessEpoch;
    var s1 := ProcessSlot(c, s);
    EpochOfNextSlot(c, s.slot);
    if AtEpochEnd(c, s1) {
      EpochFollows(c, s1);
      EpochMixes(c, s1);
    } else {
      StepReflexive(c, CurrentEpoch(c, s), s.validators);
    }
  }

  lemma {:induction false} OperationEffect(c: Config, s: BeaconState, tx: Transaction)
    requires Ready(c, s) && ApplyOperation(c, s, tx).Ok?
    ensures Effect(c, s, ApplyOperation(c, s, tx).value)
  {
    OperationFollows(c, s, tx);
    hide ApplyOperation;
  }

  /** What any single step does. */
  lemma {:induction false} StepEffect(c: Config, s: BeaconState, s': BeaconState)
    requires Ready(c, s) && Step(c, s, s')
    ensures Effect(c, s, s')
  {
    hide AdvanceSlot, ProcessHeader, ProcessRandao, ProcessEth1Data, ApplyOperation;
    var a :| Act(c, s, a) == Ok(s');
    match a
    case Advance =>
      AdvanceEffect(c, s);
    case Operate(tx) =>
      OperationEffect(c, s, tx);
    case _ =>
      StepReflexive(c, CurrentEpoch(c, s), s.validators);
  }

  // Every state of a run

  lemma {:induction false} StepKeepsReady(c: Config, s: BeaconState, s': BeaconState)
    requires Ready(c, s) && Step(c, s, s')
    requires Room(c, CurrentEpoch(c, s'), |s'.validators|)
    ensures Ready(c, s')
  {
    hide Step;
    StepEffect(c, s, s');
    LaterKeeps(c, CurrentEpoch(c, s), CurrentEpoch(c, s'), s'.validators);
  }

  lemma {:induction false} DepositsKeepBlank(c: Config, s: BeaconState, deposits: seq<Deposit>)
    requires Shape(c, s) && s.slot == 0 && ApplyDeposits(c, s, deposits).Ok?
    requires RegistryInv(c, 0, s.validators)
    requires forall i :: 0 <= i < |s.validators| ==> Newcomer(c, 0, s.validators[i])
    requires ActivationExitEpoch(c, 0) < FAR_FUTURE_EPOCH
    ensures var s' := ApplyDeposits(c, s, deposits).value;
      && OperationFrame(s, s') && s'.slashings == s.slashings
      && s'.previousEpochAttestations == s.previousEpochAttestations
      && s'.currentEpochAttestations == s.currentEpochAttestations
      && RegistryInv(c, 0, s'.validators)
      && forall i :: 0 <= i < |s'.validators| ==> Newcomer(c, 0, s'.validators[i])
    decreases |deposits|
  {
    if deposits != [] {
      var n := |deposits| - 1;
      DepositsKeepBlank(c, s, deposits[..n]);
      var before := ApplyDeposits(c, s, deposits[..n]).value;
      AppendKeeps(c, 0, before.validators, NewValidator(c, deposits[n].data));
    }
  }

  /** A genesis state is in order, with empty lists and all checkpoints at epoch zero. */
  lemma {:induction false} GenesisInOrder(c: Config, s: BeaconState)
    requires ValidConfig(c) && IsGenesis(c, s) && ActivationExitEpoch(c, 0) < FAR_FUTURE_EPOCH
    ensures Shape(c, s) && s.slot == 0 && CurrentEpoch(c, s) == 0
    ensures RegistryInv(c, 0, s.validators)
    ensures s.previousEpochAttestations == s.currentEpochAttestations == []
    ensures s.finalizedCheckpoint.epoch == 0
    ensures s.previousJustifiedCheckpoint.epoch == s.currentJustifiedCheckpoint.epoch == 0
    ensures forall i :: 0 <= i < |s.slashings| ==> s.slashings[i] == 0
    ensures forall i :: 0 <= i < |s.validators| ==> !s.validators[i].slashed
  {
    var deposits, time, eth1 :| GenesisState(c, deposits, time, eth1) == Ok(s);
    var blank := BlankState(c, time, eth1);
    assert RegistryInv(c, 0, blank.validators);
    DepositsKeepBlank(c, blank, deposits);
    var s1 := ApplyDeposits(c, blank, deposits).value;
    forall i | 0 <= i < |s.validators|
      ensures RecordInv(c, 0, s.validators[i]) && s.validators[i].exitEpoch == s1.validators[i].exitEpoch
    {
      assert Newcomer(c, 0, s1.validators[i]);
      assert RecordInv(c, 0, s1.validators[i]);
    }
    SameExitsKeep(c, 0, s1.validators, s.validators);
  }

  /** A run whose last state leaves room in the 64-bit epochs. */
  ghost predicate BoundedRun(c: Config, t: seq<BeaconState>) {
    Run(c, t) && Room(c, CurrentEpoch(c, t[|t| - 1]), |t[|t| - 1].validators|)
  }

  /** Slots and registries only grow, so the last state bounds all of them. */
  lemma {:induction false} RoomThroughout(c: Config, t: seq<BeaconState>, k: nat)
    requires BoundedRun(c, t) && k < |t|
    ensures Room(c, CurrentEpoch(c, t[k]), |t[k].validators|)
    decreases |t| - k
  {
    if k < |t| - 1 {
      RoomThroughout(c, t, k + 1);
      assert Step(c, t[k], t[k + 1]);
      hide Act, IsGenesis;
      DivMonotone(t[k].slot, t[k + 1].slot, c.slotsPerEpoch);
    }
  }

  /** Validator lifecycle and exit churn: every state of every run is in order. */
  lemma {:induction false} RunIsReady(c: Config, t: seq<BeaconState>, k: nat)
    requires BoundedRun(c, t) && k < |t|
    ensures Ready(c, t[k])
  {
    hide Step, IsGenesis;
    if k == 0 {
      RoomThroughout(c, t, 0);
      GenesisInOrder(c, t[0]);
    } else {
      RunIsReady(c, t, k - 1);
      assert Step(c, t[k - 1], t[k - 1 + 1]);
      RoomThroughout(c, t, k);
      StepKeepsReady(c, t[k - 1], t[k]);
    }
  }

  /** Between two moments of a run, a set exit epoch never changes and a slashing is never undone. */
  lemma {:induction false} RunKeepsExits(c: Config, t: seq<BeaconState>, i: nat, j: nat, v: ValidatorIndex)
    requires BoundedRun(c, t) && i <= j < |t| && v < |t[i].validators|
    ensures v < |t[j].validators|
    ensures t[i].validators[v].exitEpoch != FAR_FUTURE_EPOCH ==>
      t[j].validators[v].exitEpoch == t[i].validators[v].exitEpoch
    ensures t[i].validators[v].slashed ==>
      t[j].validators[v].slashed && t[j].validators[v].withdrawableEpoch == t[i].validators[v].withdrawableEpoch
    decreases j
  {
    hide Step, IsGenesis;
    if i < j {
      RunKeepsExits(c, t, i, j - 1, v);
      RunIsReady(c, t, j - 1);
      assert Step(c, t[j - 1], t[j - 1 + 1]);
      StepEffect(c, t[j - 1], t[j]);
      assert ValidatorStep(c, CurrentEpoch(c, t[j - 1]), t[j - 1].validators[v], t[j].validators[v]);
    }
  }

  /** Exit epochs are handed out in order: one assigned later is never below one assigned earlier. */
  lemma {:induction false} RunQueuesInOrder(c: Config, t: seq<BeaconState>, i: nat, j: nat, u: ValidatorIndex,
                                            v: ValidatorIndex)
    requires BoundedRun(c, t) && i < j < |t|
    requires u < |t[i].validators| && t[i].validators[u].exitEpoch != FAR_FUTURE_EPOCH
    requires v < |t[j].validators| && t[j].validators[v].exitEpoch != FAR_FUTURE_EPOCH
    requires v < |t[i].validators| ==> t[i].validators[v].exitEpoch == FAR_FUTURE_EPOCH
    ensures t[i].validators[u].exitEpoch <= t[j].validators[v].exitEpoch
    decreases j
  {
    hide Step, IsGenesis;
    RunIsReady(c, t, j - 1);
    assert Step(c, t[j - 1], t[j - 1 + 1]);
    StepEffect(c, t[j - 1], t[j]);
    RunKeepsExits(c, t, i, j - 1, u);
    if v < |t[j - 1].validators| && t[j - 1].validators[v].exitEpoch != FAR_FUTURE_EPOCH {
      assert ValidatorStep(c, CurrentEpoch(c, t[j - 1]), t[j - 1].validators[v], t[j].validators[v]);
      RunQueuesInOrder(c, t, i, j - 1, u, v);
    } else {
      assert QueueInOrder(t[j - 1].validators, t[j].validators);
    }
  }
}
