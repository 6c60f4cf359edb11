/** What every step of a run does to the registry and to the randao ring. */
module Evolution {
  import Sorting
  import opened Bytes
  import opened BeaconTypes
  import opened Accessors
  import opened Mutators
  import opened Lifecycle
  import opened EpochProcessing
  import opened BlockProcessing
  import opened Transition
  import opened Arith

  /** The registry of `s'` follows from the one of `s` by operations of the epoch of `s`, and is in order. */
  ghost predicate Follows(c: Config, s: BeaconState, vs': seq<Validator>)
    requires ValidConfig(c)
  {
    RegistryStep(c, CurrentEpoch(c, s), s.validators, vs') && RegistryInv(c, CurrentEpoch(c, s), vs')
  }

  ghost predicate Ready(c: Config, s: BeaconState) {
    && Shape(c, s)
    && RegistryInv(c, CurrentEpoch(c, s), s.validators)
    && Room(c, CurrentEpoch(c, s), |s.validators|)
  }

  lemma {:induction false} ExitFollows(c: Config, s: BeaconState, i: ValidatorIndex)
    requires Ready(c, s) && i < |s.validators|
    requires s.validators[i].activationEpoch <= CurrentEpoch(c, s)
    ensures Follows(c, s, InitiateExit(c, s, i).validators)
  {
    assert RecordInv(c, CurrentEpoch(c, s), s.validators[i]);
    InitiateExitSteps(c, s, i);
    InitiateExitKeeps(c, s, i);
  }

  lemma {:induction false} SlashFollows(c: Config, s: BeaconState, i: ValidatorIndex)
    requires Ready(c, s) && i < |s.validators|
    requires s.validators[i].IsSlashable(CurrentEpoch(c, s))
    ensures Follows(c, s, MarkSlashed(c, s, i).validators)
  {
    assert RecordInv(c, CurrentEpoch(c, s), s.validators[i]);
    MarkSlashedSteps(c, s, i);
    MarkSlashedKeeps(c, s, i);
  }

  lemma {:induction false} FollowsTransitive(c: Config, s: BeaconState, s': BeaconState, vs'': seq<Validator>)
    requires Ready(c, s) && ValidConfig(c) && s'.slot == s.slot
    requires Follows(c, s, s'.validators) && Follows(c, s', vs'')
    ensures Follows(c, s, vs'')
  {
    StepTransitive(c, CurrentEpoch(c, s), s.validators, s'.validators, vs'');
  }

  lemma {:induction false} SlashAllFollows(c: Config, s: BeaconState, indices: seq<ValidatorIndex>)
    requires Ready(c, s) && SlashAll(c, s, indices).Ok?
    ensures Follows(c, s, SlashAll(c, s, indices).value.0.validators)
    decreases |indices|
  {
    if indices == [] {
      StepReflexive(c, CurrentEpoch(c, s), s.validators);
    } else {
      var n := |indices| - 1;
      SlashAllFollows(c, s, indices[..n]);
      var before := SlashAll(c, s, indices[..n]).value.0;
      if before.validators[indices[n]].IsSlashable(CurrentEpoch(c, before)) {
        SlashFollows(c, before, indices[n]);
        FollowsTransitive(c, s, before, MarkSlashed(c, before, indices[n]).validators);
      }
    }
  }

  lemma {:induction false} NewValidatorFollows(c: Config, s: BeaconState, data: DepositData)
    requires Ready(c, s)
    ensures Follows(c, s, s.validators + [NewValidator(c, data)])
  {
    AppendKeeps(c, CurrentEpoch(c, s), s.validators, NewValidator(c, data));
  }

  /** Every operation keeps the registry in order. */
  lemma {:induction false} OperationFollows(c: Config, s: BeaconState, tx: Transaction)
    requires Ready(c, s) && ApplyOperation(c, s, tx).Ok?
    ensures Follows(c, s, ApplyOperation(c, s, tx).value.validators)
  {
    StepReflexive(c, CurrentEpoch(c, s), s.validators);
    match tx
    case OfProposerSlashing(p) => SlashFollows(c, s, p.proposerIndex);
    case OfAttesterSlashing(a) => SlashAllFollows(c, s, AccusedIndices(a));
    case OfAttestation(_) =>
    case OfDeposit(d) => NewValidatorFollows(c, s, d.data);
    case OfVoluntaryExit(e) => ExitFollows(c, s, e.validatorIndex);
  }

  // The registry pass of the epoch transition

  lemma {:induction false} MarkEligibleFollows(c: Config, s: BeaconState, i: ValidatorIndex)
    requires Ready(c, s) && i < |s.validators|
    ensures Follows(c, s, MarkEligible(c, s, i).validators)
  {
    var now, vs, vs' := CurrentEpoch(c, s), s.validators, MarkEligible(c, s, i).validators;
    forall k | 0 <= k < |vs'|
      ensures RecordInv(c, now, vs'[k])
    {
      assert RecordInv(c, now, vs[k]);
    }
    SameExitsKeep(c, now, vs, vs');
  }

  lemma {:induction false} EjectFollows(c: Config, s: BeaconState, i: ValidatorIndex)
    requires Ready(c, s) && i < |s.validators|
    ensures Follows(c, s, Eject(c, s, i).validators)
  {
    StepReflexive(c, CurrentEpoch(c, s), s.validators);
    if s.validators[i].IsActive(CurrentEpoch(c, s)) {
      ExitFollows(c, s, i);
    }
  }

  lemma {:induction false} SweepOneFollows(c: Config, s: BeaconState, s1: BeaconState, i: ValidatorIndex)
    requires Ready(c, s) && Shape(c, s1) && s1.slot == s.slot && |s1.validators| == |s.validators|
    requires Follows(c, s, s1.validators) && i < |s1.validators|
    ensures Follows(c, s, Eject(c, MarkEligible(c, s1, i), i).validators)
  {
    var s2 := MarkEligible(c, s1, i);
    MarkEligibleFollows(c, s1, i);
    FollowsTransitive(c, s, s1, s2.validators);
    EjectFollows(c, s2, i);
    FollowsTransitive(c, s, s2, Eject(c, s2, i).validators);
  }

  lemma {:induction false} SweepFollows(c: Config, s: BeaconState, k: nat)
    requires Ready(c, s) && k <= |s.validators|
    ensures Follows(c, s, SweepRegistry(c, s, k).validators)
  {
    hide Eject;
    if k == 0 {
      StepReflexive(c, CurrentEpoch(c, s), s.validators);
    } else {
      SweepFollows(c, s, k - 1);
      SweepOneFollows(c, s, SweepRegistry(c, s, k - 1), k - 1);
    }
  }

  lemma {:induction false} ActivateFollows(c: Config, s: BeaconState)
    requires Ready(c, s)
    ensures Follows(c, s, Activate(c, CurrentEpoch(c, s), s.validators, Admitted(c, s)))
  {
    var now, vs := CurrentEpoch(c, s), s.validators;
    var queue := Admitted(c, s);
    var vs' := Activate(c, now, vs, queue);
    forall i | 0 <= i < |vs|
      ensures ValidatorStep(c, now, vs[i], vs'[i]) && RecordInv(c, now, vs'[i])
    {
      assert RecordInv(c, now, vs[i]);
      if i in queue {
        AdmittedAreQueued(c, s, i);
      }
    }
    SameExitsKeep(c, now, vs, vs');
  }

  lemma AdmittedAreQueued(c: Config, s: BeaconState, i: ValidatorIndex)
    requires ValidConfig(c) && i in Admitted(c, s)
    ensures i < |s.validators| && Queued(c, s, i)
  {
    var queued := QueuedIndices(c, s, |s.validators|);
    assert i in ActivationQueue(c, s);
    Sorting.SortKeepsMembers(queued, EligibilityKey(s.validators), i);
  }

  lemma {:induction false} RegistryFollows(c: Config, s: BeaconState)
    requires Ready(c, s)
    ensures Follows(c, s, ProcessRegistry(c, s).validators)
  {
    SweepFollows(c, s, |s.validators|);
    var swept := SweepRegistry(c, s, |s.validators|);
    ActivateFollows(c, swept);
    FollowsTransitive(c, s, swept, ProcessRegistry(c, s).validators);
  }

  lemma {:induction false} EffectiveFollows(c: Config, s: BeaconState)
    requires Ready(c, s)
    ensures Follows(c, s, UpdatedEffective(c, s))
  {
    var now, vs, vs' := CurrentEpoch(c, s), s.validators, UpdatedEffective(c, s);
    forall i | 0 <= i < |vs|
      ensures ValidatorStep(c, now, vs[i], vs'[i]) && RecordInv(c, now, vs'[i])
    {
      assert RecordInv(c, now, vs[i]);
    }
    SameExitsKeep(c, now, vs, vs');
  }

  /** So does the whole epoch transition. */
  lemma {:induction false} EpochFollows(c: Config, s: BeaconState)
    requires Ready(c, s) && ProcessEpoch(c, s).Ok?
    ensures Follows(c, s, ProcessEpoch(c, s).value.validators)
  {
    hide ProcessEpoch, ProcessJustification, ProcessRewards, ProcessRegistry, ProcessSlashings;
    var s1, s2, s3, s4 := EpochStages(c, s);
    RegistryFollows(c, s2);
    EffectiveFollows(c, s4);
    FollowsTransitive(c, s, s4, UpdatedEffective(c, s4));
  }
}
