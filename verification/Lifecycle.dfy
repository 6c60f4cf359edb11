/**
 The registry over whole runs: the order of each validator's epochs, the exit queue and its churn,
 and the active sets that no operation of the epoch can change.
 */
module Lifecycle {
  import opened BeaconTypes
  import opened Accessors
  import opened Mutators
  import opened Arith

  lemma StepReflexive(c: Config, now: Epoch, vs: seq<Validator>)
    ensures RegistryStep(c, now, vs, vs)
  {
  }

  lemma ValidatorStepTransitive(c: Config, now: Epoch, v: Validator, v': Validator, v'': Validator)
    requires ActivationExitEpoch(c, now) < FAR_FUTURE_EPOCH
    requires ValidatorStep(c, now, v, v') && ValidatorStep(c, now, v', v'')
    ensures ValidatorStep(c, now, v, v'')
  {
  }

  lemma NewcomerStep(c: Config, now: Epoch, v: Validator, v': Validator)
    requires ActivationExitEpoch(c, now) < FAR_FUTURE_EPOCH
    requires Newcomer(c, now, v) && ValidatorStep(c, now, v, v')
    ensures Newcomer(c, now, v')
  {
  }

  /** Operations of one epoch compose. */
  lemma {:induction false} StepTransitive(c: Config, now: Epoch, vs: seq<Validator>, vs': seq<Validator>,
                                          vs'': seq<Validator>)
    requires ActivationExitEpoch(c, now) < FAR_FUTURE_EPOCH
    requires RegistryStep(c, now, vs, vs') && RegistryStep(c, now, vs', vs'')
    ensures RegistryStep(c, now, vs, vs'')
  {
    forall i | 0 <= i < |vs|
      ensures ValidatorStep(c, now, vs[i], vs''[i])
    {
      ValidatorStepTransitive(c, now, vs[i], vs'[i], vs''[i]);
    }
    forall i | |vs| <= i < |vs''|
      ensures Newcomer(c, now, vs''[i])
    {
      if i < |vs'| {
        NewcomerStep(c, now, vs'[i], vs''[i]);
      }
    }
    forall i, j | 0 <= i < |vs| && 0 <= j < |vs''| && vs[i].exitEpoch != FAR_FUTURE_EPOCH
                  && vs''[j].exitEpoch != FAR_FUTURE_EPOCH && (j < |vs| ==> vs[j].exitEpoch == FAR_FUTURE_EPOCH)
      ensures vs[i].exitEpoch <= vs''[j].exitEpoch
    {
      assert ValidatorStep(c, now, vs[i], vs'[i]);
      if j < |vs'| && vs'[j].exitEpoch != FAR_FUTURE_EPOCH {
        assert ValidatorStep(c, now, vs'[j], vs''[j]);
      }
    }
  }

  lemma {:induction false} InitiateExitSteps(c: Config, s: BeaconState, i: ValidatorIndex)
    requires Shape(c, s) && i < |s.validators|
    requires s.validators[i].activationEpoch <= CurrentEpoch(c, s)
    requires !s.validators[i].slashed || s.validators[i].exitEpoch != FAR_FUTURE_EPOCH
    ensures RegistryStep(c, CurrentEpoch(c, s), s.validators, InitiateExit(c, s, i).validators)
  {
  }

  lemma {:induction false} MarkSlashedSteps(c: Config, s: BeaconState, i: ValidatorIndex)
    requires Shape(c, s) && i < |s.validators|
    requires s.validators[i].activationEpoch <= CurrentEpoch(c, s) && !s.validators[i].slashed
    requires s.validators[i].exitEpoch <= s.validators[i].withdrawableEpoch
    ensures RegistryStep(c, CurrentEpoch(c, s), s.validators, MarkSlashed(c, s, i).validators)
  {
    var vs, vs1, vs2 := s.validators, InitiateExit(c, s, i).validators, MarkSlashed(c, s, i).validators;
    InitiateExitSteps(c, s, i);
    assert forall j :: 0 <= j < |vs| && j != i ==> vs2[j] == vs[j];
    assert vs2[i].exitEpoch == vs1[i].exitEpoch;
    assert QueueInOrder(vs, vs2);
  }

  // Active sets

  predicate SameActivity(vs: seq<Validator>, vs': seq<Validator>, x: Epoch) {
    && |vs| <= |vs'|
    && (forall i :: 0 <= i < |vs| ==> vs[i].IsActive(x) == vs'[i].IsActive(x))
    && (forall i :: |vs| <= i < |vs'| ==> !vs'[i].IsActive(x))
  }

  lemma {:induction false} SameActivitySameIndices(vs: seq<Validator>, vs': seq<Validator>, x: Epoch)
    requires SameActivity(vs, vs', x)
    ensures ActiveIndices(vs, x) == ActiveIndices(vs', x)
    decreases |vs'|
  {
    if |vs'| > 0 {
      var n := |vs'| - 1;
      if |vs| == |vs'| {
        SameActivitySameIndices(vs[..n], vs'[..n], x);
      } else {
        SameActivitySameIndices(vs, vs'[..n], x);
      }
    }
  }

  /** No operation of epoch `now` changes who is active up to `now` plus the lookahead. */
  lemma {:induction false} ActiveSetsFixed(c: Config, now: Epoch, vs: seq<Validator>, vs': seq<Validator>, x: Epoch)
    requires RegistryStep(c, now, vs, vs')
    requires x < ActivationExitEpoch(c, now) && x < FAR_FUTURE_EPOCH
    ensures ActiveIndices(vs, x) == ActiveIndices(vs', x)
  {
    forall i | 0 <= i < |vs|
      ensures vs[i].IsActive(x) == vs'[i].IsActive(x)
    {
      assert ValidatorStep(c, now, vs[i], vs'[i]);
    }
    forall i | |vs| <= i < |vs'|
      ensures !vs'[i].IsActive(x)
    {
      assert Newcomer(c, now, vs'[i]);
    }
    SameActivitySameIndices(vs, vs', x);
  }

  // The exit queue

  function Cap(c: Config, n: nat): nat
    requires ValidConfig(c)
  {
    Max(c.minPerEpochChurnLimit, Div(n, c.churnLimitQuotient))
  }

  /** No epoch holds more exits than the churn of the whole registry allows. */
  ghost predicate ExitsCapped(c: Config, vs: seq<Validator>)
    requires ValidConfig(c)
  {
    forall e: Epoch :: e != FAR_FUTURE_EPOCH ==> CountExits(vs, e) <= Cap(c, |vs|)
  }

  /** The queue reaches no further than one epoch per exited validator. */
  predicate QueueShort(c: Config, now: Epoch, vs: seq<Validator>) {
    forall i :: 0 <= i < |vs| && vs[i].exitEpoch != FAR_FUTURE_EPOCH ==>
      vs[i].exitEpoch <= ActivationExitEpoch(c, now) + |vs| - CountExits(vs, FAR_FUTURE_EPOCH)
  }

  /** The epochs of one record are in order, and each is set only once its predecessor has passed. */
  predicate RecordInv(c: Config, now: Epoch, v: Validator) {
    && v.activationEligibilityEpoch <= v.activationEpoch <= v.exitEpoch <= v.withdrawableEpoch <= FAR_FUTURE_EPOCH
    && (v.activationEligibilityEpoch != FAR_FUTURE_EPOCH ==> v.activationEligibilityEpoch <= now)
    && (v.activationEpoch != FAR_FUTURE_EPOCH ==> v.activationEpoch <= ActivationExitEpoch(c, now))
    && (v.exitEpoch != FAR_FUTURE_EPOCH ==> v.activationEpoch <= now)
    && (v.exitEpoch == FAR_FUTURE_EPOCH <==> v.withdrawableEpoch == FAR_FUTURE_EPOCH)
    && (v.slashed ==> v.exitEpoch != FAR_FUTURE_EPOCH)
  }

  ghost predicate RegistryInv(c: Config, now: Epoch, vs: seq<Validator>)
    requires ValidConfig(c)
  {
    && (forall i :: 0 <= i < |vs| ==> RecordInv(c, now, vs[i]))
    && ExitsCapped(c, vs)
    && QueueShort(c, now, vs)
  }

  /** Room in the 64-bit epoch for every exit this registry can still ask for. */
  predicate Room(c: Config, now: Epoch, n: nat) {
    ActivationExitEpoch(c, now) + n + 1 + c.minValidatorWithdrawabilityDelay + c.epochsPerSlashingsVector
    < FAR_FUTURE_EPOCH
  }

  lemma {:induction false} CountUpdated(vs: seq<Validator>, i: nat, v: Validator, e: Epoch)
    requires i < |vs|
    ensures CountExits(vs[i := v], e) + (if vs[i].exitEpoch == e then 1 else 0)
         == CountExits(vs, e) + (if v.exitEpoch == e then 1 else 0)
  {
    var n := |vs| - 1;
    if i == n {
      assert vs[i := v][..n] == vs[..n];
    } else {
      assert vs[i := v][..n] == vs[..n][i := v];
      CountUpdated(vs[..n], i, v, e);
    }
  }

  lemma {:induction false} CountNone(vs: seq<Validator>, e: Epoch)
    requires forall i :: 0 <= i < |vs| ==> vs[i].exitEpoch != e
    ensures CountExits(vs, e) == 0
  {
    if vs != [] {
      CountNone(vs[..|vs| - 1], e);
    }
  }

  lemma {:induction false} CountSame(vs: seq<Validator>, vs': seq<Validator>, e: Epoch)
    requires |vs| == |vs'| && forall i :: 0 <= i < |vs| ==> vs[i].exitEpoch == vs'[i].exitEpoch
    ensures CountExits(vs, e) == CountExits(vs', e)
  {
    if vs != [] {
      CountSame(vs[..|vs| - 1], vs'[..|vs| - 1], e);
    }
  }

  lemma ChurnWithinCap(c: Config, s: BeaconState)
    requires ValidConfig(c)
    ensures ChurnLimit(c, s) <= Cap(c, |s.validators|)
  {
    DivMonotone(|ActiveIndices(s.validators, CurrentEpoch(c, s))|, |s.validators|, c.churnLimitQuotient);
  }

  /** The epoch an exit is queued for has room for it. */
  lemma {:induction false} QueueEpochHasRoom(c: Config, s: BeaconState)
    requires ValidConfig(c)
    requires ExitQueueEpoch(c, s) < FAR_FUTURE_EPOCH
    ensures CountExits(s.validators, ExitQueueEpoch(c, s)) < Cap(c, |s.validators|)
  {
    ChurnWithinCap(c, s);
    var epoch := Max(LastExit(s.validators), ActivationExitEpoch(c, CurrentEpoch(c, s)));
    if CountExits(s.validators, epoch) >= ChurnLimit(c, s) {
      CountNone(s.validators, epoch + 1);
    }
  }

  lemma {:induction false} QueueEpochIsNear(c: Config, s: BeaconState, i: ValidatorIndex)
    requires ValidConfig(c) && i < |s.validators| && s.validators[i].exitEpoch == FAR_FUTURE_EPOCH
    requires QueueShort(c, CurrentEpoch(c, s), s.validators)
    ensures ExitQueueEpoch(c, s) <= ActivationExitEpoch(c, CurrentEpoch(c, s)) + |s.validators|
              - CountExits(s.validators, FAR_FUTURE_EPOCH) + 1
  {
  }

  /** An exit keeps every registry invariant. */
  lemma {:induction false} InitiateExitKeeps(c: Config, s: BeaconState, i: ValidatorIndex)
    requires Shape(c, s) && i < |s.validators|
    requires RegistryInv(c, CurrentEpoch(c, s), s.validators)
    requires Room(c, CurrentEpoch(c, s), |s.validators|)
    requires s.validators[i].activationEpoch <= CurrentEpoch(c, s)
    ensures RegistryInv(c, CurrentEpoch(c, s), InitiateExit(c, s, i).validators)
    ensures InitiateExit(c, s, i).validators[i].exitEpoch != FAR_FUTURE_EPOCH
  {
    var now, vs := CurrentEpoch(c, s), s.validators;
    if vs[i].exitEpoch == FAR_FUTURE_EPOCH {
      var exit := ExitQueueEpoch(c, s);
      var v' := vs[i].(exitEpoch := exit, withdrawableEpoch := exit + c.minValidatorWithdrawabilityDelay);
      var vs' := InitiateExit(c, s, i).validators;
      assert vs' == vs[i := v'];
      QueueEpochIsNear(c, s, i);
      QueueEpochHasRoom(c, s);
      forall e: Epoch | e != FAR_FUTURE_EPOCH
        ensures CountExits(vs', e) <= Cap(c, |vs'|)
      {
        CountUpdated(vs, i, v', e);
      }
      CountUpdated(vs, i, v', FAR_FUTURE_EPOCH);
    }
  }

  lemma {:induction false} SameExitsKeep(c: Config, now: Epoch, vs: seq<Validator>, vs': seq<Validator>)
    requires ValidConfig(c) && RegistryInv(c, now, vs)
    requires |vs| == |vs'| && forall i :: 0 <= i < |vs| ==> vs[i].exitEpoch == vs'[i].exitEpoch
    requires forall i :: 0 <= i < |vs'| ==> RecordInv(c, now, vs'[i])
    ensures RegistryInv(c, now, vs')
  {
    forall e: Epoch | e != FAR_FUTURE_EPOCH
      ensures CountExits(vs', e) <= Cap(c, |vs'|)
    {
      CountSame(vs, vs', e);
    }
    CountSame(vs, vs', FAR_FUTURE_EPOCH);
  }

  lemma {:induction false} MarkSlashedKeeps(c: Config, s: BeaconState, i: ValidatorIndex)
    requires Shape(c, s) && i < |s.validators|
    requires RegistryInv(c, CurrentEpoch(c, s), s.validators)
    requires Room(c, CurrentEpoch(c, s), |s.validators|)
    requires s.validators[i].activationEpoch <= CurrentEpoch(c, s)
    ensures RegistryInv(c, CurrentEpoch(c, s), MarkSlashed(c, s, i).validators)
  {
    InitiateExitKeeps(c, s, i);
    SameExitsKeep(c, CurrentEpoch(c, s), InitiateExit(c, s, i).validators, MarkSlashed(c, s, i).validators);
  }

  /** A deposit for a new key appends a record that has no epoch set. */
  lemma {:induction false} AppendKeeps(c: Config, now: Epoch, vs: seq<Validator>, v: Validator)
    requires ValidConfig(c) && RegistryInv(c, now, vs) && RecordInv(c, now, v)
    requires v.exitEpoch == FAR_FUTURE_EPOCH
    ensures RegistryInv(c, now, vs + [v])
  {
    var vs' := vs + [v];
    assert vs'[..|vs|] == vs;
    DivMonotone(|vs|, |vs'|, c.churnLimitQuotient);
    forall e: Epoch | e != FAR_FUTURE_EPOCH
      ensures CountExits(vs', e) <= Cap(c, |vs'|)
    {
      assert CountExits(vs', e) == CountExits(vs, e);
    }
  }

  lemma {:induction false} LaterKeeps(c: Config, now: Epoch, later: Epoch, vs: seq<Validator>)
    requires ValidConfig(c) && RegistryInv(c, now, vs) && now <= later
    ensures RegistryInv(c, later, vs)
  {
    forall i | 0 <= i < |vs|
      ensures RecordInv(c, later, vs[i])
    {
      assert RecordInv(c, now, vs[i]);
    }
  }
}
