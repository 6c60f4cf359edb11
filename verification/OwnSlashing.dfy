/**
 Whether the ring still holds a validator's own slashing when its correlated penalty is charged. It
 does exactly when the withdrawal is less than one and a half ring lengths after the slashing.
 */
module OwnSlashing {
  import opened BeaconTypes
  import opened Accessors
  import opened Mutators
  import opened EpochProcessing
  import opened Transition
  import opened Invariants
  import opened Committees
  import opened RingHistory
  import opened SlashingHistory

  /** Step `j` of the run slashes `v`. */
  predicate SlashedAt(t: seq<BeaconState>, j: nat, v: ValidatorIndex) {
    && j + 1 < |t| && v < |t[j].validators| && v < |t[j + 1].validators|
    && !t[j].validators[v].slashed && t[j + 1].validators[v].slashed
  }

  /** The epochs of `t` do not go back. */
  ghost predicate Ageing(c: Config, t: seq<BeaconState>)
    requires ValidConfig(c)
  {
    forall i, j :: 0 <= i <= j < |t| ==> CurrentEpoch(c, t[i]) <= CurrentEpoch(c, t[j])
  }

  lemma RunAges(c: Config, t: seq<BeaconState>)
    requires BoundedRun(c, t)
    ensures Ageing(c, t)
  {
    hide Step, IsGenesis, CurrentEpoch;
    forall i, j | 0 <= i <= j < |t|
      ensures CurrentEpoch(c, t[i]) <= CurrentEpoch(c, t[j])
    {
      EpochsGrow(c, t, i, j);
    }
  }

  /** What a run slashes in an epoch is what its first part and the rest slash in it. */
  lemma {:induction false} DuringSplits(c: Config, t: seq<BeaconState>, j: nat, e: Epoch)
    requires ValidConfig(c) && Growing(t) && j < |t|
    ensures Growing(t[..j + 1]) && Growing(t[j..])
    ensures SlashedDuring(c, t, e) == SlashedDuring(c, t[..j + 1], e) + SlashedDuring(c, t[j..], e)
    decreases |t|
  {
    hide SlashedDuring, NewlySlashed, CurrentEpoch;
    var n := |t| - 1;
    if j == n {
      assert t[..j + 1] == t;
      LastStep(c, t[j..], e);
    } else {
      DuringSplits(c, t[..n], j, e);
      assert t[..n][..j + 1] == t[..j + 1];
      assert t[..n][j..] == t[j..][..n - j];
      LastStep(c, t, e);
      LastStep(c, t[j..], e);
    }
  }

  lemma LastStep(c: Config, t: seq<BeaconState>, e: Epoch)
    requires ValidConfig(c) && Growing(t) && |t| >= 1
    ensures Growing(t[..|t| - 1])
    ensures |t| == 1 ==> SlashedDuring(c, t, e) == 0
    ensures |t| > 1 ==> var n := |t| - 1;
      SlashedDuring(c, t, e) == SlashedDuring(c, t[..n], e)
        + if CurrentEpoch(c, t[n - 1]) == e then NewlySlashed(t[n - 1].validators, t[n].validators) else 0
  {
    hide NewlySlashed, CurrentEpoch;
  }

  /** Nothing is slashed in an epoch the run has not reached. */
  lemma {:induction false} NoneBefore(c: Config, t: seq<BeaconState>, e: Epoch)
    requires ValidConfig(c) && Growing(t)
    requires forall k :: 0 <= k < |t| - 1 ==> CurrentEpoch(c, t[k]) < e
    ensures SlashedDuring(c, t, e) == 0
    decreases |t|
  {
    hide CurrentEpoch, NewlySlashed;
    if |t| > 1 {
      NoneBefore(c, t[..|t| - 1], e);
    }
  }

  /** A slashing counts in its own epoch, with the balance of its moment. */
  lemma {:induction false} CountsOwn(vs: seq<Validator>, vs': seq<Validator>, v: ValidatorIndex)
    requires |vs| <= |vs'| && v < |vs| && !vs[v].slashed && vs'[v].slashed
    ensures NewlySlashed(vs, vs') >= vs[v].effectiveBalance
  {
    if v < |vs| - 1 {
      CountsOwn(vs[..|vs| - 1], vs', v);
    }
  }

  lemma {:induction false} FirstStepCounts(c: Config, t: seq<BeaconState>, j: nat, v: ValidatorIndex)
    requires ValidConfig(c) && Growing(t) && SlashedAt(t, j, v)
    ensures Growing(t[..j + 2])
    ensures SlashedDuring(c, t[..j + 2], CurrentEpoch(c, t[j])) >= t[j].validators[v].effectiveBalance
  {
    hide CurrentEpoch, NewlySlashed;
    assert t[..j + 2][..j + 1] == t[..j + 1];
    CountsOwn(t[j].validators, t[j + 1].validators, v);
  }

  /** A window that begins after epoch `e` sees only the part of the run after step `j` of epoch `e`. */
  lemma {:induction false} WindowAfter(c: Config, t: seq<BeaconState>, j: nat, e: Epoch, n: nat)
    requires ValidConfig(c) && Growing(t) && j + 1 < |t| && Ageing(c, t) && CurrentEpoch(c, t[j]) + n <= e
    ensures Growing(t[j + 1..]) && Window(c, t, e, n) == Window(c, t[j + 1..], e, n)
    decreases n
  {
    hide CurrentEpoch, SlashedDuring;
    DuringSplits(c, t, j + 1, e);
    if n > 0 {
      NoneBefore(c, t[..j + 2], e);
      if e > 0 {
        WindowAfter(c, t, j, e - 1, n - 1);
      }
    }
  }

  /** A window that reaches back to the epoch of step `j` also counts what that step slashes. */
  lemma {:induction false} WindowHolds(c: Config, t: seq<BeaconState>, j: nat, v: ValidatorIndex, e: Epoch, n: nat)
    requires ValidConfig(c) && Growing(t) && SlashedAt(t, j, v)
    requires CurrentEpoch(c, t[j]) <= e < CurrentEpoch(c, t[j]) + n
    ensures Growing(t[j + 1..])
    ensures Window(c, t, e, n) >= Window(c, t[j + 1..], e, n) + t[j].validators[v].effectiveBalance
    decreases n
  {
    hide CurrentEpoch, SlashedDuring;
    DuringSplits(c, t, j + 1, e);
    if e == CurrentEpoch(c, t[j]) {
      FirstStepCounts(c, t, j, v);
      if e > 0 {
        WindowAtLeast(c, t, j + 1, e - 1, n - 1);
      }
    } else {
      WindowHolds(c, t, j, v, e - 1, n - 1);
    }
  }

  lemma {:induction false} WindowAtLeast(c: Config, t: seq<BeaconState>, j: nat, e: Epoch, n: nat)
    requires ValidConfig(c) && Growing(t) && j < |t|
    ensures Growing(t[j..]) && Window(c, t, e, n) >= Window(c, t[j..], e, n)
    decreases n
  {
    hide CurrentEpoch, SlashedDuring;
    DuringSplits(c, t, j, e);
    if n > 0 && e > 0 {
      WindowAtLeast(c, t, j, e - 1, n - 1);
    }
  }

  /** When the penalty of `v`, slashed by step `j` in epoch `e`, is due, the ring holds what was slashed
      since. It holds the slashing of `v` besides exactly when the withdrawal is before
      `e + L + L / 2`, where `L` is the length of the ring. */
  lemma {:induction false} OwnSlashingHeld(c: Config, t: seq<BeaconState>, j: nat, k: nat, v: ValidatorIndex)
    requires BoundedRun(c, t) && SlashedAt(t, j, v) && j < k < |t| && v < |t[k].validators| && DueAt(c, t, k, v)
    ensures Growing(t[j + 1..k + 1])
    ensures var e, l := CurrentEpoch(c, t[j]), c.epochsPerSlashingsVector;
      var since := Window(c, t[j + 1..k + 1], CurrentEpoch(c, t[k]), l);
      if t[k].validators[v].withdrawableEpoch < e + l + l / 2
      then Sum(t[k].slashings) >= since + t[j].validators[v].effectiveBalance
      else Sum(t[k].slashings) == since
  {
    hide Step, IsGenesis, CurrentEpoch, Window, Sum, Entries;
    RunRing(c, t, k);
    RunAges(c, t);
    var u, now, l := t[..k + 1], CurrentEpoch(c, t[k]), c.epochsPerSlashingsVector;
    assert u[j + 1..] == t[j + 1..k + 1];
    assert SlashedAt(u, j, v) && Ageing(c, u);
    if now < CurrentEpoch(c, t[j]) + l {
      WindowHolds(c, u, j, v, now, l);
    } else {
      WindowAfter(c, u, j, now, l);
    }
  }

  /** Where a withdrawal takes long enough, the ring never holds the slashing of a validator that had not
      begun to exit. */
  lemma {:induction false} OwnSlashingForgotten(c: Config, t: seq<BeaconState>, j: nat, k: nat, v: ValidatorIndex)
    requires BoundedRun(c, t) && SlashedAt(t, j, v) && j < k < |t| && v < |t[k].validators| && DueAt(c, t, k, v)
    requires t[j].validators[v].exitEpoch == FAR_FUTURE_EPOCH
    requires var l := c.epochsPerSlashingsVector;
      1 + c.maxSeedLookahead + c.minValidatorWithdrawabilityDelay >= l + l / 2
    ensures Growing(t[j + 1..k + 1])
    ensures Sum(t[k].slashings) == Window(c, t[j + 1..k + 1], CurrentEpoch(c, t[k]), c.epochsPerSlashingsVector)
  {
    hide Step, IsGenesis, CurrentEpoch, Window, Sum;
    WithdrawsLate(c, t, j, v);
    RunKeepsExits(c, t, j + 1, k, v);
    OwnSlashingHeld(c, t, j, k, v);
  }

  lemma {:induction false} WithdrawsLate(c: Config, t: seq<BeaconState>, j: nat, v: ValidatorIndex)
    requires BoundedRun(c, t) && SlashedAt(t, j, v) && t[j].validators[v].exitEpoch == FAR_FUTURE_EPOCH
    ensures t[j + 1].validators[v].withdrawableEpoch
         >= CurrentEpoch(c, t[j]) + 1 + c.maxSeedLookahead + c.minValidatorWithdrawabilityDelay
  {
    hide Step, IsGenesis, CurrentEpoch;
    RunIsReady(c, t, j);
    RunIsReady(c, t, j + 1);
    assert Step(c, t[j], t[j + 1]);
    StepEffect(c, t[j], t[j + 1]);
    assert ValidatorStep(c, CurrentEpoch(c, t[j]), t[j].validators[v], t[j + 1].validators[v]);
  }

  /** So it is in every run of the minimal and of the sapphire preset. */
  lemma {:induction false} PresetsForget(crypto: Crypto, c: Config, t: seq<BeaconState>, j: nat, k: nat,
                                         v: ValidatorIndex)
    requires c == MinimalConfig(crypto) || c == SapphireConfig(crypto)
    requires BoundedRun(c, t) && SlashedAt(t, j, v) && j < k < |t| && v < |t[k].validators| && DueAt(c, t, k, v)
    requires t[j].validators[v].exitEpoch == FAR_FUTURE_EPOCH
    ensures Growing(t[j + 1..k + 1])
    ensures Sum(t[k].slashings) == Window(c, t[j + 1..k + 1], CurrentEpoch(c, t[k]), c.epochsPerSlashingsVector)
  {
    hide BoundedRun, DueAt, SlashedAt, Window, Sum;
    OwnSlashingForgotten(c, t, j, k, v);
  }
}
