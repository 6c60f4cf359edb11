/**
 Slashings over whole runs: the ring sums the balances slashed in exactly the last ring-length
 epochs, and every slashed validator meets the correlated penalty in exactly one epoch.
 */
module SlashingHistory {
  import opened Bytes
  import opened BeaconTypes
  import opened Accessors
  import opened Mutators
  import opened Lifecycle
  import opened EpochProcessing
  import opened BlockProcessing
  import opened Transition
  import opened Evolution
  import opened Invariants
  import opened Committees
  import opened RingHistory
  import opened Arith

  // The epoch transition slashes nobody

  predicate SameSlashed(vs: seq<Validator>, vs': seq<Validator>) {
    |vs| == |vs'| && forall i :: 0 <= i < |vs| ==> vs'[i].slashed == vs[i].slashed
  }

  /** Nobody is slashed and no effective balance changes. */
  predicate SameStakes(vs: seq<Validator>, vs': seq<Validator>) {
    && |vs| == |vs'|
    && forall i :: 0 <= i < |vs| ==>
         vs'[i].slashed == vs[i].slashed && vs'[i].effectiveBalance == vs[i].effectiveBalance
  }

  lemma {:induction false} SweepOneKeepsStakes(c: Config, s: BeaconState, i: ValidatorIndex)
    requires Shape(c, s) && i < |s.validators|
    ensures SameStakes(s.validators, Eject(c, MarkEligible(c, s, i), i).validators)
  {
    hide ExitQueueEpoch;
  }

  lemma {:induction false} SweepKeepsStakes(c: Config, s: BeaconState, k: nat)
    requires Shape(c, s) && k <= |s.validators|
    ensures SameStakes(s.validators, SweepRegistry(c, s, k).validators)
  {
    hide SweepRegistry, Eject, MarkEligible;
    SweepUnfolds(c, s, k);
    if k > 0 {
      SweepKeepsStakes(c, s, k - 1);
      SweepOneKeepsStakes(c, SweepRegistry(c, s, k - 1), k - 1);
    }
  }

  lemma SweepUnfolds(c: Config, s: BeaconState, k: nat)
    requires Shape(c, s) && k <= |s.validators|
    ensures SweepRegistry(c, s, k)
         == if k == 0 then s else Eject(c, MarkEligible(c, SweepRegistry(c, s, k - 1), k - 1), k - 1)
  {
    hide Eject, MarkEligible;
  }

  lemma {:induction false} RegistryKeepsStakes(c: Config, s: BeaconState)
    requires Shape(c, s)
    ensures SameStakes(s.validators, ProcessRegistry(c, s).validators)
  {
    hide SweepRegistry, Admitted;
    SweepKeepsStakes(c, s, |s.validators|);
  }

  /** Entering an epoch clears its ring entry. */
  lemma {:induction false} EpochClearsEntry(c: Config, s: BeaconState)
    requires Shape(c, s) && ProcessEpoch(c, s).Ok?
    ensures SameSlashed(s.validators, ProcessEpoch(c, s).value.validators)
    ensures ProcessEpoch(c, s).value.slashings
         == s.slashings[Mod(CurrentEpoch(c, s) + 1, c.epochsPerSlashingsVector) := 0]
  {
    hide ProcessEpoch, ProcessJustification, ProcessRewards, ProcessRegistry, ProcessSlashings;
    var s1, s2, s3, s4 := EpochStages(c, s);
    RegistryKeepsStakes(c, s2);
  }

  ghost predicate RingClears(c: Config, s: BeaconState, s': BeaconState)
    requires Shape(c, s)
  {
    && CurrentEpoch(c, s') == CurrentEpoch(c, s) + 1
    && SameSlashed(s.validators, s'.validators)
    && s'.slashings == s.slashings[Mod(CurrentEpoch(c, s) + 1, c.epochsPerSlashingsVector) := 0]
  }

  lemma {:induction false} AdvanceRing(c: Config, s: BeaconState)
    requires Shape(c, s) && AdvanceSlot(c, s).Ok?
    ensures var s' := AdvanceSlot(c, s).value;
      RingClears(c, s, s') || (CurrentEpoch(c, s') == CurrentEpoch(c, s) && RingAdds(c, s, s'))
  {
    hide ProcessEpoch;
    var s1, s' := ProcessSlot(c, s), AdvanceSlot(c, s).value;
    EpochOfNextSlot(c, s.slot);
    if AtEpochEnd(c, s1) {
      EpochClearsEntry(c, s1);
    } else {
      NothingAdds(c, s, s');
    }
  }

  /** A step adds what it slashes to the current entry, or enters an epoch and clears its entry. */
  lemma {:induction false} StepRing(c: Config, s: BeaconState, s': BeaconState)
    requires Step(c, s, s')
    ensures Shape(c, s')
    ensures RingClears(c, s, s') || (CurrentEpoch(c, s') == CurrentEpoch(c, s) && RingAdds(c, s, s'))
  {
    hide AdvanceSlot, ProcessHeader, ProcessRandao, ProcessEth1Data, ApplyOperation, RingAdds;
    var a :| Act(c, s, a) == Ok(s');
    match a
    case Advance =>
      AdvanceRing(c, s);
    case Operate(tx) =>
      OperationAdds(c, s, tx);
    case _ =>
      NothingAdds(c, s, s');
  }

  // The ring is the window of the last epochs

  ghost predicate Growing(t: seq<BeaconState>) {
    forall k :: 0 <= k < |t| - 1 ==> |t[k].validators| <= |t[k + 1].validators|
  }

  /** What was slashed in the `n` epochs up to `e`. */
  ghost function Window(c: Config, t: seq<BeaconState>, e: Epoch, n: nat): Gwei
    requires ValidConfig(c) && Growing(t)
    decreases n
  {
    if n == 0 then 0 else SlashedDuring(c, t, e) + if e == 0 then 0 else Window(c, t, e - 1, n - 1)
  }

  lemma {:induction false} WindowExtends(c: Config, t: seq<BeaconState>, t': seq<BeaconState>, e: Epoch, n: nat)
    requires ValidConfig(c) && Growing(t) && Growing(t')
    requires forall d :: 0 <= d <= e ==> SlashedDuring(c, t', d) == SlashedDuring(c, t, d)
    ensures Window(c, t', e, n) == Window(c, t, e, n)
    decreases n
  {
    if n > 0 && e > 0 {
      WindowExtends(c, t, t', e - 1, n - 1);
    }
  }

  lemma {:induction false} WindowLast(c: Config, t: seq<BeaconState>, e: Epoch, n: nat)
    requires ValidConfig(c) && Growing(t) && n >= 1
    ensures Window(c, t, e, n) == Window(c, t, e, n - 1) + if e + 1 >= n then SlashedDuring(c, t, e + 1 - n) else 0
    decreases n
  {
    if n > 1 && e > 0 {
      WindowLast(c, t, e - 1, n - 1);
    }
  }

  lemma {:induction false} SumUpdated(xs: seq<nat>, i: nat, v: nat)
    requires i < |xs|
    ensures Sum(xs[i := v]) + xs[i] == Sum(xs) + v
  {
    var n := |xs| - 1;
    if i == n {
      assert xs[i := v][..n] == xs[..n];
    } else {
      assert xs[i := v][..n] == xs[..n][i := v];
      SumUpdated(xs[..n], i, v);
    }
  }

  ghost predicate RingInv(c: Config, t: seq<BeaconState>, s: BeaconState)
    requires Shape(c, s) && Growing(t)
  {
    && Entries(c, t, s.slashings, CurrentEpoch(c, s))
    && Sum(s.slashings) == Window(c, t, CurrentEpoch(c, s), c.epochsPerSlashingsVector)
  }

  lemma DuringExtends(c: Config, t: seq<BeaconState>, s': BeaconState, e: Epoch)
    requires ValidConfig(c) && |t| >= 1 && Growing(t) && |t[|t| - 1].validators| <= |s'.validators|
    ensures Growing(t + [s'])
    ensures SlashedDuring(c, t + [s'], e) == SlashedDuring(c, t, e)
      + if CurrentEpoch(c, t[|t| - 1]) == e then NewlySlashed(t[|t| - 1].validators, s'.validators) else 0
  {
    assert (t + [s'])[..|t|] == t;
  }

  ghost predicate Entries(c: Config, t: seq<BeaconState>, ring: seq<Gwei>, now: Epoch)
    requires ValidConfig(c) && |ring| == c.epochsPerSlashingsVector && Growing(t)
  {
    var l := c.epochsPerSlashingsVector;
    && (forall e: Epoch :: e <= now < e + l ==> ring[Mod(e, l)] == SlashedDuring(c, t, e))
    && (forall k :: now < k < l ==> ring[k] == 0)
    && (forall e: Epoch :: now < e ==> SlashedDuring(c, t, e) == 0)
  }

  lemma {:induction false} AddEntries(c: Config, t: seq<BeaconState>, t': seq<BeaconState>, ring: seq<Gwei>,
                                      now: Epoch, x: Gwei)
    requires ValidConfig(c) && |ring| == c.epochsPerSlashingsVector && Growing(t) && Growing(t')
    requires Entries(c, t, ring, now)
    requires forall e: Epoch :: SlashedDuring(c, t', e) == SlashedDuring(c, t, e) + if e == now then x else 0
    ensures var m := Mod(now, |ring|); Entries(c, t', ring[m := ring[m] + x], now)
  {
    hide SlashedDuring;
    var l := |ring|;
    var m := Mod(now, l);
    var ring' := ring[m := ring[m] + x];
    forall e: Epoch | e <= now < e + l
      ensures ring'[Mod(e, l)] == SlashedDuring(c, t', e)
    {
      if e < now {
        ModDistinct(e, now, l);
      }
    }
    if now < l {
      DivModUnique(now, l, 0, now);
    }
  }

  lemma {:induction false} ClearEntries(c: Config, t: seq<BeaconState>, t': seq<BeaconState>, ring: seq<Gwei>,
                                        now: Epoch)
    requires ValidConfig(c) && |ring| == c.epochsPerSlashingsVector && Growing(t) && Growing(t')
    requires Entries(c, t, ring, now)
    requires forall e: Epoch :: SlashedDuring(c, t', e) == SlashedDuring(c, t, e)
    ensures Entries(c, t', ring[Mod(now + 1, |ring|) := 0], now + 1)
    ensures SlashedDuring(c, t, now + 1) == 0
    ensures ring[Mod(now + 1, |ring|)] == if now + 1 >= |ring| then SlashedDuring(c, t, now + 1 - |ring|) else 0
  {
    hide SlashedDuring;
    var l := |ring|;
    var ring' := ring[Mod(now + 1, l) := 0];
    forall e: Epoch | e <= now + 1 < e + l
      ensures ring'[Mod(e, l)] == SlashedDuring(c, t', e)
    {
      if e <= now {
        ModDistinct(e, now + 1, l);
      }
    }
    if now + 1 >= l {
      ModShift(now + 1 - l, l);
    } else {
      DivModUnique(now + 1, l, 0, now + 1);
    }
  }

  lemma {:induction false} AddWindow(c: Config, t: seq<BeaconState>, t': seq<BeaconState>, now: Epoch, x: Gwei, n: nat)
    requires ValidConfig(c) && Growing(t) && Growing(t') && n >= 1
    requires forall e: Epoch :: SlashedDuring(c, t', e) == SlashedDuring(c, t, e) + if e == now then x else 0
    ensures Window(c, t', now, n) == Window(c, t, now, n) + x
  {
    hide SlashedDuring;
    if now > 0 {
      WindowExtends(c, t, t', now - 1, n - 1);
    }
  }

  lemma {:induction false} ClearWindow(c: Config, t: seq<BeaconState>, t': seq<BeaconState>, now: Epoch, n: nat)
    requires ValidConfig(c) && Growing(t) && Growing(t') && n >= 1
    requires forall e: Epoch :: SlashedDuring(c, t', e) == SlashedDuring(c, t, e)
    requires SlashedDuring(c, t, now + 1) == 0
    ensures Window(c, t', now + 1, n) + (if now + 1 >= n then SlashedDuring(c, t, now + 1 - n) else 0)
         == Window(c, t, now, n)
  {
    hide SlashedDuring;
    WindowLast(c, t, now, n);
    WindowExtends(c, t, t', now, n - 1);
  }

  lemma {:induction false} AddKeepsRing(c: Config, t: seq<BeaconState>, s: BeaconState, s': BeaconState)
    requires Shape(c, s) && Shape(c, s') && |t| >= 1 && t[|t| - 1] == s && Growing(t) && RingInv(c, t, s)
    requires CurrentEpoch(c, s') == CurrentEpoch(c, s) && RingAdds(c, s, s')
    ensures Growing(t + [s']) && RingInv(c, t + [s'], s')
  {
    hide SlashedDuring, NewlySlashed, Entries, Window, Sum;
    var now, l, t' := CurrentEpoch(c, s), c.epochsPerSlashingsVector, t + [s'];
    var x := NewlySlashed(s.validators, s'.validators);
    forall e: Epoch
      ensures Growing(t') && SlashedDuring(c, t', e) == SlashedDuring(c, t, e) + if e == now then x else 0
    {
      DuringExtends(c, t, s', e);
    }
    hide CurrentEpoch;
    AddEntries(c, t, t', s.slashings, now, x);
    SumUpdated(s.slashings, Mod(now, l), s.slashings[Mod(now, l)] + x);
    AddWindow(c, t, t', now, x, l);
  }

  lemma {:induction false} ClearKeepsRing(c: Config, t: seq<BeaconState>, s: BeaconState, s': BeaconState)
    requires Shape(c, s) && Shape(c, s') && |t| >= 1 && t[|t| - 1] == s && Growing(t) && RingInv(c, t, s)
    requires RingClears(c, s, s')
    ensures Growing(t + [s']) && RingInv(c, t + [s'], s')
  {
    hide SlashedDuring, NewlySlashed, Entries, Window, Sum;
    var now, l, t' := CurrentEpoch(c, s), c.epochsPerSlashingsVector, t + [s'];
    NobodySlashed(s.validators, s'.validators);
    forall e: Epoch
      ensures Growing(t') && SlashedDuring(c, t', e) == SlashedDuring(c, t, e)
    {
      DuringExtends(c, t, s', e);
    }
    hide CurrentEpoch;
    ClearEntries(c, t, t', s.slashings, now);
    SumUpdated(s.slashings, Mod(now + 1, l), 0);
    ClearWindow(c, t, t', now, l);
  }

  lemma {:induction false} GenesisRing(c: Config, s: BeaconState)
    requires Shape(c, s) && CurrentEpoch(c, s) == 0 && forall i :: 0 <= i < |s.slashings| ==> s.slashings[i] == 0
    ensures RingInv(c, [s], s)
  {
    ZerosSum(s.slashings);
  }

  lemma {:induction false} ZerosSum(xs: seq<nat>)
    requires forall i :: 0 <= i < |xs| ==> xs[i] == 0
    ensures Sum(xs) == 0
  {
    if xs != [] {
      ZerosSum(xs[..|xs| - 1]);
    }
  }

  /** In every state of every run the ring holds, and sums, what was slashed in the last epochs. */
  lemma {:induction false} RunRing(c: Config, t: seq<BeaconState>, j: nat)
    requires BoundedRun(c, t) && j < |t|
    ensures Shape(c, t[j]) && Growing(t[..j + 1])
    ensures RingInv(c, t[..j + 1], t[j])
  {
    hide Step, IsGenesis, RingInv, RingAdds, RingClears;
    if j == 0 {
      RoomThroughout(c, t, 0);
      GenesisInOrder(c, t[0]);
      assert t[..1] == [t[0]];
      GenesisRing(c, t[0]);
    } else {
      RunRing(c, t, j - 1);
      var s, s' := t[j - 1], t[j];
      assert Step(c, t[j - 1], t[j - 1 + 1]);
      StepRing(c, s, s');
      assert t[..j + 1] == t[..j] + [s'];
      if RingClears(c, s, s') {
        ClearKeepsRing(c, t[..j], s, s');
      } else {
        AddKeepsRing(c, t[..j], s, s');
      }
    }
  }

  // The correlated penalty

  /** It never exceeds the effective balance it is computed from. */
  lemma PenaltyBounded(c: Config, effectiveBalance: Gwei, slashed: Gwei, total: Gwei)
    requires ValidConfig(c) && total >= 1
    ensures SlashingPenalty(c, effectiveBalance, slashed, total) <= effectiveBalance
  {
    var increment := c.effectiveBalanceIncrement;
    var units := Div(effectiveBalance, increment);
    var numerator := Mul(units, Min(slashed * 3, total));
    var share := Div(numerator, total);
    MulIsProduct(units, Min(slashed * 3, total));
    MulIsProduct(share, increment);
    DivModLaw(effectiveBalance, increment);
    DivModLaw(numerator, total);
    MulMonotone(Min(slashed * 3, total), total, units);
    if units < share {
      MulStrict(units, share, total);
    }
    MulMonotone(share, units, increment);
  }

  /** The penalty that the state before the transition already determines. */
  function CorrelatedPenalty(c: Config, s: BeaconState, v: ValidatorIndex): Gwei
    requires ValidConfig(c) && v < |s.validators|
  {
    SlashingPenalty(c, s.validators[v].effectiveBalance, Sum(s.slashings), TotalActiveBalance(c, s))
  }

  /** Whoever is due when the slashings are processed was due before the transition began. */
  lemma {:induction false} DueThroughStages(c: Config, s: BeaconState, v: ValidatorIndex)
    requires Ready(c, s) && v < |s.validators|
    ensures PenaltyDue(c, CurrentEpoch(c, s), ProcessRegistry(c, s).validators[v])
       <==> PenaltyDue(c, CurrentEpoch(c, s), s.validators[v])
  {
    hide ProcessRegistry;
    RegistryKeepsStakes(c, s);
    RegistryFollows(c, s);
    assert ValidatorStep(c, CurrentEpoch(c, s), s.validators[v], ProcessRegistry(c, s).validators[v]);
  }

  lemma {:induction false} SameStakesSameSum(vs: seq<Validator>, vs': seq<Validator>, indices: seq<ValidatorIndex>)
    requires SameStakes(vs, vs') && InRange(indices, |vs|)
    ensures SumEffective(vs', indices) == SumEffective(vs, indices)
  {
    if indices != [] {
      SameStakesSameSum(vs, vs', indices[..|indices| - 1]);
    }
  }

  /** The registry updates in between change neither the stakes nor the active balance. */
  lemma {:induction false} PenaltyThroughStages(c: Config, s: BeaconState, v: ValidatorIndex)
    requires Ready(c, s) && v < |s.validators|
    ensures CorrelatedPenalty(c, ProcessRegistry(c, s), v) == CorrelatedPenalty(c, s, v)
  {
    hide ProcessRegistry, SlashingPenalty, SumEffective, ActiveIndices;
    var now, s' := CurrentEpoch(c, s), ProcessRegistry(c, s);
    RegistryKeepsStakes(c, s);
    RegistryFollows(c, s);
    ActiveSetsFixed(c, now, s.validators, s'.validators, now);
    SameStakesSameSum(s.validators, s'.validators, ActiveIndices(s.validators, now));
  }

  /** Who is due loses the penalty, and nobody else loses anything at this stage. */
  lemma {:induction false} ChargeIsApplied(c: Config, s: BeaconState, v: ValidatorIndex)
    requires Ready(c, s) && v < |s.validators|
    ensures ProcessSlashings(c, ProcessRegistry(c, s)).balances[v] ==
      if PenaltyDue(c, CurrentEpoch(c, s), s.validators[v])
      then SaturatingSub(s.balances[v], CorrelatedPenalty(c, s, v))
      else s.balances[v]
  {
    hide ProcessRegistry, SlashingPenalty, TotalActiveBalance, Sum;
    DueThroughStages(c, s, v);
    PenaltyThroughStages(c, s, v);
  }

  /** The state inside the epoch transition on `s` between the rewards and the registry updates. */
  ghost function AfterRewards(c: Config, s: BeaconState): (s2: BeaconState)
    requires Shape(c, s) && ProcessEpoch(c, s).Ok?
    ensures Shape(c, s2) && s2 == WithFinality(s, FinalityOf(s2)).(balances := s2.balances)
  {
    ProcessRewards(c, ProcessJustification(c, s).value).value
  }

  /** What the whole transition leaves of a balance. */
  lemma {:induction false} EpochCharges(c: Config, s: BeaconState, v: ValidatorIndex)
    requires Ready(c, s) && ProcessEpoch(c, s).Ok? && v < |s.validators|
    ensures ProcessEpoch(c, s).value.balances[v] ==
      if PenaltyDue(c, CurrentEpoch(c, s), s.validators[v])
      then SaturatingSub(AfterRewards(c, s).balances[v], CorrelatedPenalty(c, s, v))
      else AfterRewards(c, s).balances[v]
  {
    hide ProcessEpoch, ProcessJustification, ProcessRewards, ProcessRegistry, ProcessSlashings, SlashingPenalty,
      RegistryInv, Sum, SumEffective;
    var s1, s2, s3, s4 := EpochStages(c, s);
    ChargeIsApplied(c, s2, v);
  }

  // Charges of a run

  /** An epoch transition of the run at step `k` that finds `v` registered. */
  ghost predicate Settles(c: Config, t: seq<BeaconState>, k: nat, v: ValidatorIndex)
    requires ValidConfig(c)
  {
    && EndsEpoch(c, t, k) && Shape(c, t[k]) && ProcessEpoch(c, ProcessSlot(c, t[k])).Ok?
    && v < |t[k].validators| && v < |t[k + 1].balances|
  }

  ghost function Earned(c: Config, t: seq<BeaconState>, k: nat, v: ValidatorIndex): Gwei
    requires ValidConfig(c) && Settles(c, t, k, v)
  {
    AfterRewards(c, ProcessSlot(c, t[k])).balances[v]
  }

  predicate DueAt(c: Config, t: seq<BeaconState>, k: nat, v: ValidatorIndex)
    requires ValidConfig(c) && k < |t| && v < |t[k].validators|
  {
    PenaltyDue(c, CurrentEpoch(c, t[k]), t[k].validators[v])
  }

  /** Step `k` of the run charges `v`: its balance is what the rewards left of it less the penalty,
      which is at most its effective balance. */
  ghost predicate ChargedAt(c: Config, t: seq<BeaconState>, k: nat, v: ValidatorIndex)
    requires ValidConfig(c)
  {
    && Settles(c, t, k, v) && DueAt(c, t, k, v)
    && t[k + 1].balances[v] == SaturatingSub(Earned(c, t, k, v), CorrelatedPenalty(c, t[k], v))
    && CorrelatedPenalty(c, t[k], v) <= t[k].validators[v].effectiveBalance
  }

  /** Step `k` of the run leaves `v` all that the rewards left it. */
  ghost predicate SparedAt(c: Config, t: seq<BeaconState>, k: nat, v: ValidatorIndex)
    requires ValidConfig(c)
  {
    Settles(c, t, k, v) && !DueAt(c, t, k, v) && t[k + 1].balances[v] == Earned(c, t, k, v)
  }

  /** At every epoch end of a run everyone is charged or spared, as they are due or not. */
  lemma {:induction false} RunCharges(c: Config, t: seq<BeaconState>, k: nat, v: ValidatorIndex)
    requires BoundedRun(c, t) && EndsEpoch(c, t, k) && v < |t[k].validators|
    ensures if DueAt(c, t, k, v) then ChargedAt(c, t, k, v) else SparedAt(c, t, k, v)
  {
    hide Step, IsGenesis, ProcessEpoch, AfterRewards, SlashingPenalty, RegistryInv, Sum, SumEffective, Div, Mod;
    RunEpochEnd(c, t, k);
    RunIsReady(c, t, k);
    EpochCharges(c, ProcessSlot(c, t[k]), v);
    PenaltyBounded(c, t[k].validators[v].effectiveBalance, Sum(t[k].slashings), TotalActiveBalance(c, t[k]));
  }

  /** The penalty is correlated with exactly what the run slashed in the last ring-length epochs. */
  lemma {:induction false} PenaltyOfRun(c: Config, t: seq<BeaconState>, k: nat, v: ValidatorIndex)
    requires BoundedRun(c, t) && k < |t| && v < |t[k].validators|
    ensures Growing(t[..k + 1])
    ensures CorrelatedPenalty(c, t[k], v)
         == SlashingPenalty(c, t[k].validators[v].effectiveBalance,
                            Window(c, t[..k + 1], CurrentEpoch(c, t[k]), c.epochsPerSlashingsVector),
                            TotalActiveBalance(c, t[k]))
  {
    hide Step, IsGenesis, SlashingPenalty, Window, Entries;
    RunRing(c, t, k);
  }

  /** Looking back from a slashed record, it was already slashed in every state less than a ring
      length before its withdrawal. */
  lemma {:induction false} SlashedBefore(c: Config, t: seq<BeaconState>, i: nat, j: nat, v: ValidatorIndex)
    requires BoundedRun(c, t) && i <= j < |t| && v < |t[j].validators| && t[j].validators[v].slashed
    requires CurrentEpoch(c, t[i]) + c.epochsPerSlashingsVector > t[j].validators[v].withdrawableEpoch
    ensures v < |t[i].validators| && t[i].validators[v].slashed
    ensures t[i].validators[v].withdrawableEpoch == t[j].validators[v].withdrawableEpoch
    decreases j
  {
    hide Step, IsGenesis;
    if i < j {
      var s, s' := t[j - 1], t[j];
      RunIsReady(c, t, j - 1);
      EpochsGrow(c, t, i, j - 1);
      assert Step(c, t[j - 1], t[j - 1 + 1]);
      StepEffect(c, s, s');
      assert v < |s.validators|;
      assert ValidatorStep(c, CurrentEpoch(c, s), s.validators[v], s'.validators[v]);
      SlashedBefore(c, t, i, j - 1, v);
    }
  }

  /** In a run that passes the halfway point to its withdrawal, a slashed validator is charged. */
  lemma {:induction false} SlashedIsCharged(c: Config, t: seq<BeaconState>, j: nat, v: ValidatorIndex) returns (k: nat)
    requires BoundedRun(c, t) && j < |t| && v < |t[j].validators| && t[j].validators[v].slashed
    requires CurrentEpoch(c, t[j]) + c.epochsPerSlashingsVector / 2 > t[j].validators[v].withdrawableEpoch
    ensures k < j && ChargedAt(c, t, k, v)
  {
    hide Step, IsGenesis, CurrentEpoch, Settles, CorrelatedPenalty;
    var w, half := t[j].validators[v].withdrawableEpoch, c.epochsPerSlashingsVector / 2;
    SlashedLongEnough(c, t, j, v);
    k := EndOfEpoch(c, t, j, w - half);
    SlashedBefore(c, t, k, j, v);
    RunCharges(c, t, k, v);
  }

  /** Withdrawal is at least a ring length away when the slashing happens. */
  lemma {:induction false} SlashedLongEnough(c: Config, t: seq<BeaconState>, j: nat, v: ValidatorIndex)
    requires BoundedRun(c, t) && j < |t| && v < |t[j].validators| && t[j].validators[v].slashed
    ensures t[j].validators[v].withdrawableEpoch >= c.epochsPerSlashingsVector
  {
    hide Step, IsGenesis;
    RoomThroughout(c, t, 0);
    GenesisInOrder(c, t[0]);
    if t[j].validators[v].withdrawableEpoch < c.epochsPerSlashingsVector {
      SlashedBefore(c, t, 0, j, v);
    }
  }

  lemma {:induction false} DueOnce(c: Config, t: seq<BeaconState>, k: nat, k': nat, v: ValidatorIndex)
    requires BoundedRun(c, t) && EndsEpoch(c, t, k) && k < k' && EndsEpoch(c, t, k')
    requires v < |t[k].validators| && v < |t[k'].validators|
    ensures !(DueAt(c, t, k, v) && DueAt(c, t, k', v))
  {
    hide Step, IsGenesis, CurrentEpoch;
    RunKeepsExits(c, t, k, k', v);
    EpochsGrow(c, t, k + 1, k');
  }

  /** And charged only once: every other epoch end of the run leaves it all that the rewards left it. */
  lemma {:induction false} ChargedOnce(c: Config, t: seq<BeaconState>, k: nat, k': nat, v: ValidatorIndex)
    requires BoundedRun(c, t) && ChargedAt(c, t, k, v)
    requires EndsEpoch(c, t, k') && k' != k && v < |t[k'].validators|
    ensures SparedAt(c, t, k', v)
  {
    hide Step, IsGenesis, CurrentEpoch, DueAt, CorrelatedPenalty, Earned;
    RunCharges(c, t, k', v);
    if k < k' {
      DueOnce(c, t, k, k', v);
    } else {
      DueOnce(c, t, k', k, v);
    }
  }
}
