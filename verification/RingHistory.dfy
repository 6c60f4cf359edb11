/**
 The ring buffers refine history: a block root that is found is the one recorded at that slot, and
 the slashings ring holds the balances slashed in exactly the last ring-length epochs.
 */
module RingHistory {
  import opened Bytes
  import opened BeaconTypes
  import opened Accessors
  import opened Mutators
  import opened Lifecycle
  import opened EpochProcessing
  import opened BlockProcessing
  import opened Transition
  import opened Evolution
  import opened Invariants
  import opened Arith

  // Block roots

  /** Step `k` of the run is the one that leaves `slot`. */
  predicate Leaves(t: seq<BeaconState>, k: nat, slot: Slot) {
    k + 1 < |t| && t[k].slot == slot && t[k + 1].slot == slot + 1
  }

  lemma {:induction false} AdvanceRecords(c: Config, s: BeaconState)
    requires Shape(c, s) && AdvanceSlot(c, s).Ok?
    ensures AdvanceSlot(c, s).value.blockRoots
         == s.blockRoots[Mod(s.slot, c.slotsPerHistoricalRoot) := RecordedRoot(c, s)]
  {
    hide ProcessEpoch, ProcessJustification, ProcessRewards, ProcessRegistry, ProcessSlashings;
    var s1 := ProcessSlot(c, s);
    if AtEpochEnd(c, s1) {
      var _, _, _, s4 := EpochStages(c, s1);
    }
  }

  /** A step either leaves its slot and records one root, or touches neither slot nor roots. */
  lemma {:induction false} StepRecords(c: Config, s: BeaconState, s': BeaconState)
    requires Step(c, s, s')
    ensures Shape(c, s')
    ensures (s'.slot == s.slot && s'.blockRoots == s.blockRoots)
         || (s'.slot == s.slot + 1
             && s'.blockRoots == s.blockRoots[Mod(s.slot, c.slotsPerHistoricalRoot) := RecordedRoot(c, s)])
  {
    hide AdvanceSlot, ProcessHeader, ProcessRandao, ProcessEth1Data, ApplyOperation;
    var a :| Act(c, s, a) == Ok(s');
    if a.Advance? {
      AdvanceRecords(c, s);
    }
  }

  /** Whenever a root lookup succeeds, it answers with the root recorded when the run left that slot. */
  lemma {:induction false} LookupFindsRecord(c: Config, t: seq<BeaconState>, j: nat, slot: Slot) returns (k: nat)
    requires Run(c, t) && j < |t| && Shape(c, t[j])
    requires BlockRootAtSlot(c, t[j], slot).Ok?
    ensures k < j && Leaves(t, k, slot)
    ensures BlockRootAtSlot(c, t[j], slot) == Ok(RecordedRoot(c, t[k]))
  {
    hide Act, GenesisState, RecordedRoot;
    assert t[0].slot == 0;
    assert Step(c, t[j - 1], t[j - 1 + 1]);
    hide Step;
    StepRecords(c, t[j - 1], t[j]);
    if t[j - 1].slot == slot && t[j].slot == slot + 1 {
      k := j - 1;
    } else {
      if t[j].slot != t[j - 1].slot {
        ModDistinct(slot, t[j - 1].slot, c.slotsPerHistoricalRoot);
      }
      k := LookupFindsRecord(c, t, j - 1, slot);
    }
  }

  lemma {:induction false} SlotsGrow(c: Config, t: seq<BeaconState>, i: nat, j: nat)
    requires Path(c, t) && i <= j < |t|
    ensures t[i].slot <= t[j].slot
    decreases j
  {
    hide Act;
    if i < j {
      SlotsGrow(c, t, i, j - 1);
      assert Step(c, t[j - 1], t[j - 1 + 1]);
    }
  }

  /** A run leaves a slot once. */
  lemma {:induction false} LeavesOnce(c: Config, t: seq<BeaconState>, k: nat, k': nat, slot: Slot)
    requires Path(c, t) && Leaves(t, k, slot) && Leaves(t, k', slot)
    ensures k == k'
  {
    hide Step;
    if k < k' {
      SlotsGrow(c, t, k + 1, k');
    } else if k' < k {
      SlotsGrow(c, t, k' + 1, k);
    }
  }

  // Slots compose

  /** Advancing to `a` and then to `b` is advancing to `b`. */
  lemma {:induction false} SlotsCompose(c: Config, s: BeaconState, a: Slot, b: Slot)
    requires Shape(c, s) && s.slot <= a <= b
    ensures ProcessSlots(c, s, b) ==
      match ProcessSlots(c, s, a) { case Ok(s1) => ProcessSlots(c, s1, b) case Err(e) => Err(e) }
    decreases a - s.slot
  {
    hide AdvanceSlot;
    if s.slot < a && AdvanceSlot(c, s).Ok? {
      SlotsCompose(c, AdvanceSlot(c, s).value, a, b);
    }
  }

  /** The states that the slot loop hands to the epoch transition on its way to `slot`. */
  ghost function EpochTransitions(c: Config, s: BeaconState, slot: Slot): seq<BeaconState>
    requires Shape(c, s) && ProcessSlots(c, s, slot).Ok?
    decreases slot - s.slot
  {
    if s.slot == slot then []
    else
      var s1 := ProcessSlot(c, s);
      (if AtEpochEnd(c, s1) then [s1] else []) + EpochTransitions(c, AdvanceSlot(c, s).value, slot)
  }

  /** A successful epoch transition at the last slot before epoch `e`. */
  ghost predicate EntersEpoch(c: Config, s: BeaconState, e: Epoch) {
    Shape(c, s) && ProcessEpoch(c, s).Ok? && s.slot + 1 == StartSlot(c, e)
  }

  /** The slot loop makes one epoch transition for every boundary it crosses, at the last slot before it. */
  lemma {:induction false} TransitionPerBoundary(c: Config, s: BeaconState, slot: Slot)
    requires Shape(c, s) && ProcessSlots(c, s, slot).Ok?
    ensures EpochOf(c, s.slot) + |EpochTransitions(c, s, slot)| == EpochOf(c, slot)
    ensures forall i :: 0 <= i < |EpochTransitions(c, s, slot)| ==>
      EntersEpoch(c, EpochTransitions(c, s, slot)[i], EpochOf(c, s.slot) + i + 1)
    decreases slot - s.slot
  {
    hide AdvanceSlot, ProcessSlot, EntersEpoch, EpochOf;
    if s.slot < slot {
      TransitionPerBoundary(c, AdvanceSlot(c, s).value, slot);
      TurnEnters(c, s);
    }
  }

  lemma {:induction false} TurnEnters(c: Config, s: BeaconState)
    requires Shape(c, s) && AdvanceSlot(c, s).Ok?
    ensures var s1 := ProcessSlot(c, s);
      if AtEpochEnd(c, s1)
      then EpochOf(c, s.slot + 1) == EpochOf(c, s.slot) + 1 && EntersEpoch(c, s1, EpochOf(c, s.slot) + 1)
      else EpochOf(c, s.slot + 1) == EpochOf(c, s.slot)
  {
    hide ProcessEpoch, StartSlot, Div, Mod;
    EpochOfNextSlot(c, s.slot);
    var s1 := ProcessSlot(c, s);
    if AtEpochEnd(c, s1) {
      LastSlot(c, s1);
      NextStart(c, CurrentEpoch(c, s));
    }
  }

  lemma NextStart(c: Config, e: Epoch)
    ensures StartSlot(c, e + 1) == StartSlot(c, e) + c.slotsPerEpoch
  {
  }

  // Epoch ends of a run

  /** Step `k` of the run is the one that ends an epoch. */
  predicate EndsEpoch(c: Config, t: seq<BeaconState>, k: nat)
    requires ValidConfig(c)
  {
    k + 1 < |t| && CurrentEpoch(c, t[k + 1]) == CurrentEpoch(c, t[k]) + 1
  }

  /** Only the slot loop ends an epoch, by an epoch transition. */
  lemma {:induction false} EpochEndStep(c: Config, s: BeaconState, s': BeaconState)
    requires Step(c, s, s') && CurrentEpoch(c, s') == CurrentEpoch(c, s) + 1
    ensures Shape(c, s) && Shape(c, s') && AtEpochEnd(c, s) && ProcessEpoch(c, ProcessSlot(c, s)).Ok?
    ensures s' == ProcessEpoch(c, ProcessSlot(c, s)).value.(slot := s.slot + 1)
  {
    hide ProcessEpoch, ApplyOperation, ProcessHeader, ProcessRandao, ProcessEth1Data, Div, Mod;
    var a :| Act(c, s, a) == Ok(s');
    EpochOfNextSlot(c, s.slot);
  }

  lemma {:induction false} RunEpochEnd(c: Config, t: seq<BeaconState>, k: nat)
    requires Run(c, t) && EndsEpoch(c, t, k)
    ensures Step(c, t[k], t[k + 1])
    ensures Shape(c, t[k]) && Shape(c, t[k + 1]) && AtEpochEnd(c, t[k]) && ProcessEpoch(c, ProcessSlot(c, t[k])).Ok?
    ensures t[k + 1] == ProcessEpoch(c, ProcessSlot(c, t[k])).value.(slot := t[k].slot + 1)
  {
    hide Step, IsGenesis, CurrentEpoch;
    EpochEndStep(c, t[k], t[k + 1]);
  }

  /** A run that has left epoch `e` ended it at some step. */
  lemma {:induction false} EndOfEpoch(c: Config, t: seq<BeaconState>, j: nat, e: Epoch) returns (k: nat)
    requires Run(c, t) && j < |t| && CurrentEpoch(c, t[j]) > e
    ensures k < j && EndsEpoch(c, t, k) && CurrentEpoch(c, t[k]) == e
  {
    hide Act, GenesisState;
    assert t[0].slot == 0;
    assert Step(c, t[j - 1], t[j - 1 + 1]);
    hide Step, Div;
    StepRecords(c, t[j - 1], t[j]);
    EpochOfNextSlot(c, t[j - 1].slot);
    if CurrentEpoch(c, t[j - 1]) == e {
      k := j - 1;
    } else {
      k := EndOfEpoch(c, t, j - 1, e);
    }
  }

  // Slashings

  /** The balances of the validators a step slashes. */
  function NewlySlashed(vs: seq<Validator>, vs': seq<Validator>): Gwei
    requires |vs| <= |vs'|
  {
    if vs == [] then 0
    else
      var n := |vs| - 1;
      NewlySlashed(vs[..n], vs') + if !vs[n].slashed && vs'[n].slashed then vs[n].effectiveBalance else 0
  }

  /** Everything slashed in epoch `e` up to the end of the run. */
  ghost function SlashedDuring(c: Config, t: seq<BeaconState>, e: Epoch): Gwei
    requires ValidConfig(c)
    requires forall k :: 0 <= k < |t| - 1 ==> |t[k].validators| <= |t[k + 1].validators|
  {
    if |t| <= 1 then 0
    else
      var n := |t| - 1;
      SlashedDuring(c, t[..n], e)
        + if CurrentEpoch(c, t[n - 1]) == e then NewlySlashed(t[n - 1].validators, t[n].validators) else 0
  }

  lemma {:induction false} NobodySlashed(vs: seq<Validator>, vs': seq<Validator>)
    requires |vs| <= |vs'| && forall i :: 0 <= i < |vs| ==> (vs'[i].slashed ==> vs[i].slashed)
    ensures NewlySlashed(vs, vs') == 0
  {
    if vs != [] {
      NobodySlashed(vs[..|vs| - 1], vs');
    }
  }

  lemma {:induction false} OneSlashed(vs: seq<Validator>, vs': seq<Validator>, i: ValidatorIndex)
    requires |vs| <= |vs'| && i < |vs| && !vs[i].slashed && vs'[i].slashed
    requires forall k :: 0 <= k < |vs| && k != i ==> vs'[k].slashed == vs[k].slashed
    ensures NewlySlashed(vs, vs') == vs[i].effectiveBalance
  {
    var n := |vs| - 1;
    if i == n {
      NobodySlashed(vs[..n], vs');
    } else {
      OneSlashed(vs[..n], vs', i);
    }
  }

  predicate SlashedOnly(vs: seq<Validator>, vs': seq<Validator>) {
    && |vs| <= |vs'|
    && forall i :: 0 <= i < |vs| ==>
         vs'[i].effectiveBalance == vs[i].effectiveBalance && (vs[i].slashed ==> vs'[i].slashed)
  }

  lemma {:induction false} SlashedAdds(vs: seq<Validator>, vs': seq<Validator>, vs'': seq<Validator>)
    requires SlashedOnly(vs, vs') && SlashedOnly(vs', vs'') && |vs| == |vs'|
    ensures NewlySlashed(vs, vs'') == NewlySlashed(vs, vs') + NewlySlashed(vs', vs'')
  {
    SlashedAddsUpTo(vs, vs', vs'', |vs|);
    assert vs[..|vs|] == vs && vs'[..|vs|] == vs';
  }

  lemma {:induction false} SlashedAddsUpTo(vs: seq<Validator>, vs': seq<Validator>, vs'': seq<Validator>, n: nat)
    requires SlashedOnly(vs, vs') && SlashedOnly(vs', vs'') && n <= |vs|
    ensures NewlySlashed(vs[..n], vs'') == NewlySlashed(vs[..n], vs') + NewlySlashed(vs'[..n], vs'')
  {
    if n > 0 {
      SlashedAddsUpTo(vs, vs', vs'', n - 1);
      assert vs[..n][..n - 1] == vs[..n - 1] && vs'[..n][..n - 1] == vs'[..n - 1];
    }
  }

  /** The ring entry of the current epoch grows by what is slashed. */
  ghost predicate RingAdds(c: Config, s: BeaconState, s': BeaconState)
    requires Shape(c, s)
  {
    && SlashedOnly(s.validators, s'.validators)
    && var m := Mod(CurrentEpoch(c, s), c.epochsPerSlashingsVector);
       s'.slashings == s.slashings[m := s.slashings[m] + NewlySlashed(s.validators, s'.validators)]
  }

  lemma {:induction false} SlashAdds(c: Config, s: BeaconState, i: ValidatorIndex)
    requires Shape(c, s) && i < |s.validators| && !s.validators[i].slashed
    ensures RingAdds(c, s, MarkSlashed(c, s, i))
  {
    hide ExitQueueEpoch;
    OneSlashed(s.validators, MarkSlashed(c, s, i).validators, i);
  }

  lemma {:induction false} NothingAdds(c: Config, s: BeaconState, s': BeaconState)
    requires Shape(c, s) && s'.slashings == s.slashings && SlashedOnly(s.validators, s'.validators)
    requires forall i :: 0 <= i < |s.validators| ==> s'.validators[i].slashed == s.validators[i].slashed
    ensures RingAdds(c, s, s')
  {
    NobodySlashed(s.validators, s'.validators);
  }

  lemma {:induction false} RingAddsTransitive(c: Config, s: BeaconState, s': BeaconState, s'': BeaconState)
    requires Shape(c, s) && Shape(c, s') && s'.slot == s.slot && |s'.validators| == |s.validators|
    requires RingAdds(c, s, s') && RingAdds(c, s', s'')
    ensures RingAdds(c, s, s'')
  {
    SlashedAdds(s.validators, s'.validators, s''.validators);
  }

  lemma {:induction false} SlashAllAdds(c: Config, s: BeaconState, indices: seq<ValidatorIndex>)
    requires Shape(c, s) && SlashAll(c, s, indices).Ok?
    ensures RingAdds(c, s, SlashAll(c, s, indices).value.0)
    decreases |indices|
  {
    if indices == [] {
      NothingAdds(c, s, s);
    } else {
      var n := |indices| - 1;
      SlashAllAdds(c, s, indices[..n]);
      var before := SlashAll(c, s, indices[..n]).value.0;
      hide MarkSlashed, RingAdds;
      if before.validators[indices[n]].IsSlashable(CurrentEpoch(c, before)) {
        SlashAdds(c, before, indices[n]);
        var after := SlashValidator(c, before, indices[n], None).value;
        RingAddsDependsOn(c, before, MarkSlashed(c, before, indices[n]), after);
        hide SlashValidator;
        RingAddsTransitive(c, s, before, after);
      }
    }
  }

  lemma RingAddsDependsOn(c: Config, s: BeaconState, s': BeaconState, s'': BeaconState)
    requires Shape(c, s) && RingAdds(c, s, s')
    requires s''.slashings == s'.slashings && s''.validators == s'.validators
    ensures RingAdds(c, s, s'')
  {
  }

  lemma {:induction false} OperationAdds(c: Config, s: BeaconState, tx: Transaction)
    requires Shape(c, s) && ApplyOperation(c, s, tx).Ok?
    ensures RingAdds(c, s, ApplyOperation(c, s, tx).value)
  {
    var s' := ApplyOperation(c, s, tx).value;
    match tx
    case OfProposerSlashing(p) =>
      SlashAdds(c, s, p.proposerIndex);
      hide MarkSlashed, RingAdds;
      RingAddsDependsOn(c, s, MarkSlashed(c, s, p.proposerIndex), s');
    case OfAttesterSlashing(a) =>
      SlashAllAdds(c, s, AccusedIndices(a));
    case OfAttestation(_) =>
      hide RingAdds;
      NothingAdds(c, s, s');
    case OfDeposit(_) =>
      hide RingAdds, NewValidator;
      NothingAdds(c, s, s');
    case OfVoluntaryExit(_) =>
      hide RingAdds, ExitQueueEpoch;
      NothingAdds(c, s, s');
  }
}
