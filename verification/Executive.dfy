/**
 The executive: an object that holds the state and changes it step by step. Every method is proved
 to leave the state that the corresponding function of the transition computes. Where the proposer
 search takes part, a method is called only when the function does not report that it diverges.
 */
module Executive {
  import opened Bytes
  import opened BeaconTypes
  import opened Accessors
  import opened Mutators
  import opened EpochProcessing
  import opened BlockProcessing
  import opened Transition
  import opened Builder
  import opened Accused
  import opened Arith
  import J = Justification
  import Merkle
  import Rewards
  import Shuffle
  import Sorting

  /** The method's outcome and the state it leaves are what the function computes. */
  ghost predicate Agrees(spec: Result<BeaconState>, r: Result<()>, s: BeaconState) {
    match spec
    case Ok(s') => r.Ok? && s == s'
    case Err(e) => r == Err(e)
  }

  method LatestExit(vs: seq<Validator>) returns (last: Epoch)
    ensures last == LastExit(vs)
  {
    last := 0;
    for k := 0 to |vs|
      invariant last == LastExit(vs[..k])
    {
      assert vs[..k + 1][..k] == vs[..k];
      if vs[k].exitEpoch != FAR_FUTURE_EPOCH {
        last := Max(last, vs[k].exitEpoch);
      }
    }
    assert vs[..|vs|] == vs;
  }

  method ExitsAt(vs: seq<Validator>, epoch: Epoch) returns (count: nat)
    ensures count == CountExits(vs, epoch)
  {
    count := 0;
    for k := 0 to |vs|
      invariant count == CountExits(vs[..k], epoch)
    {
      assert vs[..k + 1][..k] == vs[..k];
      if vs[k].exitEpoch == epoch {
        count := count + 1;
      }
    }
    assert vs[..|vs|] == vs;
  }

  method SumOf(xs: seq<nat>) returns (sum: nat)
    ensures sum == Sum(xs)
  {
    sum := 0;
    for k := 0 to |xs|
      invariant sum == Sum(xs[..k])
    {
      assert xs[..k + 1][..k] == xs[..k];
      sum := sum + xs[k];
    }
    assert xs[..|xs|] == xs;
  }

  method WithoutRepeats(xs: seq<ValidatorIndex>) returns (full: seq<ValidatorIndex>)
    ensures full == Sorting.Dedup([], xs)
  {
    full := [];
    assert xs[0..] == xs;
    for k := 0 to |xs|
      invariant Sorting.Dedup([], xs) == Sorting.Dedup(full, xs[k..])
    {
      if xs[k] !in full {
        full := full + [xs[k]];
      }
    }
  }

  class BeaconExecutive {
    const c: Config
    var state: BeaconState

    constructor (c: Config, state: BeaconState)
      ensures this.c == c && this.state == state
    {
      this.c, this.state := c, state;
    }

    // Queries with loops

    method BeaconProposerIndex() returns (r: Result<ValidatorIndex>)
      requires Shape(c, state) && ProposerIndex(c, state) != Err(Diverges)
      ensures r == ProposerIndex(c, state)
    {
      hide ProposerSeed, Shuffle.ShuffledIndex, Candidate, RandomByte, ActiveIndices, Accepts;
      var indices := ActiveIndices(state.validators, CurrentEpoch(c, state));
      var seed := ProposerSeed(c, state);
      if indices == [] {
        return Err(Panicked);
      }
      if |indices| > Shuffle.MAX_SHUFFLE_COUNT {
        return Err(IndexOutOfRange);
      }
      ghost var limit: nat :| Accepts(c, state, limit);
      var i: nat := 0;
      while true
        invariant i <= limit && forall j: nat :: j < i ==> !Accepts(c, state, j)
        decreases limit - i
      {
        var k := Shuffle.ComputeShuffledIndex(c, Mod(i, |indices|), |indices|, seed);
        Attempt(c, state, i, k);
        var candidate := indices[k.value];
        if state.validators[candidate].effectiveBalance * 255 >= c.maxEffectiveBalance * RandomByte(c, seed, i) {
          ProposerIs(c, state, i);
          return Ok(candidate);
        }
        i := i + 1;
      }
    }

    method ValidatorChurnLimit() returns (limit: nat)
      requires Shape(c, state)
      ensures limit == ChurnLimit(c, state)
    {
      hide ActiveIndices;
      var active := |ActiveIndices(state.validators, CurrentEpoch(c, state))|;
      DivModAreOperators(active, c.churnLimitQuotient);
      limit := active / c.churnLimitQuotient;
      if limit < c.minPerEpochChurnLimit {
        limit := c.minPerEpochChurnLimit;
      }
    }

    method TotalBalanceOf(indices: seq<ValidatorIndex>) returns (total: Gwei)
      requires InRange(indices, |state.validators|)
      ensures total == TotalBalance(state, indices)
    {
      total := 0;
      for k := 0 to |indices|
        invariant total == SumEffective(state.validators, indices[..k])
      {
        assert indices[..k + 1][..k] == indices[..k];
        total := total + state.validators[indices[k]].effectiveBalance;
      }
      assert indices[..|indices|] == indices;
      if total < 1 {
        total := 1;
      }
    }

    /** Fails with a panic when an index to be aggregated is not registered. */
    method IsValidIndexed(a: IndexedAttestation) returns (r: Result<bool>)
      requires Shape(c, state)
      ensures r == IsValidIndexedAttestation(c, state, a)
    {
      hide Domain;
      if |a.custodyBit1Indices| > 0 {
        return Ok(false);
      }
      var indices := a.custodyBit0Indices;
      if !(|indices| + |a.custodyBit1Indices| <= c.maxValidatorsPerCommittee) {
        return Ok(false);
      }
      var w := 0;
      while w + 1 < |indices|
        invariant forall i :: 0 <= i < w && i + 1 < |indices| ==> indices[i] <= indices[i + 1]
      {
        if indices[w] > indices[w + 1] {
          return Ok(false);
        }
        w := w + 1;
      }
      var keys: seq<Pubkey> := [];
      for k := 0 to |indices|
        invariant InRange(indices[..k], |state.validators|) && keys == Pubkeys(state.validators, indices[..k])
      {
        if indices[k] >= |state.validators| {
          return Err(Panicked);
        }
        keys := keys + [state.validators[indices[k]].pubkey];
      }
      assert indices[..|indices|] == indices;
      return Ok(c.crypto.verifyMultiple(
        [c.crypto.aggregatePubkeys(keys), c.crypto.aggregatePubkeys([])],
        [c.crypto.attestationRoot(a.data, false), c.crypto.attestationRoot(a.data, true)],
        a.signature,
        Domain(c, state, DOMAIN_BEACON_ATTESTER, Some(a.data.target.epoch))));
    }

    /** Collects without repetition, drops the slashed and sorts. */
    method UnslashedAttestingIndices(attestations: seq<PendingAttestation>) returns (r: Result<seq<ValidatorIndex>>)
      requires Shape(c, state)
      ensures r == UnslashedAttesting(c, state, attestations)
    {
      hide AttestingIndices;
      ghost var lists := AttesterLists(c, state, attestations);
      var n := |state.validators|;
      var ret: seq<ValidatorIndex> := [];
      for k := 0 to |attestations|
        invariant DistinctInRange(ret, n) && Union(lists[..k], n) == Ok(ret)
      {
        assert lists[..k + 1][..k] == lists[..k];
        var indices := AttestingIndices(c, state, attestations[k].data, attestations[k].aggregationBits);
        if indices.Err? {
          UnionStops(lists, k + 1, n);
          return Err(indices.error);
        }
        ghost var before := ret;
        for j := 0 to |indices.value|
          invariant Sorting.Dedup(before, indices.value) == Sorting.Dedup(ret, indices.value[j..])
        {
          if indices.value[j] !in ret {
            ret := ret + [indices.value[j]];
          }
        }
        assert ret == AddAttesters(before, indices.value, n);
      }
      assert lists[..|attestations|] == lists;
      var retained := RetainUnslashed(state.validators, ret);
      return Ok(Sorting.Sort(retained));
    }

    // Mutators

    method IncreaseBalance(i: ValidatorIndex, delta: Gwei)
      requires i < |state.balances|
      modifies this
      ensures state == Mutators.IncreaseBalance(old(state), i, delta)
      ensures state == old(state).(balances := state.balances) && |state.balances| == |old(state).balances|
      ensures state.balances[i] == old(state).balances[i] + delta
      ensures forall j :: 0 <= j < |state.balances| && j != i ==> state.balances[j] == old(state).balances[j]
    {
      state := state.(balances := state.balances[i := state.balances[i] + delta]);
    }

    method DecreaseBalance(i: ValidatorIndex, delta: Gwei)
      requires i < |state.balances|
      modifies this
      ensures state == Mutators.DecreaseBalance(old(state), i, delta)
      ensures state == old(state).(balances := state.balances) && |state.balances| == |old(state).balances|
      ensures delta <= old(state).balances[i] ==> state.balances[i] + delta == old(state).balances[i]
      ensures delta > old(state).balances[i] ==> state.balances[i] == 0
      ensures forall j :: 0 <= j < |state.balances| && j != i ==> state.balances[j] == old(state).balances[j]
    {
      var balance := state.balances[i];
      state := state.(balances := state.balances[i := if balance >= delta then balance - delta else 0]);
    }

    method InitiateValidatorExit(i: ValidatorIndex)
      requires Shape(c, state) && i < |state.validators|
      modifies this
      ensures state == InitiateExit(c, old(state), i) && Shape(c, state)
    {
      hide ChurnLimit, LastExit, CountExits;
      var vs := state.validators;
      if vs[i].exitEpoch != FAR_FUTURE_EPOCH {
        return;
      }
      var last := LatestExit(vs);
      var epoch := Max(last, ActivationExitEpoch(c, CurrentEpoch(c, state)));
      var churn := ExitsAt(vs, epoch);
      var limit := ValidatorChurnLimit();
      if churn >= limit {
        epoch := epoch + 1;
      }
      state := state.(validators := vs[i := vs[i].(
        exitEpoch := epoch, withdrawableEpoch := epoch + c.minValidatorWithdrawabilityDelay)]);
    }

    /** Queues the exit, marks the record, adds to the ring and takes the first penalty. */
    method MarkAndPenalize(i: ValidatorIndex) returns (balance: Gwei)
      requires Shape(c, state) && i < |state.validators|
      modifies this
      ensures state == MarkSlashed(c, old(state), i) && Shape(c, state)
      ensures balance == old(state).validators[i].effectiveBalance
    {
      hide InitiateExit, Mod, Div;
      var now := CurrentEpoch(c, state);
      ExitKeepsBalance(c, state, i);
      InitiateValidatorExit(i);
      state := state.(validators := state.validators[i := state.validators[i].(slashed := true)]);
      state := state.(validators := state.validators[i := state.validators[i].(
        withdrawableEpoch := Max(state.validators[i].withdrawableEpoch, now + c.epochsPerSlashingsVector))]);
      balance := state.validators[i].effectiveBalance;
      var k := Mod(now, c.epochsPerSlashingsVector);
      state := state.(slashings := state.slashings[k := state.slashings[k] + balance]);
      DecreaseBalance(i, Div(balance, c.minSlashingPenaltyQuotient));
    }

    method SlashValidator(i: ValidatorIndex, whistleblower: Option<ValidatorIndex>) returns (r: Result<()>)
      requires Shape(c, state) && i < |state.validators|
      requires Mutators.SlashValidator(c, state, i, whistleblower) != Err(Diverges)
      modifies this
      ensures Agrees(Mutators.SlashValidator(c, old(state), i, whistleblower), r, state)
      ensures Shape(c, state)
    {
      hide ProposerIndex, MarkSlashed, Div;
      var balance := MarkAndPenalize(i);
      var proposer := BeaconProposerIndex();
      if proposer.Err? {
        return Err(proposer.error);
      }
      var rewarded := if whistleblower.Some? then whistleblower.value else proposer.value;
      var reward := Div(balance, c.whistleblowerRewardQuotient);
      var proposerReward := Div(reward, c.proposerRewardQuotient);
      if rewarded >= |state.balances| {
        return Err(Panicked);
      }
      IncreaseBalance(proposer.value, proposerReward);
      IncreaseBalance(rewarded, reward - proposerReward);
      return Ok(());
    }

    // The epoch transition

    method TargetBalance(epoch: Epoch) returns (r: Result<Gwei>)
      requires Shape(c, state)
      ensures r == AttestingTargetBalance(c, state, epoch)
    {
      hide MatchingTarget, UnslashedAttesting;
      var attestations := MatchingTarget(c, state, epoch);
      if attestations.Err? {
        return Err(attestations.error);
      }
      var indices := UnslashedAttestingIndices(attestations.value);
      if indices.Err? {
        return Err(indices.error);
      }
      var total := TotalBalanceOf(indices.value);
      return Ok(total);
    }

    /** Copies the finality fields out, runs the justifier and writes them back. */
    method ProcessJustificationAndFinalization() returns (r: Result<()>)
      requires Shape(c, state)
      modifies this
      ensures Agrees(ProcessJustification(c, old(state)), r, state) && Shape(c, state)
    {
      hide BlockRoot, AttestingTargetBalance, TotalActiveBalance, J.Process;
      if CurrentEpoch(c, state) <= GENESIS_EPOCH + 1 {
        return Ok(());
      }
      var previous, current := PreviousEpoch(c, state), CurrentEpoch(c, state);
      var previousRoot, currentRoot := BlockRoot(c, state, previous), BlockRoot(c, state, current);
      if previousRoot.Err? {
        return Err(previousRoot.error);
      }
      if currentRoot.Err? {
        return Err(currentRoot.error);
      }
      var previousBalance := TargetBalance(previous);
      if previousBalance.Err? {
        return Err(previousBalance.error);
      }
      var currentBalance := TargetBalance(current);
      if currentBalance.Err? {
        return Err(currentBalance.error);
      }
      var justifier := new J.Justifier(FinalityOf(state));
      justifier.ProcessEpoch(
        J.Ballot(Checkpoint(previous, previousRoot.value), Checkpoint(current, currentRoot.value),
                 previousBalance.value, currentBalance.value, TotalActiveBalance(c, state)));
      state := state.(
        justificationBits := justifier.bits[..],
        currentJustifiedCheckpoint := justifier.currentJustified,
        previousJustifiedCheckpoint := justifier.previousJustified,
        finalizedCheckpoint := justifier.finalized);
      return Ok(());
    }

    /** Each validator's reward and penalty in turn, although both come from the state before. */
    method ProcessRewardsAndPenalties() returns (r: Result<()>)
      requires Shape(c, state)
      modifies this
      ensures Agrees(ProcessRewards(c, old(state)), r, state) && Shape(c, state)
    {
      hide GatherInputs, InclusionsSound, Reward, Penalty, InputsInRange;
      if CurrentEpoch(c, state) == GENESIS_EPOCH {
        return Ok(());
      }
      var deltas := Rewards.AttestationDeltas(c, state);
      if deltas.Err? {
        return Err(deltas.error);
      }
      ghost var x := GatherInputs(c, state).value;
      for i := 0 to |state.validators|
        invariant state == old(state).(balances := state.balances) && Shape(c, state)
        invariant forall j :: 0 <= j < i ==> state.balances[j] == RewardedBalance(c, old(state), x, j)
        invariant forall j :: i <= j < |state.balances| ==> state.balances[j] == old(state).balances[j]
      {
        IncreaseBalance(i, deltas.value.0[i]);
        DecreaseBalance(i, deltas.value.1[i]);
      }
      assert state.balances == RewardedBalances(c, old(state), x);
      return Ok(());
    }

    /** Marks who became eligible and ejects whose balance is too low. */
    method SweepValidators()
      requires Shape(c, state)
      modifies this
      ensures state == SweepRegistry(c, old(state), |old(state).validators|)
      ensures Shape(c, state) && |state.validators| == |old(state).validators| && state.slot == old(state).slot
    {
      hide InitiateExit;
      var now := CurrentEpoch(c, state);
      for i := 0 to |state.validators|
        invariant Shape(c, state) && |state.validators| == |old(state).validators| && state.slot == old(state).slot
        invariant state == SweepRegistry(c, old(state), i)
      {
        if state.validators[i].activationEligibilityEpoch == FAR_FUTURE_EPOCH
           && state.validators[i].effectiveBalance == c.maxEffectiveBalance {
          state := state.(validators := state.validators[i := state.validators[i].(activationEligibilityEpoch := now)]);
        }
        if state.validators[i].IsActive(now) && state.validators[i].effectiveBalance <= c.ejectionBalance {
          InitiateValidatorExit(i);
        }
      }
    }

    method ActivateEach(admitted: seq<ValidatorIndex>)
      requires Shape(c, state) && InRange(admitted, |state.validators|)
      modifies this
      ensures state == old(state).(
                validators := Activate(c, CurrentEpoch(c, old(state)), old(state).validators, admitted))
    {
      var now := CurrentEpoch(c, state);
      for k := 0 to |admitted|
        invariant |state.validators| == |old(state).validators|
        invariant state == old(state).(validators := Activate(c, now, old(state).validators, admitted[..k]))
      {
        assert admitted[..k + 1][..k] == admitted[..k];
        var v := state.validators[admitted[k]];
        if v.activationEpoch == FAR_FUTURE_EPOCH {
          state := state.(validators :=
            state.validators[admitted[k] := v.(activationEpoch := ActivationExitEpoch(c, now))]);
        }
      }
      assert admitted[..|admitted|] == admitted;
    }

    method ProcessRegistryUpdates()
      requires Shape(c, state)
      modifies this
      ensures state == ProcessRegistry(c, old(state)) && Shape(c, state)
    {
      hide SweepRegistry, ActivationQueue, ChurnLimit, Activate;
      SweepValidators();
      var queue := ActivationQueue(c, state);
      var limit := ValidatorChurnLimit();
      ActivateEach(queue[..Min(|queue|, limit)]);
    }

    method ProcessSlashings()
      requires Shape(c, state)
      modifies this
      ensures state == EpochProcessing.ProcessSlashings(c, old(state)) && Shape(c, state)
    {
      hide ActiveIndices, TotalBalance, Sum;
      var now := CurrentEpoch(c, state);
      var total := TotalBalanceOf(ActiveIndices(state.validators, now));
      var increment := c.effectiveBalanceIncrement;
      ghost var after := EpochProcessing.ProcessSlashings(c, state);
      for i := 0 to |state.validators|
        invariant state == old(state).(balances := state.balances) && Shape(c, state)
        invariant forall j :: 0 <= j < i ==> state.balances[j] == after.balances[j]
        invariant forall j :: i <= j < |state.balances| ==> state.balances[j] == old(state).balances[j]
      {
        var v := state.validators[i];
        if v.slashed && now + c.epochsPerSlashingsVector / 2 == v.withdrawableEpoch {
          var slashed := SumOf(state.slashings);
          var numerator := Mul(Div(v.effectiveBalance, increment), Min(slashed * 3, total));
          DecreaseBalance(i, Mul(Div(numerator, total), increment));
        }
      }
      assert state.balances == after.balances;
    }

    method ProcessFinalUpdates()
      requires Shape(c, state)
      modifies this
      ensures state == EpochProcessing.ProcessFinalUpdates(c, old(state)) && Shape(c, state)
    {
      hide Mod, Div;
      var now := CurrentEpoch(c, state);
      var next := now + 1;
      ghost var after := EpochProcessing.ProcessFinalUpdates(c, state);
      if Mod(state.slot + 1, c.slotsPerEth1VotingPeriod) == 0 {
        state := state.(eth1DataVotes := []);
      }
      UpdateEffectiveBalances();
      state := state.(slashings := state.slashings[Mod(next, c.epochsPerSlashingsVector) := 0]);
      state := state.(randaoMixes :=
        state.randaoMixes[Mod(next, c.epochsPerHistoricalVector) := RandaoMix(c, state, now)]);
      HistoricalPeriodPositive(c);
      if Mod(next, Div(c.slotsPerHistoricalRoot, c.slotsPerEpoch)) == 0 {
        state := state.(historicalRoots :=
          state.historicalRoots + [c.crypto.batchRoot(state.blockRoots, state.stateRoots)]);
      }
      state := state.(previousEpochAttestations := state.currentEpochAttestations);
      state := state.(currentEpochAttestations := []);
    }

    method UpdateEffectiveBalances()
      requires Shape(c, state)
      modifies this
      ensures state == old(state).(validators := UpdatedEffective(c, old(state)))
    {
      hide Mod;
      ghost var after := UpdatedEffective(c, state);
      for i := 0 to |state.validators|
        invariant state == old(state).(validators := state.validators) && |state.validators| == |after|
        invariant forall j :: 0 <= j < i ==> state.validators[j] == after[j]
        invariant forall j :: i <= j < |after| ==> state.validators[j] == old(state).validators[j]
      {
        var v, balance, half := state.validators[i], state.balances[i], c.effectiveBalanceIncrement / 2;
        if balance < v.effectiveBalance || v.effectiveBalance + 3 * half < balance {
          state := state.(validators := state.validators[i := v.(effectiveBalance :=
            Min(balance - Mod(balance, c.effectiveBalanceIncrement), c.maxEffectiveBalance))]);
        }
      }
      assert state.validators == after;
    }

    method ProcessEpoch() returns (r: Result<()>)
      requires Shape(c, state)
      modifies this
      ensures Agrees(EpochProcessing.ProcessEpoch(c, old(state)), r, state) && Shape(c, state)
    {
      hide ProcessJustification, ProcessRewards, ProcessRegistry,
        EpochProcessing.ProcessSlashings, EpochProcessing.ProcessFinalUpdates;
      r := ProcessJustificationAndFinalization();
      if r.Err? {
        return;
      }
      r := ProcessRewardsAndPenalties();
      if r.Err? {
        return;
      }
      ProcessRegistryUpdates();
      ProcessSlashings();
      ProcessFinalUpdates();
    }

    // Slots

    method ProcessSlot()
      requires Shape(c, state)
      modifies this
      ensures state == Transition.ProcessSlot(c, old(state)) && Shape(c, state)
    {
      hide Mod;
      var k := Mod(state.slot, c.slotsPerHistoricalRoot);
      var stateRoot := c.crypto.stateRoot(state);
      state := state.(stateRoots := state.stateRoots[k := stateRoot]);
      if state.latestBlockHeader.stateRoot == ZERO_HASH {
        state := state.(latestBlockHeader := state.latestBlockHeader.(stateRoot := stateRoot));
      }
      state := state.(blockRoots := state.blockRoots[k := c.crypto.headerRoot(Signing(state.latestBlockHeader))]);
    }

    method ProcessSlots(slot: Slot) returns (r: Result<()>)
      requires Shape(c, state)
      modifies this
      ensures Agrees(Transition.ProcessSlots(c, old(state), slot), r, state) && Shape(c, state)
    {
      hide EpochProcessing.ProcessEpoch, Transition.ProcessSlot, Transition.ProcessSlots, Mod;
      SlotsEnd(c, state, slot);
      if state.slot > slot {
        return Err(SlotOutOfRange);
      }
      while state.slot < slot
        invariant Shape(c, state) && state.slot <= slot
        invariant Transition.ProcessSlots(c, state, slot) == Transition.ProcessSlots(c, old(state), slot)
        decreases slot - state.slot
      {
        SlotsUnfold(c, state, slot);
        ProcessSlot();
        if Mod(state.slot + 1, c.slotsPerEpoch) == 0 {
          r := ProcessEpoch();
          if r.Err? {
            return;
          }
        }
        state := state.(slot := state.slot + 1);
      }
      SlotsEnd(c, state, slot);
      return Ok(());
    }

    // The block transition

    method ProcessBlockHeader(block: UnsealedBlock, signature: Option<Signature>) returns (r: Result<()>)
      requires Shape(c, state) && ProcessHeader(c, state, block, signature) != Err(Diverges)
      modifies this
      ensures Agrees(ProcessHeader(c, old(state), block, signature), r, state) && Shape(c, state)
    {
      hide ProposerIndex, Domain;
      if block.slot != state.slot {
        return Err(BlockSlotInvalid);
      }
      if block.parentRoot != c.crypto.headerRoot(Signing(state.latestBlockHeader)) {
        return Err(BlockPreviousRootInvalid);
      }
      state := state.(latestBlockHeader :=
        BlockHeader(block.slot, block.parentRoot, ZERO_HASH, c.crypto.bodyRoot(block.body), DEFAULT_SIGNATURE));
      var proposer := BeaconProposerIndex();
      if proposer.Err? {
        return Err(proposer.error);
      }
      var v := state.validators[proposer.value];
      if v.slashed {
        return Err(BlockProposerSlashed);
      }
      if signature.Some? && !c.crypto.verify(v.pubkey, c.crypto.blockRoot(block), signature.value,
                                             Domain(c, state, DOMAIN_BEACON_PROPOSER, None)) {
        return Err(BlockSignatureInvalid);
      }
      return Ok(());
    }

    method ProcessRandao(body: BlockBody) returns (r: Result<()>)
      requires Shape(c, state) && BlockProcessing.ProcessRandao(c, state, body) != Err(Diverges)
      modifies this
      ensures Agrees(BlockProcessing.ProcessRandao(c, old(state), body), r, state) && Shape(c, state)
    {
      hide ProposerIndex, Domain, Mod;
      var now := CurrentEpoch(c, state);
      var proposer := BeaconProposerIndex();
      if proposer.Err? {
        return Err(proposer.error);
      }
      if !c.crypto.verify(state.validators[proposer.value].pubkey, c.crypto.epochRoot(now), body.randaoReveal,
                          Domain(c, state, DOMAIN_RANDAO, None)) {
        return Err(RandaoSignatureInvalid);
      }
      var k := Mod(now, c.epochsPerHistoricalVector);
      state := state.(randaoMixes := state.randaoMixes[k :=
        c.crypto.xor(RandaoMix(c, state, now), c.crypto.hash(body.randaoReveal))]);
      return Ok(());
    }

    method ProcessEth1Data(body: BlockBody)
      modifies this
      ensures state == BlockProcessing.ProcessEth1Data(c, old(state), body)
      ensures Shape(c, old(state)) ==> Shape(c, state)
    {
      state := state.(eth1DataVotes := state.eth1DataVotes + [body.eth1Data]);
      var votes, count: nat := state.eth1DataVotes, 0;
      for k := 0 to |votes|
        invariant state == old(state).(eth1DataVotes := votes)
        invariant count == CountVotes(votes[..k], body.eth1Data)
      {
        assert votes[..k + 1][..k] == votes[..k];
        if votes[k] == body.eth1Data {
          count := count + 1;
        }
      }
      assert votes[..|votes|] == votes;
      if count * 2 > c.slotsPerEth1VotingPeriod {
        state := state.(eth1Data := body.eth1Data);
      }
    }

    method ProcessProposerSlashing(slashing: ProposerSlashing) returns (r: Result<()>)
      requires Shape(c, state) && BlockProcessing.ProcessProposerSlashing(c, state, slashing) != Err(Diverges)
      modifies this
      ensures Agrees(BlockProcessing.ProcessProposerSlashing(c, old(state), slashing), r, state) && Shape(c, state)
    {
      hide Mutators.SlashValidator, Domain;
      var index, headers := slashing.proposerIndex, [slashing.header1, slashing.header2];
      if slashing.header1.slot != slashing.header2.slot {
        return Err(ProposerSlashingInvalidSlot);
      }
      if slashing.header1 == slashing.header2 {
        return Err(ProposerSlashingSameHeader);
      }
      if index >= |state.validators| {
        return Err(ProposerSlashingInvalidProposerIndex);
      }
      var proposer := state.validators[index];
      if !proposer.IsSlashable(CurrentEpoch(c, state)) {
        return Err(ProposerSlashingAlreadySlashed);
      }
      for k := 0 to 2
        invariant state == old(state)
        invariant forall j :: 0 <= j < k ==> HeaderSigned(c, state, proposer.pubkey, headers[j])
      {
        var domain := Domain(c, state, DOMAIN_BEACON_PROPOSER, Some(EpochOf(c, headers[k].slot)));
        if !c.crypto.verify(proposer.pubkey, c.crypto.headerRoot(Signing(headers[k])), headers[k].signature, domain) {
          assert !HeaderSigned(c, state, proposer.pubkey, headers[k]);
          return Err(ProposerSlashingInvalidSignature);
        }
      }
      assert HeaderSigned(c, state, proposer.pubkey, headers[0]) && HeaderSigned(c, state, proposer.pubkey, headers[1]);
      r := SlashValidator(index, None);
    }

    /** Slashes in order whoever can be slashed; `any` tells whether someone was. */
    method SlashEach(indices: seq<ValidatorIndex>) returns (r: Result<bool>)
      requires Shape(c, state) && SlashAll(c, state, indices) != Err(Diverges)
      modifies this
      ensures r.Ok? ==> SlashAll(c, old(state), indices) == Ok((state, r.value))
      ensures r.Err? ==> SlashAll(c, old(state), indices) == Err(r.error)
      ensures Shape(c, state)
    {
      hide Mutators.SlashValidator;
      var any := false;
      ghost var s0 := state;
      for k := 0 to |indices|
        invariant Shape(c, state) && SlashAll(c, s0, indices[..k]) == Ok((state, any))
      {
        var index := indices[k];
        SlashAllStops(c, s0, indices, k);
        if index >= |state.validators| {
          return Err(Panicked);
        }
        if state.validators[index].IsSlashable(CurrentEpoch(c, state)) {
          var slashed := SlashValidator(index, None);
          if slashed.Err? {
            return Err(slashed.error);
          }
          any := true;
        }
      }
      assert indices[..|indices|] == indices;
      return Ok(any);
    }

    method ProcessAttesterSlashing(slashing: AttesterSlashing) returns (r: Result<()>)
      requires Shape(c, state) && BlockProcessing.ProcessAttesterSlashing(c, state, slashing) != Err(Diverges)
      modifies this
      ensures Agrees(BlockProcessing.ProcessAttesterSlashing(c, old(state), slashing), r, state) && Shape(c, state)
      ensures r.Ok? ==> |state.validators| == |old(state).validators|
      ensures r.Ok? ==> forall v: ValidatorIndex :: v < |state.validators| ==>
        (state.validators[v].slashed <==>
         old(state).validators[v].slashed || (Named(slashing, v) && SlashableNow(c, old(state), v)))
    {
      WhoIsSlashed(c, state, slashing);
      hide SlashAll, IsValidIndexedAttestation, Sorting.Sort, Sorting.Dedup;
      if !slashing.attestation1.data.IsSlashable(slashing.attestation2.data) {
        return Err(AttesterSlashingNotSlashable);
      }
      var valid := IsValidIndexed(slashing.attestation1);
      if valid != Ok(true) {
        return Err(if valid.Ok? then AttestationInvalidSignature else valid.error);
      }
      valid := IsValidIndexed(slashing.attestation2);
      if valid != Ok(true) {
        return Err(if valid.Ok? then AttestationInvalidSignature else valid.error);
      }
      var full := WithoutRepeats(AllIndices(slashing.attestation1) + AllIndices(slashing.attestation2));
      var any := SlashEach(Sorting.Sort(full));
      if any.Err? {
        return Err(any.error);
      }
      return if any.value then Ok(()) else Err(AttesterSlashingEmptyIndices);
    }

    method ProcessAttestation(attestation: Attestation) returns (r: Result<()>)
      requires Shape(c, state) && BlockProcessing.ProcessAttestation(c, state, attestation) != Err(Diverges)
      modifies this
      ensures Agrees(BlockProcessing.ProcessAttestation(c, old(state), attestation), r, state) && Shape(c, state)
    {
      hide ProposerIndex, CommitteeCountAtSlot, IndexAttestation, IsValidIndexedAttestation;
      var data := attestation.data;
      if !(data.index < CommitteeCountAtSlot(c, state, data.slot)) {
        return Err(AttestationIncorrectCrosslinkData);
      }
      if !(data.target.epoch == CurrentEpoch(c, state) || data.target.epoch == PreviousEpoch(c, state)) {
        return Err(AttestationIncorrectJustifiedEpochOrBlockRoot);
      }
      if !(data.slot + c.minAttestationInclusionDelay <= state.slot && state.slot <= data.slot + c.slotsPerEpoch) {
        return Err(AttestationSubmittedTooQuickly);
      }
      var proposer := BeaconProposerIndex();
      if proposer.Err? {
        return Err(proposer.error);
      }
      var pending := PendingAttestation(attestation.aggregationBits, data, state.slot - data.slot, proposer.value);
      var pushCurrent := data.target.epoch == CurrentEpoch(c, state);
      if pushCurrent && data.source != state.currentJustifiedCheckpoint {
        return Err(AttestationInvalidData);
      }
      var indexed := IndexAttestation(c, state, attestation);
      if indexed.Err? {
        return Err(indexed.error);
      }
      var valid := IsValidIndexed(indexed.value);
      if valid != Ok(true) {
        return Err(if valid.Ok? then AttestationInvalidSignature else valid.error);
      }
      if pushCurrent {
        state := state.(currentEpochAttestations := state.currentEpochAttestations + [pending]);
      } else {
        state := state.(previousEpochAttestations := state.previousEpochAttestations + [pending]);
      }
      return Ok(());
    }

    method ProcessDeposit(deposit: Deposit) returns (r: Result<()>)
      requires Shape(c, state)
      modifies this
      ensures Agrees(BlockProcessing.ProcessDeposit(c, old(state), deposit), r, state) && Shape(c, state)
    {
      hide Merkle.IsValidMerkleBranch, Domain;
      var data := deposit.data;
      if !Merkle.IsValidMerkleBranch(c, c.crypto.depositDataRoot(data), deposit.proof,
                                     DEPOSIT_CONTRACT_TREE_DEPTH + 1, state.eth1DepositIndex,
                                     state.eth1Data.depositRoot) {
        return Err(DepositMerkleInvalid);
      }
      state := state.(eth1DepositIndex := state.eth1DepositIndex + 1);
      var known := Position(state.validators, data.pubkey);
      if known.None? {
        if !c.crypto.verify(data.pubkey,
                            c.crypto.signingDepositRoot(data.pubkey, data.withdrawalCredentials, data.amount),
                            data.signature, Domain(c, state, DOMAIN_DEPOSIT, None)) {
          return Ok(());
        }
        var v := Validator(
          data.pubkey, data.withdrawalCredentials,
          Min(data.amount - Mod(data.amount, c.effectiveBalanceIncrement), c.maxEffectiveBalance), false,
          FAR_FUTURE_EPOCH, FAR_FUTURE_EPOCH, FAR_FUTURE_EPOCH, FAR_FUTURE_EPOCH);
        state := state.(validators := state.validators + [v]);
        state := state.(balances := state.balances + [data.amount]);
      } else {
        IncreaseBalance(known.value, data.amount);
      }
      return Ok(());
    }

    method ProcessVoluntaryExit(exit: VoluntaryExit) returns (r: Result<()>)
      requires Shape(c, state)
      modifies this
      ensures Agrees(BlockProcessing.ProcessVoluntaryExit(c, old(state), exit), r, state) && Shape(c, state)
    {
      hide InitiateExit, Domain;
      if exit.validatorIndex >= |state.validators| {
        return Err(VoluntaryExitInvalidSignature);
      }
      var v, now := state.validators[exit.validatorIndex], CurrentEpoch(c, state);
      if !v.IsActive(now) {
        return Err(VoluntaryExitAlreadyInitiated);
      }
      if v.exitEpoch != FAR_FUTURE_EPOCH {
        return Err(VoluntaryExitAlreadyExited);
      }
      if now < exit.epoch {
        return Err(VoluntaryExitNotYetValid);
      }
      if now < v.activationEpoch + c.persistentCommitteePeriod {
        return Err(VoluntaryExitNotLongEnough);
      }
      if !c.crypto.verify(v.pubkey, c.crypto.exitRoot(exit.epoch, exit.validatorIndex), exit.signature,
                          Domain(c, state, DOMAIN_VOLUNTARY_EXIT, Some(exit.epoch))) {
        return Err(VoluntaryExitInvalidSignature);
      }
      InitiateValidatorExit(exit.validatorIndex);
      return Ok(());
    }

    method ApplyOperation(tx: Transaction) returns (r: Result<()>)
      requires Shape(c, state) && BlockProcessing.ApplyOperation(c, state, tx) != Err(Diverges)
      modifies this
      ensures Agrees(BlockProcessing.ApplyOperation(c, old(state), tx), r, state) && Shape(c, state)
    {
      hide BlockProcessing.ProcessProposerSlashing, BlockProcessing.ProcessAttesterSlashing,
        BlockProcessing.ProcessAttestation, BlockProcessing.ProcessDeposit, BlockProcessing.ProcessVoluntaryExit;
      match tx
      case OfProposerSlashing(p) => r := ProcessProposerSlashing(p);
      case OfAttesterSlashing(a) => r := ProcessAttesterSlashing(a);
      case OfAttestation(a) => r := ProcessAttestation(a);
      case OfDeposit(d) => r := ProcessDeposit(d);
      case OfVoluntaryExit(e) => r := ProcessVoluntaryExit(e);
    }

    /** One loop of `ProcessOperations`. */
    method ApplyEach(txs: seq<Transaction>) returns (r: Result<()>)
      requires Shape(c, state) && ApplyAll(c, state, txs) != Err(Diverges)
      modifies this
      ensures Agrees(ApplyAll(c, old(state), txs), r, state) && Shape(c, state)
    {
      hide BlockProcessing.ApplyOperation;
      ghost var s0 := state;
      for k := 0 to |txs|
        invariant Shape(c, state) && ApplyAll(c, s0, txs[..k]) == Ok(state)
      {
        ApplyAllStops(c, s0, txs, k);
        r := ApplyOperation(txs[k]);
        if r.Err? {
          return;
        }
      }
      assert txs[..|txs|] == txs;
      return Ok(());
    }

    method ProcessOperations(body: BlockBody) returns (r: Result<()>)
      requires Shape(c, state) && BlockProcessing.ProcessOperations(c, state, body) != Err(Diverges)
      modifies this
      ensures Agrees(BlockProcessing.ProcessOperations(c, old(state), body), r, state) && Shape(c, state)
    {
      hide ApplyAll;
      if state.eth1Data.depositCount < state.eth1DepositIndex {
        return Err(Panicked);
      }
      if |body.deposits| != Min(c.maxDeposits, state.eth1Data.depositCount - state.eth1DepositIndex) {
        return Err(TooManyDeposits);
      }
      if |body.proposerSlashings| > c.maxProposerSlashings {
        return Err(TooManyProposerSlashings);
      }
      r := ApplyEach(ProposerSlashings(body));
      if r.Err? {
        return;
      }
      if |body.attesterSlashings| > c.maxAttesterSlashings {
        return Err(TooManyAttesterSlashings);
      }
      r := ApplyEach(AttesterSlashings(body));
      if r.Err? {
        return;
      }
      if |body.attestations| > c.maxAttestations {
        return Err(TooManyAttestations);
      }
      r := ApplyEach(Attestations(body));
      if r.Err? {
        return;
      }
      if |body.deposits| > c.maxDeposits {
        return Err(TooManyDeposits);
      }
      r := ApplyEach(Deposits(body));
      if r.Err? {
        return;
      }
      if |body.voluntaryExits| > c.maxVoluntaryExits {
        return Err(TooManyVoluntaryExits);
      }
      r := ApplyEach(VoluntaryExits(body));
    }

    method ProcessBlock(block: UnsealedBlock, signature: Option<Signature>) returns (r: Result<()>)
      requires Shape(c, state) && BlockProcessing.ProcessBlock(c, state, block, signature) != Err(Diverges)
      modifies this
      ensures Agrees(BlockProcessing.ProcessBlock(c, old(state), block, signature), r, state) && Shape(c, state)
    {
      hide ProcessHeader, BlockProcessing.ProcessRandao, BlockProcessing.ProcessEth1Data,
        BlockProcessing.ProcessOperations;
      r := ProcessBlockHeader(block, signature);
      if r.Err? {
        return;
      }
      r := ProcessRandao(block.body);
      if r.Err? {
        return;
      }
      ProcessEth1Data(block.body);
      r := ProcessOperations(block.body);
    }

    method StateTransition(block: UnsealedBlock, signature: Option<Signature>) returns (r: Result<()>)
      requires Shape(c, state) && Transition.StateTransition(c, state, block, signature) != Err(Diverges)
      modifies this
      ensures Transition.StateTransition(c, old(state), block, signature).Ok? ==>
                r.Ok? && Transition.StateTransition(c, old(state), block, signature) == Ok(state)
      ensures Transition.StateTransition(c, old(state), block, signature).Err? ==>
                r == Err(Transition.StateTransition(c, old(state), block, signature).error)
    {
      hide Transition.ProcessSlots, BlockProcessing.ProcessBlock;
      r := ProcessSlots(block.slot);
      if r.Err? {
        return;
      }
      r := ProcessBlock(block, signature);
      if r.Err? {
        return;
      }
      return if block.stateRoot == c.crypto.stateRoot(state) then Ok(()) else Err(BlockStateRootInvalid);
    }
  }

  /** Attempt `i` of the search, and what accepts it. */
  lemma Attempt(c: Config, s: BeaconState, i: nat, k: Result<nat>)
    requires Shape(c, s)
    requires var n := |ActiveIndices(s.validators, CurrentEpoch(c, s))|;
             0 < n <= Shuffle.MAX_SHUFFLE_COUNT && k == Shuffle.ShuffledIndex(c, Mod(i, n), n, ProposerSeed(c, s))
    ensures var indices, seed := ActiveIndices(s.validators, CurrentEpoch(c, s)), ProposerSeed(c, s);
            && k.Ok? && k.value < |indices| && indices[k.value] == Candidate(c, indices, seed, i)
            && indices[k.value] < |s.validators|
            && (Accepts(c, s, i) <==> s.validators[indices[k.value]].effectiveBalance * 255
                                         >= c.maxEffectiveBalance * RandomByte(c, seed, i))
  {
    hide ActiveIndices, ProposerSeed, Shuffle.Rounds, RandomByte, Mul;
    MulIsProduct(c.maxEffectiveBalance, RandomByte(c, ProposerSeed(c, s), i));
  }

  lemma {:induction false} UnionStops(lists: seq<Result<seq<ValidatorIndex>>>, k: nat, n: nat)
    requires 0 < k <= |lists| && (forall j :: 0 <= j < |lists| ==> Attesting(lists[j], n))
    requires Union(lists[..k - 1], n).Ok? && lists[k - 1].Err?
    ensures Union(lists, n) == Err(lists[k - 1].error)
    decreases |lists|
  {
    if k == |lists| {
      assert lists[..|lists| - 1] == lists[..k - 1];
    } else {
      var shorter := lists[..|lists| - 1];
      assert shorter[..k - 1] == lists[..k - 1];
      UnionStops(shorter, k, n);
    }
  }

  lemma ExitKeepsBalance(c: Config, s: BeaconState, i: ValidatorIndex)
    requires Shape(c, s) && i < |s.validators|
    ensures InitiateExit(c, s, i).validators[i].effectiveBalance == s.validators[i].effectiveBalance
  {
  }

  lemma HistoricalPeriodPositive(c: Config)
    requires ValidConfig(c)
    ensures Div(c.slotsPerHistoricalRoot, c.slotsPerEpoch) >= 1
  {
    DivMonotone(c.slotsPerEpoch, c.slotsPerHistoricalRoot, c.slotsPerEpoch);
    DivModUnique(c.slotsPerEpoch, c.slotsPerEpoch, 1, 0);
  }

  lemma SlotsEnd(c: Config, s: BeaconState, slot: Slot)
    requires Shape(c, s)
    ensures s.slot > slot ==> Transition.ProcessSlots(c, s, slot) == Err(SlotOutOfRange)
    ensures s.slot == slot ==> Transition.ProcessSlots(c, s, slot) == Ok(s)
  {
    hide AdvanceSlot;
  }

  /** One turn of the slot loop, case by case. */
  lemma SlotsUnfold(c: Config, s: BeaconState, slot: Slot)
    requires Shape(c, s) && s.slot < slot
    ensures var s1 := Transition.ProcessSlot(c, s);
            && s1.slot == s.slot
            && (Mod(s1.slot + 1, c.slotsPerEpoch) != 0 ==>
                  Shape(c, s1.(slot := s1.slot + 1))
                  && Transition.ProcessSlots(c, s, slot) == Transition.ProcessSlots(c, s1.(slot := s1.slot + 1), slot))
            && (Mod(s1.slot + 1, c.slotsPerEpoch) == 0 ==>
                  match EpochProcessing.ProcessEpoch(c, s1)
                  case Err(e) => Transition.ProcessSlots(c, s, slot) == Err(e)
                  case Ok(s2) =>
                    s2.slot == s1.slot && Shape(c, s2.(slot := s2.slot + 1))
                    && Transition.ProcessSlots(c, s, slot)
                    == Transition.ProcessSlots(c, s2.(slot := s2.slot + 1), slot))
  {
    hide EpochProcessing.ProcessEpoch;
  }

  /** An error of the loop is the error of the whole. */
  lemma {:induction false} ApplyAllStops(c: Config, s: BeaconState, txs: seq<Transaction>, k: nat)
    requires Shape(c, s) && k < |txs| && ApplyAll(c, s, txs[..k]).Ok?
    ensures var next := BlockProcessing.ApplyOperation(c, ApplyAll(c, s, txs[..k]).value, txs[k]);
            && ApplyAll(c, s, txs[..k + 1]) == next
            && (next.Err? ==> ApplyAll(c, s, txs) == next)
    decreases |txs|
  {
    hide BlockProcessing.ApplyOperation;
    assert txs[..k + 1][..k] == txs[..k];
    if k + 1 < |txs| {
      var shorter := txs[..|txs| - 1];
      assert shorter[..k] == txs[..k];
      ApplyAllStops(c, s, shorter, k);
    } else {
      assert txs[..k + 1] == txs;
    }
  }

  lemma {:induction false} SlashAllStops(c: Config, s: BeaconState, indices: seq<ValidatorIndex>, k: nat)
    requires Shape(c, s) && k < |indices| && SlashAll(c, s, indices[..k]).Ok?
    ensures var next := SlashAll(c, s, indices[..k + 1]);
            && (next.Err? ==> SlashAll(c, s, indices) == next)
    ensures indices[..k + 1][..k] == indices[..k]
    decreases |indices|
  {
    hide Mutators.SlashValidator;
    assert indices[..k + 1][..k] == indices[..k];
    if k + 1 < |indices| {
      var shorter := indices[..|indices| - 1];
      assert shorter[..k] == indices[..k] && shorter[..k + 1] == indices[..k + 1];
      SlashAllStops(c, s, shorter, k);
    } else {
      assert indices[..k + 1] == indices;
    }
  }
}
