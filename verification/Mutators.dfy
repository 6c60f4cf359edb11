/**
 Balance changes, the exit queue and slashing, with the relation between two registries that every
 operation of one epoch keeps.
 */
module Mutators {
  import opened BeaconTypes
  import opened Accessors
  import opened Arith

  function IncreaseBalance(s: BeaconState, i: ValidatorIndex, delta: Gwei): BeaconState
    requires i < |s.balances|
  {
    s.(balances := s.balances[i := s.balances[i] + delta])
  }

  function SaturatingSub(a: nat, b: nat): nat {
    if a >= b then a - b else 0
  }

  function DecreaseBalance(s: BeaconState, i: ValidatorIndex, delta: Gwei): BeaconState
    requires i < |s.balances|
  {
    s.(balances := s.balances[i := SaturatingSub(s.balances[i], delta)])
  }

  /** The last exit epoch that has been assigned, or zero. */
  function LastExit(vs: seq<Validator>): (last: Epoch)
    ensures forall i :: 0 <= i < |vs| && vs[i].exitEpoch != FAR_FUTURE_EPOCH ==> vs[i].exitEpoch <= last
    ensures last == 0 || exists i :: 0 <= i < |vs| && vs[i].exitEpoch == last && last != FAR_FUTURE_EPOCH
  {
    if vs == [] then 0
    else
      var n := |vs| - 1;
      var before := LastExit(vs[..n]);
      if vs[n].exitEpoch != FAR_FUTURE_EPOCH then Max(before, vs[n].exitEpoch) else before
  }

  function CountExits(vs: seq<Validator>, epoch: Epoch): (count: nat)
    ensures count <= |vs|
  {
    if vs == [] then 0
    else CountExits(vs[..|vs| - 1], epoch) + if vs[|vs| - 1].exitEpoch == epoch then 1 else 0
  }

  function ExitQueueEpoch(c: Config, s: BeaconState): (e: Epoch)
    requires ValidConfig(c)
  {
    var epoch := Max(LastExit(s.validators), ActivationExitEpoch(c, CurrentEpoch(c, s)));
    if CountExits(s.validators, epoch) >= ChurnLimit(c, s) then epoch + 1 else epoch
  }

  function InitiateExit(c: Config, s: BeaconState, i: ValidatorIndex): (s': BeaconState)
    requires Shape(c, s) && i < |s.validators|
    ensures Shape(c, s')
    ensures s' == s.(validators := s'.validators) && |s'.validators| == |s.validators|
  {
    if s.validators[i].exitEpoch != FAR_FUTURE_EPOCH then s
    else
      var exit := ExitQueueEpoch(c, s);
      s.(validators := s.validators[i := s.validators[i].(
        exitEpoch := exit, withdrawableEpoch := exit + c.minValidatorWithdrawabilityDelay)])
  }

  /** The registry and ring writes of a slashing, before the proposer is rewarded. */
  function MarkSlashed(c: Config, s: BeaconState, i: ValidatorIndex): (s': BeaconState)
    requires Shape(c, s) && i < |s.validators|
    ensures Shape(c, s')
    ensures s' == s.(validators := s'.validators, slashings := s'.slashings, balances := s'.balances)
    ensures |s'.validators| == |s.validators|
  {
    var now := CurrentEpoch(c, s);
    var s1 := InitiateExit(c, s, i);
    var v := s1.validators[i];
    var balance := v.effectiveBalance;
    var slot := Mod(now, c.epochsPerSlashingsVector);
    var s2 := s1.(
      validators := s1.validators[i := v.(
        slashed := true,
        withdrawableEpoch := Max(v.withdrawableEpoch, now + c.epochsPerSlashingsVector))],
      slashings := s1.slashings[slot := s1.slashings[slot] + balance]);
    DecreaseBalance(s2, i, Div(balance, c.minSlashingPenaltyQuotient))
  }

  /** The whistleblower reward, shared with the proposer. */
  function RewardReporter(c: Config, s: BeaconState, balance: Gwei, proposer: ValidatorIndex, rewarded: ValidatorIndex)
    : (r: Result<BeaconState>)
    requires ValidConfig(c)
    ensures r.Ok? ==> r.value == s.(balances := r.value.balances) && |r.value.balances| == |s.balances|
  {
    var reward := Div(balance, c.whistleblowerRewardQuotient);
    var proposerReward := Div(reward, c.proposerRewardQuotient);
    if proposer >= |s.balances| || rewarded >= |s.balances| then Err(Panicked)
    else Ok(IncreaseBalance(IncreaseBalance(s, proposer, proposerReward), rewarded, reward - proposerReward))
  }

  ghost function SlashValidator(c: Config, s: BeaconState, i: ValidatorIndex, whistleblower: Option<ValidatorIndex>)
    : (r: Result<BeaconState>)
    requires Shape(c, s) && i < |s.validators|
    ensures r.Ok? ==> r.value == MarkSlashed(c, s, i).(balances := r.value.balances)
    ensures r.Ok? ==> |r.value.balances| == |s.balances|
  {
    var s1 := MarkSlashed(c, s, i);
    match ProposerIndex(c, s1)
    case Err(e) => Err(e)
    case Ok(proposer) =>
      var rewarded := if whistleblower.Some? then whistleblower.value else proposer;
      RewardReporter(c, s1, s.validators[i].effectiveBalance, proposer, rewarded)
  }

  // What one epoch's operations may do to a validator record

  predicate ValidatorStep(c: Config, now: Epoch, v: Validator, v': Validator) {
    && v'.pubkey == v.pubkey
    && (v'.activationEligibilityEpoch == v.activationEligibilityEpoch
        || (v.activationEligibilityEpoch == FAR_FUTURE_EPOCH && v'.activationEligibilityEpoch == now))
    && (v'.activationEpoch == v.activationEpoch
        || (v.activationEpoch == FAR_FUTURE_EPOCH && v'.activationEpoch == ActivationExitEpoch(c, now)
            && v'.activationEligibilityEpoch != FAR_FUTURE_EPOCH))
    && (v'.exitEpoch == v.exitEpoch
        || (v.exitEpoch == FAR_FUTURE_EPOCH && v.activationEpoch <= now
            && v'.exitEpoch >= ActivationExitEpoch(c, now)))
    && (v.slashed ==> v'.slashed && v'.withdrawableEpoch == v.withdrawableEpoch && v'.exitEpoch == v.exitEpoch)
    && (v'.slashed && !v.slashed ==>
          v.activationEpoch <= now && v'.withdrawableEpoch >= now + c.epochsPerSlashingsVector)
    && ((v'.withdrawableEpoch == v.withdrawableEpoch && v'.exitEpoch == v.exitEpoch)
        || (v.activationEpoch <= now && v'.withdrawableEpoch >= v'.exitEpoch))
    && (v'.exitEpoch != v.exitEpoch ==> v'.withdrawableEpoch >= v'.exitEpoch + c.minValidatorWithdrawabilityDelay)
    && (v.exitEpoch != FAR_FUTURE_EPOCH ==> v'.withdrawableEpoch >= v.withdrawableEpoch)
  }

  predicate Newcomer(c: Config, now: Epoch, v: Validator) {
    && !v.slashed
    && v.exitEpoch == v.withdrawableEpoch == FAR_FUTURE_EPOCH
    && v.activationEpoch >= ActivationExitEpoch(c, now)
    && (v.activationEligibilityEpoch == FAR_FUTURE_EPOCH || v.activationEligibilityEpoch == now)
  }

  /** Exit epochs handed out by a step are at or after every exit epoch handed out before. */
  predicate QueueInOrder(vs: seq<Validator>, vs': seq<Validator>) {
    forall i, j :: 0 <= i < |vs| && 0 <= j < |vs'| && vs[i].exitEpoch != FAR_FUTURE_EPOCH
      && vs'[j].exitEpoch != FAR_FUTURE_EPOCH && (j < |vs| ==> vs[j].exitEpoch == FAR_FUTURE_EPOCH)
      ==> vs[i].exitEpoch <= vs'[j].exitEpoch
  }

  predicate RegistryStep(c: Config, now: Epoch, vs: seq<Validator>, vs': seq<Validator>) {
    && |vs| <= |vs'|
    && (forall i :: 0 <= i < |vs| ==> ValidatorStep(c, now, vs[i], vs'[i]))
    && (forall i :: |vs| <= i < |vs'| ==> Newcomer(c, now, vs'[i]))
    && QueueInOrder(vs, vs')
  }
}
