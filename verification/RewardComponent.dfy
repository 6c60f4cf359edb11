/**
 The generic reward component run through the registry of the beacon state: it walks all validators,
 accumulates into two maps, and applies all rewards before all penalties. It leaves the balances the
 direct code leaves.
 */
module RewardComponent {
  import opened BeaconTypes
  import opened Accessors
  import opened Mutators
  import opened EpochProcessing
  import opened Rewards
  import opened Arith
  import Sorting

  type Deltas = map<ValidatorIndex, Gwei>

  /** The entry of `i`, or the default. */
  function Get(m: Deltas, i: ValidatorIndex): Gwei {
    if i in m then m[i] else 0
  }

  function Add(m: Deltas, i: ValidatorIndex, delta: Gwei): (m': Deltas)
    ensures Get(m', i) == Get(m, i) + delta
    ensures forall j :: j != i ==> Get(m', j) == Get(m, j)
    ensures m'.Keys == m.Keys + {i}
  {
    m[i := Get(m, i) + delta]
  }

  predicate KeysBelow(m: Deltas, n: nat) {
    forall i :: i in m ==> i < n
  }

  method AccumulateMatching(c: Config, s: BeaconState, attesters: seq<ValidatorIndex>, rewards: Deltas,
                            penalties: Deltas)
    returns (rewards': Deltas, penalties': Deltas)
    requires Shape(c, s) && InRange(attesters, |s.validators|)
    requires KeysBelow(rewards, |s.validators|) && KeysBelow(penalties, |s.validators|)
    ensures KeysBelow(rewards', |s.validators|) && KeysBelow(penalties', |s.validators|)
    ensures forall i :: 0 <= i < |s.validators| ==>
      Get(rewards', i) == Get(rewards, i) + MatchReward(c, s, attesters, i)
    ensures forall i :: 0 <= i < |s.validators| ==>
      Get(penalties', i) == Get(penalties, i) + MatchPenalty(c, s, attesters, i)
  {
    hide BaseReward, TotalBalance, TotalActiveBalance, Eligible;
    var attestingBalance, totalBalance := TotalBalance(s, attesters), TotalActiveBalance(c, s);
    rewards', penalties' := rewards, penalties;
    for k := 0 to |s.validators|
      invariant KeysBelow(rewards', |s.validators|) && KeysBelow(penalties', |s.validators|)
      invariant forall i :: 0 <= i < |s.validators| ==>
        Get(rewards', i) == Get(rewards, i) + if i < k then MatchReward(c, s, attesters, i) else 0
      invariant forall i :: 0 <= i < |s.validators| ==>
        Get(penalties', i) == Get(penalties, i) + if i < k then MatchPenalty(c, s, attesters, i) else 0
    {
      if Eligible(c, s, k) {
        if k in attesters {
          rewards' := Add(rewards', k, Div(Mul(BaseReward(c, s, k), attestingBalance), totalBalance));
        } else {
          penalties' := Add(penalties', k, BaseReward(c, s, k));
        }
      }
    }
  }

  /** A zero delay panics at once, an unknown proposer only when the rewards are applied. */
  method AccumulateInclusions(c: Config, s: BeaconState, x: RewardInputs, rewards: Deltas)
    returns (ok: bool, rewards': Deltas)
    requires Shape(c, s) && InputsInRange(s, x) && (x.attestations == [] ==> x.source == [])
    requires KeysBelow(rewards, |s.validators|)
    ensures InclusionsSound(c, s, x) <==> ok && KeysBelow(rewards', |s.validators|)
    ensures InclusionsSound(c, s, x) ==> forall i :: 0 <= i < |s.validators| ==>
      Get(rewards', i) == Get(rewards, i) + ProposerReward(c, s, x, x.source, i) + InclusionReward(c, s, x, x.source, i)
  {
    hide Inclusion, ProposerShare, AttesterShare, ProposerReward, InclusionReward, InclusionsSoundFor;
    NoInclusions(c, s, x);
    rewards' := rewards;
    for k := 0 to |x.source|
      invariant DelaysSound(c, s, x, x.source[..k])
      invariant InclusionsSoundFor(c, s, x, x.source[..k]) <==> KeysBelow(rewards', |s.validators|)
      invariant forall i :: 0 <= i < |s.validators| ==>
        Get(rewards', i)
        == Get(rewards, i) + ProposerReward(c, s, x, x.source[..k], i) + InclusionReward(c, s, x, x.source[..k], i)
    {
      var j := x.source[k];
      var a := Inclusion(c, s, x, j);
      if a.inclusionDelay == 0 {
        ok := false;
        return;
      }
      ghost var before := rewards';
      rewards' := Add(rewards', a.proposerIndex, ProposerShare(c, s, j));
      rewards' := Add(rewards', j, AttesterShare(c, s, j, a.inclusionDelay));
      assert rewards'.Keys == before.Keys + {a.proposerIndex, j};
      KeysAfter(before, rewards', a.proposerIndex, j, |s.validators|);
      SoundExtends(c, s, x, k);
      forall i | 0 <= i < |s.validators|
        ensures Get(rewards', i) == Get(rewards, i) + ProposerReward(c, s, x, x.source[..k + 1], i)
                                    + InclusionReward(c, s, x, x.source[..k + 1], i)
      {
        InclusionStep(c, s, x, k, i);
      }
    }
    assert x.source[..|x.source|] == x.source;
    ok := true;
  }

  lemma KeysAfter(m: Deltas, m': Deltas, i: ValidatorIndex, j: ValidatorIndex, n: nat)
    requires m'.Keys == m.Keys + {i, j} && j < n
    ensures KeysBelow(m', n) <==> KeysBelow(m, n) && i < n
  {
    assert i in m'.Keys;
    assert forall k :: k in m ==> k in m'.Keys;
  }

  method AccumulateInactivity(c: Config, s: BeaconState, x: RewardInputs,
                              penalties: Deltas) returns (penalties': Deltas)
    requires Shape(c, s) && KeysBelow(penalties, |s.validators|)
    ensures KeysBelow(penalties', |s.validators|)
    ensures forall i :: 0 <= i < |s.validators| ==>
      Get(penalties', i) == Get(penalties, i) + InactivityPenalty(c, s, x, i)
  {
    hide BaseReward, Eligible;
    penalties' := penalties;
    if x.finalityDelay > c.minEpochsToInactivityPenalty {
      for k := 0 to |s.validators|
        invariant KeysBelow(penalties', |s.validators|)
        invariant forall i :: 0 <= i < |s.validators| ==>
          Get(penalties', i) == Get(penalties, i) + if i < k then InactivityPenalty(c, s, x, i) else 0
      {
        if Eligible(c, s, k) {
          penalties' := Add(penalties', k, BaseReward(c, s, k) * BASE_REWARDS_PER_EPOCH);
          if k !in x.target {
            penalties' := Add(penalties', k,
              Div(Mul(s.validators[k].effectiveBalance, x.finalityDelay), c.inactivityPenaltyQuotient));
          }
        }
      }
    }
  }

  /** Every entry of the map is added to its balance, in whatever order the entries come. */
  method ApplyRewards(rewards: Deltas, balances: seq<Gwei>) returns (balances': seq<Gwei>)
    requires KeysBelow(rewards, |balances|)
    ensures |balances'| == |balances|
    ensures forall i :: 0 <= i < |balances| ==> balances'[i] == balances[i] + Get(rewards, i)
  {
    balances' := balances;
    var left := rewards.Keys;
    while left != {}
      invariant left <= rewards.Keys && |balances'| == |balances|
      invariant forall i :: 0 <= i < |balances| ==>
        balances'[i] == balances[i] + if i in left then 0 else Get(rewards, i)
      decreases |left|
    {
      var i :| i in left;
      balances' := balances'[i := balances'[i] + rewards[i]];
      left := left - {i};
    }
  }

  method ApplyPenalties(penalties: Deltas, balances: seq<Gwei>) returns (balances': seq<Gwei>)
    requires KeysBelow(penalties, |balances|)
    ensures |balances'| == |balances|
    ensures forall i :: 0 <= i < |balances| ==> balances'[i] == SaturatingSub(balances[i], Get(penalties, i))
  {
    balances' := balances;
    var left := penalties.Keys;
    while left != {}
      invariant left <= penalties.Keys && |balances'| == |balances|
      invariant forall i :: 0 <= i < |balances| ==>
        balances'[i] == if i in left then balances[i] else SaturatingSub(balances[i], Get(penalties, i))
      decreases |left|
    {
      var i :| i in left;
      balances' := balances'[i := SaturatingSub(balances'[i], penalties[i])];
      left := left - {i};
    }
  }

  /** On every state past the genesis epoch the component succeeds exactly when the direct code
      does, and then leaves the same state. */
  method ProcessComponent(c: Config, s: BeaconState) returns (r: Result<BeaconState>)
    requires Shape(c, s) && CurrentEpoch(c, s) != GENESIS_EPOCH
    ensures r.Ok? <==> ProcessRewards(c, s).Ok?
    ensures r.Ok? ==> r == ProcessRewards(c, s)
  {
    hide GatherInputs, MatchReward, MatchPenalty, ProposerReward, InclusionReward, InactivityPenalty, InclusionsSound;
    var inputs := ReadInputs(c, s);
    if inputs.Err? {
      return Err(inputs.error);
    }
    var x := inputs.value;
    var rewards: Deltas, penalties: Deltas := map[], map[];
    rewards, penalties := AccumulateMatching(c, s, x.source, rewards, penalties);
    rewards, penalties := AccumulateMatching(c, s, x.target, rewards, penalties);
    rewards, penalties := AccumulateMatching(c, s, x.head, rewards, penalties);
    var ok;
    ok, rewards := AccumulateInclusions(c, s, x, rewards);
    if !ok {
      return Err(Panicked);
    }
    penalties := AccumulateInactivity(c, s, x, penalties);
    if !KeysBelow(rewards, |s.balances|) {
      return Err(Panicked);
    }
    var balances := ApplyRewards(rewards, s.balances);
    balances := ApplyPenalties(penalties, balances);
    assert balances == RewardedBalances(c, s, x);
    return Ok(s.(balances := balances));
  }
}
