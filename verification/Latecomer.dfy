/**
 A state on which an ineligible validator gains by the rewards: it was not active in the previous epoch,
 but a vote of it is stored among those of that epoch, because the slot of a vote need not lie in
 the epoch of its target.
 */
module Latecomer {
  import opened Bytes
  import opened BeaconTypes
  import opened Accessors
  import opened EpochProcessing
  import opened BlockProcessing
  import opened Transition
  import opened Payouts
  import opened SmallChain
  import opened Inclusions
  import opened Arith
  import Sorting

  /** The vote of the first slot of epoch one for the target of epoch zero. */
  function EarlyTarget(): PendingAttestation {
    PendingAttestation([true], VoteData(8), 1, 1)
  }

  /** The last slot of epoch one, with validator 0 active from that epoch on. */
  function LateState(s: BeaconState): BeaconState
    requires |s.validators| == 8
  {
    s.(slot := 15, validators := s.validators[0 := s.validators[0].(activationEpoch := 1)],
       previousEpochAttestations := [EarlyTarget()])
  }

  /** Eight validators at the maximal balance, in the last slot of epoch one, and the vote. */
  predicate Late(s: BeaconState) {
    && Shape(Small(), s) && |s.validators| == 8 && s.slot == 15 && s.previousEpochAttestations == [EarlyTarget()]
    && s.finalizedCheckpoint.epoch == 0
    && (forall i :: 0 <= i < 8 ==> s.validators[i].IsActive(1) && s.validators[i].effectiveBalance == 32000000000)
    && !s.validators[0].slashed && !s.validators[0].IsActive(0)
  }

  lemma StartLate(keys: seq<Pubkey>) returns (s: BeaconState)
    requires |keys| == 8 && DistinctKeys(keys)
    ensures Late(s)
  {
    hide SmallHash, GenesisState;
    var s0 := SmallGenesis(keys, 8);
    s := LateState(s0);
    LongActive(s0.validators);
    FinalizedAtStart(s0, keys);
  }

  lemma LongActive(vs: seq<Validator>)
    requires AllFull(vs)
    ensures forall i :: 0 <= i < |vs| ==> vs[i].activationEpoch == 0 && vs[i].exitEpoch > 1
  {
  }

  lemma FinalizedAtStart(s: BeaconState, keys: seq<Pubkey>)
    requires DistinctKeys(keys) && GenesisState(Small(), FullDeposits(keys), 0, Announced(8)) == Ok(s)
    ensures s.finalizedCheckpoint.epoch == 0
  {
    hide ApplyDeposits, SmallHash;
    SmallDeposits(keys, 8);
  }

  lemma LateEpoch(s: BeaconState)
    requires Late(s)
    ensures CurrentEpoch(Small(), s) == 1 && PreviousEpoch(Small(), s) == 0 && EpochOf(Small(), 8) == 1
  {
    hide SmallHash;
    DivModUnique(15, 8, 1, 7);
    DivModUnique(8, 8, 1, 0);
  }

  /** Validator 0 sits in the committee of slot 8. */
  lemma LateCommittee(s: BeaconState)
    requires Late(s)
    ensures AttestingIndices(Small(), s, VoteData(8), [true]) == Ok([0])
  {
    hide SmallHash, CommitteeFrom, ActiveIndices, LittleEndian;
    LateEpoch(s);
    AllActive(s.validators, 1);
    SmallSeed(s, 1);
    SmallCommitteeFrom(Seed(Small(), s, 1, DOMAIN_BEACON_ATTESTER), 0);
    SameSlotOfEpoch(Seed(Small(), s, 1, DOMAIN_BEACON_ATTESTER));
    assert [0][..0] == [] && [true][..0] == [] && [0][1..] == [];
    assert PickBits([0], [true]) == [0];
    assert Sorting.Sort([0][1..]) == [];
    assert Sorting.Sort([0]) == [0];
  }

  lemma SmallSeed(s: BeaconState, e: Epoch)
    requires Shape(Small(), s)
    ensures Seed(Small(), s, e, DOMAIN_BEACON_ATTESTER) == Zeros(32)
  {
    hide LittleEndian;
  }

  lemma SameSlotOfEpoch(seed: Hash)
    ensures CommitteeFrom(Small(), Everyone(8), seed, 8, 0) == CommitteeFrom(Small(), Everyone(8), seed, 0, 0)
  {
    hide SmallHash, CommitteeCount;
    DivModUnique(8, 8, 1, 0);
    DivModUnique(0, 8, 0, 0);
  }

  lemma {:induction false} SumAtMost(vs: seq<Validator>, indices: seq<ValidatorIndex>, most: Gwei)
    requires InRange(indices, |vs|) && forall i :: 0 <= i < |vs| ==> vs[i].effectiveBalance <= most
    ensures SumEffective(vs, indices) <= |indices| * most
    decreases |indices|
  {
    if indices != [] {
      SumAtMost(vs, indices[..|indices| - 1], most);
      Distribute(|indices| - 1, 1, most);
    }
  }

  lemma BaseIsPositive(s: BeaconState)
    requires Late(s)
    ensures BaseReward(Small(), s, 0) >= 1
  {
    hide SmallHash, ActiveIndices, SumEffective;
    LateEpoch(s);
    AllActive(s.validators, 1);
    SumAtMost(s.validators, Everyone(8), 32000000000);
    var total := TotalActiveBalance(Small(), s);
    RootAtMost(total);
    PartIsLarge(Root(total));
  }

  lemma RootAtMost(n: nat)
    requires n >= 1
    ensures 1 <= Root(n) <= n
  {
    var r := Root(n);
    MulMonotone(1, r, r);
  }

  lemma PartIsLarge(root: nat)
    requires 1 <= root <= 256000000000
    ensures Div(Mul(32000000000, 64), root) / 4 >= 1
  {
    hide Mul, Div;
    MulIsProduct(32000000000, 64);
    DivAtLeast(2048000000000, root, 4);
  }

  lemma InputsSucceed(s: BeaconState)
    requires Late(s)
    ensures GatherInputs(Small(), s).Ok? && GatherInputs(Small(), s).value.attestations == [EarlyTarget()]
  {
    hide SmallHash, AttestingIndices, UnslashedAttesting, ActiveIndices;
    LateEpoch(s);
    LateCommittee(s);
    assert Resolves(Small(), s, EarlyTarget());
    MulIsProduct(0, 8);
  }

  /** The validator is not eligible, proposed nothing, and its balance grows. */
  lemma IneligibleGains(keys: seq<Pubkey>) returns (s: BeaconState, s': BeaconState, x: RewardInputs)
    requires |keys| == 8 && DistinctKeys(keys)
    ensures Rewarded(Small(), s, s', x) && |s.validators| == 8
    ensures !Eligible(Small(), s, 0) && ProposesNothing(Small(), s, x, 0)
    ensures s'.balances[0] > s.balances[0]
  {
    hide SmallHash, GatherInputs, AttestingIndices, ActiveIndices, RewardedBalances, BaseReward;
    s := StartLate(keys);
    LateEpoch(s);
    InputsSucceed(s);
    x := GatherInputs(Small(), s).value;
    assert forall i :: Inclusion(Small(), s, x, i) == EarlyTarget();
    s' := ProcessRewards(Small(), s).value;
    RewardedHolds(Small(), s);
    LateCommittee(s);
    assert Attests(Small(), s, EarlyTarget(), 0);
    IneligibleKeeps(Small(), s, s', x, 0);
    BaseIsPositive(s);
  }
}
