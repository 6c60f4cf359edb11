/**
 What the rewards and penalties of an epoch do to a balance, said of the validator: which of its votes
 were counted, how soon they were included, and whether finality is late.
 */
module Payouts {
  import opened Bytes
  import opened BeaconTypes
  import opened Accessors
  import opened Mutators
  import opened EpochProcessing
  import opened Arith

  // Whose votes count

  predicate Sourced(c: Config, s: BeaconState, i: ValidatorIndex)
    requires Shape(c, s)
  {
    && i < |s.validators| && !s.validators[i].slashed
    && exists a :: a in s.previousEpochAttestations && Attests(c, s, a, i)
  }

  /** With the root of the previous epoch as target. */
  predicate Targeted(c: Config, s: BeaconState, i: ValidatorIndex)
    requires Shape(c, s)
  {
    && i < |s.validators| && !s.validators[i].slashed
    && exists a :: a in s.previousEpochAttestations && Attests(c, s, a, i)
         && BlockRoot(c, s, PreviousEpoch(c, s)) == Ok(a.data.target.root)
  }

  /** With the root of its slot as head. */
  predicate Headed(c: Config, s: BeaconState, i: ValidatorIndex)
    requires Shape(c, s)
  {
    && i < |s.validators| && !s.validators[i].slashed
    && exists a :: a in s.previousEpochAttestations && Attests(c, s, a, i)
         && BlockRootAtSlot(c, s, a.data.slot) == Ok(a.data.beaconBlockRoot)
  }

  lemma AttestsSome(c: Config, s: BeaconState, atts: seq<PendingAttestation>, i: ValidatorIndex)
    requires Shape(c, s) && UnslashedAttesting(c, s, atts).Ok?
    ensures i in UnslashedAttesting(c, s, atts).value
       <==> i < |s.validators| && !s.validators[i].slashed && exists a :: a in atts && Attests(c, s, a, i)
  {
    hide Attests, UnslashedAttesting;
    UnslashedAttestingAre(c, s, atts, i);
    if a :| a in atts && Attests(c, s, a, i) {
      var k :| 0 <= k < |atts| && atts[k] == a;
      assert Attests(c, s, atts[k], i);
    }
  }

  /** Past the genesis epoch the three lists of attesters are those. */
  lemma {:induction false} InputsAre(c: Config, s: BeaconState, i: ValidatorIndex)
    requires Shape(c, s) && CurrentEpoch(c, s) > GENESIS_EPOCH && GatherInputs(c, s).Ok?
    ensures var x := GatherInputs(c, s).value;
      && x.attestations == s.previousEpochAttestations
      && (i in x.source <==> Sourced(c, s, i))
      && (i in x.target <==> Targeted(c, s, i))
      && (i in x.head <==> Headed(c, s, i))
      && x.finalityDelay == PreviousEpoch(c, s) - s.finalizedCheckpoint.epoch
  {
    hide Attests, UnslashedAttesting, BlockRoot, BlockRootAtSlot, FilterTarget, FilterHead, EpochOf;
    var atts, previous := s.previousEpochAttestations, PreviousEpoch(c, s);
    AttestsSome(c, s, atts, i);
    AttestsSome(c, s, MatchingTarget(c, s, previous).value, i);
    AttestsSome(c, s, MatchingHead(c, s, previous).value, i);
  }

  // What they are worth

  /** The base reward by the largest number whose square is at most the active balance. */
  lemma BaseRewardIs(c: Config, s: BeaconState, i: ValidatorIndex, root: nat)
    requires ValidConfig(c) && i < |s.validators|
    requires root * root <= TotalActiveBalance(c, s) < (root + 1) * (root + 1)
    ensures root >= 1 && BaseReward(c, s, i) == s.validators[i].effectiveBalance * c.baseRewardFactor / root / 4
  {
    hide TotalActiveBalance, Root;
    var total := TotalActiveBalance(c, s);
    RootIsUnique(total, root, Root(total));
    MulIsProduct(s.validators[i].effectiveBalance, c.baseRewardFactor);
    DivModAreOperators(s.validators[i].effectiveBalance * c.baseRewardFactor, root);
  }

  lemma RootIsUnique(n: nat, r: nat, r': nat)
    requires r * r <= n < (r + 1) * (r + 1) && r' * r' <= n < (r' + 1) * (r' + 1)
    ensures r == r'
  {
    if r < r' {
      SquareMonotone(r + 1, r');
    } else if r' < r {
      SquareMonotone(r' + 1, r);
    }
  }

  lemma SquareMonotone(a: nat, b: nat)
    requires a <= b
    ensures a * a <= b * b
  {
    MulMonotone(a, b, a);
    MulMonotone(a, b, b);
  }

  /** `a` times `b` over `d`, rounded down. */
  function Portion(a: nat, b: nat, d: nat): nat
    requires d >= 1
  {
    MulIsProduct(a, b);
    DivModAreOperators(Mul(a, b), d);
    a * b / d
  }

  /** The base reward in proportion to the balance behind the vote. */
  function Share(c: Config, s: BeaconState, i: ValidatorIndex, attesters: seq<ValidatorIndex>): Gwei
    requires ValidConfig(c) && i < |s.validators| && InRange(attesters, |s.validators|)
  {
    Portion(BaseReward(c, s, i), TotalBalance(s, attesters), TotalActiveBalance(c, s))
  }

  /** What is left after the proposer's part, over the delay. */
  function DelayShare(c: Config, s: BeaconState, i: ValidatorIndex, delay: nat): Gwei
    requires ValidConfig(c) && i < |s.validators| && delay >= 1
  {
    PartAtMost(BaseReward(c, s, i), c.proposerRewardQuotient);
    (BaseReward(c, s, i) - BaseReward(c, s, i) / c.proposerRewardQuotient) / delay
  }

  lemma PartAtMost(n: nat, d: nat)
    requires d >= 1
    ensures n / d <= n
  {
    DivModAreOperators(n, d);
    DivModLaw(n, d);
    MulMonotone(1, d, Div(n, d));
  }

  lemma MatchRewardIs(c: Config, s: BeaconState, attesters: seq<ValidatorIndex>, i: ValidatorIndex)
    requires ValidConfig(c) && InRange(attesters, |s.validators|) && i < |s.validators|
    ensures MatchReward(c, s, attesters, i)
         == if Eligible(c, s, i) && i in attesters then Share(c, s, i, attesters) else 0
  {
    hide BaseReward, TotalBalance, TotalActiveBalance, Eligible;
    var base, part, whole := BaseReward(c, s, i), TotalBalance(s, attesters), TotalActiveBalance(c, s);
    MulIsProduct(base, part);
    DivModAreOperators(base * part, whole);
  }

  lemma AttesterShareIs(c: Config, s: BeaconState, i: ValidatorIndex, delay: nat)
    requires ValidConfig(c) && i < |s.validators| && delay >= 1
    ensures AttesterShare(c, s, i, delay) == DelayShare(c, s, i, delay)
    ensures ProposerShare(c, s, i) == BaseReward(c, s, i) / c.proposerRewardQuotient
  {
    hide BaseReward, Div;
    var base := BaseReward(c, s, i);
    DivModAreOperators(base, c.proposerRewardQuotient);
    PartAtMost(base, c.proposerRewardQuotient);
    DivModAreOperators(base - base / c.proposerRewardQuotient, delay);
  }

  // The balance afterwards

  /** Everything the votes of `i` earn it. */
  ghost function Earnings(c: Config, s: BeaconState, x: RewardInputs, i: ValidatorIndex): Gwei
    requires Shape(c, s) && i < |s.validators| && InputsInRange(s, x) && (x.attestations == [] ==> x.source == [])
    requires InclusionsSound(c, s, x)
  {
    var source := if Sourced(c, s, i) then Share(c, s, i, x.source) else 0;
    var target := if Targeted(c, s, i) then Share(c, s, i, x.target) else 0;
    var head := if Headed(c, s, i) then Share(c, s, i, x.head) else 0;
    var included := if i in x.source then DelayShare(c, s, i, Inclusion(c, s, x, i).inclusionDelay) else 0;
    if Eligible(c, s, i) then source + target + head + included else included
  }

  /** Everything the votes it did not cast, and late finality, cost it. */
  ghost function Costs(c: Config, s: BeaconState, i: ValidatorIndex): Gwei
    requires Shape(c, s) && i < |s.validators| && s.finalizedCheckpoint.epoch <= PreviousEpoch(c, s)
  {
    var base := BaseReward(c, s, i);
    var source := if Sourced(c, s, i) then 0 else base;
    var target := if Targeted(c, s, i) then 0 else base;
    var head := if Headed(c, s, i) then 0 else base;
    if Eligible(c, s, i) then source + target + head + LeakCosts(c, s, i, Targeted(c, s, i)) else 0
  }

  /** Late finality costs four base rewards, and those without a target vote a part of their stake besides. */
  ghost function LeakCosts(c: Config, s: BeaconState, i: ValidatorIndex, targeted: bool): Gwei
    requires Shape(c, s) && i < |s.validators| && s.finalizedCheckpoint.epoch <= PreviousEpoch(c, s)
  {
    var delay := PreviousEpoch(c, s) - s.finalizedCheckpoint.epoch;
    var stake := s.validators[i].effectiveBalance;
    if delay <= c.minEpochsToInactivityPenalty then 0
    else 4 * BaseReward(c, s, i) + if targeted then 0 else Portion(stake, delay, c.inactivityPenaltyQuotient)
  }

  ghost predicate Rewarded(c: Config, s: BeaconState, s': BeaconState, x: RewardInputs) {
    && Shape(c, s) && CurrentEpoch(c, s) > GENESIS_EPOCH && ProcessRewards(c, s) == Ok(s')
    && |s'.balances| == |s.balances| && GatherInputs(c, s) == Ok(x)
    && InclusionsSound(c, s, x) && s.finalizedCheckpoint.epoch <= PreviousEpoch(c, s)
  }

  lemma RewardedHolds(c: Config, s: BeaconState)
    requires Shape(c, s) && CurrentEpoch(c, s) > GENESIS_EPOCH && ProcessRewards(c, s).Ok?
    ensures GatherInputs(c, s).Ok? && Rewarded(c, s, ProcessRewards(c, s).value, GatherInputs(c, s).value)
  {
    hide UnslashedAttesting, MatchingTarget, MatchingHead, RewardedBalances, InclusionsSound, EpochOf;
  }

  lemma CostsAre(c: Config, s: BeaconState, s': BeaconState, x: RewardInputs, i: ValidatorIndex)
    requires Rewarded(c, s, s', x) && i < |s.validators|
    ensures Penalty(c, s, x, i) == Costs(c, s, i)
  {
    hide BaseReward, Eligible, GatherInputs, Sourced, Targeted, Headed, ProcessRewards, InclusionsSound, EpochOf,
      LeakCosts, InactivityPenalty;
    InputsAre(c, s, i);
    LeakCostsAre(c, s, x, i);
  }

  lemma LeakCostsAre(c: Config, s: BeaconState, x: RewardInputs, i: ValidatorIndex)
    requires Shape(c, s) && i < |s.validators| && s.finalizedCheckpoint.epoch <= PreviousEpoch(c, s)
    requires x.finalityDelay == PreviousEpoch(c, s) - s.finalizedCheckpoint.epoch
    ensures InactivityPenalty(c, s, x, i) == if Eligible(c, s, i) then LeakCosts(c, s, i, i in x.target) else 0
  {
    hide BaseReward, Eligible, EpochOf, Div;
    MulIsProduct(s.validators[i].effectiveBalance, x.finalityDelay);
    DivModAreOperators(s.validators[i].effectiveBalance * x.finalityDelay, c.inactivityPenaltyQuotient);
  }

  lemma EarningsAre(c: Config, s: BeaconState, s': BeaconState, x: RewardInputs, i: ValidatorIndex)
    requires Rewarded(c, s, s', x) && i < |s.validators|
    ensures Reward(c, s, x, i) == Earnings(c, s, x, i) + ProposerReward(c, s, x, x.source, i)
  {
    hide Eligible, GatherInputs, Sourced, Targeted, Headed, ProcessRewards, EpochOf, MatchReward, Share,
      ProposerReward, Inclusion, DelayShare, AttesterShare;
    InputsAre(c, s, i);
    MatchRewardIs(c, s, x.source, i);
    MatchRewardIs(c, s, x.target, i);
    MatchRewardIs(c, s, x.head, i);
    if i in x.source {
      AttesterShareIs(c, s, i, Inclusion(c, s, x, i).inclusionDelay);
    }
  }

  /** A balance grows by what the votes earn and by what its owner proposed, and shrinks by what is missing;
      it never goes below zero. */
  lemma {:induction false} BalanceAfterRewards(c: Config, s: BeaconState, s': BeaconState, x: RewardInputs,
                                               i: ValidatorIndex)
    requires Rewarded(c, s, s', x) && i < |s.validators|
    ensures var gross := s.balances[i] + Earnings(c, s, x, i) + ProposerReward(c, s, x, x.source, i);
      s'.balances[i] == if gross >= Costs(c, s, i) then gross - Costs(c, s, i) else 0
  {
    hide Earnings, Costs, Reward, Penalty, ProposerReward, GatherInputs, InclusionsSound, EpochOf;
    EarningsAre(c, s, s', x, i);
    CostsAre(c, s, s', x, i);
  }

  // Proposers

  /** A proposer whose inclusions none of the attesters is rewarded by earns nothing. */
  lemma {:induction false} UnpaidProposer(c: Config, s: BeaconState, x: RewardInputs, attesters: seq<ValidatorIndex>,
                                          p: ValidatorIndex)
    requires Shape(c, s) && InRange(attesters, |s.validators|) && x.attestations != []
    requires forall k :: 0 <= k < |attesters| ==> Inclusion(c, s, x, attesters[k]).proposerIndex != p
    ensures ProposerReward(c, s, x, attesters, p) == 0
    decreases |attesters|
  {
    hide Inclusion, ProposerShare;
    if attesters != [] {
      UnpaidProposer(c, s, x, attesters[..|attesters| - 1], p);
    }
  }

  /** Every inclusion pays its proposer. */
  lemma {:induction false} EachInclusionPays(c: Config, s: BeaconState, x: RewardInputs,
                                             attesters: seq<ValidatorIndex>, p: ValidatorIndex, k: nat)
    requires Shape(c, s) && InRange(attesters, |s.validators|) && x.attestations != [] && k < |attesters|
    requires Inclusion(c, s, x, attesters[k]).proposerIndex == p
    ensures ProposerReward(c, s, x, attesters, p) >= BaseReward(c, s, attesters[k]) / c.proposerRewardQuotient
    decreases |attesters|
  {
    hide Inclusion, BaseReward, ProposerShare;
    AttesterShareIs(c, s, attesters[k], 1);
    if k < |attesters| - 1 {
      EachInclusionPays(c, s, x, attesters[..|attesters| - 1], p, k);
    }
  }

  /** What the first `n` validators earn as proposers. */
  ghost function PaidTo(c: Config, s: BeaconState, x: RewardInputs, attesters: seq<ValidatorIndex>, n: nat): Gwei
    requires Shape(c, s) && InRange(attesters, |s.validators|) && (x.attestations == [] ==> attesters == [])
  {
    if n == 0 then 0 else PaidTo(c, s, x, attesters, n - 1) + ProposerReward(c, s, x, attesters, n - 1)
  }

  /** The proposer's part of a base reward. */
  function ProposerPart(c: Config, s: BeaconState, i: ValidatorIndex): Gwei
    requires ValidConfig(c) && i < |s.validators|
  {
    hide BaseReward;
    Portion(1, BaseReward(c, s, i), c.proposerRewardQuotient)
  }

  ghost function ProposerParts(c: Config, s: BeaconState, attesters: seq<ValidatorIndex>): Gwei
    requires Shape(c, s) && InRange(attesters, |s.validators|)
  {
    if attesters == [] then 0
    else
      var n := |attesters| - 1;
      ProposerParts(c, s, attesters[..n]) + ProposerPart(c, s, attesters[n])
  }

  lemma {:induction false} OneIsPaid(c: Config, s: BeaconState, x: RewardInputs, attesters: seq<ValidatorIndex>, n: nat)
    requires Shape(c, s) && InRange(attesters, |s.validators|) && x.attestations != [] && attesters != []
    ensures var m := |attesters| - 1; var j := attesters[m];
      PaidTo(c, s, x, attesters, n) == PaidTo(c, s, x, attesters[..m], n)
        + if Inclusion(c, s, x, j).proposerIndex < n then ProposerShare(c, s, j) else 0
    decreases n
  {
    hide Inclusion, ProposerShare;
    if n > 0 {
      OneIsPaid(c, s, x, attesters, n - 1);
    }
  }

  /** Nothing is lost: the proposers together earn the proposer's part of every attester's base reward. */
  lemma {:induction false} ProposersShareAll(c: Config, s: BeaconState, x: RewardInputs, attesters: seq<ValidatorIndex>)
    requires Shape(c, s) && InRange(attesters, |s.validators|) && (x.attestations == [] ==> attesters == [])
    requires forall k :: 0 <= k < |attesters| ==> Inclusion(c, s, x, attesters[k]).proposerIndex < |s.validators|
    ensures PaidTo(c, s, x, attesters, |s.validators|) == ProposerParts(c, s, attesters)
    decreases |attesters|
  {
    hide Inclusion, BaseReward, PaidTo, ProposerShare;
    if attesters == [] {
      NobodyIsPaid(c, s, x, |s.validators|);
    } else {
      var m := |attesters| - 1;
      ProposersShareAll(c, s, x, attesters[..m]);
      OneIsPaid(c, s, x, attesters, |s.validators|);
      AttesterShareIs(c, s, attesters[m], 1);
    }
  }

  lemma {:induction false} NobodyIsPaid(c: Config, s: BeaconState, x: RewardInputs, n: nat)
    requires Shape(c, s)
    ensures PaidTo(c, s, x, [], n) == 0
  {
    if n > 0 {
      NobodyIsPaid(c, s, x, n - 1);
    }
  }

  // Who gains and who loses

  ghost predicate ProposesNothing(c: Config, s: BeaconState, x: RewardInputs, i: ValidatorIndex)
    requires Shape(c, s) && (x.attestations == [] ==> x.source == [])
  {
    forall k :: 0 <= k < |x.source| ==> Inclusion(c, s, x, x.source[k]).proposerIndex != i
  }

  predicate Leaking(c: Config, s: BeaconState)
    requires ValidConfig(c)
  {
    s.finalizedCheckpoint.epoch + c.minEpochsToInactivityPenalty < PreviousEpoch(c, s)
  }

  lemma NothingProposed(c: Config, s: BeaconState, s': BeaconState, x: RewardInputs, i: ValidatorIndex)
    requires Rewarded(c, s, s', x) && ProposesNothing(c, s, x, i)
    ensures ProposerReward(c, s, x, x.source, i) == 0
  {
    hide Inclusion, ProcessRewards, ProposerShare, EpochOf, InclusionsSound;
    if x.source != [] {
      UnpaidProposer(c, s, x, x.source, i);
    }
  }

  /** Without a leak, an eligible validator whose votes count in all three ways never loses: it gains its three
      shares, its share by delay, and whatever it proposed. */
  lemma {:induction false} FullVoterGains(c: Config, s: BeaconState, s': BeaconState, x: RewardInputs,
                                          i: ValidatorIndex)
    requires Rewarded(c, s, s', x) && i < |s.validators| && Eligible(c, s, i) && !Leaking(c, s)
    requires Sourced(c, s, i) && Targeted(c, s, i) && Headed(c, s, i)
    ensures i in x.source && x.attestations != [] && Inclusion(c, s, x, i).inclusionDelay >= 1
    ensures s'.balances[i] >= s.balances[i] + Share(c, s, i, x.source) + Share(c, s, i, x.target)
                              + Share(c, s, i, x.head) + DelayShare(c, s, i, Inclusion(c, s, x, i).inclusionDelay)
  {
    hide Sourced, Targeted, Headed, Eligible, ProcessRewards, Share, DelayShare, Inclusion, ProposerReward, EpochOf,
      BaseReward;
    InputsAre(c, s, i);
    BalanceAfterRewards(c, s, s', x, i);
  }

  /** Without a leak, an eligible validator with no vote at all that proposed nothing loses three base rewards, or
      everything. */
  lemma {:induction false} AbsentLoses(c: Config, s: BeaconState, s': BeaconState, x: RewardInputs, i: ValidatorIndex)
    requires Rewarded(c, s, s', x) && i < |s.validators| && Eligible(c, s, i) && !Leaking(c, s)
    requires !Sourced(c, s, i) && ProposesNothing(c, s, x, i)
    ensures s'.balances[i] == Max(0, s.balances[i] - 3 * BaseReward(c, s, i))
  {
    hide Sourced, Targeted, Headed, Eligible, ProcessRewards, Share, DelayShare, Inclusion, ProposerReward, EpochOf,
      BaseReward, ProposesNothing;
    VotesAreSourced(c, s, i);
    InputsAre(c, s, i);
    NothingProposed(c, s, s', x, i);
    BalanceAfterRewards(c, s, s', x, i);
  }

  lemma VotesAreSourced(c: Config, s: BeaconState, i: ValidatorIndex)
    requires Shape(c, s) && !Sourced(c, s, i)
    ensures !Targeted(c, s, i) && !Headed(c, s, i)
  {
    hide Attests, BlockRoot, BlockRootAtSlot;
  }

  /** Without a leak, an eligible validator that voted late loses one base reward for each of target and head that
      it missed, and still gains its share for the source and its share by delay. */
  lemma {:induction false} LateVoter(c: Config, s: BeaconState, s': BeaconState, x: RewardInputs, i: ValidatorIndex)
    requires Rewarded(c, s, s', x) && i < |s.validators| && Eligible(c, s, i) && !Leaking(c, s)
    requires Sourced(c, s, i) && ProposesNothing(c, s, x, i)
    ensures i in x.source && x.attestations != [] && Inclusion(c, s, x, i).inclusionDelay >= 1
    ensures var base, delay := BaseReward(c, s, i), Inclusion(c, s, x, i).inclusionDelay;
      var earned := s.balances[i] + Share(c, s, i, x.source) + DelayShare(c, s, i, delay);
      && (Targeted(c, s, i) && !Headed(c, s, i) ==>
            s'.balances[i] == Max(0, earned + Share(c, s, i, x.target) - base))
      && (!Targeted(c, s, i) && Headed(c, s, i) ==>
            s'.balances[i] == Max(0, earned + Share(c, s, i, x.head) - base))
      && (!Targeted(c, s, i) && !Headed(c, s, i) ==> s'.balances[i] == Max(0, earned - 2 * base))
  {
    hide Sourced, Targeted, Headed, Eligible, ProcessRewards, Share, DelayShare, Inclusion, ProposerReward, EpochOf,
      BaseReward, ProposesNothing;
    InputsAre(c, s, i);
    NothingProposed(c, s, s', x, i);
    BalanceAfterRewards(c, s, s', x, i);
  }

  /** An ineligible validator that proposed nothing keeps its balance, unless a vote of it counts all the same;
      then it gains its share by delay. */
  lemma {:induction false} IneligibleKeeps(c: Config, s: BeaconState, s': BeaconState, x: RewardInputs,
                                           i: ValidatorIndex)
    requires Rewarded(c, s, s', x) && i < |s.validators| && !Eligible(c, s, i) && ProposesNothing(c, s, x, i)
    ensures i in x.source <==> Sourced(c, s, i)
    ensures i in x.source ==> x.attestations != [] && Inclusion(c, s, x, i).inclusionDelay >= 1
    ensures s'.balances[i] == s.balances[i]
      + if Sourced(c, s, i) then DelayShare(c, s, i, Inclusion(c, s, x, i).inclusionDelay) else 0
  {
    hide Sourced, Targeted, Headed, Eligible, ProcessRewards, Share, DelayShare, Inclusion, ProposerReward, EpochOf,
      BaseReward, ProposesNothing;
    InputsAre(c, s, i);
    NothingProposed(c, s, s', x, i);
    BalanceAfterRewards(c, s, s', x, i);
  }

  /** Under a leak an eligible validator loses four base rewards more, and one without a target vote also its
      stake times the finality delay over the quotient: with no vote at all, it loses all of this. */
  lemma {:induction false} LeakDrains(c: Config, s: BeaconState, s': BeaconState, x: RewardInputs, i: ValidatorIndex)
    requires Rewarded(c, s, s', x) && i < |s.validators| && Eligible(c, s, i) && Leaking(c, s)
    requires !Sourced(c, s, i) && ProposesNothing(c, s, x, i)
    ensures var delay := PreviousEpoch(c, s) - s.finalizedCheckpoint.epoch;
      s'.balances[i] == Max(0, s.balances[i] - 7 * BaseReward(c, s, i)
        - Portion(s.validators[i].effectiveBalance, delay, c.inactivityPenaltyQuotient))
  {
    hide Sourced, Targeted, Headed, Eligible, ProcessRewards, Earnings, Costs, LeakCosts, Inclusion, ProposerReward,
      EpochOf, BaseReward, ProposesNothing, Portion, InclusionsSound, GatherInputs;
    NoVotes(c, s, s', x, i);
    CostOfLeak(c, s, i);
    NothingProposed(c, s, s', x, i);
    BalanceAfterRewards(c, s, s', x, i);
  }

  lemma CostOfLeak(c: Config, s: BeaconState, i: ValidatorIndex)
    requires Shape(c, s) && i < |s.validators| && Leaking(c, s)
    ensures var delay := PreviousEpoch(c, s) - s.finalizedCheckpoint.epoch;
      LeakCosts(c, s, i, false) == 4 * BaseReward(c, s, i)
        + Portion(s.validators[i].effectiveBalance, delay, c.inactivityPenaltyQuotient)
  {
    hide BaseReward, Portion, EpochOf;
  }

  lemma NoVotes(c: Config, s: BeaconState, s': BeaconState, x: RewardInputs, i: ValidatorIndex)
    requires Rewarded(c, s, s', x) && i < |s.validators| && Eligible(c, s, i) && !Sourced(c, s, i)
    ensures Earnings(c, s, x, i) == 0
    ensures Costs(c, s, i) == 3 * BaseReward(c, s, i) + LeakCosts(c, s, i, false)
  {
    hide Sourced, Targeted, Headed, Eligible, ProcessRewards, Share, DelayShare, Inclusion, EpochOf, BaseReward,
      LeakCosts, GatherInputs;
    VotesAreSourced(c, s, i);
    InputsAre(c, s, i);
  }

  /** And one that voted in all three ways has its gains against those four base rewards. */
  lemma {:induction false} LeakTaxes(c: Config, s: BeaconState, s': BeaconState, x: RewardInputs, i: ValidatorIndex)
    requires Rewarded(c, s, s', x) && i < |s.validators| && Eligible(c, s, i) && Leaking(c, s)
    requires Sourced(c, s, i) && Targeted(c, s, i) && Headed(c, s, i) && ProposesNothing(c, s, x, i)
    ensures i in x.source && x.attestations != [] && Inclusion(c, s, x, i).inclusionDelay >= 1
    ensures s'.balances[i] == Max(0, s.balances[i] + Share(c, s, i, x.source) + Share(c, s, i, x.target)
      + Share(c, s, i, x.head) + DelayShare(c, s, i, Inclusion(c, s, x, i).inclusionDelay) - 4 * BaseReward(c, s, i))
  {
    hide Sourced, Targeted, Headed, Eligible, ProcessRewards, Share, DelayShare, Inclusion, ProposerReward, EpochOf,
      BaseReward, ProposesNothing, Portion;
    InputsAre(c, s, i);
    NothingProposed(c, s, s', x, i);
    BalanceAfterRewards(c, s, s', x, i);
  }

  /** Without a leak, a slashed validator loses three base rewards at every epoch end until it may withdraw, or
      everything, whatever it votes. */
  lemma {:induction false} SlashedLoses(c: Config, s: BeaconState, s': BeaconState, x: RewardInputs, i: ValidatorIndex)
    requires Rewarded(c, s, s', x) && i < |s.validators| && !Leaking(c, s) && ProposesNothing(c, s, x, i)
    requires s.validators[i].slashed && CurrentEpoch(c, s) < s.validators[i].withdrawableEpoch
    ensures s'.balances[i] == Max(0, s.balances[i] - 3 * BaseReward(c, s, i))
  {
    hide ProcessRewards, Inclusion, EpochOf, BaseReward, ProposesNothing, Attests, InclusionsSound, GatherInputs;
    AbsentLoses(c, s, s', x, i);
  }

  // Who makes a quorum

  predicate VotesFor(c: Config, s: BeaconState, atts: seq<PendingAttestation>, root: Hash, i: ValidatorIndex)
    requires Shape(c, s)
  {
    && i < |s.validators| && !s.validators[i].slashed
    && exists a :: a in atts && a.data.target.root == root && Attests(c, s, a, i)
  }

  /** The balance behind an epoch's target is that of the unslashed validators with a stored vote for its root. */
  lemma {:induction false} TargetBalanceIs(c: Config, s: BeaconState, e: Epoch, i: ValidatorIndex)
    returns (voters: seq<ValidatorIndex>)
    requires Shape(c, s) && (e == CurrentEpoch(c, s) || e == PreviousEpoch(c, s))
    requires AttestingTargetBalance(c, s, e).Ok?
    ensures InRange(voters, |s.validators|) && AttestingTargetBalance(c, s, e).value == TotalBalance(s, voters)
    ensures BlockRoot(c, s, e).Ok?
    ensures var atts := if e == CurrentEpoch(c, s) then s.currentEpochAttestations else s.previousEpochAttestations;
      i in voters <==> VotesFor(c, s, atts, BlockRoot(c, s, e).value, i)
  {
    hide Attests, UnslashedAttesting, BlockRoot, FilterTarget, EpochOf, TotalBalance;
    var matching := MatchingTarget(c, s, e).value;
    voters := UnslashedAttesting(c, s, matching).value;
    AttestsSome(c, s, matching, i);
  }
}
