/**
 The two forms of the reward code. `AttestationDeltas` fills two vectors over the eligible
 validators; the component accumulates into two maps over all validators. Both are proved against
 the closed form `Reward`/`Penalty` of each validator.
 */
module Rewards {
  import opened BeaconTypes
  import opened Accessors
  import opened Mutators
  import opened EpochProcessing
  import opened Arith
  import Sorting

  const MAX_U64: nat := 0xFFFF_FFFF_FFFF_FFFF

  // Integer square root

  lemma ArithmeticGeometric(a: nat, b: nat)
    ensures 4 * (a * b) <= (a + b) * (a + b)
  {
    assert (a - b) * (a - b) >= 0;
    assert (a + b) * (a + b) - 4 * (a * b) == (a - b) * (a - b);
  }

  lemma SquareMonotone(a: nat, b: nat)
    requires a <= b
    ensures a * a <= b * b
  {
    MulMonotone(a, b, a);
    MulMonotone(a, b, b);
  }

  lemma DoubleSquare(a: nat)
    ensures (2 * a) * (2 * a) == 4 * (a * a)
  {
  }

  lemma NewtonCore(n: nat, x: nat, z: nat, w: nat)
    requires n < x * z && x + z <= 2 * w
    ensures n < w * w
  {
    ArithmeticGeometric(x, z);
    SquareMonotone(x + z, 2 * w);
    DoubleSquare(w);
  }

  /** A Newton step never falls below the root. */
  lemma NewtonStaysAbove(n: nat, x: nat)
    requires n >= 1 && x >= 1
    ensures var y := (x + Div(n, x)) / 2; y >= 1 && n < (y + 1) * (y + 1)
  {
    hide Div;
    var q := Div(n, x);
    DivModLaw(n, x);
    Distribute(q, 1, x);
    NewtonCore(n, x, q + 1, (x + q) / 2 + 1);
    if q == 0 {
      assert x >= 2;
    }
  }

  /** And its sum fits where `n + 1` fits. */
  lemma NewtonSumBounded(n: nat, x: nat)
    requires 1 <= x <= n
    ensures x + Div(n, x) <= n + 1
  {
    DivModLaw(n, x);
    var q := Div(n, x);
    if q == 0 {
      MulMonotone(0, 1, x);
    } else {
      assert (x - 1) * (q - 1) >= 0;
      assert (x - 1) * (q - 1) == q * x - x - q + 1;
    }
  }

  lemma RootUnique(n: nat, x: nat)
    requires x * x <= n < (x + 1) * (x + 1)
    ensures x == Root(n)
  {
    hide Root;
    var r := Root(n);
    if x < r {
      SquareMonotone(x + 1, r);
    } else if r < x {
      SquareMonotone(r + 1, x);
    }
  }

  /** Newton's iteration from above, on 64-bit words. */
  method IntegerSquareroot(n: nat) returns (x: nat)
    requires n < MAX_U64
    ensures x == Root(n) && x * x <= n < (x + 1) * (x + 1)
  {
    x := n;
    var y := (x + 1) / 2;
    if n > 0 {
      DivModUnique(n, n, 1, 0);
      NewtonStaysAbove(n, n);
      MulMonotone(1, n + 1, n);
    }
    while y < x
      invariant 0 <= x <= n && n < (x + 1) * (x + 1)
      invariant n == 0 ==> y == 0
      invariant n > 0 ==> x >= 1 && y == (x + Div(n, x)) / 2 && y >= 1 && n < (y + 1) * (y + 1)
      decreases x
    {
      x := y;
      NewtonStaysAbove(n, x);
      NewtonSumBounded(n, x);
      assert x + Div(n, x) <= MAX_U64;
      y := (x + Div(n, x)) / 2;
    }
    if n > 0 {
      DivModLaw(n, x);
      MulMonotone(x, Div(n, x), x);
    }
    RootUnique(n, x);
  }

  /** With the presets' balances, no product of the reward formula leaves 64 bits. */
  lemma RewardProductsFit(effective: Gwei, factor: nat, total: Gwei, attesting: Gwei)
    requires effective <= 32_000_000_000 && factor <= 64
    requires 1 <= total <= 1_000_000_000_000_000 && attesting <= total
    ensures Mul(effective, factor) <= MAX_U64
    ensures var base := Div(Mul(effective, factor), Root(total)) / BASE_REWARDS_PER_EPOCH;
      Mul(base, attesting) <= MAX_U64 && Div(Mul(base, attesting), total) <= base
  {
    hide Root, Div;
    var r, product := Root(total), Mul(effective, factor);
    var base := Div(product, r) / 4;
    MulIsProduct(effective, factor);
    MulMonotone(effective, 32_000_000_000, factor);
    RootBelow(total);
    BaseTimesRoot(product, r);
    MulIsProduct(base, attesting);
    ProductBound(base, r, attesting);
    ShareAtMost(base, attesting, total);
  }

  lemma BaseTimesRoot(product: nat, r: nat)
    requires product <= 2_048_000_000_000 && r >= 1
    ensures (Div(product, r) / 4) * r <= 512_000_000_000
  {
    hide Div;
    var q := Div(product, r);
    DivModLaw(product, r);
    MulMonotone(4 * (q / 4), q, r);
    assert (4 * (q / 4)) * r == 4 * ((q / 4) * r);
  }

  lemma RootBelow(total: Gwei)
    requires 1 <= total <= 1_000_000_000_000_000
    ensures 1 <= Root(total) <= 31_622_776
  {
    hide Root;
    var r := Root(total);
    if r >= 31_622_777 {
      SquareMonotone(31_622_777, r);
    }
  }

  lemma ProductBound(base: nat, r: nat, attesting: nat)
    requires 1 <= r <= 31_622_776 && base * r <= 512_000_000_000 && attesting < (r + 1) * (r + 1)
    ensures base * attesting <= MAX_U64
  {
    MulMonotone(1, r, base);
    assert base <= 512_000_000_000;
    MulMonotone(attesting, (r + 1) * (r + 1), base);
    assert (r + 1) * (r + 1) == r * r + 2 * r + 1;
    assert ((r + 1) * (r + 1)) * base == (r * base) * r + 2 * (r * base) + base;
    assert r * base == base * r;
    MulMonotone(base * r, 512_000_000_000, r);
    MulMonotone(r, 31_622_776, 512_000_000_000);
  }

  /** A share of a whole is at most the whole. */
  lemma ShareAtMost(base: nat, part: nat, whole: nat)
    requires whole >= 1 && part <= whole
    ensures Div(Mul(base, part), whole) <= base
  {
    MulIsProduct(base, part);
    MulMonotone(part, whole, base);
    DivModLaw(base * part, whole);
    if Div(base * part, whole) > base {
      MulStrict(base, Div(base * part, whole), whole);
    }
  }

  /** A share is at most the base exactly when the part exceeds the whole by less than a base-th of it. */
  lemma ShareAtMostIff(base: nat, part: nat, whole: nat)
    requires whole >= 1
    ensures Div(Mul(base, part), whole) <= base <==> base * part < (base + 1) * whole
  {
    MulIsProduct(base, part);
    DivAtLeast(base * part, whole, base + 1);
  }

  /** A matching reward exceeds the base reward exactly when the attesters outweigh the whole active set by
      more than the rounding takes back; it never does while they weigh at most that set. */
  lemma MatchRewardBounded(c: Config, s: BeaconState, attesters: seq<ValidatorIndex>, i: ValidatorIndex)
    requires ValidConfig(c) && InRange(attesters, |s.validators|) && i < |s.validators|
    ensures var base, part, whole := BaseReward(c, s, i), TotalBalance(s, attesters), TotalActiveBalance(c, s);
      && (MatchReward(c, s, attesters, i) <= base
          <==> !Eligible(c, s, i) || i !in attesters || base * part < (base + 1) * whole)
      && (part <= whole ==> MatchReward(c, s, attesters, i) <= base)
  {
    hide BaseReward, TotalBalance, TotalActiveBalance, Eligible, Div, Mul;
    var base, part, whole := BaseReward(c, s, i), TotalBalance(s, attesters), TotalActiveBalance(c, s);
    ShareAtMostIff(base, part, whole);
    if part <= whole {
      ShareAtMost(base, part, whole);
    }
  }

  /** The base reward by the square root loop and the source's divisions. */
  method ComputeBaseReward(c: Config, s: BeaconState, i: ValidatorIndex) returns (reward: Gwei)
    requires ValidConfig(c) && i < |s.validators| && TotalActiveBalance(c, s) < MAX_U64
    ensures reward == BaseReward(c, s, i)
  {
    hide TotalActiveBalance, Root, Mul, Div;
    var root := IntegerSquareroot(TotalActiveBalance(c, s));
    var product := s.validators[i].effectiveBalance * c.baseRewardFactor;
    MulIsProduct(s.validators[i].effectiveBalance, c.baseRewardFactor);
    DivModAreOperators(product, root);
    reward := product / root / BASE_REWARDS_PER_EPOCH;
  }

  // The vectors

  function EligibleIndices(c: Config, s: BeaconState, k: nat): (r: seq<ValidatorIndex>)
    requires ValidConfig(c) && k <= |s.validators|
    ensures InRange(r, k) && Sorting.Distinct(r)
    ensures forall i :: i in r <==> 0 <= i < k && Eligible(c, s, i)
  {
    if k == 0 then []
    else
      var before := EligibleIndices(c, s, k - 1);
      if Eligible(c, s, k - 1) then before + [k - 1] else before
  }

  /** One round of micro-incentives over the eligible validators. */
  method AddMatching(c: Config, s: BeaconState, attesters: seq<ValidatorIndex>, rewards: seq<Gwei>,
                     penalties: seq<Gwei>)
    returns (rewards': seq<Gwei>, penalties': seq<Gwei>)
    requires Shape(c, s) && InRange(attesters, |s.validators|)
    requires |rewards| == |penalties| == |s.validators|
    ensures |rewards'| == |penalties'| == |s.validators|
    ensures forall i :: 0 <= i < |s.validators| ==> rewards'[i] == rewards[i] + MatchReward(c, s, attesters, i)
    ensures forall i :: 0 <= i < |s.validators| ==> penalties'[i] == penalties[i] + MatchPenalty(c, s, attesters, i)
  {
    hide BaseReward, TotalBalance, TotalActiveBalance, Eligible, EligibleIndices, Div, Mul;
    var eligible := EligibleIndices(c, s, |s.validators|);
    var attestingBalance, totalBalance := TotalBalance(s, attesters), TotalActiveBalance(c, s);
    rewards', penalties' := rewards, penalties;
    for k := 0 to |eligible|
      invariant |rewards'| == |penalties'| == |s.validators|
      invariant forall i :: 0 <= i < |s.validators| ==>
        rewards'[i] == rewards[i] + if i in eligible[..k] then MatchReward(c, s, attesters, i) else 0
      invariant forall i :: 0 <= i < |s.validators| ==>
        penalties'[i] == penalties[i] + if i in eligible[..k] then MatchPenalty(c, s, attesters, i) else 0
    {
      var i := eligible[k];
      assert i !in eligible[..k];
      assert eligible[..k + 1] == eligible[..k] + [i];
      if i in attesters {
        rewards' := rewards'[i := rewards'[i] + Div(Mul(BaseReward(c, s, i), attestingBalance), totalBalance)];
      } else {
        penalties' := penalties'[i := penalties'[i] + BaseReward(c, s, i)];
      }
    }
    assert eligible[..|eligible|] == eligible;
  }

  /** Proposer and inclusion rewards; a zero delay or an unknown proposer panics. */
  method AddInclusions(c: Config, s: BeaconState, x: RewardInputs, rewards: seq<Gwei>)
    returns (ok: bool, rewards': seq<Gwei>)
    requires Shape(c, s) && InputsInRange(s, x) && (x.attestations == [] ==> x.source == [])
    requires |rewards| == |s.validators|
    ensures ok <==> InclusionsSound(c, s, x)
    ensures ok ==> |rewards'| == |s.validators|
    ensures ok ==> forall i :: 0 <= i < |s.validators| ==>
      rewards'[i] == rewards[i] + ProposerReward(c, s, x, x.source, i) + InclusionReward(c, s, x, x.source, i)
  {
    hide Inclusion, ProposerShare, AttesterShare, ProposerReward, InclusionReward, InclusionsSound, InclusionsSoundFor;
    rewards' := rewards;
    NoInclusions(c, s, x);
    assert x.source[..0] == [];
    for k := 0 to |x.source|
      invariant |rewards'| == |s.validators|
      invariant InclusionsSoundFor(c, s, x, x.source[..k]) && DelaysSound(c, s, x, x.source[..k])
      invariant forall i :: 0 <= i < |s.validators| ==>
        rewards'[i]
        == rewards[i] + ProposerReward(c, s, x, x.source[..k], i) + InclusionReward(c, s, x, x.source[..k], i)
    {
      var j := x.source[k];
      var a := Inclusion(c, s, x, j);
      SoundExtends(c, s, x, k);
      if a.inclusionDelay == 0 || a.proposerIndex >= |s.validators| {
        UnsoundAt(c, s, x, k);
        ok := false;
        return;
      }
      forall i | 0 <= i < |s.validators|
        ensures ProposerReward(c, s, x, x.source[..k + 1], i)
             == ProposerReward(c, s, x, x.source[..k], i) + (if a.proposerIndex == i then ProposerShare(c, s, j) else 0)
        ensures InclusionReward(c, s, x, x.source[..k + 1], i)
             == InclusionReward(c, s, x, x.source[..k], i)
                + (if i == j then AttesterShare(c, s, j, a.inclusionDelay) else 0)
      {
        InclusionStep(c, s, x, k, i);
      }
      var share := ProposerShare(c, s, j);
      rewards' := rewards'[a.proposerIndex := rewards'[a.proposerIndex] + share];
      rewards' := rewards'[j := rewards'[j] + AttesterShare(c, s, j, a.inclusionDelay)];
    }
    assert x.source[..|x.source|] == x.source;
    ok := true;
  }

  lemma UnsoundAt(c: Config, s: BeaconState, x: RewardInputs, k: nat)
    requires Shape(c, s) && k < |x.source| && x.attestations != []
    requires var a := Inclusion(c, s, x, x.source[k]); a.inclusionDelay == 0 || a.proposerIndex >= |s.validators|
    ensures !InclusionsSound(c, s, x)
  {
    hide Inclusion;
    assert x.source[k] in x.source;
  }

  ghost predicate InclusionsSoundFor(c: Config, s: BeaconState, x: RewardInputs, attesters: seq<ValidatorIndex>)
    requires Shape(c, s) && (x.attestations == [] ==> attesters == [])
  {
    forall i :: i in attesters ==>
      Inclusion(c, s, x, i).inclusionDelay >= 1 && Inclusion(c, s, x, i).proposerIndex < |s.validators|
  }

  ghost predicate DelaysSound(c: Config, s: BeaconState, x: RewardInputs, attesters: seq<ValidatorIndex>)
    requires Shape(c, s) && (x.attestations == [] ==> attesters == [])
  {
    forall i :: i in attesters ==> Inclusion(c, s, x, i).inclusionDelay >= 1
  }

  lemma NoInclusions(c: Config, s: BeaconState, x: RewardInputs)
    requires Shape(c, s)
    ensures InclusionsSoundFor(c, s, x, [])
    ensures forall i :: 0 <= i < |s.validators| ==>
      ProposerReward(c, s, x, [], i) == InclusionReward(c, s, x, [], i) == 0
    ensures (x.attestations == [] ==> x.source == []) ==>
      (InclusionsSoundFor(c, s, x, x.source) <==> InclusionsSound(c, s, x))
  {
    hide Inclusion;
  }

  lemma {:induction false} SoundExtends(c: Config, s: BeaconState, x: RewardInputs, k: nat)
    requires Shape(c, s) && k < |x.source| && x.attestations != []
    ensures DelaysSound(c, s, x, x.source[..k + 1]) <==>
      DelaysSound(c, s, x, x.source[..k]) && Inclusion(c, s, x, x.source[k]).inclusionDelay >= 1
    ensures InclusionsSoundFor(c, s, x, x.source[..k + 1]) <==>
      && InclusionsSoundFor(c, s, x, x.source[..k])
      && Inclusion(c, s, x, x.source[k]).inclusionDelay >= 1
      && Inclusion(c, s, x, x.source[k]).proposerIndex < |s.validators|
  {
    hide Inclusion;
    assert x.source[..k + 1] == x.source[..k] + [x.source[k]];
  }

  lemma {:induction false} InclusionStep(c: Config, s: BeaconState, x: RewardInputs, k: nat, i: ValidatorIndex)
    requires Shape(c, s) && InputsInRange(s, x) && x.attestations != []
    requires k < |x.source| && i < |s.validators| && DelaysSound(c, s, x, x.source[..k + 1])
    ensures var j := x.source[k]; var a := Inclusion(c, s, x, j);
      && ProposerReward(c, s, x, x.source[..k + 1], i)
         == ProposerReward(c, s, x, x.source[..k], i) + (if a.proposerIndex == i then ProposerShare(c, s, j) else 0)
      && j in x.source[..k + 1] && (i in x.source[..k] ==> i in x.source[..k + 1])
      && InclusionReward(c, s, x, x.source[..k + 1], i)
         == InclusionReward(c, s, x, x.source[..k], i)
            + (if i == j then AttesterShare(c, s, j, a.inclusionDelay) else 0)
  {
    hide Inclusion, ProposerShare, AttesterShare;
    var j := x.source[k];
    assert x.source[..k + 1] == x.source[..k] + [j];
    assert x.source[..k + 1][..k] == x.source[..k];
    assert j !in x.source[..k];
  }

  method AddInactivity(c: Config, s: BeaconState, x: RewardInputs, penalties: seq<Gwei>) returns (penalties': seq<Gwei>)
    requires Shape(c, s) && |penalties| == |s.validators|
    ensures |penalties'| == |s.validators|
    ensures forall i :: 0 <= i < |s.validators| ==> penalties'[i] == penalties[i] + InactivityPenalty(c, s, x, i)
  {
    hide BaseReward, Eligible;
    penalties' := penalties;
    if x.finalityDelay > c.minEpochsToInactivityPenalty {
      var eligible := EligibleIndices(c, s, |s.validators|);
      for k := 0 to |eligible|
        invariant |penalties'| == |s.validators|
        invariant forall i :: 0 <= i < |s.validators| ==>
          penalties'[i] == penalties[i] + if i in eligible[..k] then InactivityPenalty(c, s, x, i) else 0
      {
        var i := eligible[k];
        assert i !in eligible[..k];
        assert eligible[..k + 1] == eligible[..k] + [i];
        penalties' := penalties'[i := penalties'[i] + BASE_REWARDS_PER_EPOCH * BaseReward(c, s, i)];
        if i !in x.target {
          penalties' := penalties'[i := penalties'[i]
            + Div(Mul(s.validators[i].effectiveBalance, x.finalityDelay), c.inactivityPenaltyQuotient)];
        }
      }
      assert eligible[..|eligible|] == eligible;
    }
  }

  /** What the passes read, in the order in which the source reads it, or the first error. */
  method ReadInputs(c: Config, s: BeaconState) returns (r: Result<RewardInputs>)
    requires Shape(c, s)
    ensures r == GatherInputs(c, s)
  {
    hide MatchingSource, MatchingTarget, MatchingHead, UnslashedAttesting, Resolves;
    var previous := PreviousEpoch(c, s);
    var source, target := MatchingSource(c, s, previous), MatchingTarget(c, s, previous);
    var head := MatchingHead(c, s, previous);
    if source.Err? {
      return Err(source.error);
    }
    if target.Err? {
      return Err(target.error);
    }
    if head.Err? {
      return Err(head.error);
    }
    var sourceAttesters := UnslashedAttesting(c, s, source.value);
    if sourceAttesters.Err? {
      return Err(sourceAttesters.error);
    }
    var targetAttesters := UnslashedAttesting(c, s, target.value);
    if targetAttesters.Err? {
      return Err(targetAttesters.error);
    }
    var headAttesters := UnslashedAttesting(c, s, head.value);
    if headAttesters.Err? {
      return Err(headAttesters.error);
    }
    if previous < s.finalizedCheckpoint.epoch {
      return Err(Panicked);
    }
    var delay := previous - s.finalizedCheckpoint.epoch;
    return Ok(RewardInputs(source.value, sourceAttesters.value, targetAttesters.value, headAttesters.value, delay));
  }

  /** The deltas of one epoch, for every validator its closed-form reward and penalty. */
  method AttestationDeltas(c: Config, s: BeaconState) returns (r: Result<(seq<Gwei>, seq<Gwei>)>)
    requires Shape(c, s)
    ensures GatherInputs(c, s).Err? ==> r == Err(GatherInputs(c, s).error)
    ensures GatherInputs(c, s).Ok? ==>
      var x := GatherInputs(c, s).value;
      if !InclusionsSound(c, s, x) then r == Err(Panicked)
      else r.Ok? && |r.value.0| == |r.value.1| == |s.validators|
           && forall i :: 0 <= i < |s.validators| ==>
                r.value.0[i] == Reward(c, s, x, i) && r.value.1[i] == Penalty(c, s, x, i)
  {
    hide GatherInputs, MatchReward, MatchPenalty, ProposerReward, InclusionReward, InactivityPenalty, InclusionsSound;
    var inputs := ReadInputs(c, s);
    if inputs.Err? {
      return Err(inputs.error);
    }
    var x := inputs.value;
    var rewards, penalties := seq(|s.validators|, _ => 0), seq(|s.validators|, _ => 0);
    rewards, penalties := AddMatching(c, s, x.source, rewards, penalties);
    rewards, penalties := AddMatching(c, s, x.target, rewards, penalties);
    rewards, penalties := AddMatching(c, s, x.head, rewards, penalties);
    var ok;
    ok, rewards := AddInclusions(c, s, x, rewards);
    if !ok {
      return Err(Panicked);
    }
    penalties := AddInactivity(c, s, x, penalties);
    return Ok((rewards, penalties));
  }
}
