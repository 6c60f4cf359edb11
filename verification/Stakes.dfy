/** Effective balances and what a slashing costs and pays. */
module Stakes {
  import opened Bytes
  import opened BeaconTypes
  import opened Accessors
  import opened Mutators
  import opened EpochProcessing
  import opened BlockProcessing
  import opened Transition
  import opened RingHistory
  import opened SlashingHistory
  import opened Arith
  import Merkle

  // Effective balances

  /** The effective balance is a whole number of increments below the maximum, or the maximum. */
  predicate Whole(c: Config, effectiveBalance: Gwei)
    requires ValidConfig(c)
  {
    || (effectiveBalance % c.effectiveBalanceIncrement == 0 && effectiveBalance < c.maxEffectiveBalance)
    || effectiveBalance == c.maxEffectiveBalance
  }

  /** In the sapphire preset the maximum is not a whole number of increments, so an effective balance need not be. */
  lemma SapphireIsUneven(crypto: Crypto)
    ensures var c := SapphireConfig(crypto);
      Hysteresis(c, 0, 5000000000) == c.maxEffectiveBalance
      && c.maxEffectiveBalance % c.effectiveBalanceIncrement != 0
  {
    DivModUnique(5000000000, 1000000000, 5, 0);
  }

  /** The balance lies between the two margins of the effective balance. */
  predicate Between(c: Config, effectiveBalance: Gwei, balance: Gwei) {
    effectiveBalance <= balance <= effectiveBalance + 3 * (c.effectiveBalanceIncrement / 2)
  }

  lemma RoundDown(balance: nat, increment: nat)
    requires increment >= 1
    ensures var r := balance - Mod(balance, increment);
      0 <= r <= balance < r + increment && r % increment == 0
  {
    DivModLaw(balance, increment);
    var q := Div(balance, increment);
    MulMonotone(0, q, increment);
    DivOfMultiple(q, 0, increment);
    DivModAreOperators(q * increment, increment);
  }

  /** The update leaves a whole effective balance. It moves exactly when the balance is outside the two margins,
      except that at the maximum it stays there; and afterwards the balance is between the margins of the new
      one, or above the maximum. */
  lemma {:induction false} HysteresisIs(c: Config, effectiveBalance: Gwei, balance: Gwei)
    requires ValidConfig(c) && Whole(c, effectiveBalance)
    ensures var r := Hysteresis(c, effectiveBalance, balance);
      && Whole(c, r)
      && (r == effectiveBalance
          <==> (Between(c, effectiveBalance, balance)
                || (effectiveBalance == c.maxEffectiveBalance && balance >= effectiveBalance)))
      && r <= balance && (Between(c, r, balance) || r == c.maxEffectiveBalance)
      && (r < effectiveBalance <==> balance < effectiveBalance)
  {
    hide Mod;
    var d := c.effectiveBalanceIncrement;
    RoundDown(balance, d);
    var rounded := balance - Mod(balance, d);
    if effectiveBalance + 3 * (d / 2) < balance {
      assert effectiveBalance + d <= balance < rounded + d;
    }
  }

  /** After the final updates of an epoch every balance is between the margins of its effective balance, or above
      the maximum. */
  lemma {:induction false} UpdatedAreClose(c: Config, s: BeaconState, i: ValidatorIndex)
    requires Shape(c, s) && i < |s.validators|
    requires Whole(c, s.validators[i].effectiveBalance)
    ensures var s' := ProcessFinalUpdates(c, s); var e := s'.validators[i].effectiveBalance;
      && Whole(c, e) && e <= s'.balances[i] && s'.balances[i] == s.balances[i]
      && (Between(c, e, s'.balances[i]) || e == c.maxEffectiveBalance)
  {
    hide Hysteresis, Mod, Div, Whole, Between, EpochOf;
    HysteresisIs(c, s.validators[i].effectiveBalance, s.balances[i]);
  }

  // Over runs

  predicate AllWhole(c: Config, vs: seq<Validator>)
    requires ValidConfig(c)
  {
    forall i :: 0 <= i < |vs| ==> Whole(c, vs[i].effectiveBalance)
  }

  lemma CreditKeepsWhole(c: Config, s: BeaconState, data: DepositData)
    requires Shape(c, s) && AllWhole(c, s.validators)
    ensures AllWhole(c, Credit(c, s, data).validators)
  {
    hide Mod, Position, Domain;
    RoundDown(data.amount, c.effectiveBalanceIncrement);
  }

  lemma {:induction false} DepositsKeepWhole(c: Config, s: BeaconState, deposits: seq<Deposit>)
    requires Shape(c, s) && AllWhole(c, s.validators)
    requires ApplyDeposits(c, s, deposits).Ok?
    ensures AllWhole(c, ApplyDeposits(c, s, deposits).value.validators)
    decreases |deposits|
  {
    hide Credit, Whole;
    if deposits != [] {
      var n := |deposits| - 1;
      DepositsKeepWhole(c, s, deposits[..n]);
      var before := ApplyDeposits(c, s, deposits[..n]).value;
      CreditKeepsWhole(c, before.(eth1DepositIndex := before.eth1DepositIndex + 1), deposits[n].data);
    }
  }

  lemma {:induction false} GenesisIsWhole(c: Config, s: BeaconState)
    requires ValidConfig(c) && IsGenesis(c, s)
    ensures AllWhole(c, s.validators)
  {
    hide ApplyDeposits, Whole;
    var deposits, time, eth1 :| GenesisState(c, deposits, time, eth1) == Ok(s);
    DepositsKeepWhole(c, BlankState(c, time, eth1), deposits);
  }

  lemma SameStakesWhole(c: Config, vs: seq<Validator>, vs': seq<Validator>)
    requires ValidConfig(c) && AllWhole(c, vs) && |vs| == |vs'|
    requires forall i :: 0 <= i < |vs| ==> vs'[i].effectiveBalance == vs[i].effectiveBalance
    ensures AllWhole(c, vs')
  {
    hide Whole;
  }

  lemma {:induction false} OperationKeepsWhole(c: Config, s: BeaconState, tx: Transaction)
    requires Shape(c, s) && AllWhole(c, s.validators)
    requires ApplyOperation(c, s, tx).Ok?
    ensures AllWhole(c, ApplyOperation(c, s, tx).value.validators)
  {
    hide AllWhole, Whole, MarkSlashed, InitiateExit, SlashAll, SlashValidator, Credit;
    var s' := ApplyOperation(c, s, tx).value;
    if tx.OfDeposit? {
      CreditKeepsWhole(c, s.(eth1DepositIndex := s.eth1DepositIndex + 1), tx.deposit.data);
    } else {
      OperationAdds(c, s, tx);
      SameCount(c, s, tx);
      hide ApplyOperation;
      SameStakesWhole(c, s.validators, s'.validators);
    }
  }

  lemma SameCount(c: Config, s: BeaconState, tx: Transaction)
    requires Shape(c, s) && ApplyOperation(c, s, tx).Ok? && !tx.OfDeposit?
    ensures |ApplyOperation(c, s, tx).value.validators| == |s.validators|
  {
    hide MarkSlashed, InitiateExit, SlashAll, SlashValidator;
  }

  lemma {:induction false} EpochKeepsWhole(c: Config, s: BeaconState)
    requires Shape(c, s) && AllWhole(c, s.validators) && ProcessEpoch(c, s).Ok?
    ensures AllWhole(c, ProcessEpoch(c, s).value.validators)
    ensures forall i :: 0 <= i < |s.validators| ==> Close(c, ProcessEpoch(c, s).value, i)
  {
    hide ProcessEpoch, ProcessJustification, ProcessRewards, ProcessRegistry, ProcessSlashings, ProcessFinalUpdates,
      Whole, Between;
    var s1, s2, s3, s4 := EpochStages(c, s);
    RegistryKeepsStakes(c, s2);
    forall i | 0 <= i < |s.validators|
      ensures Whole(c, ProcessEpoch(c, s).value.validators[i].effectiveBalance)
      ensures Close(c, ProcessEpoch(c, s).value, i)
    {
      assert Whole(c, s.validators[i].effectiveBalance);
      UpdatedAreClose(c, s4, i);
    }
  }

  /** The effective balance of `i` is at most its balance and not far below it, unless it is the maximum. */
  predicate Close(c: Config, s: BeaconState, i: ValidatorIndex) {
    && i < |s.validators| && i < |s.balances|
    && var e := s.validators[i].effectiveBalance;
       e <= s.balances[i] && (Between(c, e, s.balances[i]) || e == c.maxEffectiveBalance)
  }

  lemma {:induction false} StepKeepsWhole(c: Config, s: BeaconState, s': BeaconState)
    requires Step(c, s, s') && AllWhole(c, s.validators)
    ensures AllWhole(c, s'.validators)
  {
    hide ApplyOperation, ProcessHeader, ProcessRandao, ProcessEth1Data, ProcessEpoch, AllWhole, Whole;
    var a :| Act(c, s, a) == Ok(s');
    match a
    case Advance =>
      if AtEpochEnd(c, ProcessSlot(c, s)) {
        EpochKeepsWhole(c, ProcessSlot(c, s));
      }
    case Operate(tx) =>
      OperationKeepsWhole(c, s, tx);
    case _ =>
  }

  /** In every state of every run every effective balance is a whole number of increments below the maximum, or the
      maximum. */
  lemma {:induction false} RunKeepsWhole(c: Config, t: seq<BeaconState>, k: nat)
    requires Run(c, t) && k < |t|
    ensures AllWhole(c, t[k].validators)
  {
    hide Step, IsGenesis, AllWhole, Whole;
    if k == 0 {
      GenesisIsWhole(c, t[0]);
    } else {
      RunKeepsWhole(c, t, k - 1);
      assert Step(c, t[k - 1], t[k - 1 + 1]);
      StepKeepsWhole(c, t[k - 1], t[k]);
    }
  }

  /** And whenever a run ends an epoch, every balance is close to its effective balance. */
  lemma {:induction false} EpochEndsClose(c: Config, t: seq<BeaconState>, k: nat, i: ValidatorIndex)
    requires Run(c, t) && EndsEpoch(c, t, k) && i < |t[k].validators|
    ensures Close(c, t[k + 1], i)
  {
    hide Step, IsGenesis, AllWhole, Whole, ProcessEpoch, Between, EpochOf;
    RunKeepsWhole(c, t, k);
    RunEpochEnd(c, t, k);
    EpochKeepsWhole(c, ProcessSlot(c, t[k]));
    assert Close(c, ProcessEpoch(c, ProcessSlot(c, t[k])).value, i);
  }

  // Slashings

  /** The penalty grows with what was slashed. */
  lemma {:induction false} PenaltyGrows(c: Config, effectiveBalance: Gwei, slashed: Gwei, slashed': Gwei, total: Gwei)
    requires ValidConfig(c) && total >= 1 && slashed <= slashed'
    ensures SlashingPenalty(c, effectiveBalance, slashed, total)
         <= SlashingPenalty(c, effectiveBalance, slashed', total)
  {
    hide Mul, Div;
    var d := c.effectiveBalanceIncrement;
    var units := Div(effectiveBalance, d);
    var a, b := Min(slashed * 3, total), Min(slashed' * 3, total);
    MulIsProduct(units, a);
    MulIsProduct(units, b);
    MulMonotone(a, b, units);
    DivMonotone(units * a, units * b, total);
    MulIsProduct(Div(units * a, total), d);
    MulIsProduct(Div(units * b, total), d);
    MulMonotone(Div(units * a, total), Div(units * b, total), d);
  }

  /** Once a third of the active balance was slashed it is the whole effective balance, in increments. */
  lemma {:induction false} ThirdTakesAll(c: Config, effectiveBalance: Gwei, slashed: Gwei, total: Gwei)
    requires ValidConfig(c) && total >= 1 && 3 * slashed >= total
    ensures SlashingPenalty(c, effectiveBalance, slashed, total)
         == effectiveBalance - effectiveBalance % c.effectiveBalanceIncrement
  {
    hide Mul, Div, Mod;
    var d := c.effectiveBalanceIncrement;
    var units := Div(effectiveBalance, d);
    MulIsProduct(units, total);
    DivOfMultiple(units, 0, total);
    MulIsProduct(units, d);
    DivModLaw(effectiveBalance, d);
    DivModAreOperators(effectiveBalance, d);
  }

  /** Below that it is three times the slashed share of the effective balance, rounded down to increments. */
  lemma {:induction false} PenaltyIsShare(c: Config, effectiveBalance: Gwei, slashed: Gwei, total: Gwei)
    requires ValidConfig(c) && total >= 1 && 3 * slashed < total
    ensures var units := effectiveBalance / c.effectiveBalanceIncrement;
      SlashingPenalty(c, effectiveBalance, slashed, total)
      == units * (3 * slashed) / total * c.effectiveBalanceIncrement
  {
    hide Mul, Div, Mod;
    var d := c.effectiveBalanceIncrement;
    var units := Div(effectiveBalance, d);
    DivModAreOperators(effectiveBalance, d);
    MulIsProduct(units, slashed * 3);
    DivModAreOperators(units * (slashed * 3), total);
    MulIsProduct(Div(units * (slashed * 3), total), d);
  }

  /** What validator `j` has after `i` is slashed: the slashed one loses a part of its effective balance, the proposer
      gains a part of the reward and whoever reported it the rest. */
  lemma {:induction false} SlashingPays(c: Config, s: BeaconState, i: ValidatorIndex,
                                        whistleblower: Option<ValidatorIndex>, j: ValidatorIndex)
    requires Shape(c, s) && i < |s.validators| && j < |s.validators|
    requires SlashValidator(c, s, i, whistleblower).Ok?
    ensures ProposerIndex(c, MarkSlashed(c, s, i)).Ok?
    ensures var stake := s.validators[i].effectiveBalance;
      var proposer := ProposerIndex(c, MarkSlashed(c, s, i)).value;
      var reporter := if whistleblower.Some? then whistleblower.value else proposer;
      var reward := stake / c.whistleblowerRewardQuotient;
      var part := reward / c.proposerRewardQuotient;
      SlashValidator(c, s, i, whistleblower).value.balances[j]
      == (if j == i then Max(0, s.balances[j] - stake / c.minSlashingPenaltyQuotient) else s.balances[j])
         + (if j == proposer then part else 0) + (if j == reporter then reward - part else 0)
  {
    hide ProposerIndex, ExitQueueEpoch, Div, Mod, EpochOf;
    var stake := s.validators[i].effectiveBalance;
    DivModAreOperators(stake, c.whistleblowerRewardQuotient);
    DivModAreOperators(stake / c.whistleblowerRewardQuotient, c.proposerRewardQuotient);
    DivModAreOperators(stake, c.minSlashingPenaltyQuotient);
  }

  /** Without another reporter the proposer gains the whole reward. */
  lemma {:induction false} ReporterGains(c: Config, s: BeaconState, i: ValidatorIndex)
    requires Shape(c, s) && i < |s.validators| && SlashValidator(c, s, i, None).Ok?
    requires ProposerIndex(c, MarkSlashed(c, s, i)) != Ok(i)
    ensures ProposerIndex(c, MarkSlashed(c, s, i)).Ok?
    ensures var proposer := ProposerIndex(c, MarkSlashed(c, s, i)).value;
      proposer < |s.balances|
      && SlashValidator(c, s, i, None).value.balances[proposer]
         == s.balances[proposer] + s.validators[i].effectiveBalance / c.whistleblowerRewardQuotient
  {
    hide ProposerIndex, MarkSlashed, SlashValidator, EpochOf;
    SlashingPays(c, s, i, None, i);
    SlashingPays(c, s, i, None, ProposerIndex(c, MarkSlashed(c, s, i)).value);
  }

  // Deposits

  /** An accepted deposit tops up the first validator with its key; with a new key and a valid signature it adds a
      validator with that balance; otherwise it changes no balance. */
  lemma {:induction false} DepositPays(c: Config, s: BeaconState, d: Deposit, j: ValidatorIndex)
    requires Shape(c, s) && ProcessDeposit(c, s, d).Ok? && j < |s.validators|
    ensures var s' := ProcessDeposit(c, s, d).value;
      var known := exists i :: 0 <= i < |s.validators| && s.validators[i].pubkey == d.data.pubkey;
      var first := s.validators[j].pubkey == d.data.pubkey
                   && forall i :: 0 <= i < j ==> s.validators[i].pubkey != d.data.pubkey;
      var root := c.crypto.signingDepositRoot(d.data.pubkey, d.data.withdrawalCredentials, d.data.amount);
      && s'.validators[j] == s.validators[j]
      && s'.balances[j] == s.balances[j] + (if first then d.data.amount else 0)
      && (known || !c.crypto.verify(d.data.pubkey, root, d.data.signature, Domain(c, s, DOMAIN_DEPOSIT, None)) ==>
            |s'.validators| == |s.validators|)
      && (!known && c.crypto.verify(d.data.pubkey, root, d.data.signature, Domain(c, s, DOMAIN_DEPOSIT, None)) ==>
            && |s'.validators| == |s.validators| + 1
            && s'.validators[|s.validators|].pubkey == d.data.pubkey && s'.balances[|s.validators|] == d.data.amount)
  {
    hide Position, Mod, EpochOf, Merkle.IsValidMerkleBranch, LittleEndian, FromLittleEndian;
  }
}
