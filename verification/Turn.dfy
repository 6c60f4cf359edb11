/**
 The proposer's turn: what the choice of the proposer depends on, and that no operation of a block
 changes it.
 */
module Turn {
  import opened BeaconTypes
  import opened Accessors
  import opened Mutators
  import opened Lifecycle
  import opened BlockProcessing
  import opened RingHistory
  import opened Arith
  import Shuffle

  /** The two states choose the same proposer. */
  ghost predicate SameTurn(c: Config, s: BeaconState, s': BeaconState)
    requires Shape(c, s) && Shape(c, s')
  {
    && s'.slot == s.slot && s'.fork == s.fork
    && Seed(c, s', CurrentEpoch(c, s), DOMAIN_BEACON_PROPOSER) == Seed(c, s, CurrentEpoch(c, s), DOMAIN_BEACON_PROPOSER)
    && SameActivity(s.validators, s'.validators, CurrentEpoch(c, s))
    && (forall i :: 0 <= i < |s.validators| ==>
          s'.validators[i].effectiveBalance == s.validators[i].effectiveBalance
          && s'.validators[i].pubkey == s.validators[i].pubkey)
  }

  lemma {:induction false} SameAttempts(c: Config, s: BeaconState, s': BeaconState, i: nat)
    requires Shape(c, s) && Shape(c, s') && SameTurn(c, s, s')
    ensures ActiveIndices(s'.validators, CurrentEpoch(c, s')) == ActiveIndices(s.validators, CurrentEpoch(c, s))
    ensures ProposerSeed(c, s') == ProposerSeed(c, s)
    ensures Accepts(c, s', i) == Accepts(c, s, i)
  {
    hide Seed, Candidate, RandomByte;
    SameActivitySameIndices(s.validators, s'.validators, CurrentEpoch(c, s));
  }

  lemma {:induction false} SameProposer(c: Config, s: BeaconState, s': BeaconState)
    requires Shape(c, s) && Shape(c, s') && SameTurn(c, s, s')
    ensures ProposerIndex(c, s') == ProposerIndex(c, s)
  {
    hide SameTurn, Accepts, ProposerSeed, Candidate, ActiveIndices;
    forall i: nat
      ensures Accepts(c, s', i) == Accepts(c, s, i)
    {
      SameAttempts(c, s, s', i);
    }
    SameAttempts(c, s, s', 0);
    var n := |ActiveIndices(s.validators, CurrentEpoch(c, s))|;
    if 0 < n <= Shuffle.MAX_SHUFFLE_COUNT && ProposerFound(c, s) {
      FoundIsFirst(c, s);
      var i: nat :| FirstAccepted(c, s, i);
      ProposerIs(c, s, i);
      ProposerIs(c, s', i);
    }
  }

  lemma {:induction false} TurnTransitive(c: Config, s: BeaconState, s': BeaconState, s'': BeaconState)
    requires Shape(c, s) && Shape(c, s') && Shape(c, s'')
    requires SameTurn(c, s, s') && SameTurn(c, s', s'')
    ensures SameTurn(c, s, s'')
  {
    hide Seed;
  }

  // Operations keep the turn

  lemma {:induction false} ExitKeepsTurn(c: Config, s: BeaconState, i: ValidatorIndex)
    requires Shape(c, s) && i < |s.validators| && CurrentEpoch(c, s) < FAR_FUTURE_EPOCH
    ensures SameTurn(c, s, InitiateExit(c, s, i))
  {
    hide CountExits, ChurnLimit, Mod;
  }

  lemma {:induction false} MarkKeepsTurn(c: Config, s: BeaconState, i: ValidatorIndex)
    requires Shape(c, s) && i < |s.validators| && CurrentEpoch(c, s) < FAR_FUTURE_EPOCH
    ensures SameTurn(c, s, MarkSlashed(c, s, i))
  {
    ExitKeepsTurn(c, s, i);
    hide InitiateExit;
  }

  lemma {:induction false} SlashAllKeepsTurn(c: Config, s: BeaconState, indices: seq<ValidatorIndex>)
    requires Shape(c, s) && CurrentEpoch(c, s) < FAR_FUTURE_EPOCH && SlashAll(c, s, indices).Ok?
    ensures SameTurn(c, s, SlashAll(c, s, indices).value.0)
    decreases |indices|
  {
    hide MarkSlashed, SameTurn;
    if indices == [] {
      TurnReflexive(c, s);
    } else {
      var n := |indices| - 1;
      SlashAllKeepsTurn(c, s, indices[..n]);
      var before := SlashAll(c, s, indices[..n]).value.0;
      if before.validators[indices[n]].IsSlashable(CurrentEpoch(c, before)) {
        SlashKeepsTurn(c, before, indices[n]);
        TurnTransitive(c, s, before, SlashValidator(c, before, indices[n], None).value);
        hide SlashValidator;
      }
    }
  }

  lemma TurnReflexive(c: Config, s: BeaconState)
    requires Shape(c, s)
    ensures SameTurn(c, s, s)
  {
  }

  lemma {:induction false} SlashKeepsTurn(c: Config, s: BeaconState, i: ValidatorIndex)
    requires Shape(c, s) && i < |s.validators| && CurrentEpoch(c, s) < FAR_FUTURE_EPOCH
    requires SlashValidator(c, s, i, None).Ok?
    ensures SameTurn(c, s, SlashValidator(c, s, i, None).value)
  {
    MarkKeepsTurn(c, s, i);
    hide MarkSlashed, Seed, SlashValidator;
    var s1, s2 := MarkSlashed(c, s, i), SlashValidator(c, s, i, None).value;
    SeedDependsOn(c, s1, s2);
  }

  lemma SeedDependsOn(c: Config, s: BeaconState, s': BeaconState)
    requires Shape(c, s) && Shape(c, s') && s'.randaoMixes == s.randaoMixes
    ensures forall e, d :: Seed(c, s', e, d) == Seed(c, s, e, d)
  {
    hide Mod;
  }

  lemma {:induction false} AttestationKeepsTurn(c: Config, s: BeaconState, a: Attestation)
    requires Shape(c, s) && ProcessAttestation(c, s, a).Ok?
    ensures SameTurn(c, s, ProcessAttestation(c, s, a).value)
  {
    hide Seed, CheckAttestationVote, CheckAttestationData, ProposerIndex;
    SeedDependsOn(c, s, ProcessAttestation(c, s, a).value);
  }

  lemma {:induction false} DepositKeepsTurn(c: Config, s: BeaconState, d: Deposit)
    requires Shape(c, s) && CurrentEpoch(c, s) < FAR_FUTURE_EPOCH && ProcessDeposit(c, s, d).Ok?
    ensures SameTurn(c, s, ProcessDeposit(c, s, d).value)
  {
    hide Seed, Credit;
    SeedDependsOn(c, s, ProcessDeposit(c, s, d).value);
  }

  lemma ProposerSlashingInRange(c: Config, s: BeaconState, p: ProposerSlashing)
    requires ValidConfig(c) && CheckProposerSlashing(c, s, p).Ok?
    ensures p.proposerIndex < |s.validators|
  {
  }

  /** Every operation of a block leaves the turn as it was. */
  lemma {:induction false} OperationKeepsTurn(c: Config, s: BeaconState, tx: Transaction)
    requires Shape(c, s) && CurrentEpoch(c, s) < FAR_FUTURE_EPOCH && ApplyOperation(c, s, tx).Ok?
    ensures SameTurn(c, s, ApplyOperation(c, s, tx).value)
  {
    hide InitiateExit, SlashAll, SlashValidator, SameTurn, ProcessAttestation, ProcessDeposit,
      CheckProposerSlashing, CheckAttesterSlashing, AccusedIndices;
    match tx
    case OfProposerSlashing(p) =>
      ProposerSlashingInRange(c, s, p);
      SlashKeepsTurn(c, s, p.proposerIndex);
    case OfAttesterSlashing(a) => SlashAllKeepsTurn(c, s, AccusedIndices(a));
    case OfAttestation(a) => AttestationKeepsTurn(c, s, a);
    case OfDeposit(d) => DepositKeepsTurn(c, s, d);
    case OfVoluntaryExit(e) => ExitKeepsTurn(c, s, e.validatorIndex);
  }

  lemma {:induction false} OperationsKeepTurn(c: Config, s: BeaconState, txs: seq<Transaction>)
    requires Shape(c, s) && CurrentEpoch(c, s) < FAR_FUTURE_EPOCH && ApplyAll(c, s, txs).Ok?
    ensures SameTurn(c, s, ApplyAll(c, s, txs).value)
    decreases |txs|
  {
    hide ApplyOperation, SameTurn;
    if txs == [] {
      TurnReflexive(c, s);
    } else {
      var n := |txs| - 1;
      OperationsKeepTurn(c, s, txs[..n]);
      var before := ApplyAll(c, s, txs[..n]).value;
      OperationKeepsTurn(c, before, txs[n]);
      TurnTransitive(c, s, before, ApplyAll(c, s, txs).value);
    }
  }

  /** Writing the mix of the current epoch leaves the turn, which depends on an earlier mix. */
  lemma {:induction false} RandaoKeepsTurn(c: Config, s: BeaconState, body: BlockBody)
    requires Shape(c, s) && ProcessRandao(c, s, body).Ok?
    ensures SameTurn(c, s, ProcessRandao(c, s, body).value)
  {
    hide ProcessRandao;
    var now, e := CurrentEpoch(c, s), c.epochsPerHistoricalVector;
    ModDistinct(now, now + e - c.minSeedLookahead - 1, e);
  }
}
