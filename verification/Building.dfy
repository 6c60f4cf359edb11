/** The block builder and genesis as the methods that run them, over the executive. */
module Building {
  import opened Bytes
  import opened BeaconTypes
  import opened Accessors
  import opened BlockProcessing
  import opened Transition
  import opened Builder
  import opened Executive
  import opened Arith

  class BlockBuilder {
    const executive: BeaconExecutive
    var block: UnsealedBlock

    constructor (c: Config, state: BeaconState, block: UnsealedBlock)
      ensures fresh(executive) && executive.c == c && executive.state == state && this.block == block
    {
      executive := new BeaconExecutive(c, state);
      this.block := block;
    }

    ghost function Draft(): Builder.Draft
      reads this, executive
    {
      Builder.Draft(block, executive.state)
    }

    method InitializeBlock(slot: Slot) returns (r: Result<()>)
      requires Shape(executive.c, executive.state)
      modifies executive
      ensures Agrees(ProcessSlots(executive.c, old(executive.state), slot), r, executive.state)
      ensures Shape(executive.c, executive.state)
    {
      r := executive.ProcessSlots(slot);
    }

    method ApplyInherent(parentStateRoot: Hash, inherent: Inherent) returns (r: Result<()>)
      requires Shape(executive.c, executive.state)
      requires Builder.ApplyInherent(executive.c, executive.state, parentStateRoot, inherent) != Err(Diverges)
      modifies this, executive
      ensures match Builder.ApplyInherent(executive.c, old(executive.state), parentStateRoot, inherent)
              case Ok(draft) => r.Ok? && Draft() == draft
              case Err(e) => r == Err(e)
      ensures Shape(executive.c, executive.state)
    {
      hide ProcessRandao, ProcessEth1Data;
      var c, s := executive.c, executive.state;
      var body := BlockBody(inherent.randaoReveal, inherent.eth1Data, ZERO_HASH, [], [], [], [], []);
      block := UnsealedBlock(s.slot, ZERO_HASH, parentStateRoot, body);
      block := block.(parentRoot := c.crypto.headerRoot(Signing(s.latestBlockHeader)));
      r := executive.ProcessRandao(body);
      if r.Err? {
        return;
      }
      executive.ProcessEth1Data(body);
    }

    /** Checks the limit of the kind, applies the operation and lists it in the body. */
    method ApplyTransaction(tx: Transaction) returns (r: Result<()>)
      requires Shape(executive.c, executive.state)
      requires Builder.ApplyTransaction(executive.c, Draft(), tx) != Err(Diverges)
      modifies this, executive
      ensures match Builder.ApplyTransaction(executive.c, old(Draft()), tx)
              case Ok(draft) => r.Ok? && Draft() == draft
              case Err(e) => r == Err(e) && block == old(block)
      ensures Shape(executive.c, executive.state)
    {
      hide ProcessProposerSlashing, ProcessAttesterSlashing, ProcessAttestation, ProcessDeposit, ProcessVoluntaryExit;
      var c, body := executive.c, block.body;
      match tx {
        case OfProposerSlashing(slashing) =>
          if |body.proposerSlashings| >= c.maxProposerSlashings {
            return Err(TooManyProposerSlashings);
          }
          r := executive.ProcessProposerSlashing(slashing);
          body := body.(proposerSlashings := body.proposerSlashings + [slashing]);
        case OfAttesterSlashing(slashing) =>
          if |body.attesterSlashings| >= c.maxAttesterSlashings {
            return Err(TooManyAttesterSlashings);
          }
          r := executive.ProcessAttesterSlashing(slashing);
          body := body.(attesterSlashings := body.attesterSlashings + [slashing]);
        case OfAttestation(attestation) =>
          if |body.attestations| >= c.maxAttestations {
            return Err(TooManyAttestations);
          }
          r := executive.ProcessAttestation(attestation);
          body := body.(attestations := body.attestations + [attestation]);
        case OfDeposit(deposit) =>
          if |body.deposits| >= c.maxDeposits {
            return Err(TooManyDeposits);
          }
          r := executive.ProcessDeposit(deposit);
          body := body.(deposits := body.deposits + [deposit]);
        case OfVoluntaryExit(exit) =>
          if |body.voluntaryExits| >= c.maxVoluntaryExits {
            return Err(TooManyVoluntaryExits);
          }
          r := executive.ProcessVoluntaryExit(exit);
          body := body.(voluntaryExits := body.voluntaryExits + [exit]);
      }
      if r.Ok? {
        block := block.(body := body);
      }
    }

    /** Counts the deposits again, processes the header last and fills in the state root. */
    method FinalizeBlock() returns (r: Result<()>)
      requires Shape(executive.c, executive.state)
      requires Builder.FinalizeBlock(executive.c, Draft()) != Err(Diverges)
      modifies this, executive
      ensures match Builder.FinalizeBlock(executive.c, old(Draft()))
              case Ok(draft) => r.Ok? && Draft() == draft
              case Err(e) => r == Err(e) && block == old(block)
    {
      hide ProcessHeader;
      var c, s := executive.c, executive.state;
      if s.eth1Data.depositCount < s.eth1DepositIndex {
        return Err(InvalidEth1Data);
      }
      if |block.body.deposits| != Min(c.maxDeposits, s.eth1Data.depositCount - s.eth1DepositIndex) {
        return Err(TooManyDeposits);
      }
      r := executive.ProcessBlockHeader(block, None);
      if r.Ok? {
        block := block.(stateRoot := c.crypto.stateRoot(executive.state));
      }
    }
  }

  lemma {:induction false} TransactionsStop(c: Config, draft: Draft, txs: seq<Transaction>, k: nat)
    requires Shape(c, draft.state) && k < |txs| && ApplyTransactions(c, draft, txs[..k]).Ok?
    ensures var next := Builder.ApplyTransaction(c, ApplyTransactions(c, draft, txs[..k]).value, txs[k]);
            && ApplyTransactions(c, draft, txs[..k + 1]) == next
            && (next.Err? ==> ApplyTransactions(c, draft, txs) == next)
    decreases |txs|
  {
    hide Builder.ApplyTransaction;
    assert txs[..k + 1][..k] == txs[..k];
    if k + 1 < |txs| {
      var shorter := txs[..|txs| - 1];
      assert shorter[..k] == txs[..k];
      TransactionsStop(c, draft, shorter, k);
    } else {
      assert txs[..k + 1] == txs;
    }
  }

  /** The four parts in order, up to the first error. */
  method Build(c: Config, state: BeaconState, slot: Slot, parentStateRoot: Hash, inherent: Inherent,
               txs: seq<Transaction>)
    returns (r: Result<UnsealedBlock>)
    requires Shape(c, state) && BuildBlock(c, state, slot, parentStateRoot, inherent, txs) != Err(Diverges)
    ensures match BuildBlock(c, state, slot, parentStateRoot, inherent, txs)
            case Ok(draft) => r == Ok(draft.block)
            case Err(e) => r == Err(e)
  {
    hide Transition.ProcessSlots, Builder.ApplyInherent, Builder.ApplyTransaction, Builder.FinalizeBlock;
    var builder := new BlockBuilder(c, state, UnsealedBlock(slot, ZERO_HASH, parentStateRoot, InherentBody(inherent)));
    var done := builder.InitializeBlock(slot);
    if done.Err? {
      return Err(done.error);
    }
    done := builder.ApplyInherent(parentStateRoot, inherent);
    if done.Err? {
      return Err(done.error);
    }
    ghost var start := builder.Draft();
    for k := 0 to |txs|
      invariant builder.executive.c == c && Shape(c, builder.executive.state)
      invariant ApplyTransactions(c, start, txs[..k]) == Ok(builder.Draft())
    {
      TransactionsStop(c, start, txs, k);
      done := builder.ApplyTransaction(txs[k]);
      if done.Err? {
        return Err(done.error);
      }
    }
    assert txs[..|txs|] == txs;
    done := builder.FinalizeBlock();
    if done.Err? {
      return Err(done.error);
    }
    return Ok(builder.block);
  }

  lemma {:induction false} DepositsStop(c: Config, s: BeaconState, deposits: seq<Deposit>, k: nat)
    requires Shape(c, s) && k < |deposits| && ApplyDeposits(c, s, deposits[..k]).Ok?
    ensures var next := ProcessDeposit(c, ApplyDeposits(c, s, deposits[..k]).value, deposits[k]);
            && ApplyDeposits(c, s, deposits[..k + 1]) == next
            && (next.Err? ==> ApplyDeposits(c, s, deposits) == next)
    decreases |deposits|
  {
    hide ProcessDeposit;
    assert deposits[..k + 1][..k] == deposits[..k];
    if k + 1 < |deposits| {
      var shorter := deposits[..|deposits| - 1];
      assert shorter[..k] == deposits[..k];
      DepositsStop(c, s, shorter, k);
    } else {
      assert deposits[..k + 1] == deposits;
    }
  }

  /** Deposits one by one into a blank state, then activation of everyone at the maximal balance. */
  method Genesis(c: Config, deposits: seq<Deposit>, time: nat, eth1: Eth1Data) returns (r: Result<BeaconState>)
    requires ValidConfig(c)
    ensures r == GenesisState(c, deposits, time, eth1)
  {
    hide BlankState, ProcessDeposit;
    var executive := new BeaconExecutive(c, BlankState(c, time, eth1));
    ghost var s0 := executive.state;
    for k := 0 to |deposits|
      invariant executive.c == c && Shape(c, executive.state)
      invariant ApplyDeposits(c, s0, deposits[..k]) == Ok(executive.state)
    {
      DepositsStop(c, s0, deposits, k);
      var done := executive.ProcessDeposit(deposits[k]);
      if done.Err? {
        return Err(done.error);
      }
    }
    assert deposits[..|deposits|] == deposits;
    var state := executive.state;
    ghost var before := state.validators;
    for i := 0 to |state.validators|
      invariant state == executive.state.(validators := state.validators) && |state.validators| == |before|
      invariant forall j :: 0 <= j < i ==> state.validators[j] == AtGenesis(c, before[j])
      invariant forall j :: i <= j < |before| ==> state.validators[j] == before[j]
    {
      var v := state.validators[i];
      if v.effectiveBalance >= c.maxEffectiveBalance {
        state := state.(validators := state.validators[i :=
          v.(activationEligibilityEpoch := GENESIS_EPOCH, activationEpoch := GENESIS_EPOCH)]);
      }
    }
    assert state.validators == GenesisState(c, deposits, time, eth1).value.validators;
    return Ok(state);
  }
}
