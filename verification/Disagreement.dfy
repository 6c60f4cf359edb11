/**
 Where the builder and the executor disagree: with one deposit in the block and two outstanding the
 builder, which counts after the deposit index has moved, succeeds and the executor refuses.
 */
module Disagreement {
  import opened Bytes
  import opened BeaconTypes
  import opened Accessors
  import opened BlockProcessing
  import opened Transition
  import opened Turn
  import opened Builder
  import opened SmallChain
  import opened Arith
  import Merkle

  /** The state on which the transactions of a block start. */
  ghost predicate Opened(c: Config, s: BeaconState, inherent: Inherent, s2: BeaconState) {
    && Shape(c, s) && ProcessRandao(c, s, InherentBody(inherent)).Ok?
    && s2 == ProcessEth1Data(c, ProcessRandao(c, s, InherentBody(inherent)).value, InherentBody(inherent))
  }

  /** The header is accepted after any operations when the proposer is not slashed then. */
  lemma {:induction false} HeaderAcceptedLast(c: Config, s: BeaconState, s3: BeaconState, block: UnsealedBlock)
    requires Shape(c, s) && Shape(c, s3) && SameTurn(c, s, s3)
    requires s3.latestBlockHeader == s.latestBlockHeader
    requires ProposerIndex(c, s).Ok? && !s3.validators[ProposerIndex(c, s).value].slashed
    requires block.slot == s.slot && block.parentRoot == c.crypto.headerRoot(Signing(s.latestBlockHeader))
    ensures ProcessHeader(c, s3, block, None).Ok?
  {
    hide ProposerIndex, Div;
    SameProposer(c, s, s3);
    HeaderKeepsTurn(c, s3, HeaderOf(c, block));
    SameProposer(c, s3, WithHeader(s3, HeaderOf(c, block)));
  }

  lemma DepositSlashesNobody(c: Config, s: BeaconState, d: Deposit)
    requires Shape(c, s) && ProcessDeposit(c, s, d).Ok?
    ensures |s.validators| <= |ProcessDeposit(c, s, d).value.validators|
    ensures forall i :: 0 <= i < |s.validators| ==>
      ProcessDeposit(c, s, d).value.validators[i].slashed == s.validators[i].slashed
    ensures ProcessDeposit(c, s, d).value.eth1DepositIndex == s.eth1DepositIndex + 1
    ensures ProcessDeposit(c, s, d).value.eth1Data == s.eth1Data
  {
    hide Merkle.IsValidMerkleBranch;
  }

  /** Wherever an unslashed proposer opens a block with two deposits outstanding, one deposit can be built. */
  lemma {:induction false} OneOfTwoIsBuilt(c: Config, s: BeaconState, parentStateRoot: Hash, inherent: Inherent,
                                           s2: BeaconState, d: Deposit)
    requires Opened(c, s, inherent, s2) && CurrentEpoch(c, s) < FAR_FUTURE_EPOCH && c.maxDeposits >= 2
    requires ProposerIndex(c, s).Ok? && !s.validators[ProposerIndex(c, s).value].slashed
    requires s2.eth1Data.depositCount == s2.eth1DepositIndex + 2 && ProcessDeposit(c, s2, d).Ok?
    ensures var r := BuildBlock(c, s, s.slot, parentStateRoot, inherent, [OfDeposit(d)]);
            r.Ok? && r.value.block.body.deposits == [d]
  {
    hide ProposerIndex, ProcessRandao, ProcessEth1Data, ProcessDeposit, ProcessHeader, Div;
    var txs, body := [OfDeposit(d)], InherentBody(inherent);
    var s3 := ProcessDeposit(c, s2, d).value;
    assert txs[..0] == [];
    assert ApplyAll(c, s2, []) == Ok(s2);
    assert ApplyAll(c, s2, txs) == Ok(s3);
    TurnOverBlock(c, s, ProcessRandao(c, s, body).value, s2, s3, body, txs);
    DepositSlashesNobody(c, s2, d);
    var d0 := ApplyInherent(c, s, parentStateRoot, inherent).value;
    assert ApplyTransactions(c, d0, []) == Ok(d0);
    var d1 := ApplyTransactions(c, d0, txs).value;
    assert d1.block.body.deposits == [d];
    HeaderAcceptedLast(c, s, s3, d1.block);
  }

  /** And the executor refuses what was built. */
  lemma {:induction false} OneOfTwoIsRefused(c: Config, s: BeaconState, parentStateRoot: Hash, inherent: Inherent,
                                             s2: BeaconState, d: Deposit, seal: Signature)
    requires Opened(c, s, inherent, s2) && CurrentEpoch(c, s) < FAR_FUTURE_EPOCH && c.maxDeposits >= 2
    requires ProposerIndex(c, s).Ok? && !s.validators[ProposerIndex(c, s).value].slashed
    requires s2.eth1Data.depositCount == s2.eth1DepositIndex + 2 && ProcessDeposit(c, s2, d).Ok?
    requires var r := BuildBlock(c, s, s.slot, parentStateRoot, inherent, [OfDeposit(d)]);
             r.Ok? ==> SealAccepted(c, s, r.value.block, seal)
    ensures var r := BuildBlock(c, s, s.slot, parentStateRoot, inherent, [OfDeposit(d)]);
            r.Ok? && StateTransition(c, s, r.value.block, Some(seal)) == Err(TooManyDeposits)
  {
    hide ProposerIndex, ProcessRandao, ProcessEth1Data, ProcessDeposit, BuildBlock, StateTransition, SealAccepted;
    OneOfTwoIsBuilt(c, s, parentStateRoot, inherent, s2, d);
    assert [OfDeposit(d)][..0] == [];
    assert ProcessSlots(c, s, s.slot) == Ok(s);
    ExecutorAcceptsBuilt(c, s, s.slot, parentStateRoot, inherent, [OfDeposit(d)], seal);
  }

  // A genesis state where it happens

  /** With one of three announced deposits at genesis, the builder finishes a block with one more and the
      executor refuses it. */
  lemma BuilderAndExecutorDisagree(first: Pubkey, second: Pubkey, seal: Signature) returns (s: BeaconState)
    ensures var c, inherent := Small(), Inherent([], Announced(3));
      && Shape(c, s) && IsGenesis(c, s)
      && var r := BuildBlock(c, s, s.slot, Zeros(32), inherent, [OfDeposit(FullDeposit(second))]);
         && r.Ok? && |r.value.block.body.deposits| == 1
         && StateTransition(c, s, r.value.block, Some(seal)) == Err(TooManyDeposits)
  {
    hide GenesisState, ProposerIndex, BuildBlock, StateTransition, Credit, Mod, SmallHash;
    var c, inherent := Small(), Inherent([], Announced(3));
    s := SmallGenesis([first], 3);
    SomeProposer(s);
    var body := InherentBody(inherent);
    var s2 := ProcessEth1Data(c, ProcessRandao(c, s, body).value, body);
    SmallDeposit(s2, second);
    OneOfTwoIsBuilt(c, s, Zeros(32), inherent, s2, FullDeposit(second));
    OneOfTwoIsRefused(c, s, Zeros(32), inherent, s2, FullDeposit(second), seal);
  }
}
