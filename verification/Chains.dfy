/**
 Chains: blocks executed one after another from genesis are runs, so what holds over runs holds of
 every chain; and the deposits that the Merkle tree proves start one.
 */
module Chains {
  import opened Bytes
  import opened BeaconTypes
  import opened Accessors
  import opened BlockProcessing
  import opened Transition
  import opened EpochProcessing
  import opened FinalityHistory
  import J = Justification
  import Merkle

  // Blocks take steps

  lemma {:induction false} HeadExtendsPath(c: Config, t: seq<BeaconState>, block: UnsealedBlock,
                                           signature: Option<Signature>)
    returns (u: seq<BeaconState>)
    requires Path(c, t) && Shape(c, t[|t| - 1])
    requires ProcessHeader(c, t[|t| - 1], block, signature).Ok?
    requires ProcessRandao(c, ProcessHeader(c, t[|t| - 1], block, signature).value, block.body).Ok?
    ensures Path(c, u) && t <= u
    ensures u[|u| - 1] == ProcessEth1Data(c,
              ProcessRandao(c, ProcessHeader(c, t[|t| - 1], block, signature).value, block.body).value, block.body)
  {
    hide ProcessHeader, ProcessRandao, ProcessEth1Data, Step;
    var s := t[|t| - 1];
    var s1 := ProcessHeader(c, s, block, signature).value;
    ActIsStep(c, s, Header(block, signature));
    PathExtend(c, t, s1);
    var s2 := ProcessRandao(c, s1, block.body).value;
    ActIsStep(c, s1, Randao(block.body));
    PathExtend(c, t + [s1], s2);
    var s3 := ProcessEth1Data(c, s2, block.body);
    ActIsStep(c, s2, VoteEth1(block.body));
    PathExtend(c, t + [s1] + [s2], s3);
    u := t + [s1] + [s2] + [s3];
  }

  lemma {:induction false} BodyExtendsPath(c: Config, t: seq<BeaconState>,
                                           body: BlockBody) returns (u: seq<BeaconState>)
    requires Path(c, t) && Shape(c, t[|t| - 1]) && ProcessOperations(c, t[|t| - 1], body).Ok?
    ensures Path(c, u) && t <= u && u[|u| - 1] == ProcessOperations(c, t[|t| - 1], body).value
  {
    hide ApplyAll, Step;
    u := OperationsExtendPath(c, t, ProposerSlashings(body));
    u := OperationsExtendPath(c, u, AttesterSlashings(body));
    u := OperationsExtendPath(c, u, Attestations(body));
    u := OperationsExtendPath(c, u, Deposits(body));
    u := OperationsExtendPath(c, u, VoluntaryExits(body));
  }

  lemma {:induction false} TransitionExtendsPath(c: Config, t: seq<BeaconState>, block: UnsealedBlock,
                                                 signature: Option<Signature>)
    returns (u: seq<BeaconState>)
    requires Path(c, t) && Shape(c, t[|t| - 1]) && StateTransition(c, t[|t| - 1], block, signature).Ok?
    ensures Path(c, u) && t <= u && u[|u| - 1] == StateTransition(c, t[|t| - 1], block, signature).value
  {
    hide ProcessSlots, ProcessHeader, ProcessRandao, ProcessEth1Data, ProcessOperations, Step;
    u := SlotsExtendPath(c, t, block.slot);
    u := HeadExtendsPath(c, u, block, signature);
    u := BodyExtendsPath(c, u, block.body);
  }

  ghost function ExecuteAll(c: Config, s: BeaconState, blocks: seq<Block>): (r: Result<BeaconState>)
    requires Shape(c, s)
    ensures r.Ok? ==> Shape(c, r.value)
  {
    if blocks == [] then Ok(s) else
    var n := |blocks| - 1;
    var before :- ExecuteAll(c, s, blocks[..n]);
    StateTransition(c, before, blocks[n].unsealed, Some(blocks[n].signature))
  }

  /** The run passes through the state after each block of the chain, at the given places in order. */
  ghost predicate PassesThrough(c: Config, t: seq<BeaconState>, s: BeaconState, blocks: seq<Block>, at: seq<nat>)
    requires Shape(c, s)
  {
    && |at| == |blocks| + 1
    && (forall m :: 0 <= m < |at| ==> at[m] < |t| && ExecuteAll(c, s, blocks[..m]) == Ok(t[at[m]]))
    && (forall m, n :: 0 <= m < n < |at| ==> at[m] <= at[n])
  }

  lemma {:induction false} PassesFurther(c: Config, t: seq<BeaconState>, u: seq<BeaconState>, s: BeaconState,
                                         blocks: seq<Block>, at: seq<nat>)
    requires Shape(c, s) && |blocks| >= 1 && |u| >= 1 && t <= u && ExecuteAll(c, s, blocks) == Ok(u[|u| - 1])
    requires PassesThrough(c, t, s, blocks[..|blocks| - 1], at)
    ensures PassesThrough(c, u, s, blocks, at + [|u| - 1])
  {
    hide ExecuteAll;
    var n, longer := |blocks| - 1, at + [|u| - 1];
    forall m | 0 <= m < |longer|
      ensures longer[m] < |u| && ExecuteAll(c, s, blocks[..m]) == Ok(u[longer[m]])
    {
      if m <= n {
        assert blocks[..n][..m] == blocks[..m];
      } else {
        assert blocks[..m] == blocks;
      }
    }
  }

  /** A chain of blocks over genesis is a run that passes through the state after every block. */
  lemma {:induction false} ChainIsRun(c: Config, s: BeaconState, blocks: seq<Block>)
    returns (t: seq<BeaconState>, at: seq<nat>)
    requires ValidConfig(c) && IsGenesis(c, s) && Shape(c, s) && ExecuteAll(c, s, blocks).Ok?
    ensures Run(c, t) && t[0] == s && t[|t| - 1] == ExecuteAll(c, s, blocks).value
    ensures PassesThrough(c, t, s, blocks, at) && at[0] == 0 && at[|blocks|] == |t| - 1
    decreases |blocks|
  {
    hide StateTransition, Step, IsGenesis;
    if blocks == [] {
      t, at := [s], [0];
    } else {
      var n := |blocks| - 1;
      var before;
      before, at := ChainIsRun(c, s, blocks[..n]);
      hide PassesThrough;
      t := TransitionExtendsPath(c, before, blocks[n].unsealed, Some(blocks[n].signature));
      PassesFurther(c, before, t, s, blocks, at);
      at := at + [|t| - 1];
    }
  }

  /** So what holds between two moments of a run holds between two blocks of a chain: finality, for one. */
  lemma {:induction false} ChainFinalityNeverDecreases(c: Config, s: BeaconState, blocks: seq<Block>, m: nat, n: nat)
    requires ValidConfig(c) && IsGenesis(c, s) && Shape(c, s) && ExecuteAll(c, s, blocks).Ok? && m <= n <= |blocks|
    ensures ExecuteAll(c, s, blocks[..m]).Ok? && ExecuteAll(c, s, blocks[..n]).Ok?
    ensures J.NoneDecreases(FinalityOf(ExecuteAll(c, s, blocks[..m]).value),
                            FinalityOf(ExecuteAll(c, s, blocks[..n]).value))
  {
    hide ExecuteAll, Run, IsGenesis;
    var t, at := ChainIsRun(c, s, blocks);
    RunFinalityNeverDecreases(c, t, at[m], at[n]);
  }

  // Deposits start a chain

  function Leaves(c: Config, data: seq<DepositData>): (leaves: seq<Hash>)
    ensures |leaves| == |data|
  {
    seq<Hash>(|data|, i requires 0 <= i < |data| => c.crypto.depositDataRoot(data[i]))
  }

  /** Each deposit with its proof in the tree over all of them. */
  function Proven(c: Config, data: seq<DepositData>): (deposits: seq<Deposit>)
    requires 1 <= |data| <= Merkle.MAX_DEPOSITS
    ensures |deposits| == |data|
  {
    var tree := Merkle.Tree(c, Leaves(c, data));
    seq(|data|, i requires 0 <= i < |data| => Deposit(Merkle.Proof(c, tree, i), data[i]))
  }

  lemma ProvenIsAccepted(c: Config, s: BeaconState, data: seq<DepositData>)
    requires Shape(c, s) && s.eth1DepositIndex < |data| <= Merkle.MAX_DEPOSITS
    requires s.eth1Data.depositRoot == Merkle.DepositRoot(Merkle.Tree(c, Leaves(c, data)))
    ensures var r := ProcessDeposit(c, s, Proven(c, data)[s.eth1DepositIndex]);
            r.Ok? && r.value.eth1DepositIndex == s.eth1DepositIndex + 1 && r.value.eth1Data == s.eth1Data
  {
    hide Merkle.IsValidMerkleBranch, Merkle.Proof, Merkle.Tree, Credit;
    Merkle.ProofVerifies(c, Leaves(c, data), s.eth1DepositIndex);
  }

  lemma {:induction false} ProvenAreAccepted(c: Config, s: BeaconState, data: seq<DepositData>, k: nat)
    requires Shape(c, s) && s.eth1DepositIndex == 0 && 1 <= |data| <= Merkle.MAX_DEPOSITS && k <= |data|
    requires s.eth1Data.depositRoot == Merkle.DepositRoot(Merkle.Tree(c, Leaves(c, data)))
    ensures var r := ApplyDeposits(c, s, Proven(c, data)[..k]);
            r.Ok? && r.value.eth1DepositIndex == k && r.value.eth1Data == s.eth1Data
  {
    hide ProcessDeposit, Merkle.Tree, Proven;
    var deposits := Proven(c, data);
    if k > 0 {
      assert deposits[..k][..k - 1] == deposits[..k - 1];
      ProvenAreAccepted(c, s, data, k - 1);
      ProvenIsAccepted(c, ApplyDeposits(c, s, deposits[..k - 1]).value, data);
    }
  }

  /** Genesis succeeds on any deposits proved in their own tree, and consumes them all. */
  lemma ProvenDepositsStartChain(c: Config, data: seq<DepositData>, time: nat, eth1: Eth1Data)
    requires ValidConfig(c) && 1 <= |data| <= Merkle.MAX_DEPOSITS
    requires eth1.depositRoot == Merkle.DepositRoot(Merkle.Tree(c, Leaves(c, data)))
    ensures var r := GenesisState(c, Proven(c, data), time, eth1);
            r.Ok? && r.value.eth1DepositIndex == |data| && IsGenesis(c, r.value)
  {
    hide ApplyDeposits, Merkle.Tree, Proven;
    ProvenAreAccepted(c, BlankState(c, time, eth1), data, |data|);
    assert Proven(c, data)[..|data|] == Proven(c, data);
  }
}
