/** Slots, the whole state transition, genesis, and runs as sequences of single steps. */
module Transition {
  import opened Bytes
  import opened BeaconTypes
  import opened Accessors
  import opened EpochProcessing
  import opened BlockProcessing
  import opened Arith

  /** The header with its state root filled in, as it is recorded for the slot. */
  function FilledHeader(c: Config, s: BeaconState): BlockHeader {
    if s.latestBlockHeader.stateRoot == ZERO_HASH then s.latestBlockHeader.(stateRoot := c.crypto.stateRoot(s))
    else s.latestBlockHeader
  }

  function RecordedRoot(c: Config, s: BeaconState): Hash {
    c.crypto.headerRoot(Signing(FilledHeader(c, s)))
  }

  function ProcessSlot(c: Config, s: BeaconState): (s': BeaconState)
    requires Shape(c, s)
    ensures Shape(c, s')
  {
    var k := Mod(s.slot, c.slotsPerHistoricalRoot);
    s.(stateRoots := s.stateRoots[k := c.crypto.stateRoot(s)],
       latestBlockHeader := FilledHeader(c, s),
       blockRoots := s.blockRoots[k := RecordedRoot(c, s)])
  }

  predicate AtEpochEnd(c: Config, s: BeaconState)
    requires ValidConfig(c)
  {
    Mod(s.slot + 1, c.slotsPerEpoch) == 0
  }

  /** One turn of the slot loop. */
  ghost function AdvanceSlot(c: Config, s: BeaconState): (r: Result<BeaconState>)
    requires Shape(c, s)
    ensures r.Ok? ==> Shape(c, r.value) && r.value.slot == s.slot + 1 && |r.value.validators| == |s.validators|
  {
    var s1 := ProcessSlot(c, s);
    if AtEpochEnd(c, s1) then
      var s2 :- ProcessEpoch(c, s1);
      Ok(s2.(slot := s2.slot + 1))
    else Ok(s1.(slot := s1.slot + 1))
  }

  ghost function ProcessSlots(c: Config, s: BeaconState, slot: Slot): (r: Result<BeaconState>)
    requires Shape(c, s)
    ensures r.Ok? ==> Shape(c, r.value) && r.value.slot == slot
    decreases slot - s.slot
  {
    if s.slot > slot then Err(SlotOutOfRange)
    else if s.slot == slot then Ok(s)
    else
      var s1 :- AdvanceSlot(c, s);
      ProcessSlots(c, s1, slot)
  }

  ghost function StateTransition(c: Config, s: BeaconState, block: UnsealedBlock, signature: Option<Signature>)
    : (r: Result<BeaconState>)
    requires Shape(c, s)
    ensures r.Ok? ==> Shape(c, r.value)
  {
    var s1 :- ProcessSlots(c, s, block.slot);
    var s2 :- ProcessBlock(c, s1, block, signature);
    if block.stateRoot == c.crypto.stateRoot(s2) then Ok(s2) else Err(BlockStateRootInvalid)
  }

  // Genesis

  function BlankState(c: Config, time: nat, eth1: Eth1Data): (s: BeaconState)
    requires ValidConfig(c)
    ensures Shape(c, s)
  {
    var noVersion := seq(4, _ => 0);
    var noEth1 := Eth1Data(ZERO_HASH, 0, ZERO_HASH);
    var emptyBody := BlockBody(DEFAULT_SIGNATURE, noEth1, ZERO_HASH, [], [], [], [], []);
    var origin := Checkpoint(0, ZERO_HASH);
    BeaconState(
      time, 0, Fork(noVersion, noVersion, 0),
      BlockHeader(0, ZERO_HASH, ZERO_HASH, c.crypto.bodyRoot(emptyBody), DEFAULT_SIGNATURE),
      seq(c.slotsPerHistoricalRoot, _ => ZERO_HASH), seq(c.slotsPerHistoricalRoot, _ => ZERO_HASH), [],
      eth1, [], 0, [], [],
      seq(c.epochsPerHistoricalVector, _ => eth1.blockHash),
      seq(c.epochsPerSlashingsVector, _ => 0),
      [], [], [false, false, false, false], origin, origin, origin)
  }

  function ApplyDeposits(c: Config, s: BeaconState, deposits: seq<Deposit>): (r: Result<BeaconState>)
    requires Shape(c, s)
    ensures r.Ok? ==> Shape(c, r.value) && r.value.slot == s.slot
  {
    if deposits == [] then Ok(s)
    else
      var before :- ApplyDeposits(c, s, deposits[..|deposits| - 1]);
      ProcessDeposit(c, before, deposits[|deposits| - 1])
  }

  function AtGenesis(c: Config, v: Validator): Validator {
    if v.effectiveBalance >= c.maxEffectiveBalance then
      v.(activationEligibilityEpoch := GENESIS_EPOCH, activationEpoch := GENESIS_EPOCH)
    else v
  }

  function GenesisState(c: Config, deposits: seq<Deposit>, time: nat, eth1: Eth1Data): (r: Result<BeaconState>)
    requires ValidConfig(c)
    ensures r.Ok? ==> Shape(c, r.value) && r.value.slot == 0
  {
    var s :- ApplyDeposits(c, BlankState(c, time, eth1), deposits);
    Ok(s.(validators := seq(|s.validators|, i requires 0 <= i < |s.validators| => AtGenesis(c, s.validators[i]))))
  }

  ghost predicate IsGenesis(c: Config, s: BeaconState)
    requires ValidConfig(c)
  {
    exists deposits, time, eth1 :: GenesisState(c, deposits, time, eth1) == Ok(s)
  }

  // Runs

  /** A single step: a slot, or one part of a block. */
  datatype Action =
    | Advance
    | Header(block: UnsealedBlock, signature: Option<Signature>)
    | Randao(body: BlockBody)
    | VoteEth1(eth1Body: BlockBody)
    | Operate(tx: Transaction)

  ghost function Act(c: Config, s: BeaconState, a: Action): (r: Result<BeaconState>)
    requires Shape(c, s)
    ensures r.Ok? ==> Shape(c, r.value) && s.slot <= r.value.slot && |s.validators| <= |r.value.validators|
  {
    match a
    case Advance => AdvanceSlot(c, s)
    case Header(block, signature) => ProcessHeader(c, s, block, signature)
    case Randao(body) => ProcessRandao(c, s, body)
    case VoteEth1(body) => Ok(ProcessEth1Data(c, s, body))
    case Operate(tx) => ApplyOperation(c, s, tx)
  }

  ghost predicate Step(c: Config, s: BeaconState, s': BeaconState) {
    Shape(c, s) && exists a :: Act(c, s, a) == Ok(s')
  }

  ghost predicate Path(c: Config, t: seq<BeaconState>) {
    && |t| >= 1 && Shape(c, t[0])
    && forall k :: 0 <= k < |t| - 1 ==> Step(c, t[k], t[k + 1])
  }

  /** A run from genesis, in any interleaving of slots and block parts. */
  ghost predicate Run(c: Config, t: seq<BeaconState>) {
    ValidConfig(c) && Path(c, t) && IsGenesis(c, t[0])
  }

  lemma ActIsStep(c: Config, s: BeaconState, a: Action)
    requires Shape(c, s) && Act(c, s, a).Ok?
    ensures Step(c, s, Act(c, s, a).value)
  {
  }

  lemma OperationIsStep(c: Config, s: BeaconState, tx: Transaction)
    requires Shape(c, s) && ApplyOperation(c, s, tx).Ok?
    ensures Step(c, s, ApplyOperation(c, s, tx).value)
  {
    hide ApplyOperation;
    ActIsStep(c, s, Operate(tx));
  }

  lemma {:induction false} PathExtend(c: Config, t: seq<BeaconState>, s: BeaconState)
    requires Path(c, t) && Step(c, t[|t| - 1], s)
    ensures Path(c, t + [s])
  {
    hide Step;
    var u := t + [s];
    forall k | 0 <= k < |u| - 1
      ensures Step(c, u[k], u[k + 1])
    {
      if k < |t| - 1 {
        assert Step(c, t[k], t[k + 1]);
      }
    }
  }

  /** The slot loop only takes steps. */
  lemma {:induction false} SlotsExtendPath(c: Config, t: seq<BeaconState>, slot: Slot) returns (u: seq<BeaconState>)
    requires Path(c, t) && Shape(c, t[|t| - 1]) && ProcessSlots(c, t[|t| - 1], slot).Ok?
    ensures Path(c, u) && t <= u && u[|u| - 1] == ProcessSlots(c, t[|t| - 1], slot).value
    decreases slot - t[|t| - 1].slot
  {
    hide AdvanceSlot, Step;
    var s := t[|t| - 1];
    if s.slot == slot {
      u := t;
    } else {
      ActIsStep(c, s, Advance);
      PathExtend(c, t, AdvanceSlot(c, s).value);
      u := SlotsExtendPath(c, t + [AdvanceSlot(c, s).value], slot);
    }
  }

  /** So does a list of operations. */
  lemma {:induction false} OperationsExtendPath(c: Config, t: seq<BeaconState>,
                                                txs: seq<Transaction>) returns (u: seq<BeaconState>)
    requires Path(c, t) && Shape(c, t[|t| - 1]) && ApplyAll(c, t[|t| - 1], txs).Ok?
    ensures Path(c, u) && t <= u && u[|u| - 1] == ApplyAll(c, t[|t| - 1], txs).value
    decreases |txs|
  {
    hide ApplyOperation, Step;
    if txs == [] {
      u := t;
    } else {
      u := OperationsExtendPath(c, t, txs[..|txs| - 1]);
      OperationIsStep(c, u[|u| - 1], txs[|txs| - 1]);
      var s := ApplyOperation(c, u[|u| - 1], txs[|txs| - 1]).value;
      PathExtend(c, u, s);
      u := u + [s];
    }
  }
}
