/**
 The block builder against the block executor. The builder processes the header last and counts
 deposits after the deposit index has moved; for a block whose transactions come in the executor's
 order, the executor accepts it, with the same post-state, exactly when it carries no deposits or
 the maximal number of them.
 */
module Builder {
  import Sorting
  import opened Bytes
  import opened BeaconTypes
  import opened Accessors
  import opened Mutators
  import opened BlockProcessing
  import opened Transition
  import opened RingHistory
  import opened Turn
  import opened Arith

  // The builder

  datatype Inherent = Inherent(randaoReveal: Signature, eth1Data: Eth1Data)

  datatype Draft = Draft(block: UnsealedBlock, state: BeaconState)

  function InherentBody(inherent: Inherent): BlockBody {
    BlockBody(inherent.randaoReveal, inherent.eth1Data, ZERO_HASH, [], [], [], [], [])
  }

  ghost function ApplyInherent(c: Config, s: BeaconState, parentStateRoot: Hash, inherent: Inherent): (r: Result<Draft>)
    requires Shape(c, s)
    ensures r.Ok? ==> Shape(c, r.value.state)
  {
    var body := InherentBody(inherent);
    var block := UnsealedBlock(s.slot, c.crypto.headerRoot(Signing(s.latestBlockHeader)), parentStateRoot, body);
    var s1 :- ProcessRandao(c, s, body);
    Ok(Draft(block, ProcessEth1Data(c, s1, body)))
  }

  function Push(body: BlockBody, tx: Transaction): BlockBody {
    match tx
    case OfProposerSlashing(p) => body.(proposerSlashings := body.proposerSlashings + [p])
    case OfAttesterSlashing(a) => body.(attesterSlashings := body.attesterSlashings + [a])
    case OfAttestation(a) => body.(attestations := body.attestations + [a])
    case OfDeposit(d) => body.(deposits := body.deposits + [d])
    case OfVoluntaryExit(e) => body.(voluntaryExits := body.voluntaryExits + [e])
  }

  function CheckLimit(c: Config, body: BlockBody, tx: Transaction): Result<()> {
    match tx
    case OfProposerSlashing(_) =>
      if |body.proposerSlashings| >= c.maxProposerSlashings then Err(TooManyProposerSlashings) else Ok(())
    case OfAttesterSlashing(_) =>
      if |body.attesterSlashings| >= c.maxAttesterSlashings then Err(TooManyAttesterSlashings) else Ok(())
    case OfAttestation(_) =>
      if |body.attestations| >= c.maxAttestations then Err(TooManyAttestations) else Ok(())
    case OfDeposit(_) =>
      if |body.deposits| >= c.maxDeposits then Err(TooManyDeposits) else Ok(())
    case OfVoluntaryExit(_) =>
      if |body.voluntaryExits| >= c.maxVoluntaryExits then Err(TooManyVoluntaryExits) else Ok(())
  }

  ghost function ApplyTransaction(c: Config, draft: Draft, tx: Transaction): (r: Result<Draft>)
    requires Shape(c, draft.state)
    ensures r.Ok? ==> Shape(c, r.value.state)
  {
    var _ :- CheckLimit(c, draft.block.body, tx);
    var s :- ApplyOperation(c, draft.state, tx);
    Ok(Draft(draft.block.(body := Push(draft.block.body, tx)), s))
  }

  ghost function ApplyTransactions(c: Config, draft: Draft, txs: seq<Transaction>): (r: Result<Draft>)
    requires Shape(c, draft.state)
    ensures r.Ok? ==> Shape(c, r.value.state)
  {
    if txs == [] then Ok(draft)
    else
      var before :- ApplyTransactions(c, draft, txs[..|txs| - 1]);
      ApplyTransaction(c, before, txs[|txs| - 1])
  }

  ghost function FinalizeBlock(c: Config, draft: Draft): (r: Result<Draft>)
    requires Shape(c, draft.state)
  {
    var s := draft.state;
    if s.eth1Data.depositCount < s.eth1DepositIndex then Err(InvalidEth1Data)
    else if |draft.block.body.deposits| != Min(c.maxDeposits, s.eth1Data.depositCount - s.eth1DepositIndex) then
      Err(TooManyDeposits)
    else
      var s' :- ProcessHeader(c, s, draft.block, None);
      Ok(Draft(draft.block.(stateRoot := c.crypto.stateRoot(s')), s'))
  }

  ghost function BuildBlock(c: Config, s: BeaconState, slot: Slot, parentStateRoot: Hash, inherent: Inherent,
                            txs: seq<Transaction>)
    : (r: Result<Draft>)
    requires Shape(c, s)
  {
    var s0 :- ProcessSlots(c, s, slot);
    var d0 :- ApplyInherent(c, s0, parentStateRoot, inherent);
    var d1 :- ApplyTransactions(c, d0, txs);
    FinalizeBlock(c, d1)
  }

  // The executor's order

  function Kind(tx: Transaction): nat {
    match tx
    case OfProposerSlashing(_) => 0
    case OfAttesterSlashing(_) => 1
    case OfAttestation(_) => 2
    case OfDeposit(_) => 3
    case OfVoluntaryExit(_) => 4
  }

  predicate InKindOrder(txs: seq<Transaction>) {
    forall i, j :: 0 <= i < j < |txs| ==> Kind(txs[i]) <= Kind(txs[j])
  }

  /** The transactions of a body, kind after kind. */
  function Grouped(body: BlockBody): seq<Transaction> {
    ProposerSlashings(body) + AttesterSlashings(body) + Attestations(body) + Deposits(body) + VoluntaryExits(body)
  }

  predicate NoneAbove(body: BlockBody, kind: nat) {
    && (kind < 1 ==> body.attesterSlashings == [])
    && (kind < 2 ==> body.attestations == [])
    && (kind < 3 ==> body.deposits == [])
    && (kind < 4 ==> body.voluntaryExits == [])
  }

  lemma PushGroups(body: BlockBody, tx: Transaction)
    requires NoneAbove(body, Kind(tx))
    ensures Grouped(Push(body, tx)) == Grouped(body) + [tx]
  {
  }

  predicate WithinLimits(c: Config, body: BlockBody) {
    && |body.proposerSlashings| <= c.maxProposerSlashings
    && |body.attesterSlashings| <= c.maxAttesterSlashings
    && |body.attestations| <= c.maxAttestations
    && |body.deposits| <= c.maxDeposits
    && |body.voluntaryExits| <= c.maxVoluntaryExits
  }

  function PushAll(body: BlockBody, txs: seq<Transaction>): (r: BlockBody)
    ensures r.randaoReveal == body.randaoReveal && r.eth1Data == body.eth1Data && r.graffiti == body.graffiti
  {
    if txs == [] then body else Push(PushAll(body, txs[..|txs| - 1]), txs[|txs| - 1])
  }

  predicate KindsUpTo(txs: seq<Transaction>, kind: nat) {
    forall i :: 0 <= i < |txs| ==> Kind(txs[i]) <= kind
  }

  lemma {:induction false} PushedKinds(body: BlockBody, txs: seq<Transaction>, kind: nat)
    requires Grouped(body) == [] && KindsUpTo(txs, kind)
    ensures NoneAbove(PushAll(body, txs), kind)
    decreases |txs|
  {
    if txs == [] {
      EmptyBody(body);
    } else {
      PushedKinds(body, txs[..|txs| - 1], kind);
      assert Kind(txs[|txs| - 1]) <= kind;
    }
  }

  /** Pushing transactions in kind order lists them in that order. */
  lemma {:induction false} PushedInOrder(body: BlockBody, txs: seq<Transaction>)
    requires Grouped(body) == [] && InKindOrder(txs)
    ensures Grouped(PushAll(body, txs)) == txs
    decreases |txs|
  {
    hide Grouped;
    if txs != [] {
      var n := |txs| - 1;
      PushedInOrder(body, txs[..n]);
      PushedKinds(body, txs[..n], Kind(txs[n]));
      PushGroups(PushAll(body, txs[..n]), txs[n]);
      assert txs == txs[..n] + [txs[n]];
    }
  }

  /** The draft after `txs`: the same operations on the state, and the body that lists them. */
  lemma {:induction false} DraftFollows(c: Config, draft: Draft, txs: seq<Transaction>)
    requires Shape(c, draft.state) && WithinLimits(c, draft.block.body)
    requires ApplyTransactions(c, draft, txs).Ok?
    ensures var d := ApplyTransactions(c, draft, txs).value;
      && ApplyAll(c, draft.state, txs) == Ok(d.state)
      && d.block == draft.block.(body := PushAll(draft.block.body, txs))
      && WithinLimits(c, d.block.body)
    decreases |txs|
  {
    hide ApplyOperation;
    if txs != [] {
      DraftFollows(c, draft, txs[..|txs| - 1]);
    }
  }

  lemma EmptyBody(body: BlockBody)
    requires Grouped(body) == []
    ensures body.proposerSlashings == [] && body.attesterSlashings == [] && body.attestations == []
    ensures body.deposits == [] && body.voluntaryExits == []
  {
    assert |Grouped(body)| == |body.proposerSlashings| + |body.attesterSlashings| + |body.attestations|
                              + |body.deposits| + |body.voluntaryExits|;
  }

  lemma {:induction false} ApplyAllConcat(c: Config, s: BeaconState, a: seq<Transaction>, b: seq<Transaction>)
    requires Shape(c, s)
    ensures ApplyAll(c, s, a + b) == match ApplyAll(c, s, a) { case Ok(s1) => ApplyAll(c, s1, b) case Err(e) => Err(e) }
    decreases |b|
  {
    hide ApplyOperation;
    if b == [] {
      assert a + b == a;
    } else {
      var n := |b| - 1;
      assert (a + b)[..|a + b| - 1] == a + b[..n];
      ApplyAllConcat(c, s, a, b[..n]);
    }
  }

  /** Past its deposit count, the executor applies the grouped list. */
  lemma {:induction false} OperationsAreGrouped(c: Config, s: BeaconState, body: BlockBody)
    requires Shape(c, s) && WithinLimits(c, body) && ApplyAll(c, s, Grouped(body)).Ok?
    requires s.eth1DepositIndex <= s.eth1Data.depositCount
    ensures ProcessOperations(c, s, body) ==
      if |body.deposits| == Min(c.maxDeposits, s.eth1Data.depositCount - s.eth1DepositIndex)
      then ApplyAll(c, s, Grouped(body)) else Err(TooManyDeposits)
  {
    hide ApplyAll, ProposerSlashings, AttesterSlashings, Attestations, Deposits, VoluntaryExits;
    var a, b, g := ProposerSlashings(body), AttesterSlashings(body), Attestations(body);
    var d, e := Deposits(body), VoluntaryExits(body);
    ApplyAllConcat(c, s, a + b + g + d, e);
    ApplyAllConcat(c, s, a + b + g, d);
    ApplyAllConcat(c, s, a + b, g);
    ApplyAllConcat(c, s, a, b);
  }

  // The header can go first or last

  function WithHeader(s: BeaconState, h: BlockHeader): BeaconState {
    s.(latestBlockHeader := h)
  }

  function MapHeader(r: Result<BeaconState>, h: BlockHeader): Result<BeaconState> {
    match r
    case Ok(s) => Ok(WithHeader(s, h))
    case Err(e) => Err(e)
  }

  lemma {:induction false} HeaderKeepsTurn(c: Config, s: BeaconState, h: BlockHeader)
    requires Shape(c, s)
    ensures Shape(c, WithHeader(s, h)) && SameTurn(c, s, WithHeader(s, h))
    ensures ProposerIndex(c, WithHeader(s, h)) == ProposerIndex(c, s)
  {
    hide Mod, Div, ProposerIndex;
    assert SameTurn(c, s, WithHeader(s, h));
    SameProposer(c, s, WithHeader(s, h));
  }

  lemma {:induction false} ExitIgnoresHeader(c: Config, s: BeaconState, h: BlockHeader, i: ValidatorIndex)
    requires Shape(c, s) && i < |s.validators|
    ensures InitiateExit(c, WithHeader(s, h), i) == WithHeader(InitiateExit(c, s, i), h)
  {
    hide LastExit, CountExits, ActiveIndices;
  }

  lemma {:induction false} MarkIgnoresHeader(c: Config, s: BeaconState, h: BlockHeader, i: ValidatorIndex)
    requires Shape(c, s) && i < |s.validators|
    ensures MarkSlashed(c, WithHeader(s, h), i) == WithHeader(MarkSlashed(c, s, i), h)
  {
    hide InitiateExit;
    ExitIgnoresHeader(c, s, h, i);
  }

  lemma {:induction false} SlashIgnoresHeader(c: Config, s: BeaconState, h: BlockHeader, i: ValidatorIndex)
    requires Shape(c, s) && i < |s.validators|
    ensures SlashValidator(c, WithHeader(s, h), i, None) == MapHeader(SlashValidator(c, s, i, None), h)
  {
    hide MarkSlashed, ProposerIndex;
    MarkIgnoresHeader(c, s, h, i);
    HeaderKeepsTurn(c, MarkSlashed(c, s, i), h);
  }

  lemma {:induction false} SlashAllIgnoresHeader(c: Config, s: BeaconState, h: BlockHeader,
                                                 indices: seq<ValidatorIndex>)
    requires Shape(c, s)
    ensures SlashAll(c, WithHeader(s, h), indices) ==
      match SlashAll(c, s, indices) { case Ok(p) => Ok((WithHeader(p.0, h), p.1)) case Err(e) => Err(e) }
    decreases |indices|
  {
    hide SlashValidator;
    if indices != [] {
      var n := |indices| - 1;
      SlashAllIgnoresHeader(c, s, h, indices[..n]);
      var before := SlashAll(c, s, indices[..n]);
      if before.Ok? && indices[n] < |before.value.0.validators| {
        SlashIgnoresHeader(c, before.value.0, h, indices[n]);
      }
    }
  }

  lemma {:induction false} ChecksIgnoreHeader(c: Config, s: BeaconState, h: BlockHeader)
    requires Shape(c, s)
    ensures forall p :: CheckProposerSlashing(c, WithHeader(s, h), p) == CheckProposerSlashing(c, s, p)
    ensures forall a :: CheckAttesterSlashing(c, WithHeader(s, h), a) == CheckAttesterSlashing(c, s, a)
    ensures forall d :: CheckAttestationData(c, WithHeader(s, h), d) == CheckAttestationData(c, s, d)
    ensures forall e :: CheckVoluntaryExit(c, WithHeader(s, h), e) == CheckVoluntaryExit(c, s, e)
  {
    hide Div, Mod, ActiveIndices, CommitteeCount;
  }

  lemma {:induction false} VoteCheckIgnoresHeader(c: Config, s: BeaconState, h: BlockHeader, a: Attestation)
    requires Shape(c, s)
    ensures CheckAttestationVote(c, WithHeader(s, h), a) == CheckAttestationVote(c, s, a)
  {
    hide Div, Mod, ActiveIndices, CommitteeFrom, Sorting.Sort, PickBits;
  }

  lemma {:induction false} DepositIgnoresHeader(c: Config, s: BeaconState, h: BlockHeader, d: Deposit)
    requires Shape(c, s)
    ensures ProcessDeposit(c, WithHeader(s, h), d) == MapHeader(ProcessDeposit(c, s, d), h)
  {
    hide Position, NewValidator;
  }

  /** No operation reads or writes the latest header. */
  lemma {:induction false} OperationIgnoresHeader(c: Config, s: BeaconState, h: BlockHeader, tx: Transaction)
    requires Shape(c, s)
    ensures ApplyOperation(c, WithHeader(s, h), tx) == MapHeader(ApplyOperation(c, s, tx), h)
  {
    hide SlashValidator, SlashAll, InitiateExit, ProposerIndex, ProcessDeposit;
    hide CheckProposerSlashing, CheckAttesterSlashing, CheckAttestationData, CheckAttestationVote, CheckVoluntaryExit;
    ChecksIgnoreHeader(c, s, h);
    match tx
    case OfProposerSlashing(p) =>
      if CheckProposerSlashing(c, s, p).Ok? {
        ProposerSlashingInRange(c, s, p);
        SlashIgnoresHeader(c, s, h, p.proposerIndex);
      }
    case OfAttesterSlashing(a) =>
      SlashAllIgnoresHeader(c, s, h, AccusedIndices(a));
    case OfAttestation(a) =>
      HeaderKeepsTurn(c, s, h);
      VoteCheckIgnoresHeader(c, s, h, a);
    case OfDeposit(d) =>
      DepositIgnoresHeader(c, s, h, d);
    case OfVoluntaryExit(e) =>
      if CheckVoluntaryExit(c, s, e).Ok? {
        ExitInRange(c, s, e);
        ExitIgnoresHeader(c, s, h, e.validatorIndex);
      }
  }

  lemma ExitInRange(c: Config, s: BeaconState, e: VoluntaryExit)
    requires ValidConfig(c) && CheckVoluntaryExit(c, s, e).Ok?
    ensures e.validatorIndex < |s.validators|
  {
  }

  lemma {:induction false} OperationsIgnoreHeader(c: Config, s: BeaconState, h: BlockHeader, txs: seq<Transaction>)
    requires Shape(c, s)
    ensures ApplyAll(c, WithHeader(s, h), txs) == MapHeader(ApplyAll(c, s, txs), h)
    decreases |txs|
  {
    hide ApplyOperation;
    if txs != [] {
      var n := |txs| - 1;
      OperationsIgnoreHeader(c, s, h, txs[..n]);
      if ApplyAll(c, s, txs[..n]).Ok? {
        OperationIgnoresHeader(c, ApplyAll(c, s, txs[..n]).value, h, txs[n]);
      }
    }
  }

  lemma {:induction false} RandaoIgnoresHeader(c: Config, s: BeaconState, h: BlockHeader, body: BlockBody)
    requires Shape(c, s)
    ensures ProcessRandao(c, WithHeader(s, h), body) == MapHeader(ProcessRandao(c, s, body), h)
  {
    hide ProposerIndex, Mod, Div;
    HeaderKeepsTurn(c, s, h);
  }

  // Deposits are counted before they are applied by one side, and after by the other

  function CountDeposits(txs: seq<Transaction>): nat {
    if txs == [] then 0
    else CountDeposits(txs[..|txs| - 1]) + if txs[|txs| - 1].OfDeposit? then 1 else 0
  }

  lemma {:induction false} PushedDeposits(body: BlockBody, txs: seq<Transaction>)
    ensures |PushAll(body, txs).deposits| == |body.deposits| + CountDeposits(txs)
    decreases |txs|
  {
    if txs != [] {
      PushedDeposits(body, txs[..|txs| - 1]);
    }
  }

  lemma {:induction false} OperationMovesIndex(c: Config, s: BeaconState, tx: Transaction)
    requires Shape(c, s) && ApplyOperation(c, s, tx).Ok?
    ensures ApplyOperation(c, s, tx).value.eth1DepositIndex == s.eth1DepositIndex + if tx.OfDeposit? then 1 else 0
  {
    hide MarkSlashed, InitiateExit, Credit, SlashAll, SlashValidator, CheckAttestationData, CheckAttestationVote;
  }

  lemma {:induction false} OperationsMoveIndex(c: Config, s: BeaconState, txs: seq<Transaction>)
    requires Shape(c, s) && ApplyAll(c, s, txs).Ok?
    ensures ApplyAll(c, s, txs).value.eth1DepositIndex == s.eth1DepositIndex + CountDeposits(txs)
    decreases |txs|
  {
    hide ApplyOperation;
    if txs != [] {
      var n := |txs| - 1;
      OperationsMoveIndex(c, s, txs[..n]);
      OperationMovesIndex(c, ApplyAll(c, s, txs[..n]).value, txs[n]);
    }
  }

  /** Slashings are never undone, so a proposer who is not slashed at the end was not at the start. */
  lemma {:induction false} OperationsKeepSlashed(c: Config, s: BeaconState, txs: seq<Transaction>)
    requires Shape(c, s) && ApplyAll(c, s, txs).Ok?
    ensures SlashedOnly(s.validators, ApplyAll(c, s, txs).value.validators)
    decreases |txs|
  {
    hide ApplyOperation;
    if txs != [] {
      var n := |txs| - 1;
      OperationsKeepSlashed(c, s, txs[..n]);
      OperationAdds(c, ApplyAll(c, s, txs[..n]).value, txs[n]);
    }
  }

  // Agreement

  /** The seal verifies under the key of the proposer of the state the block is for. */
  ghost predicate SealAccepted(c: Config, s0: BeaconState, block: UnsealedBlock, seal: Signature)
    requires Shape(c, s0)
  {
    ProposerIndex(c, s0).Ok? ==>
      c.crypto.verify(s0.validators[ProposerIndex(c, s0).value].pubkey, c.crypto.blockRoot(block), seal,
                      Domain(c, s0, DOMAIN_BEACON_PROPOSER, None))
  }

  function HeaderOf(c: Config, block: UnsealedBlock): BlockHeader {
    BlockHeader(block.slot, block.parentRoot, ZERO_HASH, c.crypto.bodyRoot(block.body), DEFAULT_SIGNATURE)
  }

  /** A header accepted after the operations is accepted before them, once it is sealed. */
  lemma {:induction false} HeaderAcceptedFirst(c: Config, s0: BeaconState, s3: BeaconState,
                                               block: UnsealedBlock, block': UnsealedBlock, seal: Signature)
    requires Shape(c, s0) && Shape(c, s3) && SameTurn(c, s0, s3) && SlashedOnly(s0.validators, s3.validators)
    requires s3.latestBlockHeader == s0.latestBlockHeader
    requires ProcessHeader(c, s3, block, None).Ok?
    requires block' == block.(stateRoot := block'.stateRoot) && SealAccepted(c, s0, block', seal)
    ensures ProcessHeader(c, s3, block, None) == Ok(WithHeader(s3, HeaderOf(c, block)))
    ensures ProcessHeader(c, s0, block', Some(seal)) == Ok(WithHeader(s0, HeaderOf(c, block)))
  {
    hide ProposerIndex, Div;
    var h := HeaderOf(c, block);
    SameProposer(c, s0, s3);
    HeaderKeepsTurn(c, s0, h);
    HeaderKeepsTurn(c, s3, h);
  }

  /** The builder's last check, with the deposits already counted in, against the executor's first. */
  lemma CountsAgree(n: nat, most: nat, outstanding: nat)
    requires n <= outstanding && n == Min(most, outstanding - n)
    ensures n == Min(most, outstanding) <==> n == 0 || n == most
  {
  }

  /** The states of a successful build. */
  lemma {:induction false} BuildStages(c: Config, s: BeaconState, slot: Slot, parentStateRoot: Hash,
                                       inherent: Inherent, txs: seq<Transaction>)
    returns (s0: BeaconState, s1: BeaconState, s2: BeaconState, s3: BeaconState, block: UnsealedBlock)
    requires Shape(c, s) && InKindOrder(txs) && BuildBlock(c, s, slot, parentStateRoot, inherent, txs).Ok?
    ensures ProcessSlots(c, s, slot) == Ok(s0) && Shape(c, s0) && s0.slot == slot
    ensures ProcessRandao(c, s0, block.body) == Ok(s1) && Shape(c, s1)
    ensures s2 == ProcessEth1Data(c, s1, block.body) && Shape(c, s2)
    ensures ApplyAll(c, s2, txs) == Ok(s3) && Shape(c, s3)
    ensures Grouped(block.body) == txs && WithinLimits(c, block.body) && |block.body.deposits| == CountDeposits(txs)
    ensures block.slot == slot
    ensures FinalizeBlock(c, Draft(block, s3)) == BuildBlock(c, s, slot, parentStateRoot, inherent, txs)
  {
    hide ProcessSlots, ApplyTransactions, ApplyAll, FinalizeBlock, Grouped;
    s0 := ProcessSlots(c, s, slot).value;
    var d0 := ApplyInherent(c, s0, parentStateRoot, inherent).value;
    var d1 := ApplyTransactions(c, d0, txs).value;
    NothingGrouped(d0.block.body);
    DraftFollows(c, d0, txs);
    PushedInOrder(d0.block.body, txs);
    PushedDeposits(d0.block.body, txs);
    block, s3, s2 := d1.block, d1.state, d0.state;
    s1 := ProcessRandao(c, s0, d0.block.body).value;
    BodyOnlyReveals(c, s0, d0.block.body, block.body);
  }

  lemma NothingGrouped(body: BlockBody)
    requires body.proposerSlashings == [] && body.attesterSlashings == [] && body.attestations == []
    requires body.deposits == [] && body.voluntaryExits == []
    ensures Grouped(body) == []
  {
  }

  lemma BodyOnlyReveals(c: Config, s: BeaconState, body: BlockBody, body': BlockBody)
    requires Shape(c, s) && body'.randaoReveal == body.randaoReveal && body'.eth1Data == body.eth1Data
    ensures ProcessRandao(c, s, body') == ProcessRandao(c, s, body)
    ensures forall s1 :: ProcessEth1Data(c, s1, body') == ProcessEth1Data(c, s1, body)
  {
    hide ProposerIndex;
  }

  /** The builder and the executor agree on a block in kind order, state for state, exactly when it
      carries no deposits or as many as a block may; otherwise the executor refuses its count. */
  lemma {:induction false} ExecutorAcceptsBuilt(c: Config, s: BeaconState, slot: Slot, parentStateRoot: Hash,
                                                inherent: Inherent, txs: seq<Transaction>, seal: Signature)
    requires Shape(c, s) && InKindOrder(txs) && EpochOf(c, slot) < FAR_FUTURE_EPOCH
    requires BuildBlock(c, s, slot, parentStateRoot, inherent, txs).Ok?
    requires SealAccepted(c, ProcessSlots(c, s, slot).value,
                          BuildBlock(c, s, slot, parentStateRoot, inherent, txs).value.block, seal)
    ensures var d, n := BuildBlock(c, s, slot, parentStateRoot, inherent, txs).value, CountDeposits(txs);
      && |d.block.body.deposits| == n
      && StateTransition(c, s, d.block, Some(seal))
         == if n == 0 || n == c.maxDeposits then Ok(d.state) else Err(TooManyDeposits)
  {
    hide ProcessSlots, ApplyAll, ProcessRandao, ProcessEth1Data, ProcessOperations, Grouped, SameTurn, SlashedOnly,
      SealAccepted, ProcessHeader, BuildBlock;
    var s0, s1, s2, s3, block := BuildStages(c, s, slot, parentStateRoot, inherent, txs);
    var d := BuildBlock(c, s, slot, parentStateRoot, inherent, txs).value;
    TurnOverBlock(c, s0, s1, s2, s3, block.body, txs);
    HeaderAcceptedFirst(c, s0, s3, block, d.block, seal);
    var h := HeaderOf(c, block);
    RandaoIgnoresHeader(c, s0, h, block.body);
    Eth1IgnoresHeader(c, s1, h, block.body);
    OperationsIgnoreHeader(c, s2, h, txs);
    OperationsMoveIndex(c, s2, txs);
    CountsAgree(|block.body.deposits|, c.maxDeposits, s2.eth1Data.depositCount - s2.eth1DepositIndex);
    OperationsAreGrouped(c, WithHeader(s2, h), block.body);
  }

  lemma Eth1IgnoresHeader(c: Config, s: BeaconState, h: BlockHeader, body: BlockBody)
    ensures ProcessEth1Data(c, WithHeader(s, h), body) == WithHeader(ProcessEth1Data(c, s, body), h)
  {
  }

  lemma {:induction false} TurnOverBlock(c: Config, s0: BeaconState, s1: BeaconState, s2: BeaconState, s3: BeaconState,
                                         body: BlockBody, txs: seq<Transaction>)
    requires Shape(c, s0) && Shape(c, s1) && Shape(c, s2) && CurrentEpoch(c, s0) < FAR_FUTURE_EPOCH
    requires ProcessRandao(c, s0, body) == Ok(s1) && s2 == ProcessEth1Data(c, s1, body)
    requires ApplyAll(c, s2, txs) == Ok(s3)
    ensures Shape(c, s3) && SameTurn(c, s0, s3) && SlashedOnly(s0.validators, s3.validators)
    ensures s3.latestBlockHeader == s0.latestBlockHeader
  {
    hide ProcessRandao, ProcessEth1Data, ApplyAll;
    RandaoKeepsTurn(c, s0, body);
    SeedDependsOn(c, s1, s2);
    OperationsKeepTurn(c, s2, txs);
    OperationsKeepSlashed(c, s2, txs);
    hide Seed;
    TurnTransitive(c, s0, s2, s3);
  }
}
