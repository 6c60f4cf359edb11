/** The block transition on states: header, randao, eth1 data and the five kinds of operations. */
module BlockProcessing {
  import opened Bytes
  import opened BeaconTypes
  import opened Accessors
  import opened Mutators
  import opened Arith
  import Merkle
  import Sorting

  const DEFAULT_SIGNATURE: Signature := seq(96, _ => 0)

  /** An unsealed block has no signature to check. */
  ghost function ProcessHeader(c: Config, s: BeaconState, block: UnsealedBlock, signature: Option<Signature>)
    : (r: Result<BeaconState>)
    requires Shape(c, s)
    ensures r.Ok? ==> r.value == s.(latestBlockHeader := r.value.latestBlockHeader)
  {
    if block.slot != s.slot then Err(BlockSlotInvalid)
    else if block.parentRoot != c.crypto.headerRoot(Signing(s.latestBlockHeader)) then Err(BlockPreviousRootInvalid)
    else
      var s1 := s.(latestBlockHeader :=
        BlockHeader(block.slot, block.parentRoot, ZERO_HASH, c.crypto.bodyRoot(block.body), DEFAULT_SIGNATURE));
      match ProposerIndex(c, s1)
      case Err(e) => Err(e)
      case Ok(proposer) =>
        if s1.validators[proposer].slashed then Err(BlockProposerSlashed)
        else if signature.Some? && !c.crypto.verify(s1.validators[proposer].pubkey, c.crypto.blockRoot(block),
                                                    signature.value, Domain(c, s1, DOMAIN_BEACON_PROPOSER, None)) then
          Err(BlockSignatureInvalid)
        else Ok(s1)
  }

  ghost function ProcessRandao(c: Config, s: BeaconState, body: BlockBody): (r: Result<BeaconState>)
    requires Shape(c, s)
    ensures r.Ok? ==> Shape(c, r.value)
    ensures r.Ok? ==> r.value == s.(randaoMixes := r.value.randaoMixes)
    ensures r.Ok? ==>
      forall k | 0 <= k < |s.randaoMixes| && k != Mod(CurrentEpoch(c, s), c.epochsPerHistoricalVector) ::
        r.value.randaoMixes[k] == s.randaoMixes[k]
  {
    var now := CurrentEpoch(c, s);
    match ProposerIndex(c, s)
    case Err(e) => Err(e)
    case Ok(proposer) =>
      if !c.crypto.verify(s.validators[proposer].pubkey, c.crypto.epochRoot(now), body.randaoReveal,
                          Domain(c, s, DOMAIN_RANDAO, None)) then
        Err(RandaoSignatureInvalid)
      else
        Ok(s.(randaoMixes := s.randaoMixes[Mod(now, c.epochsPerHistoricalVector) :=
          c.crypto.xor(RandaoMix(c, s, now), c.crypto.hash(body.randaoReveal))]))
  }

  function CountVotes(votes: seq<Eth1Data>, data: Eth1Data): nat {
    if votes == [] then 0
    else CountVotes(votes[..|votes| - 1], data) + if votes[|votes| - 1] == data then 1 else 0
  }

  function ProcessEth1Data(c: Config, s: BeaconState, body: BlockBody): (s': BeaconState)
    ensures s' == s.(eth1DataVotes := s'.eth1DataVotes, eth1Data := s'.eth1Data)
  {
    var votes := s.eth1DataVotes + [body.eth1Data];
    var chosen := CountVotes(votes, body.eth1Data) * 2 > c.slotsPerEth1VotingPeriod;
    s.(eth1DataVotes := votes, eth1Data := if chosen then body.eth1Data else s.eth1Data)
  }

  // Operations

  datatype Transaction =
    | OfProposerSlashing(proposerSlashing: ProposerSlashing)
    | OfAttesterSlashing(attesterSlashing: AttesterSlashing)
    | OfAttestation(attestation: Attestation)
    | OfDeposit(deposit: Deposit)
    | OfVoluntaryExit(voluntaryExit: VoluntaryExit)

  predicate HeaderSigned(c: Config, s: BeaconState, pubkey: Pubkey, header: BlockHeader)
    requires ValidConfig(c)
  {
    c.crypto.verify(pubkey, c.crypto.headerRoot(Signing(header)), header.signature,
      Domain(c, s, DOMAIN_BEACON_PROPOSER, Some(EpochOf(c, header.slot))))
  }

  function CheckProposerSlashing(c: Config, s: BeaconState, p: ProposerSlashing): Result<()>
    requires ValidConfig(c)
  {
    if p.header1.slot != p.header2.slot then Err(ProposerSlashingInvalidSlot)
    else if p.header1 == p.header2 then Err(ProposerSlashingSameHeader)
    else if p.proposerIndex >= |s.validators| then Err(ProposerSlashingInvalidProposerIndex)
    else
      var proposer := s.validators[p.proposerIndex];
      if !proposer.IsSlashable(CurrentEpoch(c, s)) then Err(ProposerSlashingAlreadySlashed)
      else if !HeaderSigned(c, s, proposer.pubkey, p.header1) || !HeaderSigned(c, s, proposer.pubkey, p.header2) then
        Err(ProposerSlashingInvalidSignature)
      else Ok(())
  }

  ghost function ProcessProposerSlashing(c: Config, s: BeaconState, p: ProposerSlashing): (r: Result<BeaconState>)
    requires Shape(c, s)
    ensures r.Ok? ==> Shape(c, r.value) && OperationFrame(s, r.value) && |s.validators| <= |r.value.validators|
  {
    var _ :- CheckProposerSlashing(c, s, p);
    SlashValidator(c, s, p.proposerIndex, None)
  }

  function AllIndices(a: IndexedAttestation): seq<ValidatorIndex> {
    a.custodyBit0Indices + a.custodyBit1Indices
  }

  /** Slash whoever in `indices` still can be; the flag tells whether anyone was. */
  ghost function SlashAll(c: Config, s: BeaconState, indices: seq<ValidatorIndex>): (r: Result<(BeaconState, bool)>)
    requires Shape(c, s)
    ensures r.Ok? ==> Shape(c, r.value.0) && |s.validators| == |r.value.0.validators|
    ensures r.Ok? ==> r.value.0 == s.(
      validators := r.value.0.validators, balances := r.value.0.balances, slashings := r.value.0.slashings)
  {
    if indices == [] then Ok((s, false))
    else
      var n := |indices| - 1;
      var before :- SlashAll(c, s, indices[..n]);
      if indices[n] >= |before.0.validators| then Err(Panicked)
      else if before.0.validators[indices[n]].IsSlashable(CurrentEpoch(c, before.0)) then
        var after :- SlashValidator(c, before.0, indices[n], None);
        Ok((after, true))
      else Ok(before)
  }

  function CheckAttesterSlashing(c: Config, s: BeaconState, a: AttesterSlashing): Result<()>
    requires ValidConfig(c)
  {
    if !a.attestation1.data.IsSlashable(a.attestation2.data) then Err(AttesterSlashingNotSlashable)
    else
      var valid1 :- IsValidIndexedAttestation(c, s, a.attestation1);
      if !valid1 then Err(AttestationInvalidSignature)
      else
        var valid2 :- IsValidIndexedAttestation(c, s, a.attestation2);
        if !valid2 then Err(AttestationInvalidSignature) else Ok(())
  }

  function AccusedIndices(a: AttesterSlashing): seq<ValidatorIndex> {
    Sorting.Sort(Sorting.Dedup([], AllIndices(a.attestation1) + AllIndices(a.attestation2)))
  }

  ghost function ProcessAttesterSlashing(c: Config, s: BeaconState, a: AttesterSlashing): (r: Result<BeaconState>)
    requires Shape(c, s)
    ensures r.Ok? ==> Shape(c, r.value) && OperationFrame(s, r.value) && |s.validators| <= |r.value.validators|
  {
    var _ :- CheckAttesterSlashing(c, s, a);
    var slashed :- SlashAll(c, s, AccusedIndices(a));
    if slashed.1 then Ok(slashed.0) else Err(AttesterSlashingEmptyIndices)
  }

  function CheckAttestationData(c: Config, s: BeaconState, data: AttestationData): (r: Result<()>)
    requires ValidConfig(c)
    ensures r.Ok? ==> data.slot + c.minAttestationInclusionDelay <= s.slot <= data.slot + c.slotsPerEpoch
  {
    if !(data.index < CommitteeCountAtSlot(c, s, data.slot)) then Err(AttestationIncorrectCrosslinkData)
    else if data.target.epoch != CurrentEpoch(c, s) && data.target.epoch != PreviousEpoch(c, s) then
      Err(AttestationIncorrectJustifiedEpochOrBlockRoot)
    else if !(data.slot + c.minAttestationInclusionDelay <= s.slot <= data.slot + c.slotsPerEpoch) then
      Err(AttestationSubmittedTooQuickly)
    else Ok(())
  }

  function CheckAttestationVote(c: Config, s: BeaconState, a: Attestation): Result<()>
    requires Shape(c, s)
  {
    if a.data.target.epoch == CurrentEpoch(c, s) && a.data.source != s.currentJustifiedCheckpoint then
      Err(AttestationInvalidData)
    else
      var indexed :- IndexAttestation(c, s, a);
      var valid :- IsValidIndexedAttestation(c, s, indexed);
      if valid then Ok(()) else Err(AttestationInvalidSignature)
  }

  function PushAttestation(c: Config, s: BeaconState, a: Attestation, proposer: ValidatorIndex): BeaconState
    requires ValidConfig(c) && a.data.slot <= s.slot
  {
    var pending := PendingAttestation(a.aggregationBits, a.data, s.slot - a.data.slot, proposer);
    if a.data.target.epoch == CurrentEpoch(c, s) then
      s.(currentEpochAttestations := s.currentEpochAttestations + [pending])
    else s.(previousEpochAttestations := s.previousEpochAttestations + [pending])
  }

  ghost function ProcessAttestation(c: Config, s: BeaconState, a: Attestation): (r: Result<BeaconState>)
    requires Shape(c, s)
    ensures r.Ok? ==> Shape(c, r.value) && OperationFrame(s, r.value) && |s.validators| <= |r.value.validators|
  {
    var _ :- CheckAttestationData(c, s, a.data);
    var proposer :- ProposerIndex(c, s);
    var _ :- CheckAttestationVote(c, s, a);
    Ok(PushAttestation(c, s, a, proposer))
  }

  /** The first validator with this key. */
  function Position(vs: seq<Validator>, pubkey: Pubkey): (r: Option<ValidatorIndex>)
    ensures r.Some? ==> r.value < |vs| && vs[r.value].pubkey == pubkey
    ensures r.Some? ==> forall i :: 0 <= i < r.value ==> vs[i].pubkey != pubkey
    ensures r.None? ==> forall i :: 0 <= i < |vs| ==> vs[i].pubkey != pubkey
  {
    if vs == [] then None
    else
      var before := Position(vs[..|vs| - 1], pubkey);
      if before.Some? then before
      else if vs[|vs| - 1].pubkey == pubkey then Some(|vs| - 1) else None
  }

  function NewValidator(c: Config, data: DepositData): Validator
    requires ValidConfig(c)
  {
    Validator(data.pubkey, data.withdrawalCredentials,
              Min(data.amount - Mod(data.amount, c.effectiveBalanceIncrement), c.maxEffectiveBalance), false,
              FAR_FUTURE_EPOCH, FAR_FUTURE_EPOCH, FAR_FUTURE_EPOCH, FAR_FUTURE_EPOCH)
  }

  function Credit(c: Config, s: BeaconState, data: DepositData): (s': BeaconState)
    requires Shape(c, s)
    ensures Shape(c, s')
    ensures s' == s.(validators := s'.validators, balances := s'.balances)
    ensures s'.validators == s.validators
         || s'.validators == s.validators + [NewValidator(c, data)]
  {
    match Position(s.validators, data.pubkey)
    case Some(i) => IncreaseBalance(s, i, data.amount)
    case None =>
      if c.crypto.verify(data.pubkey, c.crypto.signingDepositRoot(data.pubkey, data.withdrawalCredentials, data.amount),
                         data.signature, Domain(c, s, DOMAIN_DEPOSIT, None)) then
        s.(validators := s.validators + [NewValidator(c, data)], balances := s.balances + [data.amount])
      else s
  }

  function ProcessDeposit(c: Config, s: BeaconState, d: Deposit): (r: Result<BeaconState>)
    requires Shape(c, s)
    ensures r.Ok? ==> Shape(c, r.value) && OperationFrame(s, r.value) && |s.validators| <= |r.value.validators|
  {
    if !Merkle.IsValidMerkleBranch(c, c.crypto.depositDataRoot(d.data), d.proof,
                                   DEPOSIT_CONTRACT_TREE_DEPTH + 1, s.eth1DepositIndex, s.eth1Data.depositRoot) then
      Err(DepositMerkleInvalid)
    else Ok(Credit(c, s.(eth1DepositIndex := s.eth1DepositIndex + 1), d.data))
  }

  function CheckVoluntaryExit(c: Config, s: BeaconState, e: VoluntaryExit): Result<()>
    requires ValidConfig(c)
  {
    if e.validatorIndex >= |s.validators| then Err(VoluntaryExitInvalidSignature)
    else
      var v, now := s.validators[e.validatorIndex], CurrentEpoch(c, s);
      if !v.IsActive(now) then Err(VoluntaryExitAlreadyInitiated)
      else if v.exitEpoch != FAR_FUTURE_EPOCH then Err(VoluntaryExitAlreadyExited)
      else if now < e.epoch then Err(VoluntaryExitNotYetValid)
      else if now < v.activationEpoch + c.persistentCommitteePeriod then Err(VoluntaryExitNotLongEnough)
      else if !c.crypto.verify(v.pubkey, c.crypto.exitRoot(e.epoch, e.validatorIndex), e.signature,
                               Domain(c, s, DOMAIN_VOLUNTARY_EXIT, Some(e.epoch))) then
        Err(VoluntaryExitInvalidSignature)
      else Ok(())
  }

  function ProcessVoluntaryExit(c: Config, s: BeaconState, e: VoluntaryExit): (r: Result<BeaconState>)
    requires Shape(c, s)
    ensures r.Ok? ==> Shape(c, r.value) && OperationFrame(s, r.value) && |s.validators| <= |r.value.validators|
  {
    var _ :- CheckVoluntaryExit(c, s, e);
    Ok(InitiateExit(c, s, e.validatorIndex))
  }

  /** What an operation leaves alone. */
  predicate OperationFrame(s: BeaconState, s': BeaconState) {
    s' == s.(
      validators := s'.validators,
      balances := s'.balances,
      slashings := s'.slashings,
      eth1DepositIndex := s'.eth1DepositIndex,
      previousEpochAttestations := s'.previousEpochAttestations,
      currentEpochAttestations := s'.currentEpochAttestations)
  }

  ghost function ApplyOperation(c: Config, s: BeaconState, tx: Transaction): (r: Result<BeaconState>)
    requires Shape(c, s)
    ensures r.Ok? ==> Shape(c, r.value) && OperationFrame(s, r.value) && |s.validators| <= |r.value.validators|
  {
    match tx
    case OfProposerSlashing(p) => ProcessProposerSlashing(c, s, p)
    case OfAttesterSlashing(a) => ProcessAttesterSlashing(c, s, a)
    case OfAttestation(a) => ProcessAttestation(c, s, a)
    case OfDeposit(d) => ProcessDeposit(c, s, d)
    case OfVoluntaryExit(e) => ProcessVoluntaryExit(c, s, e)
  }

  ghost function ApplyAll(c: Config, s: BeaconState, txs: seq<Transaction>): (r: Result<BeaconState>)
    requires Shape(c, s)
    ensures r.Ok? ==> Shape(c, r.value) && OperationFrame(s, r.value)
  {
    if txs == [] then Ok(s)
    else
      var before :- ApplyAll(c, s, txs[..|txs| - 1]);
      ApplyOperation(c, before, txs[|txs| - 1])
  }

  function ProposerSlashings(body: BlockBody): (txs: seq<Transaction>) {
    seq(|body.proposerSlashings|, k requires 0 <= k < |body.proposerSlashings| =>
      OfProposerSlashing(body.proposerSlashings[k]))
  }

  function AttesterSlashings(body: BlockBody): (txs: seq<Transaction>) {
    seq(|body.attesterSlashings|, k requires 0 <= k < |body.attesterSlashings| =>
      OfAttesterSlashing(body.attesterSlashings[k]))
  }

  function Attestations(body: BlockBody): (txs: seq<Transaction>) {
    seq(|body.attestations|, k requires 0 <= k < |body.attestations| => OfAttestation(body.attestations[k]))
  }

  function Deposits(body: BlockBody): (txs: seq<Transaction>) {
    seq(|body.deposits|, k requires 0 <= k < |body.deposits| => OfDeposit(body.deposits[k]))
  }

  function VoluntaryExits(body: BlockBody): (txs: seq<Transaction>) {
    seq(|body.voluntaryExits|, k requires 0 <= k < |body.voluntaryExits| => OfVoluntaryExit(body.voluntaryExits[k]))
  }

  ghost function ProcessOperations(c: Config, s: BeaconState, body: BlockBody): (r: Result<BeaconState>)
    requires Shape(c, s)
    ensures r.Ok? ==> Shape(c, r.value) && OperationFrame(s, r.value)
  {
    if s.eth1Data.depositCount < s.eth1DepositIndex then Err(Panicked)
    else if |body.deposits| != Min(c.maxDeposits, s.eth1Data.depositCount - s.eth1DepositIndex) then
      Err(TooManyDeposits)
    else if |body.proposerSlashings| > c.maxProposerSlashings then Err(TooManyProposerSlashings)
    else
      var s1 :- ApplyAll(c, s, ProposerSlashings(body));
      if |body.attesterSlashings| > c.maxAttesterSlashings then Err(TooManyAttesterSlashings)
      else
        var s2 :- ApplyAll(c, s1, AttesterSlashings(body));
        if |body.attestations| > c.maxAttestations then Err(TooManyAttestations)
        else
          var s3 :- ApplyAll(c, s2, Attestations(body));
          if |body.deposits| > c.maxDeposits then Err(TooManyDeposits)
          else
            var s4 :- ApplyAll(c, s3, Deposits(body));
            if |body.voluntaryExits| > c.maxVoluntaryExits then Err(TooManyVoluntaryExits)
            else ApplyAll(c, s4, VoluntaryExits(body))
  }

  ghost function ProcessBlock(c: Config, s: BeaconState, block: UnsealedBlock, signature: Option<Signature>)
    : (r: Result<BeaconState>)
    requires Shape(c, s)
    ensures r.Ok? ==> Shape(c, r.value)
  {
    var s1 :- ProcessHeader(c, s, block, signature);
    var s2 :- ProcessRandao(c, s1, block.body);
    ProcessOperations(c, ProcessEth1Data(c, s2, block.body), block.body)
  }
}
