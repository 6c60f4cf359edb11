/**
 The records of the beacon chain: checkpoints, validators, attestations, operations, blocks,
 the configuration and the state. Epochs, slots, indices and balances are natural numbers.
 Hashing, tree roots and signature checks are function-valued fields of the configuration,
 so every result holds for every choice of them.
 */
module BeaconTypes {
  import opened Bytes

  type Pubkey = seq<Byte>
  type Signature = seq<Byte>
  type Epoch = nat
  type Slot = nat
  type Gwei = nat
  type ValidatorIndex = nat

  const FAR_FUTURE_EPOCH: nat := 0xFFFF_FFFF_FFFF_FFFF
  const BASE_REWARDS_PER_EPOCH: nat := 4
  const DEPOSIT_CONTRACT_TREE_DEPTH: nat := 32
  const GENESIS_EPOCH: nat := 0

  const DOMAIN_BEACON_PROPOSER: nat := 0
  const DOMAIN_BEACON_ATTESTER: nat := 1
  const DOMAIN_RANDAO: nat := 2
  const DOMAIN_DEPOSIT: nat := 3
  const DOMAIN_VOLUNTARY_EXIT: nat := 4

  datatype Option<+T> = None | Some(value: T)

  /** `Panicked` stands for a Rust panic (index out of range, subtraction below zero), and
      `Diverges` for a proposer search that finds no candidate. */
  datatype Error =
    | Panicked
    | Diverges
    | IndexOutOfRange
    | EpochOutOfRange
    | SlotOutOfRange
    | DepositMerkleInvalid
    | AttestationBitFieldInvalid
    | BlockStateRootInvalid
    | BlockSlotInvalid
    | BlockProposerSlashed
    | BlockPreviousRootInvalid
    | BlockSignatureInvalid
    | RandaoSignatureInvalid
    | ProposerSlashingInvalidProposerIndex
    | ProposerSlashingInvalidSlot
    | ProposerSlashingSameHeader
    | ProposerSlashingAlreadySlashed
    | ProposerSlashingInvalidSignature
    | AttesterSlashingNotSlashable
    | AttesterSlashingEmptyIndices
    | AttestationSubmittedTooQuickly
    | AttestationIncorrectJustifiedEpochOrBlockRoot
    | AttestationIncorrectCrosslinkData
    | AttestationInvalidData
    | AttestationInvalidSignature
    | VoluntaryExitAlreadyExited
    | VoluntaryExitAlreadyInitiated
    | VoluntaryExitNotYetValid
    | VoluntaryExitNotLongEnough
    | VoluntaryExitInvalidSignature
    | TooManyProposerSlashings
    | TooManyAttesterSlashings
    | TooManyAttestations
    | TooManyDeposits
    | TooManyVoluntaryExits
    | InvalidEth1Data

  datatype Result<+T> = Ok(value: T) | Err(error: Error) {
    predicate IsFailure() { Err? }

    function PropagateFailure<U>(): Result<U>
      requires Err?
    {
      Err(error)
    }

    function Extract(): T
      requires Ok?
    {
      value
    }
  }

  datatype Fork = Fork(previousVersion: seq<Byte>, currentVersion: seq<Byte>, epoch: Epoch)

  datatype Checkpoint = Checkpoint(epoch: Epoch, root: Hash)

  datatype Validator = Validator(
    pubkey: Pubkey,
    withdrawalCredentials: Hash,
    effectiveBalance: Gwei,
    slashed: bool,
    activationEligibilityEpoch: Epoch,
    activationEpoch: Epoch,
    exitEpoch: Epoch,
    withdrawableEpoch: Epoch)
  {
    predicate IsActive(epoch: Epoch) {
      activationEpoch <= epoch < exitEpoch
    }

    predicate IsSlashable(epoch: Epoch) {
      !slashed && activationEpoch <= epoch < withdrawableEpoch
    }

    predicate IsEligible(checkpointEpoch: Epoch) {
      IsActive(checkpointEpoch) || (slashed && checkpointEpoch + 1 < withdrawableEpoch)
    }
  }

  datatype AttestationData = AttestationData(
    slot: Slot,
    index: nat,
    beaconBlockRoot: Hash,
    source: Checkpoint,
    target: Checkpoint)
  {
    predicate IsSlashable(other: AttestationData) {
      || (this != other && target.epoch == other.target.epoch)
      || (source.epoch < other.source.epoch && other.target.epoch < target.epoch)
    }
  }

  datatype IndexedAttestation = IndexedAttestation(
    custodyBit0Indices: seq<ValidatorIndex>,
    custodyBit1Indices: seq<ValidatorIndex>,
    data: AttestationData,
    signature: Signature)

  datatype PendingAttestation = PendingAttestation(
    aggregationBits: seq<bool>,
    data: AttestationData,
    inclusionDelay: nat,
    proposerIndex: ValidatorIndex)

  datatype Eth1Data = Eth1Data(depositRoot: Hash, depositCount: nat, blockHash: Hash)

  datatype BlockHeader = BlockHeader(
    slot: Slot, parentRoot: Hash, stateRoot: Hash, bodyRoot: Hash, signature: Signature)

  datatype SigningHeader = SigningHeader(slot: Slot, parentRoot: Hash, stateRoot: Hash, bodyRoot: Hash)

  function Signing(header: BlockHeader): SigningHeader {
    SigningHeader(header.slot, header.parentRoot, header.stateRoot, header.bodyRoot)
  }

  datatype ProposerSlashing = ProposerSlashing(
    proposerIndex: ValidatorIndex, header1: BlockHeader, header2: BlockHeader)

  datatype AttesterSlashing = AttesterSlashing(
    attestation1: IndexedAttestation, attestation2: IndexedAttestation)

  datatype Attestation = Attestation(
    aggregationBits: seq<bool>, data: AttestationData, custodyBits: seq<bool>, signature: Signature)

  datatype DepositData = DepositData(
    pubkey: Pubkey, withdrawalCredentials: Hash, amount: Gwei, signature: Signature)

  datatype Deposit = Deposit(proof: seq<Hash>, data: DepositData)

  datatype VoluntaryExit = VoluntaryExit(
    epoch: Epoch, validatorIndex: ValidatorIndex, signature: Signature)

  datatype BlockBody = BlockBody(
    randaoReveal: Signature,
    eth1Data: Eth1Data,
    graffiti: Hash,
    proposerSlashings: seq<ProposerSlashing>,
    attesterSlashings: seq<AttesterSlashing>,
    attestations: seq<Attestation>,
    deposits: seq<Deposit>,
    voluntaryExits: seq<VoluntaryExit>)

  datatype UnsealedBlock = UnsealedBlock(slot: Slot, parentRoot: Hash, stateRoot: Hash, body: BlockBody)

  datatype Block = Block(unsealed: UnsealedBlock, signature: Signature)

  datatype BeaconState = BeaconState(
    genesisTime: nat,
    slot: Slot,
    fork: Fork,
    latestBlockHeader: BlockHeader,
    blockRoots: seq<Hash>,
    stateRoots: seq<Hash>,
    historicalRoots: seq<Hash>,
    eth1Data: Eth1Data,
    eth1DataVotes: seq<Eth1Data>,
    eth1DepositIndex: nat,
    validators: seq<Validator>,
    balances: seq<Gwei>,
    randaoMixes: seq<Hash>,
    slashings: seq<Gwei>,
    previousEpochAttestations: seq<PendingAttestation>,
    currentEpochAttestations: seq<PendingAttestation>,
    justificationBits: seq<bool>,
    previousJustifiedCheckpoint: Checkpoint,
    currentJustifiedCheckpoint: Checkpoint,
    finalizedCheckpoint: Checkpoint)

  /** Foreign code: the digest, tree roots, the bytewise exclusive or of two hashes and BLS. */
  datatype Crypto = Crypto(
    hash: seq<Byte> -> Hash,
    xor: (Hash, Hash) -> Hash,
    stateRoot: BeaconState -> Hash,
    headerRoot: SigningHeader -> Hash,
    bodyRoot: BlockBody -> Hash,
    blockRoot: UnsealedBlock -> Hash,
    epochRoot: Epoch -> Hash,
    batchRoot: (seq<Hash>, seq<Hash>) -> Hash,
    depositDataRoot: DepositData -> Hash,
    signingDepositRoot: (Pubkey, Hash, Gwei) -> Hash,
    attestationRoot: (AttestationData, bool) -> Hash,
    exitRoot: (Epoch, ValidatorIndex) -> Hash,
    verify: (Pubkey, Hash, Signature, nat) -> bool,
    verifyMultiple: (seq<Pubkey>, seq<Hash>, Signature, nat) -> bool,
    aggregatePubkeys: seq<Pubkey> -> Pubkey)

  datatype Config = Config(
    crypto: Crypto,
    slotsPerEpoch: nat,
    slotsPerHistoricalRoot: nat,
    epochsPerHistoricalVector: nat,
    epochsPerSlashingsVector: nat,
    slotsPerEth1VotingPeriod: nat,
    maxCommitteesPerSlot: nat,
    targetCommitteeSize: nat,
    maxValidatorsPerCommittee: nat,
    minPerEpochChurnLimit: nat,
    churnLimitQuotient: nat,
    shuffleRoundCount: nat,
    maxEffectiveBalance: Gwei,
    ejectionBalance: Gwei,
    effectiveBalanceIncrement: Gwei,
    minAttestationInclusionDelay: nat,
    minSeedLookahead: nat,
    maxSeedLookahead: nat,
    minValidatorWithdrawabilityDelay: nat,
    persistentCommitteePeriod: nat,
    minEpochsToInactivityPenalty: nat,
    baseRewardFactor: nat,
    whistleblowerRewardQuotient: nat,
    proposerRewardQuotient: nat,
    inactivityPenaltyQuotient: nat,
    minSlashingPenaltyQuotient: nat,
    maxProposerSlashings: nat,
    maxAttesterSlashings: nat,
    maxAttestations: nat,
    maxDeposits: nat,
    maxVoluntaryExits: nat)

  /** What the transition relies on; `PresetsAreValid` shows that every shipped preset provides it. */
  predicate ValidConfig(c: Config) {
    && c.slotsPerEpoch >= 2
    && c.slotsPerHistoricalRoot >= 3 * c.slotsPerEpoch
    && c.epochsPerHistoricalVector > c.minSeedLookahead + 3
    && 1 <= c.minSeedLookahead <= c.maxSeedLookahead
    && c.epochsPerSlashingsVector >= 1
    && c.targetCommitteeSize >= 1
    && c.minPerEpochChurnLimit >= 1
    && c.churnLimitQuotient >= 1
    && c.effectiveBalanceIncrement >= 1
    && 1 <= c.minAttestationInclusionDelay <= c.slotsPerEpoch
    && c.whistleblowerRewardQuotient >= 1
    && c.proposerRewardQuotient >= 1
    && c.inactivityPenaltyQuotient >= 1
    && c.minSlashingPenaltyQuotient >= 1
    && c.slotsPerEth1VotingPeriod >= 1
  }

  function MinimalConfig(crypto: Crypto): Config {
    Config(crypto, 8, 64, 64, 64, 16, 4, 4, 2048, 4, 65536, 10, 32000000000, 16000000000, 1000000000,
           1, 1, 4, 256, 2048, 4, 64, 512, 8, 33554432, 32, 16, 1, 128, 16, 16)
  }

  function MainnetConfig(crypto: Crypto): Config {
    Config(crypto, 32, 8192, 65536, 8192, 1024, 64, 128, 2048, 4, 65536, 90, 32000000000, 16000000000, 1000000000,
           1, 1, 4, 256, 2048, 4, 64, 512, 8, 33554432, 32, 16, 1, 128, 16, 16)
  }

  function SapphireConfig(crypto: Crypto): Config {
    Config(crypto, 8, 64, 64, 64, 16, 4, 4, 2048, 4, 65536, 10, 3200000000, 3000000000, 1000000000,
           1, 1, 4, 256, 2048, 4, 64, 512, 8, 33554432, 32, 16, 1, 128, 16, 16)
  }

  lemma PresetsAreValid(crypto: Crypto)
    ensures ValidConfig(MinimalConfig(crypto))
    ensures ValidConfig(MainnetConfig(crypto))
    ensures ValidConfig(SapphireConfig(crypto))
  {
  }

  /** The lengths Rust keeps in the types of the fixed-size vectors, and one balance per validator. */
  predicate Shape(c: Config, s: BeaconState) {
    && ValidConfig(c)
    && |s.blockRoots| == c.slotsPerHistoricalRoot
    && |s.stateRoots| == c.slotsPerHistoricalRoot
    && |s.randaoMixes| == c.epochsPerHistoricalVector
    && |s.slashings| == c.epochsPerSlashingsVector
    && |s.balances| == |s.validators|
    && |s.justificationBits| == 4
  }
}
