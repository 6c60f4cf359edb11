/**
 A small chain on which examples are worked out: the minimal preset with every root zero and every
 signature accepted, started by depositors at the maximal balance. Its hash makes the shuffle a single
 reflection, around the slot for proposers and around zero for committees.
 */
module SmallChain {
  import opened Bytes
  import opened BeaconTypes
  import opened Accessors
  import opened BlockProcessing
  import opened Transition
  import opened Arith
  import Merkle
  import Shuffle

  function SmallHash(b: seq<Byte>): Hash {
    if |b| == 40 then [b[32]] + Zeros(31)
    else if |b| == 33 then [b[0]] + Zeros(31)
    else if |b| == 37 && b[32] == 0 then Ones()
    else Zeros(32)
  }

  function SmallCrypto(): Crypto {
    Crypto(
      SmallHash, (_, _) => Zeros(32), _ => Zeros(32), _ => Zeros(32), _ => Zeros(32), _ => Zeros(32), _ => Zeros(32),
      (_, _) => Zeros(32), _ => Zeros(32), (_, _, _) => Zeros(32), (_, _) => Zeros(32), (_, _) => Zeros(32),
      (_, _, _, _) => true, (_, _, _, _) => true, _ => [])
  }

  function Small(): (c: Config)
    ensures ValidConfig(c)
  {
    MinimalConfig(SmallCrypto())
  }

  // Genesis

  function FullDeposit(pubkey: Pubkey): Deposit {
    Deposit(seq<Hash>(33, _ => Zeros(32)), DepositData(pubkey, Zeros(32), 32000000000, []))
  }

  lemma {:induction false} SmallBranch(leaf: Hash, proof: seq<Hash>, index: nat)
    requires leaf == Zeros(32)
    ensures Merkle.BranchRoot(Small(), leaf, proof, index) == Zeros(32)
    decreases |proof|
  {
    if proof != [] {
      SmallBranch(Zeros(32), proof[1..], index / 2);
    }
  }

  lemma SmallDeposit(s: BeaconState, pubkey: Pubkey)
    requires Shape(Small(), s) && s.eth1Data.depositRoot == Zeros(32)
    ensures var d := FullDeposit(pubkey);
      ProcessDeposit(Small(), s, d) == Ok(Credit(Small(), s.(eth1DepositIndex := s.eth1DepositIndex + 1), d.data))
  {
    hide Credit, SmallHash;
    SmallBranch(Zeros(32), FullDeposit(pubkey).proof, s.eth1DepositIndex);
  }

  predicate DistinctKeys(keys: seq<Pubkey>) {
    forall i, j :: 0 <= i < j < |keys| ==> keys[i] != keys[j]
  }

  function FullDeposits(keys: seq<Pubkey>): seq<Deposit> {
    seq(|keys|, i requires 0 <= i < |keys| => FullDeposit(keys[i]))
  }

  function FullValidator(pubkey: Pubkey): Validator {
    Validator(pubkey, Zeros(32), 32000000000, false,
              FAR_FUTURE_EPOCH, FAR_FUTURE_EPOCH, FAR_FUTURE_EPOCH, FAR_FUTURE_EPOCH)
  }

  /** What is announced on the deposit chain. */
  function Announced(count: nat): Eth1Data {
    Eth1Data(Zeros(32), count, Zeros(32))
  }

  lemma NewKeyIsCredited(s: BeaconState, pubkey: Pubkey)
    requires Shape(Small(), s) && (forall i :: 0 <= i < |s.validators| ==> s.validators[i].pubkey != pubkey)
    ensures Credit(Small(), s, FullDeposit(pubkey).data).validators == s.validators + [FullValidator(pubkey)]
  {
    hide Position, SmallHash, Domain, Mod;
    DivModUnique(32000000000, 1000000000, 32, 0);
  }

  lemma {:induction false} SmallDeposits(keys: seq<Pubkey>, count: nat)
    requires DistinctKeys(keys)
    ensures var blank := BlankState(Small(), 0, Announced(count));
      var r := ApplyDeposits(Small(), blank, FullDeposits(keys));
      && r.Ok? && r.value == blank.(
        validators := r.value.validators, balances := r.value.balances, eth1DepositIndex := |keys|)
      && |r.value.validators| == |keys|
      && forall i :: 0 <= i < |keys| ==> r.value.validators[i] == FullValidator(keys[i])
    decreases |keys|
  {
    hide BlankState, ProcessDeposit, Credit;
    if keys != [] {
      var n := |keys| - 1;
      SmallDeposits(keys[..n], count);
      assert FullDeposits(keys)[..n] == FullDeposits(keys[..n]);
      var before := ApplyDeposits(Small(), BlankState(Small(), 0, Announced(count)), FullDeposits(keys[..n])).value;
      AnnouncedRoot(count);
      SmallDeposit(before, keys[n]);
      NewKeyIsCredited(before.(eth1DepositIndex := n + 1), keys[n]);
    } else {
      BlankIsEmpty(count);
    }
  }

  lemma AnnouncedRoot(count: nat)
    ensures BlankState(Small(), 0, Announced(count)).eth1Data == Announced(count)
  {
  }

  lemma BlankIsEmpty(count: nat)
    ensures var s := BlankState(Small(), 0, Announced(count)); s.validators == [] && s.eth1DepositIndex == 0
  {
  }

  /** Everyone is active at the maximal balance, and nobody is slashed. */
  predicate AllFull(vs: seq<Validator>) {
    forall i :: 0 <= i < |vs| ==>
      && vs[i].IsActive(0) && !vs[i].slashed && vs[i].exitEpoch == FAR_FUTURE_EPOCH
      && vs[i].effectiveBalance == 32000000000 && vs[i].withdrawableEpoch == FAR_FUTURE_EPOCH
  }

  /** `|keys|` of `count` announced deposits start the chain. */
  lemma SmallGenesis(keys: seq<Pubkey>, count: nat) returns (s: BeaconState)
    requires DistinctKeys(keys)
    ensures GenesisState(Small(), FullDeposits(keys), 0, Announced(count)) == Ok(s) && IsGenesis(Small(), s)
    ensures Shape(Small(), s) && s.slot == 0 && s.eth1DataVotes == [] && s.eth1Data == Announced(count)
    ensures s.eth1DepositIndex == |keys| == |s.validators| && AllFull(s.validators)
    ensures s.previousEpochAttestations == s.currentEpochAttestations == []
    ensures s.currentJustifiedCheckpoint == Checkpoint(0, ZERO_HASH)
  {
    hide ApplyDeposits, SmallHash;
    SmallDeposits(keys, count);
    s := GenesisState(Small(), FullDeposits(keys), 0, Announced(count)).value;
  }

  lemma SlotIsInEpochZero(slot: Slot)
    requires slot < 8
    ensures EpochOf(Small(), slot) == 0 && Mod(slot, 8) == slot
  {
    DivModUnique(slot, 8, 0, slot);
  }

  lemma SomeProposer(s: BeaconState)
    requires Shape(Small(), s) && s.slot < 8 && 0 < |s.validators| <= Shuffle.MAX_SHUFFLE_COUNT && AllFull(s.validators)
    ensures CurrentEpoch(Small(), s) == 0
    ensures ProposerIndex(Small(), s).Ok?
  {
    hide Accepts, Candidate, ProposerSeed, SmallHash;
    SlotIsInEpochZero(s.slot);
    FullBalanceEndsSearch(Small(), s, 0);
    ActiveIndicesAre(s.validators, 0);
  }
}
