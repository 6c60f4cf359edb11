/**
 A run in which a validator's inclusion reward is computed from an attestation that does not contain
 it: the proposer who included the validator is paid nothing, and another is.
 */
module Inclusions {
  import opened Bytes
  import opened BeaconTypes
  import opened Accessors
  import opened EpochProcessing
  import opened Payouts
  import opened BlockProcessing
  import opened Transition
  import opened Lifecycle
  import opened Invariants
  import opened Committees
  import opened EpochTotality
  import opened SlashingHistory
  import opened SmallChain
  import opened Arith
  import Shuffle
  import Sorting

  // The shuffle of the small chain

  lemma {:induction false} OddShifts(k: nat)
    requires k < 8
    ensures Div(255, Pow2(k)) % 2 != 0
  {
    hide Pow2, Div, Mod;
    SmallPowers();
    DivModAreOperators(255, Pow2(k));
  }

  lemma SmallPowers()
    ensures Pow2(0) == 1 && Pow2(1) == 2 && Pow2(2) == 4 && Pow2(3) == 8
    ensures Pow2(4) == 16 && Pow2(5) == 32 && Pow2(6) == 64 && Pow2(7) == 128
  {
    assert Pow2(4) == 4 * Pow2(2) && Pow2(6) == 4 * Pow2(4);
  }

  lemma FirstRoundSwaps(seed: Hash, position: nat)
    ensures Shuffle.SwapBit(Small(), seed, 0, position)
  {
    hide Div, Pow2, LittleEndian;
    OneByte(0);
    OddShifts(position % 8);
  }

  lemma OneByte(n: nat)
    requires n < 256
    ensures LittleEndian(n, 1) == [n]
  {
    assert LittleEndian(n / 256, 0) == [];
  }

  lemma LaterRoundsKeep(seed: Hash, round: nat, position: nat)
    requires 0 < round < 256
    ensures !Shuffle.SwapBit(Small(), seed, round, position)
  {
    hide Pow2, LittleEndian;
    OneByte(round);
    DivModUnique(0, Pow2(position % 8), 0, 0);
  }

  lemma {:induction false} OneReflection(seed: Hash, n: nat, k: nat, i: nat)
    requires i < n && 0 < k < 256
    ensures Shuffle.Rounds(Small(), seed, n, k, i) == Shuffle.Flip(n, Shuffle.Pivot(Small(), seed, n, 0), i)
    decreases k
  {
    hide Shuffle.SwapBit, Shuffle.Pivot, Shuffle.Flip, SmallHash;
    if k == 1 {
      assert Shuffle.Rounds(Small(), seed, n, 0, i) == i;
      FirstRoundSwaps(seed, Max(i, Shuffle.Flip(n, Shuffle.Pivot(Small(), seed, n, 0), i)));
    } else {
      OneReflection(seed, n, k - 1, i);
      var j := Shuffle.Rounds(Small(), seed, n, k - 1, i);
      LaterRoundsKeep(seed, k - 1, Max(j, Shuffle.Flip(n, Shuffle.Pivot(Small(), seed, n, k - 1), j)));
    }
  }

  lemma {:induction false} ZeroBytes(bytes: seq<Byte>)
    requires forall i :: 0 <= i < |bytes| ==> bytes[i] == 0
    ensures FromLittleEndian(bytes) == 0
    decreases |bytes|
  {
    if bytes != [] {
      ZeroBytes(bytes[1..]);
    }
  }

  /** The pivot is the first byte of the seed. */
  lemma PivotIs(seed: Hash, n: nat)
    requires seed[0] < n
    ensures Shuffle.Pivot(Small(), seed, n, 0) == seed[0]
  {
    hide LittleEndian;
    OneByte(0);
    var bytes := SmallHash(seed + LittleEndian(0, 1))[..8];
    assert bytes[0] == seed[0];
    ZeroBytes(bytes[1..]);
    assert FromLittleEndian(bytes) == seed[0];
    DivModUnique(seed[0], n, 0, seed[0]);
  }

  // Eight validators

  function Everyone(n: nat): (r: seq<ValidatorIndex>)
    ensures |r| == n
    ensures forall i :: 0 <= i < n ==> r[i] == i
  {
    seq(n, i => i)
  }

  lemma {:induction false} AllActive(vs: seq<Validator>, epoch: Epoch)
    requires forall i :: 0 <= i < |vs| ==> vs[i].IsActive(epoch)
    ensures ActiveIndices(vs, epoch) == Everyone(|vs|)
    decreases |vs|
  {
    if vs != [] {
      AllActive(vs[..|vs| - 1], epoch);
      assert Everyone(|vs|) == Everyone(|vs| - 1) + [|vs| - 1];
    }
  }

  /** The member of the committee of `slot`. */
  function Sitting(slot: Slot): ValidatorIndex
    requires slot < 8
  {
    if slot == 0 then 0 else 8 - slot
  }

  lemma SmallSlice(slot: Slot)
    requires slot < 8
    ensures Shuffle.SliceStart(8, slot, 8) == slot && Shuffle.SliceStart(8, slot + 1, 8) == slot + 1
  {
    MulIsProduct(8, slot);
    MulIsProduct(8, slot + 1);
    DivModUnique(8 * slot, 8, slot, 0);
    DivModUnique(8 * (slot + 1), 8, slot + 1, 0);
  }

  lemma OneCommittee()
    ensures CommitteeCount(Small(), 8) == 1
  {
    DivModUnique(8, 8, 1, 0);
    DivModUnique(1, 4, 0, 1);
  }

  lemma SmallCommitteeFrom(seed: Hash, slot: Slot)
    requires seed == Zeros(32) && slot < 8
    ensures CommitteeFrom(Small(), Everyone(8), seed, slot, 0) == Ok([Sitting(slot)])
  {
    hide SmallHash, Shuffle.Rounds, Shuffle.SliceStart, Shuffle.Pivot, CommitteeCount, Div;
    OneCommittee();
    SlotIsInEpochZero(slot);
    MulIsProduct(slot, 1);
    MulIsProduct(1, 8);
    SmallSlice(slot);
    PivotIs(seed, 8);
    OneReflection(seed, 8, 10, slot);
    if slot == 0 {
      DivModUnique(8, 8, 1, 0);
    } else {
      DivModUnique(8 - slot, 8, 0, 8 - slot);
    }
    assert Shuffle.ShuffledSlice(Small(), Everyone(8), seed, slot, slot + 1) == [Sitting(slot)];
  }

  /** Eight validators were active in epoch zero. */
  predicate Eight(s: BeaconState) {
    Shape(Small(), s) && |s.validators| == 8 && ActiveIndices(s.validators, 0) == Everyone(8)
  }

  lemma SmallCommittee(s: BeaconState, slot: Slot)
    requires Eight(s) && slot < 8
    ensures BeaconCommittee(Small(), s, slot, 0) == Ok([Sitting(slot)])
    ensures CommitteeCountAtSlot(Small(), s, slot) == 1
  {
    hide CommitteeFrom, ActiveIndices, CommitteeCount, LittleEndian;
    SlotIsInEpochZero(slot);
    OneCommittee();
    SmallCommitteeFrom(Seed(Small(), s, 0, DOMAIN_BEACON_ATTESTER), slot);
  }

  lemma SmallProposerSeed(s: BeaconState)
    requires Shape(Small(), s) && s.slot < 8
    ensures ProposerSeed(Small(), s)[0] == s.slot
    ensures RandomByte(Small(), ProposerSeed(Small(), s), 0) == 0
  {
    hide Seed;
    assert LittleEndian(s.slot, 8)[0] == s.slot;
    assert LittleEndian(0, 8)[0] == 0;
  }

  /** The proposer of slot `q` is validator `q`. */
  lemma SmallProposer(s: BeaconState)
    requires Eight(s) && s.slot < 8
    ensures ProposerIndex(Small(), s) == Ok(s.slot)
  {
    hide ProposerSeed, RandomByte, ActiveIndices, ProposerIndex, SmallHash, Shuffle.Rounds, Shuffle.Pivot;
    var seed := ProposerSeed(Small(), s);
    SlotIsInEpochZero(s.slot);
    SmallProposerSeed(s);
    DivModUnique(0, 8, 0, 0);
    PivotIs(seed, 8);
    OneReflection(seed, 8, 10, 0);
    DivModUnique(s.slot + 8, 8, 1, s.slot);
    assert Candidate(Small(), Everyone(8), seed, 0) == s.slot;
    MulIsProduct(32000000000, 0);
    assert FirstAccepted(Small(), s, 0);
    ProposerIs(Small(), s, 0);
  }

  // The votes

  function VoteData(slot: Slot): AttestationData {
    AttestationData(slot, 0, ZERO_HASH, Checkpoint(0, ZERO_HASH), Checkpoint(0, ZERO_HASH))
  }

  /** The vote of the committee of `slot`. */
  function Vote(slot: Slot): Attestation {
    Attestation([true], VoteData(slot), [false], [])
  }

  function Stored(slot: Slot, delay: nat, proposer: ValidatorIndex): PendingAttestation {
    PendingAttestation([true], VoteData(slot), delay, proposer)
  }

  lemma SoleAttester(s: BeaconState, slot: Slot)
    requires Eight(s) && slot < 8
    ensures AttestingIndices(Small(), s, VoteData(slot), [true]) == Ok([Sitting(slot)])
    ensures AttestingIndices(Small(), s, VoteData(slot), [false]) == Ok([])
  {
    hide BeaconCommittee, Sitting;
    SmallCommittee(s, slot);
    var committee := [Sitting(slot)];
    assert committee[..0] == [] && [true][..0] == [] && [false][..0] == [];
    assert PickBits(committee, [true]) == committee;
    assert PickBits(committee, [false]) == [];
    assert committee[1..] == [];
    assert Sorting.Sort(committee[1..]) == [];
    assert Sorting.Sort(committee) == committee;
  }

  lemma VoteIsValid(s: BeaconState, slot: Slot)
    requires Eight(s) && slot < 8 && s.slot < 8 && s.currentJustifiedCheckpoint == Checkpoint(0, ZERO_HASH)
    ensures CheckAttestationVote(Small(), s, Vote(slot)) == Ok(())
  {
    hide AttestingIndices, ActiveIndices, Domain, SmallHash;
    SoleAttester(s, slot);
    assert WithoutMembers([Sitting(slot)], []) == [Sitting(slot)];
  }

  /** The vote is accepted and stored with the proposer of the slot. */
  lemma VoteIsStored(s: BeaconState, slot: Slot)
    requires Eight(s) && slot < s.slot < 8 && s.currentJustifiedCheckpoint == Checkpoint(0, ZERO_HASH)
    ensures ApplyOperation(Small(), s, OfAttestation(Vote(slot)))
         == Ok(s.(currentEpochAttestations := s.currentEpochAttestations + [Stored(slot, s.slot - slot, s.slot)]))
  {
    hide CheckAttestationVote, ProposerIndex, CommitteeCountAtSlot, ActiveIndices, SmallHash;
    SlotIsInEpochZero(s.slot);
    SmallCommittee(s, slot);
    SmallProposer(s);
    VoteIsValid(s, slot);
  }

  // The run

  predicate Early(s: BeaconState, atts: seq<PendingAttestation>) {
    && Shape(Small(), s) && |s.validators| == 8 && AllFull(s.validators) && s.slot < 8
    && s.currentJustifiedCheckpoint == Checkpoint(0, ZERO_HASH) && s.currentEpochAttestations == atts
  }

  lemma EarlyIsEight(s: BeaconState, atts: seq<PendingAttestation>)
    requires Early(s, atts)
    ensures Eight(s)
  {
    AllActive(s.validators, 0);
  }

  lemma RunExtends(t: seq<BeaconState>, a: Action)
    requires Run(Small(), t) && Shape(Small(), t[|t| - 1]) && Act(Small(), t[|t| - 1], a).Ok?
    ensures Run(Small(), t + [Act(Small(), t[|t| - 1], a).value])
  {
    hide Act, IsGenesis, SmallHash;
    var s := Act(Small(), t[|t| - 1], a).value;
    ActIsStep(Small(), t[|t| - 1], a);
    PathExtend(Small(), t, s);
    assert (t + [s])[0] == t[0];
  }

  /** Before the last slot of the epoch a slot changes only roots. */
  lemma AdvanceInside(c: Config, s: BeaconState)
    requires Shape(c, s) && Mod(s.slot + 1, c.slotsPerEpoch) != 0
    ensures AdvanceSlot(c, s).Ok?
    ensures var s' := AdvanceSlot(c, s).value; s' == s.(
      slot := s.slot + 1, stateRoots := s'.stateRoots, blockRoots := s'.blockRoots,
      latestBlockHeader := s'.latestBlockHeader)
  {
    hide ProcessEpoch, Mod, RecordedRoot, FilledHeader;
  }

  lemma {:induction false} IdleEarly(t: seq<BeaconState>, slot: Slot, atts: seq<PendingAttestation>)
    returns (u: seq<BeaconState>)
    requires Run(Small(), t) && Early(t[|t| - 1], atts) && t[|t| - 1].slot <= slot < 8
    ensures Run(Small(), u) && Early(u[|u| - 1], atts) && u[|u| - 1].slot == slot
    decreases slot - t[|t| - 1].slot
  {
    hide Step, IsGenesis, SmallHash, AdvanceSlot, AllFull;
    var s := t[|t| - 1];
    if s.slot == slot {
      u := t;
    } else {
      SlotIsInEpochZero(s.slot + 1);
      AdvanceInside(Small(), s);
      RunExtends(t, Advance);
      u := IdleEarly(t + [AdvanceSlot(Small(), s).value], slot, atts);
    }
  }

  lemma VoteEarly(t: seq<BeaconState>, slot: Slot, atts: seq<PendingAttestation>) returns (u: seq<BeaconState>)
    requires Run(Small(), t) && Early(t[|t| - 1], atts) && slot < t[|t| - 1].slot
    ensures var q := t[|t| - 1].slot;
      Run(Small(), u) && u[|u| - 1].slot == q && Early(u[|u| - 1], atts + [Stored(slot, q - slot, q)])
  {
    hide Step, IsGenesis, SmallHash, ApplyOperation, AllFull, Eight;
    var s := t[|t| - 1];
    EarlyIsEight(s, atts);
    VoteIsStored(s, slot);
    RunExtends(t, Operate(OfAttestation(Vote(slot))));
    u := t + [ApplyOperation(Small(), s, OfAttestation(Vote(slot))).value];
  }

  /** The vote of slot one, included next, and the vote of slot zero, included three slots later. */
  function Votes(): seq<PendingAttestation> {
    [Stored(1, 1, 2), Stored(0, 3, 3)]
  }

  lemma TwoVotes(keys: seq<Pubkey>) returns (t: seq<BeaconState>)
    requires |keys| == 8 && DistinctKeys(keys)
    ensures Run(Small(), t) && Early(t[|t| - 1], Votes()) && t[|t| - 1].slot == 7
  {
    hide IsGenesis, SmallHash, AllFull, GenesisState;
    var s := SmallGenesis(keys, 8);
    t := [s];
    t := IdleEarly(t, 2, []);
    t := VoteEarly(t, 1, []);
    t := IdleEarly(t, 3, [] + [Stored(1, 1, 2)]);
    t := VoteEarly(t, 0, [] + [Stored(1, 1, 2)]);
    assert [] + [Stored(1, 1, 2)] + [Stored(0, 3, 3)] == Votes();
    t := IdleEarly(t, 7, Votes());
  }

  /** The epoch after the votes. */
  predicate Late(s: BeaconState) {
    && Eight(s) && 8 <= s.slot < 16 && s.previousEpochAttestations == Votes() && s.currentEpochAttestations == []
    && forall i :: 0 <= i < 8 ==> !s.validators[i].slashed
  }

  lemma SmallBounded(t: seq<BeaconState>)
    requires Run(Small(), t) && t[|t| - 1].slot < 16 && |t[|t| - 1].validators| == 8
    ensures BoundedRun(Small(), t)
  {
    hide Step, IsGenesis, SmallHash;
    DivMonotone(t[|t| - 1].slot, 16, 8);
    DivModUnique(16, 8, 2, 0);
  }

  lemma NextEpoch(s: BeaconState)
    requires StateInv(Small(), s) && Early(s, Votes()) && s.slot == 7
    ensures AdvanceSlot(Small(), s).Ok? && Late(AdvanceSlot(Small(), s).value)
  {
    hide SmallHash, ProcessEpoch, PendingInv, FinalityInv;
    DivModUnique(8, 8, 1, 0);
    DivModUnique(7, 8, 0, 7);
    Rotates(s);
    AdvanceEffect(Small(), s);
    AdvanceRing(Small(), s);
    EarlyIsEight(s, Votes());
    EffectKeepsCommittees(Small(), s, AdvanceSlot(Small(), s).value, 0);
  }

  /** Entering an epoch makes the current attestations the previous ones. */
  lemma Rotates(s: BeaconState)
    requires StateInv(Small(), s) && Mod(s.slot + 1, 8) == 0
    ensures AdvanceSlot(Small(), s).Ok?
    ensures var s' := AdvanceSlot(Small(), s).value;
      s'.previousEpochAttestations == s.currentEpochAttestations && s'.currentEpochAttestations == []
  {
    hide SmallHash, ProcessEpoch, PendingInv, FinalityInv;
    SlotKeepsPending(Small(), s);
    EpochRotates(Small(), ProcessSlot(Small(), s));
  }

  lemma {:induction false} IdleLate(t: seq<BeaconState>) returns (u: seq<BeaconState>)
    requires Run(Small(), t) && Late(t[|t| - 1])
    ensures Run(Small(), u) && Late(u[|u| - 1]) && u[|u| - 1].slot == 15
    decreases 16 - t[|t| - 1].slot
  {
    hide Step, IsGenesis, SmallHash, AdvanceSlot, ActiveIndices;
    var s := t[|t| - 1];
    if s.slot == 15 {
      u := t;
    } else {
      DivModUnique(s.slot + 1, 8, 1, s.slot + 1 - 8);
      AdvanceInside(Small(), s);
      RunExtends(t, Advance);
      u := IdleLate(t + [AdvanceSlot(Small(), s).value]);
    }
  }

  lemma RewardState(keys: seq<Pubkey>) returns (t: seq<BeaconState>)
    requires |keys| == 8 && DistinctKeys(keys)
    ensures BoundedRun(Small(), t) && Late(t[|t| - 1]) && t[|t| - 1].slot == 15
  {
    hide Step, IsGenesis, SmallHash, AdvanceSlot, ActiveIndices, StateInv, AllFull, Late;
    t := TwoVotes(keys);
    SmallBounded(t);
    RunKeepsInv(Small(), t, |t| - 1);
    NextEpoch(t[|t| - 1]);
    RunExtends(t, Advance);
    t := IdleLate(t + [AdvanceSlot(Small(), t[|t| - 1]).value]);
    assert |t[|t| - 1].validators| == 8 by { LateIsEight(t[|t| - 1]); }
    SmallBounded(t);
  }

  lemma LateIsEight(s: BeaconState)
    requires Late(s)
    ensures Eight(s)
  {
  }

  // What is paid

  lemma WhoAttests(s: BeaconState, v: ValidatorIndex)
    requires Eight(s)
    ensures Attests(Small(), s, Votes()[0], v) <==> v == 7
    ensures Attests(Small(), s, Votes()[1], v) <==> v == 0
  {
    hide AttestingIndices, ActiveIndices;
    SoleAttester(s, 1);
    SoleAttester(s, 0);
  }

  lemma LateInputs(s: BeaconState)
    requires StateInv(Small(), s) && Late(s) && s.slot == 15
    ensures GatherInputs(Small(), s).Ok? && GatherInputs(Small(), s).value.attestations == Votes()
    ensures UnslashedAttesting(Small(), s, Votes()) == Ok(GatherInputs(Small(), s).value.source)
  {
    hide SmallHash, UnslashedAttesting, ActiveIndices, AllSound, BlockRoot, FilterTarget, FilterHead, Votes, Resolves;
    DivModUnique(15, 8, 1, 7);
    DivModUnique(16, 8, 2, 0);
    InputsOk(Small(), s);
  }

  lemma IsAttester(s: BeaconState)
    requires Late(s) && UnslashedAttesting(Small(), s, Votes()).Ok?
    ensures 0 in UnslashedAttesting(Small(), s, Votes()).value
  {
    hide SmallHash, UnslashedAttesting, ActiveIndices, Attests;
    UnslashedAttestingAre(Small(), s, Votes(), 0);
    WhoAttests(s, 0);
    assert Attests(Small(), s, Votes()[1], 0);
  }

  lemma FirstIsKept(s: BeaconState, x: RewardInputs, v: ValidatorIndex)
    requires Shape(Small(), s) && x.attestations == Votes()
    ensures Inclusion(Small(), s, x, v) == Votes()[0]
  {
    hide Attests;
    assert EarliestFrom(Small(), s, Votes()[0], Votes(), v).inclusionDelay <= 1;
  }

  lemma SecondIsUnpaid(s: BeaconState, x: RewardInputs)
    requires Shape(Small(), s) && x.attestations == Votes() && InRange(x.source, |s.validators|)
    ensures ProposerReward(Small(), s, x, x.source, Votes()[1].proposerIndex) == 0
  {
    hide Inclusion, SmallHash;
    forall k | 0 <= k < |x.source|
      ensures Inclusion(Small(), s, x, x.source[k]).proposerIndex != 3
    {
      FirstIsKept(s, x, x.source[k]);
    }
    UnpaidProposer(Small(), s, x, x.source, 3);
  }

  /** At the end of the epoch after the votes, validator 0 is paid as if it had been included by the
      proposer of slot 2 at once, and the proposer of slot 3, who included it, earns nothing. */
  lemma OtherProposerIsPaid(keys: seq<Pubkey>) returns (t: seq<BeaconState>, x: RewardInputs)
    requires |keys| == 8 && DistinctKeys(keys)
    ensures BoundedRun(Small(), t) && Shape(Small(), t[|t| - 1]) && AtEpochEnd(Small(), t[|t| - 1])
    ensures GatherInputs(Small(), t[|t| - 1]) == Ok(x) && x.attestations == Votes() && 0 in x.source
    ensures !Attests(Small(), t[|t| - 1], Votes()[0], 0) && Attests(Small(), t[|t| - 1], Votes()[1], 0)
    ensures Inclusion(Small(), t[|t| - 1], x, 0) == Votes()[0]
    ensures Votes()[0].inclusionDelay < Votes()[1].inclusionDelay
    ensures ProposerReward(Small(), t[|t| - 1], x, x.source, Votes()[1].proposerIndex) == 0
  {
    hide Step, IsGenesis, SmallHash, Attests, Inclusion, GatherInputs, StateInv, ActiveIndices, ProposerReward;
    t := RewardState(keys);
    var s := t[|t| - 1];
    DivModUnique(16, 8, 2, 0);
    RunKeepsInv(Small(), t, |t| - 1);
    LateInputs(s);
    IsAttester(s);
    x := GatherInputs(Small(), s).value;
    WhoAttests(s, 0);
    FirstIsKept(s, x, 0);
    SecondIsUnpaid(s, x);
  }
}
