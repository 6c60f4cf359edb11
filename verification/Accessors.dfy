/** Queries on the beacon state: epochs, root windows, active sets, seeds, committees, balances. */
module Accessors {
  import opened Bytes
  import opened BeaconTypes
  import opened Arith
  import Sorting
  import Shuffle

  function EpochOf(c: Config, slot: Slot): Epoch
    requires ValidConfig(c)
  {
    Div(slot, c.slotsPerEpoch)
  }

  function StartSlot(c: Config, epoch: Epoch): Slot {
    Mul(epoch, c.slotsPerEpoch)
  }

  function ActivationExitEpoch(c: Config, epoch: Epoch): Epoch {
    epoch + 1 + c.maxSeedLookahead
  }

  function CurrentEpoch(c: Config, s: BeaconState): Epoch
    requires ValidConfig(c)
  {
    EpochOf(c, s.slot)
  }

  function PreviousEpoch(c: Config, s: BeaconState): Epoch
    requires ValidConfig(c)
  {
    var current := CurrentEpoch(c, s);
    if current == GENESIS_EPOCH then GENESIS_EPOCH else current - 1
  }

  function BlockRootAtSlot(c: Config, s: BeaconState, slot: Slot): Result<Hash>
    requires Shape(c, s)
  {
    if slot < s.slot <= slot + c.slotsPerHistoricalRoot then Ok(s.blockRoots[Mod(slot, c.slotsPerHistoricalRoot)])
    else Err(SlotOutOfRange)
  }

  function BlockRoot(c: Config, s: BeaconState, epoch: Epoch): Result<Hash>
    requires Shape(c, s)
  {
    BlockRootAtSlot(c, s, StartSlot(c, epoch))
  }

  function RandaoMix(c: Config, s: BeaconState, epoch: Epoch): Hash
    requires Shape(c, s)
  {
    s.randaoMixes[Mod(epoch, c.epochsPerHistoricalVector)]
  }

  predicate InRange(indices: seq<ValidatorIndex>, n: nat) {
    forall k :: 0 <= k < |indices| ==> indices[k] < n
  }

  function ActiveIndices(vs: seq<Validator>, epoch: Epoch): (r: seq<ValidatorIndex>)
    ensures InRange(r, |vs|)
    ensures |r| <= |vs|
  {
    if vs == [] then []
    else
      var n := |vs| - 1;
      var before := ActiveIndices(vs[..n], epoch);
      if vs[n].IsActive(epoch) then before + [n] else before
  }

  /** Exactly the active validators, in index order. */
  lemma {:induction false} ActiveIndicesAre(vs: seq<Validator>, epoch: Epoch)
    ensures forall i :: i in ActiveIndices(vs, epoch) <==> 0 <= i < |vs| && vs[i].IsActive(epoch)
    ensures Sorting.Increasing(ActiveIndices(vs, epoch))
  {
    if vs != [] {
      ActiveIndicesAre(vs[..|vs| - 1], epoch);
    }
  }

  function ChurnLimit(c: Config, s: BeaconState): nat
    requires ValidConfig(c)
  {
    Max(c.minPerEpochChurnLimit, Div(|ActiveIndices(s.validators, CurrentEpoch(c, s))|, c.churnLimitQuotient))
  }

  function Seed(c: Config, s: BeaconState, epoch: Epoch, domainType: nat): Hash
    requires Shape(c, s)
  {
    c.crypto.hash(LittleEndian(domainType, 4) + LittleEndian(epoch, 8)
      + RandaoMix(c, s, epoch + c.epochsPerHistoricalVector - c.minSeedLookahead - 1))
  }

  function CommitteeCount(c: Config, activeLen: nat): (count: nat)
    requires ValidConfig(c)
    ensures count >= 1
  {
    Max(1, Min(c.maxCommitteesPerSlot, Div(Div(activeLen, c.slotsPerEpoch), c.targetCommitteeSize)))
  }

  function CommitteeCountAtSlot(c: Config, s: BeaconState, slot: Slot): (count: nat)
    requires ValidConfig(c)
    ensures count >= 1
  {
    CommitteeCount(c, |ActiveIndices(s.validators, EpochOf(c, slot))|)
  }

  /** The committee is a function of the active list and the seed of the slot's epoch. */
  function CommitteeFrom(c: Config, indices: seq<ValidatorIndex>, seed: Hash, slot: Slot, index: nat)
    : Result<seq<ValidatorIndex>>
    requires ValidConfig(c)
  {
    var perSlot := CommitteeCount(c, |indices|);
    MulMonotone(1, perSlot, c.slotsPerEpoch);
    Shuffle.ComputeCommittee(c, indices, seed,
      Mul(Mod(slot, c.slotsPerEpoch), perSlot) + index, Mul(perSlot, c.slotsPerEpoch))
  }

  function BeaconCommittee(c: Config, s: BeaconState, slot: Slot, index: nat): (r: Result<seq<ValidatorIndex>>)
    requires Shape(c, s)
    ensures r.Ok? ==> InRange(r.value, |s.validators|)
  {
    var epoch := EpochOf(c, slot);
    CommitteeFrom(c, ActiveIndices(s.validators, epoch), Seed(c, s, epoch, DOMAIN_BEACON_ATTESTER), slot, index)
  }

  lemma CommitteeMembersActive(c: Config, s: BeaconState, slot: Slot, index: nat)
    requires Shape(c, s) && BeaconCommittee(c, s, slot, index).Ok?
    ensures forall v :: v in BeaconCommittee(c, s, slot, index).value ==>
      v < |s.validators| && s.validators[v].IsActive(EpochOf(c, slot))
  {
    ActiveIndicesAre(s.validators, EpochOf(c, slot));
  }

  // Proposer selection

  function ProposerSeed(c: Config, s: BeaconState): Hash
    requires Shape(c, s)
  {
    c.crypto.hash(Seed(c, s, CurrentEpoch(c, s), DOMAIN_BEACON_PROPOSER) + LittleEndian(s.slot, 8))
  }

  /** The candidate of attempt `i` among `indices`. */
  function Candidate(c: Config, indices: seq<ValidatorIndex>, seed: Hash, i: nat): (v: ValidatorIndex)
    requires indices != []
    ensures v in indices
  {
    indices[Shuffle.Rounds(c, seed, |indices|, c.shuffleRoundCount, Mod(i, |indices|))]
  }

  function RandomByte(c: Config, seed: Hash, i: nat): Byte {
    c.crypto.hash(seed + LittleEndian(i / 32, 8))[i % 32]
  }

  /** Attempt `i` ends the search. */
  predicate Accepts(c: Config, s: BeaconState, i: nat)
    requires Shape(c, s)
  {
    var indices := ActiveIndices(s.validators, CurrentEpoch(c, s));
    var seed := ProposerSeed(c, s);
    && indices != []
    && s.validators[Candidate(c, indices, seed, i)].effectiveBalance * 255
       >= Mul(c.maxEffectiveBalance, RandomByte(c, seed, i))
  }

  ghost predicate ProposerFound(c: Config, s: BeaconState)
    requires Shape(c, s)
  {
    exists i: nat :: Accepts(c, s, i)
  }

  ghost predicate FirstAccepted(c: Config, s: BeaconState, i: nat)
    requires Shape(c, s)
  {
    Accepts(c, s, i) && forall j: nat :: j < i ==> !Accepts(c, s, j)
  }

  lemma {:induction false} SomeIsFirst(c: Config, s: BeaconState, i: nat)
    requires Shape(c, s) && Accepts(c, s, i)
    ensures exists k: nat :: FirstAccepted(c, s, k)
  {
    hide Accepts;
    if j: nat :| j < i && Accepts(c, s, j) {
      SomeIsFirst(c, s, j);
    } else {
      assert FirstAccepted(c, s, i);
    }
  }

  lemma FoundIsFirst(c: Config, s: BeaconState)
    requires Shape(c, s) && ProposerFound(c, s)
    ensures exists k: nat :: FirstAccepted(c, s, k)
  {
    hide Accepts, FirstAccepted;
    var i: nat :| Accepts(c, s, i);
    SomeIsFirst(c, s, i);
  }

  /** The candidate of the first accepted attempt. */
  ghost function ProposerIndex(c: Config, s: BeaconState): (r: Result<ValidatorIndex>)
    requires Shape(c, s)
    ensures r.Ok? ==> r.value < |s.validators|
  {
    var indices := ActiveIndices(s.validators, CurrentEpoch(c, s));
    if indices == [] then Err(Panicked)
    else if |indices| > Shuffle.MAX_SHUFFLE_COUNT then Err(IndexOutOfRange)
    else if !ProposerFound(c, s) then Err(Diverges)
    else
      FoundIsFirst(c, s);
      var i: nat :| FirstAccepted(c, s, i);
      Ok(Candidate(c, indices, ProposerSeed(c, s), i))
  }

  /** There is one first accepted attempt, so its candidate is the answer. */
  lemma ProposerIs(c: Config, s: BeaconState, i: nat)
    requires Shape(c, s) && FirstAccepted(c, s, i)
    requires 0 < |ActiveIndices(s.validators, CurrentEpoch(c, s))| <= Shuffle.MAX_SHUFFLE_COUNT
    ensures ProposerIndex(c, s)
         == Ok(Candidate(c, ActiveIndices(s.validators, CurrentEpoch(c, s)), ProposerSeed(c, s), i))
  {
    hide Accepts, ProposerSeed, Candidate, ActiveIndices;
    assert forall k: nat :: FirstAccepted(c, s, k) ==> k == i;
  }

  /** The search ends as soon as it meets a validator at the maximal effective balance, and the
      shuffle brings up every active validator: one such validator is enough. */
  lemma FullBalanceEndsSearch(c: Config, s: BeaconState, v: ValidatorIndex)
    requires Shape(c, s) && v < |s.validators|
    requires s.validators[v].IsActive(CurrentEpoch(c, s))
    requires s.validators[v].effectiveBalance >= c.maxEffectiveBalance
    ensures ProposerFound(c, s)
    ensures exists i :: 0 <= i < |ActiveIndices(s.validators, CurrentEpoch(c, s))| && Accepts(c, s, i)
  {
    var indices := ActiveIndices(s.validators, CurrentEpoch(c, s));
    var seed := ProposerSeed(c, s);
    ActiveIndicesAre(s.validators, CurrentEpoch(c, s));
    var k :| 0 <= k < |indices| && indices[k] == v;
    var i := Shuffle.RoundsBack(c, seed, |indices|, c.shuffleRoundCount, k);
    Shuffle.RoundsAfterBack(c, seed, |indices|, c.shuffleRoundCount, k);
    DivModUnique(i, |indices|, 0, i);
    assert Candidate(c, indices, seed, i) == v;
    MulIsProduct(c.maxEffectiveBalance, RandomByte(c, seed, i));
    MulMonotone(RandomByte(c, seed, i), 255, c.maxEffectiveBalance);
    assert Accepts(c, s, i);
  }

  function WithHash(c: Config, hash: seq<Byte> -> Hash): Config {
    c.(crypto := c.crypto.(hash := hash))
  }

  function Ones(): Hash {
    seq(32, _ => 255)
  }

  predicate FullyActive(c: Config, s: BeaconState, v: ValidatorIndex)
    requires ValidConfig(c)
  {
    && v < |s.validators| && s.validators[v].IsActive(CurrentEpoch(c, s))
    && s.validators[v].effectiveBalance >= c.maxEffectiveBalance
  }

  /** Under a hash that always answers with bytes of 255, only a maximal effective balance is accepted. */
  lemma SearchDiverges(c: Config, s: BeaconState)
    requires Shape(c, s) && (forall v :: !FullyActive(c, s, v))
    ensures !ProposerFound(WithHash(c, _ => Ones()), s)
  {
    hide Candidate, ProposerSeed;
    var c' := WithHash(c, _ => Ones());
    var indices := ActiveIndices(s.validators, CurrentEpoch(c', s));
    ActiveIndicesAre(s.validators, CurrentEpoch(c', s));
    forall i: nat
      ensures !Accepts(c', s, i)
    {
      if indices != [] {
        var v := Candidate(c', indices, ProposerSeed(c', s), i);
        assert !FullyActive(c, s, v);
        MulIsProduct(c.maxEffectiveBalance, 255);
      }
    }
  }

  /** The search ends for every hash function exactly when some active validator has the maximal
      effective balance. */
  lemma SearchEndsForEveryHash(c: Config, s: BeaconState)
    requires Shape(c, s)
    ensures (forall hash: seq<Byte> -> Hash :: ProposerFound(WithHash(c, hash), s))
       <==> exists v :: FullyActive(c, s, v)
  {
    hide ProposerFound;
    if v :| FullyActive(c, s, v) {
      forall hash: seq<Byte> -> Hash
        ensures ProposerFound(WithHash(c, hash), s)
      {
        FullBalanceEndsSearch(WithHash(c, hash), s, v);
      }
    } else {
      SearchDiverges(c, s);
    }
  }

  // Balances and attesters

  function SumEffective(vs: seq<Validator>, indices: seq<ValidatorIndex>): Gwei
    requires InRange(indices, |vs|)
  {
    if indices == [] then 0
    else SumEffective(vs, indices[..|indices| - 1]) + vs[indices[|indices| - 1]].effectiveBalance
  }

  function TotalBalance(s: BeaconState, indices: seq<ValidatorIndex>): (total: Gwei)
    requires InRange(indices, |s.validators|)
    ensures total >= 1
  {
    Max(SumEffective(s.validators, indices), 1)
  }

  function TotalActiveBalance(c: Config, s: BeaconState): (total: Gwei)
    requires ValidConfig(c)
    ensures total >= 1
  {
    TotalBalance(s, ActiveIndices(s.validators, CurrentEpoch(c, s)))
  }

  function Domain(c: Config, s: BeaconState, domainType: nat, messageEpoch: Option<Epoch>): nat
    requires ValidConfig(c)
  {
    var epoch := if messageEpoch.Some? then messageEpoch.value else CurrentEpoch(c, s);
    var version := if epoch < s.fork.epoch then s.fork.previousVersion else s.fork.currentVersion;
    FromLittleEndian(LittleEndian(domainType, 4) + version)
  }

  /** Signing domains of different types differ, whatever the fork versions. */
  lemma DomainsSeparate(c: Config, s: BeaconState, s': BeaconState, t: nat, t': nat, e: Option<Epoch>,
                        e': Option<Epoch>)
    requires ValidConfig(c) && t < 0x1_0000_0000 && t' < 0x1_0000_0000
    requires Domain(c, s, t, e) == Domain(c, s', t', e')
    ensures t == t'
  {
    hide LittleEndian, FromLittleEndian;
    DomainLowPart(c, s, t, e);
    DomainLowPart(c, s', t', e');
    LittleEndianRoundTrip(t, 4);
    LittleEndianRoundTrip(t', 4);
    assert Pow256(4) == 0x1_0000_0000 by {
      assert Pow256(2) == 65536;
    }
  }

  lemma DomainLowPart(c: Config, s: BeaconState, t: nat, e: Option<Epoch>)
    requires ValidConfig(c)
    ensures LittleEndian(Domain(c, s, t, e), 4) == LittleEndian(t, 4)
  {
    hide LittleEndian, FromLittleEndian;
    var epoch := if e.Some? then e.value else CurrentEpoch(c, s);
    LowBytes(LittleEndian(t, 4), if epoch < s.fork.epoch then s.fork.previousVersion else s.fork.currentVersion);
  }

  /** The members whose bit is set, in committee order. */
  function PickBits(committee: seq<ValidatorIndex>, bits: seq<bool>): (r: seq<ValidatorIndex>)
    requires |committee| == |bits|
    ensures forall v :: v in r <==> exists i :: 0 <= i < |bits| && bits[i] && committee[i] == v
  {
    if bits == [] then []
    else
      var n := |bits| - 1;
      PickBits(committee[..n], bits[..n]) + if bits[n] then [committee[n]] else []
  }

  lemma {:induction false} PickedInRange(committee: seq<ValidatorIndex>, bits: seq<bool>, n: nat)
    requires |committee| == |bits| && InRange(committee, n)
    ensures InRange(Sorting.Sort(PickBits(committee, bits)), n)
  {
    var sorted := Sorting.Sort(PickBits(committee, bits));
    forall k | 0 <= k < |sorted|
      ensures sorted[k] < n
    {
      assert sorted[k] in PickBits(committee, bits);
      var i :| 0 <= i < |bits| && bits[i] && committee[i] == sorted[k];
    }
  }

  function AttestingIndices(c: Config, s: BeaconState, data: AttestationData, bits: seq<bool>)
    : (r: Result<seq<ValidatorIndex>>)
    requires Shape(c, s)
    ensures r.Ok? ==> InRange(r.value, |s.validators|)
  {
    var committee :- BeaconCommittee(c, s, data.slot, data.index);
    if |committee| != |bits| then Err(AttestationBitFieldInvalid)
    else
      PickedInRange(committee, bits, |s.validators|);
      Ok(Sorting.Sort(PickBits(committee, bits)))
  }

  function WithoutMembers(xs: seq<ValidatorIndex>, ys: seq<ValidatorIndex>): seq<ValidatorIndex> {
    if xs == [] then []
    else WithoutMembers(xs[..|xs| - 1], ys) + if xs[|xs| - 1] in ys then [] else [xs[|xs| - 1]]
  }

  lemma {:induction false} WithoutMembersAre(xs: seq<ValidatorIndex>, ys: seq<ValidatorIndex>, v: ValidatorIndex)
    ensures v in WithoutMembers(xs, ys) <==> v in xs && v !in ys
  {
    if xs != [] {
      assert xs == xs[..|xs| - 1] + [xs[|xs| - 1]];
      WithoutMembersAre(xs[..|xs| - 1], ys, v);
    }
  }

  function IndexAttestation(c: Config, s: BeaconState, a: Attestation): Result<IndexedAttestation>
    requires Shape(c, s)
  {
    var attesting :- AttestingIndices(c, s, a.data, a.aggregationBits);
    var bit1 :- AttestingIndices(c, s, a.data, a.custodyBits);
    Ok(IndexedAttestation(WithoutMembers(attesting, bit1), bit1, a.data, a.signature))
  }

  /** Indexing splits the attesters by their custody bit: none is lost and none is in both lists. */
  lemma IndexingSplits(c: Config, s: BeaconState, a: Attestation, v: ValidatorIndex)
    requires Shape(c, s) && IndexAttestation(c, s, a).Ok?
    ensures var indexed := IndexAttestation(c, s, a).value;
            && AttestingIndices(c, s, a.data, a.aggregationBits).Ok?
            && AttestingIndices(c, s, a.data, a.custodyBits) == Ok(indexed.custodyBit1Indices)
            && (v in indexed.custodyBit0Indices <==>
                  v in AttestingIndices(c, s, a.data, a.aggregationBits).value && v !in indexed.custodyBit1Indices)
  {
    hide AttestingIndices;
    WithoutMembersAre(AttestingIndices(c, s, a.data, a.aggregationBits).value,
                      AttestingIndices(c, s, a.data, a.custodyBits).value, v);
  }

  function Pubkeys(vs: seq<Validator>, indices: seq<ValidatorIndex>): seq<Pubkey>
    requires InRange(indices, |vs|)
  {
    seq(|indices|, k requires 0 <= k < |indices| => vs[indices[k]].pubkey)
  }

  predicate NonDecreasing(xs: seq<nat>) {
    forall i :: 0 <= i < |xs| - 1 ==> xs[i] <= xs[i + 1]
  }

  /** Indices and signature of an indexed attestation; an index outside the registry panics. */
  function IsValidIndexedAttestation(c: Config, s: BeaconState, a: IndexedAttestation): Result<bool>
    requires ValidConfig(c)
  {
    if |a.custodyBit1Indices| > 0 || |a.custodyBit0Indices| > c.maxValidatorsPerCommittee
       || !NonDecreasing(a.custodyBit0Indices) then Ok(false)
    else if !InRange(a.custodyBit0Indices, |s.validators|) then Err(Panicked)
    else Ok(c.crypto.verifyMultiple(
      [c.crypto.aggregatePubkeys(Pubkeys(s.validators, a.custodyBit0Indices)), c.crypto.aggregatePubkeys([])],
      [c.crypto.attestationRoot(a.data, false), c.crypto.attestationRoot(a.data, true)],
      a.signature,
      Domain(c, s, DOMAIN_BEACON_ATTESTER, Some(a.data.target.epoch))))
  }
}
