/**
 Committees over an epoch and over a run: the committees of one epoch are a partition of its active
 validators, the assignment search finds the one place of a validator, and no step of a run moves a
 committee from one lookahead before its epoch until the randao ring comes round.
 */
module Committees {
  import opened Bytes
  import opened BeaconTypes
  import opened Accessors
  import opened Lifecycle
  import opened EpochProcessing
  import opened Transition
  import opened Evolution
  import opened Invariants
  import opened Arith
  import Shuffle
  import Sorting

  // Stability

  /** The epochs during which the committees of epoch `x` are fixed. */
  predicate Settled(c: Config, now: Epoch, x: Epoch) {
    x <= now + c.minSeedLookahead && now + c.minSeedLookahead + 1 < x + c.epochsPerHistoricalVector
  }

  ghost predicate SameCommittees(c: Config, s: BeaconState, s': BeaconState, x: Epoch)
    requires Shape(c, s) && Shape(c, s')
  {
    && ActiveIndices(s.validators, x) == ActiveIndices(s'.validators, x)
    && RandaoMix(c, s, x + c.epochsPerHistoricalVector - c.minSeedLookahead - 1)
    == RandaoMix(c, s', x + c.epochsPerHistoricalVector - c.minSeedLookahead - 1)
  }

  lemma {:induction false} EffectKeepsCommittees(c: Config, s: BeaconState, s': BeaconState, x: Epoch)
    requires Effect(c, s, s') && Room(c, CurrentEpoch(c, s), |s.validators|)
    requires Settled(c, CurrentEpoch(c, s), x) && Settled(c, CurrentEpoch(c, s'), x)
    ensures SameCommittees(c, s, s', x)
  {
    var now, now', e := CurrentEpoch(c, s), CurrentEpoch(c, s'), c.epochsPerHistoricalVector;
    ActiveSetsFixed(c, now, s.validators, s'.validators, x);
    var k := x + e - c.minSeedLookahead - 1;
    ModDistinct(now, k, e);
    ModDistinct(now', k, e);
  }

  /** Committee stability: whatever exits, slashings, deposits, activations and randao writes happen
      between two moments of a run, the committees of a settled epoch are the same at both. */
  lemma {:induction false} RunKeepsCommittees(c: Config, t: seq<BeaconState>, i: nat, j: nat, x: Epoch)
    requires BoundedRun(c, t) && i <= j < |t|
    requires Settled(c, CurrentEpoch(c, t[i]), x) && Settled(c, CurrentEpoch(c, t[j]), x)
    ensures Shape(c, t[i]) && Shape(c, t[j]) && CurrentEpoch(c, t[i]) <= CurrentEpoch(c, t[j])
    ensures SameCommittees(c, t[i], t[j], x)
    decreases j
  {
    hide Step, IsGenesis;
    RunIsReady(c, t, i);
    if i < j {
      EpochsGrow(c, t, i, j - 1);
      RunIsReady(c, t, j - 1);
      assert Step(c, t[j - 1], t[j - 1 + 1]);
      StepEffect(c, t[j - 1], t[j]);
      RunKeepsCommittees(c, t, i, j - 1, x);
      EffectKeepsCommittees(c, t[j - 1], t[j], x);
    }
  }

  lemma {:induction false} EpochsGrow(c: Config, t: seq<BeaconState>, i: nat, j: nat)
    requires BoundedRun(c, t) && i <= j < |t|
    ensures CurrentEpoch(c, t[i]) <= CurrentEpoch(c, t[j])
    decreases j
  {
    hide Step, IsGenesis;
    if i < j {
      EpochsGrow(c, t, i, j - 1);
      RunIsReady(c, t, j - 1);
      assert Step(c, t[j - 1], t[j - 1 + 1]);
      StepEffect(c, t[j - 1], t[j]);
    }
  }

  /** Same active list and same mix give the same committees, counts and attesters. */
  lemma SameCommitteesSameAnswers(c: Config, s: BeaconState, s': BeaconState, slot: Slot)
    requires Shape(c, s) && Shape(c, s') && SameCommittees(c, s, s', EpochOf(c, slot))
    ensures CommitteeCountAtSlot(c, s, slot) == CommitteeCountAtSlot(c, s', slot)
    ensures forall index :: BeaconCommittee(c, s, slot, index) == BeaconCommittee(c, s', slot, index)
    ensures forall data: AttestationData, bits: seq<bool> :: data.slot == slot ==>
      AttestingIndices(c, s, data, bits) == AttestingIndices(c, s', data, bits)
  {
    hide CommitteeFrom;
  }

  // The committees of one epoch

  /** The count is the largest, up to the maximum, that leaves every committee its target size; one at least. */
  lemma CommitteeCountIsLargest(c: Config, n: nat, k: nat)
    requires ValidConfig(c)
    ensures var count, size := CommitteeCount(c, n), Mul(c.targetCommitteeSize, c.slotsPerEpoch);
            && (count == 1 || (count <= c.maxCommitteesPerSlot && count * size <= n))
            && (k <= c.maxCommitteesPerSlot && k * size <= n ==> k <= count)
  {
    CommitteesFit(c, n, CommitteeCount(c, n));
    CommitteesFit(c, n, k);
  }

  lemma CommitteesFit(c: Config, n: nat, k: nat)
    requires ValidConfig(c)
    ensures k <= Div(Div(n, c.slotsPerEpoch), c.targetCommitteeSize)
       <==> k * Mul(c.targetCommitteeSize, c.slotsPerEpoch) <= n
  {
    hide Div;
    DivAtLeast(Div(n, c.slotsPerEpoch), c.targetCommitteeSize, k);
    MulMonotone(0, k, c.targetCommitteeSize);
    DivAtLeast(n, c.slotsPerEpoch, k * c.targetCommitteeSize);
    MulIsProduct(c.targetCommitteeSize, c.slotsPerEpoch);
    assert k * (c.targetCommitteeSize * c.slotsPerEpoch) == (k * c.targetCommitteeSize) * c.slotsPerEpoch;
  }

  ghost predicate Registered(c: Config, s: BeaconState, e: Epoch)
    requires Shape(c, s)
  {
    |ActiveIndices(s.validators, e)| <= Shuffle.MAX_SHUFFLE_COUNT
  }

  function PerSlot(c: Config, s: BeaconState, e: Epoch): (count: nat)
    requires ValidConfig(c)
    ensures count >= 1
  {
    CommitteeCount(c, |ActiveIndices(s.validators, e)|)
  }

  /** The place of a committee in the list of all committees of its epoch. */
  function Rank(c: Config, perSlot: nat, slot: Slot, index: nat): nat
    requires ValidConfig(c)
  {
    Mul(Mod(slot, c.slotsPerEpoch), perSlot) + index
  }

  lemma {:induction false} RankInRange(c: Config, perSlot: nat, slot: Slot, index: nat)
    requires ValidConfig(c) && index < perSlot
    ensures Rank(c, perSlot, slot, index) < Mul(perSlot, c.slotsPerEpoch)
  {
    MulIsProduct(Mod(slot, c.slotsPerEpoch), perSlot);
    MulIsProduct(perSlot, c.slotsPerEpoch);
    MulStrict(Mod(slot, c.slotsPerEpoch), c.slotsPerEpoch, perSlot);
  }

  lemma {:induction false} RankUnique(c: Config, perSlot: nat, slot: Slot, index: nat, slot': Slot, index': nat)
    requires ValidConfig(c) && index < perSlot && index' < perSlot
    requires EpochOf(c, slot) == EpochOf(c, slot')
    requires Rank(c, perSlot, slot, index) == Rank(c, perSlot, slot', index')
    ensures slot == slot' && index == index'
  {
    hide Div, Mod, Mul;
    MulIsProduct(Mod(slot, c.slotsPerEpoch), perSlot);
    MulIsProduct(Mod(slot', c.slotsPerEpoch), perSlot);
    DivOfMultiple(Mod(slot, c.slotsPerEpoch), index, perSlot);
    DivOfMultiple(Mod(slot', c.slotsPerEpoch), index', perSlot);
    DivModLaw(slot, c.slotsPerEpoch);
    DivModLaw(slot', c.slotsPerEpoch);
  }

  /** Every rank belongs to a slot of the epoch and an index. */
  lemma {:induction false} FromRank(c: Config, perSlot: nat, e: Epoch, rank: nat) returns (slot: Slot, index: nat)
    requires ValidConfig(c) && perSlot >= 1 && rank < Mul(perSlot, c.slotsPerEpoch)
    ensures EpochOf(c, slot) == e && index < perSlot && Rank(c, perSlot, slot, index) == rank
  {
    hide Mul;
    var r := Div(rank, perSlot);
    index := Mod(rank, perSlot);
    MulIsProduct(perSlot, c.slotsPerEpoch);
    MulIsProduct(r, perSlot);
    MulIsProduct(e, c.slotsPerEpoch);
    DivModLaw(rank, perSlot);
    if r >= c.slotsPerEpoch {
      MulMonotone(c.slotsPerEpoch, r, perSlot);
    }
    slot := Mul(e, c.slotsPerEpoch) + r;
    DivOfMultiple(e, r, c.slotsPerEpoch);
  }

  /** Every active validator sits in some committee of the epoch. */
  lemma {:induction false} ActiveHasPlace(c: Config, s: BeaconState, e: Epoch, v: ValidatorIndex)
    returns (slot: Slot, index: nat, place: nat)
    requires Shape(c, s) && Registered(c, s, e)
    requires v < |s.validators| && s.validators[v].IsActive(e)
    ensures EpochOf(c, slot) == e && index < CommitteeCountAtSlot(c, s, slot)
    ensures BeaconCommittee(c, s, slot, index).Ok?
    ensures place < |BeaconCommittee(c, s, slot, index).value| && BeaconCommittee(c, s, slot, index).value[place] == v
  {
    hide Shuffle.ComputeCommittee, Seed;
    var indices := ActiveIndices(s.validators, e);
    ActiveIndicesAre(s.validators, e);
    var k :| 0 <= k < |indices| && indices[k] == v;
    var perSlot, seed := PerSlot(c, s, e), Seed(c, s, e, DOMAIN_BEACON_ATTESTER);
    MulMonotone(1, perSlot, c.slotsPerEpoch);
    var rank;
    rank, place := Shuffle.MemberHasPlace(c, indices, seed, Mul(perSlot, c.slotsPerEpoch), k);
    slot, index := FromRank(c, perSlot, e, rank);
  }

  /** And in only one, at only one place. */
  lemma {:induction false} CommitteePlaceUnique(c: Config, s: BeaconState, slot: Slot, index: nat, place: nat,
                                                slot': Slot, index': nat, place': nat)
    requires Shape(c, s) && EpochOf(c, slot) == EpochOf(c, slot')
    requires index < CommitteeCountAtSlot(c, s, slot) && index' < CommitteeCountAtSlot(c, s, slot')
    requires BeaconCommittee(c, s, slot, index).Ok? && BeaconCommittee(c, s, slot', index').Ok?
    requires place < |BeaconCommittee(c, s, slot, index).value| && place' < |BeaconCommittee(c, s, slot', index').value|
    requires BeaconCommittee(c, s, slot, index).value[place] == BeaconCommittee(c, s, slot', index').value[place']
    ensures slot == slot' && index == index' && place == place'
  {
    hide Shuffle.ComputeCommittee, Seed;
    var e := EpochOf(c, slot);
    var indices := ActiveIndices(s.validators, e);
    ActiveIndicesAre(s.validators, e);
    var perSlot, seed := PerSlot(c, s, e), Seed(c, s, e, DOMAIN_BEACON_ATTESTER);
    MulMonotone(1, perSlot, c.slotsPerEpoch);
    Shuffle.PlaceIsUnique(c, indices, seed, Mul(perSlot, c.slotsPerEpoch),
      Rank(c, perSlot, slot, index), place, Rank(c, perSlot, slot', index'), place');
    RankUnique(c, perSlot, slot, index, slot', index');
  }

  lemma {:induction false} RankInOrder(c: Config, perSlot: nat, slot: Slot, index: nat, slot': Slot, index': nat)
    requires ValidConfig(c) && index < perSlot && EpochOf(c, slot) == EpochOf(c, slot')
    requires slot < slot' || (slot == slot' && index < index')
    ensures Rank(c, perSlot, slot, index) < Rank(c, perSlot, slot', index')
  {
    hide Div, Mod, Mul;
    var m, m' := Mod(slot, c.slotsPerEpoch), Mod(slot', c.slotsPerEpoch);
    MulIsProduct(m, perSlot);
    MulIsProduct(m', perSlot);
    DivModLaw(slot, c.slotsPerEpoch);
    DivModLaw(slot', c.slotsPerEpoch);
    if slot < slot' {
      MulStrict(m, m', perSlot);
    }
  }

  /** Member `v` of the active list comes from position `q` of the shuffled list. */
  predicate ComesFrom(c: Config, s: BeaconState, e: Epoch, q: nat, v: ValidatorIndex)
    requires Shape(c, s)
  {
    var indices := ActiveIndices(s.validators, e);
    var r := Shuffle.ShuffledIndex(c, q, |indices|, Seed(c, s, e, DOMAIN_BEACON_ATTESTER));
    r.Ok? && indices[r.value] == v
  }

  lemma {:induction false} SeatComesFrom(c: Config, s: BeaconState, slot: Slot, index: nat, place: nat) returns (q: nat)
    requires Shape(c, s) && Registered(c, s, EpochOf(c, slot)) && BeaconCommittee(c, s, slot, index).Ok?
    requires place < |BeaconCommittee(c, s, slot, index).value|
    ensures ComesFrom(c, s, EpochOf(c, slot), q, BeaconCommittee(c, s, slot, index).value[place])
    ensures var n, perSlot := |ActiveIndices(s.validators, EpochOf(c, slot))|, PerSlot(c, s, EpochOf(c, slot));
      var count, rank := Mul(perSlot, c.slotsPerEpoch), Rank(c, perSlot, slot, index);
      && count > 0 && q == Shuffle.SliceStart(n, rank, count) + place < Shuffle.SliceStart(n, rank + 1, count)
  {
    hide Shuffle.ComputeCommittee, Shuffle.SliceStart, Shuffle.Rounds, Seed;
    var e := EpochOf(c, slot);
    var perSlot := PerSlot(c, s, e);
    MulMonotone(1, perSlot, c.slotsPerEpoch);
    q := Shuffle.CommitteeElement(c, ActiveIndices(s.validators, e), Seed(c, s, e, DOMAIN_BEACON_ATTESTER),
      Mul(perSlot, c.slotsPerEpoch), Rank(c, perSlot, slot, index), place);
  }

  /** The committees of an epoch, by slot and then by index, follow one another in the shuffled list. */
  lemma {:induction false} SeatsInOrder(c: Config, s: BeaconState, slot: Slot, index: nat, place: nat,
                                        slot': Slot, index': nat, place': nat) returns (q: nat, q': nat)
    requires Shape(c, s) && Registered(c, s, EpochOf(c, slot)) && EpochOf(c, slot) == EpochOf(c, slot')
    requires index < CommitteeCountAtSlot(c, s, slot) && index' < CommitteeCountAtSlot(c, s, slot')
    requires BeaconCommittee(c, s, slot, index).Ok? && place < |BeaconCommittee(c, s, slot, index).value|
    requires BeaconCommittee(c, s, slot', index').Ok? && place' < |BeaconCommittee(c, s, slot', index').value|
    requires slot < slot' || (slot == slot' && (index < index' || (index == index' && place < place')))
    ensures q < q'
    ensures ComesFrom(c, s, EpochOf(c, slot), q, BeaconCommittee(c, s, slot, index).value[place])
    ensures ComesFrom(c, s, EpochOf(c, slot), q', BeaconCommittee(c, s, slot', index').value[place'])
  {
    hide BeaconCommittee, Shuffle.SliceStart, ComesFrom, Rank, EpochOf, Mul;
    q := SeatComesFrom(c, s, slot, index, place);
    q' := SeatComesFrom(c, s, slot', index', place');
    if slot != slot' || index != index' {
      var n, perSlot := |ActiveIndices(s.validators, EpochOf(c, slot))|, PerSlot(c, s, EpochOf(c, slot));
      RankInOrder(c, perSlot, slot, index, slot', index');
      Shuffle.SliceMonotone(n, Rank(c, perSlot, slot, index) + 1, Rank(c, perSlot, slot', index'),
                            Mul(perSlot, c.slotsPerEpoch));
    }
  }

  /** Every lookup inside the epoch succeeds, and no two committees differ in size by more than one. */
  lemma {:induction false} CommitteeSizes(c: Config, s: BeaconState, slot: Slot, index: nat)
    requires Shape(c, s) && Registered(c, s, EpochOf(c, slot)) && index < CommitteeCountAtSlot(c, s, slot)
    ensures BeaconCommittee(c, s, slot, index).Ok?
    ensures var n := |ActiveIndices(s.validators, EpochOf(c, slot))|;
      var count := Mul(CommitteeCountAtSlot(c, s, slot), c.slotsPerEpoch);
      count > 0 && Div(n, count) <= |BeaconCommittee(c, s, slot, index).value| <= Div(n, count) + 1
  {
    hide Seed, Shuffle.ShuffledSlice, Shuffle.SliceStart;
    var n, perSlot := |ActiveIndices(s.validators, EpochOf(c, slot))|, CommitteeCountAtSlot(c, s, slot);
    var count, rank := Mul(perSlot, c.slotsPerEpoch), Rank(c, perSlot, slot, index);
    MulMonotone(1, perSlot, c.slotsPerEpoch);
    RankInRange(c, perSlot, slot, index);
    Shuffle.SliceSize(n, rank, count);
    Shuffle.SliceMonotone(n, rank + 1, count, count);
    Shuffle.SliceEnds(n, count);
  }

  // The assignment search

  datatype Assignment = Assignment(validators: seq<ValidatorIndex>, index: nat, slot: Slot)

  function SearchSlot(c: Config, s: BeaconState, slot: Slot, index: nat, count: nat,
                      v: ValidatorIndex): Result<Option<Assignment>>
    requires Shape(c, s) && index <= count
    decreases count - index
  {
    if index == count then Ok(None)
    else
      var committee :- BeaconCommittee(c, s, slot, index);
      if v in committee then Ok(Some(Assignment(committee, index, slot)))
      else SearchSlot(c, s, slot, index + 1, count, v)
  }

  function SearchSlots(c: Config, s: BeaconState, slot: Slot, n: nat, v: ValidatorIndex): Result<Option<Assignment>>
    requires Shape(c, s)
    decreases n
  {
    if n == 0 then Ok(None)
    else
      var found :- SearchSlot(c, s, slot, 0, CommitteeCountAtSlot(c, s, slot), v);
      if found.Some? then Ok(found) else SearchSlots(c, s, slot + 1, n - 1, v)
  }

  function CommitteeAssignment(c: Config, s: BeaconState, epoch: Epoch, v: ValidatorIndex): Result<Option<Assignment>>
    requires Shape(c, s)
  {
    if epoch > CurrentEpoch(c, s) + 1 then Err(EpochOutOfRange)
    else SearchSlots(c, s, StartSlot(c, epoch), c.slotsPerEpoch, v)
  }

  ghost predicate Seats(c: Config, s: BeaconState, slot: Slot, index: nat, v: ValidatorIndex)
    requires Shape(c, s)
  {
    BeaconCommittee(c, s, slot, index).Ok? && v in BeaconCommittee(c, s, slot, index).value
  }

  ghost predicate IsSeat(c: Config, s: BeaconState, a: Assignment, v: ValidatorIndex)
    requires Shape(c, s)
  {
    Seats(c, s, a.slot, a.index, v) && a.validators == BeaconCommittee(c, s, a.slot, a.index).value
  }

  lemma {:induction false} SearchSlotFinds(c: Config, s: BeaconState, slot: Slot, index: nat, count: nat,
                                           v: ValidatorIndex)
    requires Shape(c, s) && index <= count
    requires forall k :: index <= k < count ==> BeaconCommittee(c, s, slot, k).Ok?
    ensures var r := SearchSlot(c, s, slot, index, count, v);
      && r.Ok?
      && (r.value.Some? ==> r.value.value.slot == slot && r.value.value.index < count && IsSeat(c, s, r.value.value, v))
      && (r.value.None? ==> forall k :: index <= k < count ==> !Seats(c, s, slot, k, v))
    decreases count - index
  {
    hide BeaconCommittee;
    if index < count && v !in BeaconCommittee(c, s, slot, index).value {
      SearchSlotFinds(c, s, slot, index + 1, count, v);
    }
  }

  lemma {:induction false} SearchSlotsFinds(c: Config, s: BeaconState, e: Epoch, slot: Slot, n: nat, v: ValidatorIndex)
    requires Shape(c, s) && Registered(c, s, e)
    requires forall j :: slot <= j < slot + n ==> EpochOf(c, j) == e
    ensures var r := SearchSlots(c, s, slot, n, v);
      && r.Ok?
      && (r.value.Some? ==>
            slot <= r.value.value.slot < slot + n
            && r.value.value.index < CommitteeCountAtSlot(c, s, r.value.value.slot) && IsSeat(c, s, r.value.value, v))
      && (r.value.None? ==> forall j, k :: slot <= j < slot + n && 0 <= k < PerSlot(c, s, e) ==> !Seats(c, s, j, k, v))
    decreases n
  {
    hide BeaconCommittee, CommitteeCount;
    if n > 0 {
      var count := CommitteeCountAtSlot(c, s, slot);
      forall k | 0 <= k < count
        ensures BeaconCommittee(c, s, slot, k).Ok?
      {
        CommitteeSizes(c, s, slot, k);
      }
      SearchSlotFinds(c, s, slot, 0, count, v);
      if SearchSlot(c, s, slot, 0, count, v).value.None? {
        SearchSlotsFinds(c, s, e, slot + 1, n - 1, v);
      }
    }
  }

  lemma SlotsOfEpoch(c: Config, e: Epoch, slot: Slot)
    requires ValidConfig(c)
    ensures EpochOf(c, slot) == e <==> StartSlot(c, e) <= slot < StartSlot(c, e) + c.slotsPerEpoch
  {
    hide Div, Mul;
    var d := c.slotsPerEpoch;
    MulIsProduct(e, d);
    DivModLaw(slot, d);
    if e * d <= slot < e * d + d {
      DivOfMultiple(e, slot - e * d, d);
    }
  }

  /** The search answers with the one committee that seats `v`, or with none exactly when `v` is not
      active in the epoch. */
  lemma {:induction false} AssignmentFindsSeat(c: Config, s: BeaconState, e: Epoch, v: ValidatorIndex)
    requires Shape(c, s) && Registered(c, s, e) && e <= CurrentEpoch(c, s) + 1
    ensures CommitteeAssignment(c, s, e, v).Ok?
    ensures CommitteeAssignment(c, s, e, v).value.Some? <==> v < |s.validators| && s.validators[v].IsActive(e)
    ensures CommitteeAssignment(c, s, e, v).value.Some? ==>
      var a := CommitteeAssignment(c, s, e, v).value.value;
      && EpochOf(c, a.slot) == e && a.index < CommitteeCountAtSlot(c, s, a.slot) && IsSeat(c, s, a, v)
      && forall slot, index ::
           EpochOf(c, slot) == e && 0 <= index < PerSlot(c, s, e) && Seats(c, s, slot, index, v)
           ==> slot == a.slot && index == a.index
  {
    hide BeaconCommittee, CommitteeCount, EpochOf, StartSlot;
    var start, d := StartSlot(c, e), c.slotsPerEpoch;
    forall j: Slot
      ensures EpochOf(c, j) == e <==> start <= j < start + d
    {
      SlotsOfEpoch(c, e, j);
    }
    SearchSlotsFinds(c, s, e, start, d, v);
    var r := CommitteeAssignment(c, s, e, v);
    if r.value.Some? {
      var a := r.value.value;
      SeatedIsActive(c, s, a.slot, a.index, v);
      forall slot, index | EpochOf(c, slot) == e && 0 <= index < PerSlot(c, s, e) && Seats(c, s, slot, index, v)
        ensures slot == a.slot && index == a.index
      {
        SeatUnique(c, s, slot, index, a.slot, a.index, v);
      }
    } else if v < |s.validators| && s.validators[v].IsActive(e) {
      var slot, index, place := ActiveHasPlace(c, s, e, v);
      SeatAt(c, s, slot, index, place);
    }
  }

  lemma SeatAt(c: Config, s: BeaconState, slot: Slot, index: nat, place: nat)
    requires Shape(c, s) && BeaconCommittee(c, s, slot, index).Ok?
    requires place < |BeaconCommittee(c, s, slot, index).value|
    ensures Seats(c, s, slot, index, BeaconCommittee(c, s, slot, index).value[place])
    ensures CommitteeCountAtSlot(c, s, slot) == PerSlot(c, s, EpochOf(c, slot))
  {
    hide BeaconCommittee;
  }

  lemma {:induction false} SeatedIsActive(c: Config, s: BeaconState, slot: Slot, index: nat, v: ValidatorIndex)
    requires Shape(c, s) && Seats(c, s, slot, index, v)
    ensures v < |s.validators| && s.validators[v].IsActive(EpochOf(c, slot))
  {
    hide BeaconCommittee;
    CommitteeMembersActive(c, s, slot, index);
  }

  lemma {:induction false} SeatUnique(c: Config, s: BeaconState, slot: Slot, index: nat, slot': Slot, index': nat,
                                      v: ValidatorIndex)
    requires Shape(c, s) && EpochOf(c, slot) == EpochOf(c, slot')
    requires index < PerSlot(c, s, EpochOf(c, slot)) && index' < PerSlot(c, s, EpochOf(c, slot'))
    requires Seats(c, s, slot, index, v) && Seats(c, s, slot', index', v)
    ensures slot == slot' && index == index'
  {
    hide BeaconCommittee;
    var place :| 0 <= place < |BeaconCommittee(c, s, slot, index).value|
                 && BeaconCommittee(c, s, slot, index).value[place] == v;
    var place' :| 0 <= place' < |BeaconCommittee(c, s, slot', index').value|
                  && BeaconCommittee(c, s, slot', index').value[place'] == v;
    CommitteePlaceUnique(c, s, slot, index, place, slot', index', place');
  }
}
