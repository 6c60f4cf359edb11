/**
 The swap-or-not shuffle and the slicing of a shuffled list into committees. Everything holds for
 every hash function.
 */
module Shuffle {
  import opened Bytes
  import opened BeaconTypes
  import opened Arith

  const MAX_SHUFFLE_COUNT: nat := 0x100_0000_0000

  function Pivot(c: Config, seed: Hash, n: nat, round: nat): (p: nat)
    requires n > 0
    ensures p < n
  {
    Mod(FromLittleEndian(c.crypto.hash(seed + LittleEndian(round, 1))[..8]), n)
  }

  function SwapBit(c: Config, seed: Hash, round: nat, position: nat): bool {
    var source := c.crypto.hash(seed + LittleEndian(round, 1) + LittleEndian(position / 256, 4));
    var byte := source[(position % 256) / 8];
    Div(byte, Pow2(position % 8)) % 2 != 0
  }

  function Flip(n: nat, pivot: nat, i: nat): (f: nat)
    requires pivot < n && i < n
    ensures f < n
  {
    Mod(pivot + n - i, n)
  }

  function Round(c: Config, seed: Hash, n: nat, round: nat, i: nat): (j: nat)
    requires i < n
    ensures j < n
  {
    var flip := Flip(n, Pivot(c, seed, n, round), i);
    if SwapBit(c, seed, round, Max(i, flip)) then flip else i
  }

  /** The first `k` rounds. */
  function Rounds(c: Config, seed: Hash, n: nat, k: nat, i: nat): (j: nat)
    requires i < n
    ensures j < n
  {
    if k == 0 then i else Round(c, seed, n, k - 1, Rounds(c, seed, n, k - 1, i))
  }

  /** The same rounds backwards. */
  function RoundsBack(c: Config, seed: Hash, n: nat, k: nat, j: nat): (i: nat)
    requires j < n
    ensures i < n
  {
    if k == 0 then j else RoundsBack(c, seed, n, k - 1, Round(c, seed, n, k - 1, j))
  }

  function ShuffledIndex(c: Config, index: nat, n: nat, seed: Hash): Result<nat> {
    if index < n <= MAX_SHUFFLE_COUNT then Ok(Rounds(c, seed, n, c.shuffleRoundCount, index))
    else Err(IndexOutOfRange)
  }

  // What a round does

  /** `j` is the mirror of `i` around the pivot that the hash gives for the round. */
  predicate Mirrors(c: Config, seed: Hash, n: nat, round: nat, i: nat, j: nat) {
    && i < n && j < n
    && (i + j) % n == FromLittleEndian(c.crypto.hash(seed + LittleEndian(round, 1))[..8]) % n
  }

  /** Bit `p % 8` of byte `(p % 256) / 8` of the hash of the seed, the round and `p / 256`. */
  predicate Decides(c: Config, seed: Hash, round: nat, p: nat) {
    var source := c.crypto.hash(seed + LittleEndian(round, 1) + LittleEndian(p / 256, 4));
    source[(p % 256) / 8] / Pow2(p % 8) % 2 == 1
  }

  /** The round takes `i` to `i'`: to its mirror when the bit of the larger of the two is set. */
  ghost predicate Turns(c: Config, seed: Hash, n: nat, round: nat, i: nat, i': nat) {
    exists j: nat :: Mirrors(c, seed, n, round, i, j)
      && i' == if Decides(c, seed, round, if i < j then j else i) then j else i
  }

  /** The trace leads from `i` to `j`, and each of its steps is a round. */
  ghost predicate Traces(c: Config, seed: Hash, n: nat, trace: seq<nat>, i: nat, j: nat) {
    && |trace| >= 1 && trace[0] == i && trace[|trace| - 1] == j
    && forall k :: 0 <= k < |trace| - 1 ==> Turns(c, seed, n, k, trace[k], trace[k + 1])
  }

  lemma TraceGoesOn(c: Config, seed: Hash, n: nat, trace: seq<nat>, i: nat, j: nat, j': nat)
    requires Traces(c, seed, n, trace, i, j) && Turns(c, seed, n, |trace| - 1, j, j')
    ensures Traces(c, seed, n, trace + [j'], i, j')
  {
    hide Turns;
  }

  /** There is one mirror, so a round has one outcome. */
  lemma MirrorIsUnique(c: Config, seed: Hash, n: nat, round: nat, i: nat, j: nat, j': nat)
    requires Mirrors(c, seed, n, round, i, j) && Mirrors(c, seed, n, round, i, j')
    ensures j == j'
  {
    hide LittleEndian, FromLittleEndian;
    if j < j' {
      ModDistinct(i + j, i + j', n);
    } else if j' < j {
      ModDistinct(i + j', i + j, n);
    }
    DivModAreOperators(i + j, n);
    DivModAreOperators(i + j', n);
  }

  lemma FlipMirrors(c: Config, seed: Hash, n: nat, round: nat, i: nat)
    requires i < n
    ensures Mirrors(c, seed, n, round, i, Flip(n, Pivot(c, seed, n, round), i))
  {
    hide LittleEndian, FromLittleEndian;
    var pivot := Pivot(c, seed, n, round);
    DivModAreOperators(FromLittleEndian(c.crypto.hash(seed + LittleEndian(round, 1))[..8]), n);
    if i <= pivot {
      DivModUnique(pivot + n - i, n, 1, pivot - i);
      DivModUnique(pivot, n, 0, pivot);
      DivModAreOperators(pivot, n);
    } else {
      DivModUnique(pivot + n - i, n, 0, pivot + n - i);
      DivModUnique(pivot + n, n, 1, pivot);
      DivModAreOperators(pivot + n, n);
    }
  }

  lemma RoundTurns(c: Config, seed: Hash, n: nat, round: nat, i: nat)
    requires i < n
    ensures Turns(c, seed, n, round, i, Round(c, seed, n, round, i))
  {
    hide LittleEndian, FromLittleEndian, Flip, Pivot, Pow2, Mirrors;
    var flip := Flip(n, Pivot(c, seed, n, round), i);
    FlipMirrors(c, seed, n, round, i);
    var p := Max(i, flip);
    var source := c.crypto.hash(seed + LittleEndian(round, 1) + LittleEndian(p / 256, 4));
    DivModAreOperators(source[(p % 256) / 8], Pow2(p % 8));
  }

  lemma {:induction false} RoundsAreTraced(c: Config, seed: Hash, n: nat, k: nat, i: nat) returns (trace: seq<nat>)
    requires i < n
    ensures |trace| == k + 1 && Traces(c, seed, n, trace, i, Rounds(c, seed, n, k, i))
  {
    hide Round, Turns;
    if k == 0 {
      trace := [i];
    } else {
      trace := RoundsAreTraced(c, seed, n, k - 1, i);
      var j := Rounds(c, seed, n, k - 1, i);
      RoundTurns(c, seed, n, k - 1, j);
      TraceGoesOn(c, seed, n, trace, i, j, Round(c, seed, n, k - 1, j));
      trace := trace + [Round(c, seed, n, k - 1, j)];
    }
  }

  /** Only one place can be reached in so many rounds. */
  lemma {:induction false} TraceIsUnique(c: Config, seed: Hash, n: nat, trace: seq<nat>, trace': seq<nat>,
                                         i: nat, j: nat, j': nat)
    requires Traces(c, seed, n, trace, i, j) && Traces(c, seed, n, trace', i, j') && |trace| == |trace'|
    ensures j == j'
    decreases |trace|
  {
    hide Mirrors, Decides;
    var m := |trace| - 1;
    if m > 0 {
      TraceIsUnique(c, seed, n, trace[..m], trace'[..m], i, trace[m - 1], trace'[m - 1]);
      assert Turns(c, seed, n, m - 1, trace[m - 1], trace[m - 1 + 1]);
      assert Turns(c, seed, n, m - 1, trace'[m - 1], trace'[m - 1 + 1]);
      TurnsOneWay(c, seed, n, m - 1, trace[m - 1], j, j');
    }
  }

  lemma TurnsOneWay(c: Config, seed: Hash, n: nat, round: nat, i: nat, j: nat, j': nat)
    requires Turns(c, seed, n, round, i, j) && Turns(c, seed, n, round, i, j')
    ensures j == j'
  {
    hide Mirrors, Decides;
    var m: nat :| Mirrors(c, seed, n, round, i, m)
      && j == if Decides(c, seed, round, if i < m then m else i) then m else i;
    var m': nat :| Mirrors(c, seed, n, round, i, m')
      && j' == if Decides(c, seed, round, if i < m' then m' else i) then m' else i;
    MirrorIsUnique(c, seed, n, round, i, m, m');
  }

  /** The loop over the rounds. The answer is the end of a trace that starts at the index and goes, round by
      round, to the mirror or stays, as the bit of the larger of the two tells. */
  method ComputeShuffledIndex(c: Config, index: nat, n: nat, seed: Hash) returns (r: Result<nat>)
    ensures r.Ok? <==> index < n <= MAX_SHUFFLE_COUNT
    ensures r.Ok? ==> exists trace ::
      |trace| == c.shuffleRoundCount + 1 && Traces(c, seed, n, trace, index, r.value)
    ensures r == ShuffledIndex(c, index, n, seed)
  {
    if !(index < n && n <= MAX_SHUFFLE_COUNT) {
      return Err(IndexOutOfRange);
    }
    var current := index;
    ghost var trace: seq<nat> := [index];
    for round := 0 to c.shuffleRoundCount
      invariant current < n
      invariant current == Rounds(c, seed, n, round, index)
      invariant |trace| == round + 1 && Traces(c, seed, n, trace, index, current)
    {
      hide Pivot, Flip, SwapBit, Turns, Traces;
      RoundTurns(c, seed, n, round, current);
      TraceGoesOn(c, seed, n, trace, index, current, Round(c, seed, n, round, current));
      var pivot := Pivot(c, seed, n, round);
      var flip := Flip(n, pivot, current);
      var position := Max(current, flip);
      if SwapBit(c, seed, round, position) {
        current := flip;
      }
      trace := trace + [current];
    }
    return Ok(current);
  }

  // Each round is an involution, so the shuffle is a bijection

  lemma FlipTwice(n: nat, pivot: nat, i: nat)
    requires pivot < n && i < n
    ensures Flip(n, pivot, Flip(n, pivot, i)) == i
  {
    if i <= pivot {
      DivModUnique(pivot + n - i, n, 1, pivot - i);
      DivModUnique(pivot + n - (pivot - i), n, 1, i);
    } else {
      DivModUnique(pivot + n - i, n, 0, pivot + n - i);
      DivModUnique(pivot + n - (pivot + n - i), n, 0, i);
    }
  }

  /** A pair of positions shares the bit that decides the swap, so a round undoes itself. */
  lemma RoundTwice(c: Config, seed: Hash, n: nat, round: nat, i: nat)
    requires i < n
    ensures Round(c, seed, n, round, Round(c, seed, n, round, i)) == i
  {
    FlipTwice(n, Pivot(c, seed, n, round), i);
  }

  lemma {:induction false} BackAfterRounds(c: Config, seed: Hash, n: nat, k: nat, i: nat)
    requires i < n
    ensures RoundsBack(c, seed, n, k, Rounds(c, seed, n, k, i)) == i
  {
    hide Round;
    if k > 0 {
      RoundTwice(c, seed, n, k - 1, Rounds(c, seed, n, k - 1, i));
      BackAfterRounds(c, seed, n, k - 1, i);
    }
  }

  lemma {:induction false} RoundsAfterBack(c: Config, seed: Hash, n: nat, k: nat, j: nat)
    requires j < n
    ensures Rounds(c, seed, n, k, RoundsBack(c, seed, n, k, j)) == j
  {
    hide Round;
    if k > 0 {
      RoundsAfterBack(c, seed, n, k - 1, Round(c, seed, n, k - 1, j));
      RoundTwice(c, seed, n, k - 1, j);
    }
  }

  /** The shuffle hits every index below `n` exactly once. */
  lemma ShuffleIsBijection(c: Config, seed: Hash, n: nat, j: nat)
    requires j < n <= MAX_SHUFFLE_COUNT
    ensures exists i :: 0 <= i < n && ShuffledIndex(c, i, n, seed) == Ok(j)
    ensures forall i, i' | 0 <= i < n && 0 <= i' < n ::
      ShuffledIndex(c, i, n, seed) == Ok(j) && ShuffledIndex(c, i', n, seed) == Ok(j) ==> i == i'
  {
    var k := c.shuffleRoundCount;
    RoundsAfterBack(c, seed, n, k, j);
    assert ShuffledIndex(c, RoundsBack(c, seed, n, k, j), n, seed) == Ok(j);
    forall i, i' | 0 <= i < n && 0 <= i' < n
                   && ShuffledIndex(c, i, n, seed) == Ok(j) && ShuffledIndex(c, i', n, seed) == Ok(j)
      ensures i == i'
    {
      BackAfterRounds(c, seed, n, k, i);
      BackAfterRounds(c, seed, n, k, i');
    }
  }

  // Slices

  function SliceStart(n: nat, index: nat, count: nat): (start: nat)
    requires count > 0
  {
    Div(Mul(n, index), count)
  }

  function ShuffledSlice(c: Config, indices: seq<ValidatorIndex>, seed: Hash, start: nat, end: nat)
    : (slice: seq<ValidatorIndex>)
    requires start <= end <= |indices|
    ensures |slice| == end - start
    ensures forall i :: 0 <= i < |slice| ==>
      slice[i] == indices[Rounds(c, seed, |indices|, c.shuffleRoundCount, start + i)]
  {
    seq(end - start, i requires 0 <= i < end - start =>
      indices[Rounds(c, seed, |indices|, c.shuffleRoundCount, start + i)])
  }

  function ComputeCommittee(c: Config, indices: seq<ValidatorIndex>, seed: Hash, index: nat, count: nat)
    : (r: Result<seq<ValidatorIndex>>)
    requires count > 0
  {
    var n := |indices|;
    var start, end := SliceStart(n, index, count), SliceStart(n, index + 1, count);
    SliceMonotone(n, index, index + 1, count);
    if start == end then Ok([])
    else if end <= n <= MAX_SHUFFLE_COUNT then
      Ok(ShuffledSlice(c, indices, seed, start, end))
    else Err(IndexOutOfRange)
  }

  /** Slice `index` starts at the largest position that is at most its share of the list. */
  lemma SliceStartIsFloor(n: nat, index: nat, count: nat)
    requires count > 0
    ensures SliceStart(n, index, count) * count <= n * index < (SliceStart(n, index, count) + 1) * count
  {
    MulIsProduct(n, index);
    DivModLaw(n * index, count);
    Distribute(SliceStart(n, index, count), 1, count);
  }

  lemma SliceMonotone(n: nat, i: nat, j: nat, count: nat)
    requires count > 0 && i <= j
    ensures SliceStart(n, i, count) <= SliceStart(n, j, count)
  {
    MulIsProduct(n, i);
    MulIsProduct(n, j);
    MulMonotone(i, j, n);
    assert n * i == i * n && n * j == j * n;
    DivMonotone(n * i, n * j, count);
  }

  lemma SliceEnds(n: nat, count: nat)
    requires count > 0
    ensures SliceStart(n, 0, count) == 0 && SliceStart(n, count, count) == n
  {
    MulIsProduct(n, 0);
    MulIsProduct(n, count);
    DivModUnique(n * count, count, n, 0);
  }

  /** No two slices differ in size by more than one. */
  lemma SliceSize(n: nat, index: nat, count: nat)
    requires count > 0
    ensures Div(n, count) <= SliceStart(n, index + 1, count) - SliceStart(n, index, count) <= Div(n, count) + 1
  {
    var a := Mul(n, index);
    MulIsProduct(n, index);
    MulIsProduct(n, index + 1);
    assert Mul(n, index + 1) == a + n;
    DivOfSum(a, n, count);
  }

  /** Every position lies in a slice. */
  lemma {:induction false} FindSlice(n: nat, count: nat, upTo: nat, position: nat) returns (index: nat)
    requires count > 0 && position < SliceStart(n, upTo, count)
    ensures index < upTo
    ensures SliceStart(n, index, count) <= position < SliceStart(n, index + 1, count)
  {
    SliceEnds(n, count);
    if SliceStart(n, upTo - 1, count) <= position {
      index := upTo - 1;
    } else {
      index := FindSlice(n, count, upTo - 1, position);
    }
  }

  /** No position lies in two slices. */
  lemma SliceUnique(n: nat, count: nat, i: nat, j: nat, position: nat)
    requires count > 0
    requires SliceStart(n, i, count) <= position < SliceStart(n, i + 1, count)
    requires SliceStart(n, j, count) <= position < SliceStart(n, j + 1, count)
    ensures i == j
  {
    if i < j {
      SliceMonotone(n, i + 1, j, count);
    } else if j < i {
      SliceMonotone(n, j + 1, i, count);
    }
  }

  /** Where a list without repetition is cut into `count` committees, its `k`-th element sits in
      one committee, at one place. */
  lemma MemberHasPlace(c: Config, indices: seq<ValidatorIndex>, seed: Hash, count: nat, k: nat)
    returns (index: nat, place: nat)
    requires count > 0 && k < |indices| <= MAX_SHUFFLE_COUNT
    ensures index < count && ComputeCommittee(c, indices, seed, index, count).Ok?
    ensures place < |ComputeCommittee(c, indices, seed, index, count).value|
    ensures ComputeCommittee(c, indices, seed, index, count).value[place] == indices[k]
  {
    hide Round;
    var n := |indices|;
    var position := RoundsBack(c, seed, n, c.shuffleRoundCount, k);
    RoundsAfterBack(c, seed, n, c.shuffleRoundCount, k);
    SliceEnds(n, count);
    index := FindSlice(n, count, count, position);
    SliceMonotone(n, index + 1, count, count);
    place := position - SliceStart(n, index, count);
  }

  lemma CommitteeElement(c: Config, indices: seq<ValidatorIndex>, seed: Hash, count: nat, index: nat, place: nat)
    returns (position: nat)
    requires count > 0 && ComputeCommittee(c, indices, seed, index, count).Ok?
    requires place < |ComputeCommittee(c, indices, seed, index, count).value|
    ensures position < |indices| && position == SliceStart(|indices|, index, count) + place
    ensures position < SliceStart(|indices|, index + 1, count)
    ensures ComputeCommittee(c, indices, seed, index, count).value[place]
         == indices[Rounds(c, seed, |indices|, c.shuffleRoundCount, position)]
  {
    position := SliceStart(|indices|, index, count) + place;
  }

  lemma PlaceIsUnique(c: Config, indices: seq<ValidatorIndex>, seed: Hash, count: nat,
                      index: nat, place: nat, index': nat, place': nat)
    requires count > 0
    requires forall i, j :: 0 <= i < j < |indices| ==> indices[i] != indices[j]
    requires ComputeCommittee(c, indices, seed, index, count).Ok?
    requires ComputeCommittee(c, indices, seed, index', count).Ok?
    requires place < |ComputeCommittee(c, indices, seed, index, count).value|
    requires place' < |ComputeCommittee(c, indices, seed, index', count).value|
    requires ComputeCommittee(c, indices, seed, index, count).value[place]
          == ComputeCommittee(c, indices, seed, index', count).value[place']
    ensures index == index' && place == place'
  {
    var n, k := |indices|, c.shuffleRoundCount;
    var position := CommitteeElement(c, indices, seed, count, index, place);
    var position' := CommitteeElement(c, indices, seed, count, index', place');
    var i, i' := Rounds(c, seed, n, k, position), Rounds(c, seed, n, k, position');
    assert i == i';
    BackAfterRounds(c, seed, n, k, position);
    BackAfterRounds(c, seed, n, k, position');
    SliceUnique(n, count, index, index', position);
  }
}
