/**
 The epoch transition on states: matching attestations, justification, rewards and penalties,
 registry updates, slashings and final updates.
 */
module EpochProcessing {
  import opened Bytes
  import opened BeaconTypes
  import opened Accessors
  import opened Mutators
  import opened Arith
  import J = Justification
  import Sorting

  // Matching attestations

  function MatchingSource(c: Config, s: BeaconState, epoch: Epoch): Result<seq<PendingAttestation>>
    requires ValidConfig(c)
  {
    if epoch == CurrentEpoch(c, s) then Ok(s.currentEpochAttestations)
    else if epoch == PreviousEpoch(c, s) then Ok(s.previousEpochAttestations)
    else Err(EpochOutOfRange)
  }

  function FilterTarget(atts: seq<PendingAttestation>, root: Hash): (r: seq<PendingAttestation>)
    ensures forall a :: a in r <==> a in atts && a.data.target.root == root
  {
    if atts == [] then []
    else
      var a := atts[|atts| - 1];
      FilterTarget(atts[..|atts| - 1], root) + if a.data.target.root == root then [a] else []
  }

  function MatchingTarget(c: Config, s: BeaconState, epoch: Epoch): Result<seq<PendingAttestation>>
    requires Shape(c, s)
  {
    var root :- BlockRoot(c, s, epoch);
    var atts :- MatchingSource(c, s, epoch);
    Ok(FilterTarget(atts, root))
  }

  /** Fails as soon as one attestation's slot is outside the window of known roots. */
  function FilterHead(c: Config, s: BeaconState, atts: seq<PendingAttestation>)
    : (r: Result<seq<PendingAttestation>>)
    requires Shape(c, s)
    ensures r.Ok? <==> forall a :: a in atts ==> BlockRootAtSlot(c, s, a.data.slot).Ok?
    ensures r.Ok? ==> forall a :: a in r.value <==>
      a in atts && BlockRootAtSlot(c, s, a.data.slot) == Ok(a.data.beaconBlockRoot)
    ensures r.Err? ==> r.error == SlotOutOfRange
  {
    if atts == [] then Ok([])
    else
      var a := atts[|atts| - 1];
      var before :- FilterHead(c, s, atts[..|atts| - 1]);
      var root :- BlockRootAtSlot(c, s, a.data.slot);
      if a.data.beaconBlockRoot == root then Ok(before + [a]) else Ok(before)
  }

  function MatchingHead(c: Config, s: BeaconState, epoch: Epoch): Result<seq<PendingAttestation>>
    requires Shape(c, s)
  {
    var atts :- MatchingSource(c, s, epoch);
    FilterHead(c, s, atts)
  }

  // Attesters of a list of attestations

  ghost predicate Resolves(c: Config, s: BeaconState, a: PendingAttestation)
    requires Shape(c, s)
  {
    AttestingIndices(c, s, a.data, a.aggregationBits).Ok?
  }

  predicate DistinctInRange(xs: seq<ValidatorIndex>, n: nat) {
    InRange(xs, n) && Sorting.Distinct(xs)
  }

  function AddAttesters(seen: seq<ValidatorIndex>, indices: seq<ValidatorIndex>, n: nat): (r: seq<ValidatorIndex>)
    requires DistinctInRange(seen, n) && InRange(indices, n)
    ensures DistinctInRange(r, n)
    ensures forall v :: v in r <==> v in seen || v in indices
  {
    DedupInRange(seen, indices, n);
    Sorting.Dedup(seen, indices)
  }

  predicate Attesting(r: Result<seq<ValidatorIndex>>, n: nat) {
    r.Ok? ==> InRange(r.value, n)
  }

  /** The union of several lists without repetition, or the first error. */
  function Union(lists: seq<Result<seq<ValidatorIndex>>>, n: nat): (r: Result<seq<ValidatorIndex>>)
    requires forall k :: 0 <= k < |lists| ==> Attesting(lists[k], n)
    ensures r.Ok? <==> forall k :: 0 <= k < |lists| ==> lists[k].Ok?
    ensures r.Ok? ==> DistinctInRange(r.value, n)
    ensures r.Ok? ==> forall v :: v in r.value <==> exists k :: 0 <= k < |lists| && v in lists[k].value
  {
    if lists == [] then Ok([])
    else
      var seen :- Union(lists[..|lists| - 1], n);
      assert Attesting(lists[|lists| - 1], n);
      var indices :- lists[|lists| - 1];
      Ok(AddAttesters(seen, indices, n))
  }

  function AttesterLists(c: Config, s: BeaconState, atts: seq<PendingAttestation>)
    : (r: seq<Result<seq<ValidatorIndex>>>)
    requires Shape(c, s)
    ensures |r| == |atts|
    ensures forall k :: 0 <= k < |r| ==> Attesting(r[k], |s.validators|)
    ensures forall k :: 0 <= k < |r| ==> (r[k].Ok? <==> Resolves(c, s, atts[k]))
  {
    seq(|atts|, k requires 0 <= k < |atts| => AttestingIndices(c, s, atts[k].data, atts[k].aggregationBits))
  }

  function CollectAttesters(c: Config, s: BeaconState, atts: seq<PendingAttestation>)
    : (r: Result<seq<ValidatorIndex>>)
    requires Shape(c, s)
    ensures r.Ok? <==> forall a :: a in atts ==> Resolves(c, s, a)
    ensures r.Ok? ==> DistinctInRange(r.value, |s.validators|)
  {
    Union(AttesterLists(c, s, atts), |s.validators|)
  }

  lemma {:induction false} DedupInRange(seen: seq<nat>, xs: seq<nat>, n: nat)
    requires InRange(seen, n) && InRange(xs, n)
    ensures InRange(Sorting.Dedup(seen, xs), n)
    decreases |xs|
  {
    if xs != [] {
      DedupInRange(if xs[0] in seen then seen else seen + [xs[0]], xs[1..], n);
    }
  }

  function RetainUnslashed(vs: seq<Validator>, xs: seq<ValidatorIndex>): (r: seq<ValidatorIndex>)
    requires InRange(xs, |vs|)
    ensures InRange(r, |vs|)
    ensures forall x :: x in r <==> x in xs && !vs[x].slashed
    ensures Sorting.Distinct(xs) ==> Sorting.Distinct(r)
  {
    if xs == [] then []
    else
      var n := |xs| - 1;
      assert xs == xs[..n] + [xs[n]];
      var before := RetainUnslashed(vs, xs[..n]);
      if vs[xs[n]].slashed then before else before + [xs[n]]
  }

  function UnslashedAttesting(c: Config, s: BeaconState, atts: seq<PendingAttestation>)
    : (r: Result<seq<ValidatorIndex>>)
    requires Shape(c, s)
    ensures r.Ok? <==> forall a :: a in atts ==> Resolves(c, s, a)
    ensures r.Ok? ==> DistinctInRange(r.value, |s.validators|)
  {
    var collected :- CollectAttesters(c, s, atts);
    var retained := RetainUnslashed(s.validators, collected);
    var sorted := Sorting.Sort(retained);
    Sorting.SortKeepsDistinct(retained);
    SortInRange(retained, |s.validators|);
    Ok(sorted)
  }

  /** Exactly the unslashed attesters of the attestations, in ascending order without repetition. */
  lemma UnslashedAttestingAre(c: Config, s: BeaconState, atts: seq<PendingAttestation>, v: ValidatorIndex)
    requires Shape(c, s) && UnslashedAttesting(c, s, atts).Ok?
    ensures var r := UnslashedAttesting(c, s, atts).value;
      && (v in r <==> v < |s.validators| && !s.validators[v].slashed
                      && exists k :: 0 <= k < |atts| && Attests(c, s, atts[k], v))
      && Sorting.Ascending(r) && Sorting.Distinct(r)
  {
    hide AttestingIndices;
    var lists := AttesterLists(c, s, atts);
    var collected := Union(lists, |s.validators|).value;
    Sorting.SortAscends(RetainUnslashed(s.validators, collected));
    if v in collected {
      var k :| 0 <= k < |lists| && v in lists[k].value;
      assert Attests(c, s, atts[k], v);
    }
    forall k | 0 <= k < |atts| && Attests(c, s, atts[k], v)
      ensures v in collected
    {
      assert v in lists[k].value;
    }
  }

  lemma SortInRange(xs: seq<nat>, n: nat)
    requires InRange(xs, n)
    ensures InRange(Sorting.Sort(xs), n)
  {
    var r := Sorting.Sort(xs);
    forall k | 0 <= k < |r|
      ensures r[k] < n
    {
      assert r[k] in xs;
    }
  }

  function AttestingBalance(c: Config, s: BeaconState, atts: seq<PendingAttestation>): Result<Gwei>
    requires Shape(c, s)
  {
    var indices :- UnslashedAttesting(c, s, atts);
    Ok(TotalBalance(s, indices))
  }

  function AttestingTargetBalance(c: Config, s: BeaconState, epoch: Epoch): Result<Gwei>
    requires Shape(c, s)
  {
    var atts :- MatchingTarget(c, s, epoch);
    AttestingBalance(c, s, atts)
  }

  // Justification and finalization

  function FinalityOf(s: BeaconState): J.Finality {
    J.Finality(s.justificationBits, s.previousJustifiedCheckpoint, s.currentJustifiedCheckpoint, s.finalizedCheckpoint)
  }

  function WithFinality(s: BeaconState, f: J.Finality): BeaconState {
    s.(justificationBits := f.bits,
       previousJustifiedCheckpoint := f.previousJustified,
       currentJustifiedCheckpoint := f.currentJustified,
       finalizedCheckpoint := f.finalized)
  }

  function EpochBallot(c: Config, s: BeaconState): Result<J.Ballot>
    requires Shape(c, s)
  {
    var previous, current := PreviousEpoch(c, s), CurrentEpoch(c, s);
    var previousRoot :- BlockRoot(c, s, previous);
    var currentRoot :- BlockRoot(c, s, current);
    var previousBalance :- AttestingTargetBalance(c, s, previous);
    var currentBalance :- AttestingTargetBalance(c, s, current);
    Ok(J.Ballot(Checkpoint(previous, previousRoot), Checkpoint(current, currentRoot),
                previousBalance, currentBalance, TotalActiveBalance(c, s)))
  }

  function ProcessJustification(c: Config, s: BeaconState): (r: Result<BeaconState>)
    requires Shape(c, s)
    ensures r.Ok? ==> Shape(c, r.value) && r.value == WithFinality(s, FinalityOf(r.value))
  {
    if CurrentEpoch(c, s) <= GENESIS_EPOCH + 1 then Ok(s)
    else
      var ballot :- EpochBallot(c, s);
      Ok(WithFinality(s, J.Process(FinalityOf(s), ballot)))
  }

  // Rewards and penalties

  /** The integer square root, counted up. */
  function Root(n: nat): (r: nat)
    ensures r * r <= n < (r + 1) * (r + 1)
    ensures n >= 1 ==> r >= 1
  {
    if n == 0 then 0
    else
      var r := Root(n - 1);
      if (r + 1) * (r + 1) <= n then r + 1 else r
  }

  function BaseReward(c: Config, s: BeaconState, i: ValidatorIndex): Gwei
    requires ValidConfig(c) && i < |s.validators|
  {
    Div(Mul(s.validators[i].effectiveBalance, c.baseRewardFactor), Root(TotalActiveBalance(c, s)))
      / BASE_REWARDS_PER_EPOCH
  }

  /** What the reward code reads from the attestations: the previous epoch's attestations, the
      unslashed attesters with matching source, target and head, and the finality delay. */
  datatype RewardInputs = RewardInputs(
    attestations: seq<PendingAttestation>,
    source: seq<ValidatorIndex>,
    target: seq<ValidatorIndex>,
    head: seq<ValidatorIndex>,
    finalityDelay: nat)

  predicate InputsInRange(s: BeaconState, x: RewardInputs) {
    && InRange(x.source, |s.validators|) && InRange(x.target, |s.validators|) && InRange(x.head, |s.validators|)
    && Sorting.Distinct(x.source)
  }

  function GatherInputs(c: Config, s: BeaconState): (r: Result<RewardInputs>)
    requires Shape(c, s)
    ensures r.Ok? ==> InputsInRange(s, r.value)
    ensures r.Ok? ==> (r.value.attestations == [] ==> r.value.source == [])
    ensures r.Ok? ==> forall a :: a in r.value.attestations ==> Resolves(c, s, a)
  {
    var previous := PreviousEpoch(c, s);
    var sourceAttestations :- MatchingSource(c, s, previous);
    var targetAttestations :- MatchingTarget(c, s, previous);
    var headAttestations :- MatchingHead(c, s, previous);
    var source :- UnslashedAttesting(c, s, sourceAttestations);
    var target :- UnslashedAttesting(c, s, targetAttestations);
    var head :- UnslashedAttesting(c, s, headAttestations);
    if previous < s.finalizedCheckpoint.epoch then Err(Panicked)
    else Ok(RewardInputs(sourceAttestations, source, target, head, previous - s.finalizedCheckpoint.epoch))
  }

  predicate Attests(c: Config, s: BeaconState, a: PendingAttestation, i: ValidatorIndex)
    requires Shape(c, s)
  {
    var r := AttestingIndices(c, s, a.data, a.aggregationBits);
    r.Ok? && i in r.value
  }

  /** The fold starts from the first attestation whoever it contains, and prefers later ones on a tie. */
  function EarliestFrom(c: Config, s: BeaconState, best: PendingAttestation, atts: seq<PendingAttestation>,
                        i: ValidatorIndex)
    : (r: PendingAttestation)
    requires Shape(c, s)
    ensures r == best || r in atts
    ensures r.inclusionDelay <= best.inclusionDelay
    ensures forall a :: a in atts && Attests(c, s, a, i) ==> r.inclusionDelay <= a.inclusionDelay
    decreases |atts|
  {
    if atts == [] then best
    else
      var a := atts[0];
      var better := if Attests(c, s, a, i) && !(best.inclusionDelay < a.inclusionDelay) then a else best;
      EarliestFrom(c, s, better, atts[1..], i)
  }

  /** The inclusion the reward of `i` is computed from. */
  function Inclusion(c: Config, s: BeaconState, x: RewardInputs, i: ValidatorIndex): (a: PendingAttestation)
    requires Shape(c, s) && x.attestations != []
    ensures a in x.attestations
    ensures forall b :: b in x.attestations && Attests(c, s, b, i) ==> a.inclusionDelay <= b.inclusionDelay
  {
    EarliestFrom(c, s, x.attestations[0], x.attestations, i)
  }

  /** Some attestation of the list contains `i` and was included no later than `best`. */
  predicate NoLaterContains(c: Config, s: BeaconState, best: PendingAttestation, atts: seq<PendingAttestation>,
                            i: ValidatorIndex)
    requires Shape(c, s)
  {
    exists a :: a in atts && Attests(c, s, a, i) && a.inclusionDelay <= best.inclusionDelay
  }

  lemma {:induction false} EarliestContains(c: Config, s: BeaconState, best: PendingAttestation,
                                            atts: seq<PendingAttestation>, i: ValidatorIndex)
    requires Shape(c, s)
    ensures var r := EarliestFrom(c, s, best, atts, i);
      && (Attests(c, s, r, i) <==> (Attests(c, s, best, i) || NoLaterContains(c, s, best, atts, i)))
      && (Attests(c, s, r, i) || r == best)
    decreases |atts|
  {
    hide Attests;
    if atts != [] {
      var a := atts[0];
      var better := if Attests(c, s, a, i) && !(best.inclusionDelay < a.inclusionDelay) then a else best;
      EarliestContains(c, s, better, atts[1..], i);
      assert forall k :: 0 < k < |atts| ==> atts[k] == atts[1..][k - 1];
      assert forall k :: 0 <= k < |atts| - 1 ==> atts[1..][k] == atts[k + 1];
    }
  }

  /** The inclusion contains `i` exactly when some attestation that contains `i` is no later than the
      first of the list; otherwise it is the first of the list. */
  lemma {:induction false} InclusionContains(c: Config, s: BeaconState, x: RewardInputs, i: ValidatorIndex)
    requires Shape(c, s) && x.attestations != []
    ensures Attests(c, s, Inclusion(c, s, x, i), i) <==> NoLaterContains(c, s, x.attestations[0], x.attestations, i)
    ensures !Attests(c, s, Inclusion(c, s, x, i), i) ==> Inclusion(c, s, x, i) == x.attestations[0]
  {
    hide Attests;
    EarliestContains(c, s, x.attestations[0], x.attestations, i);
  }

  /** Among the attestations of `atts` that contain `i`, number `k` has the smallest delay, is the last of those that
      have it, and was included no later than `best`. */
  predicate LastEarliest(c: Config, s: BeaconState, best: PendingAttestation, atts: seq<PendingAttestation>,
                         i: ValidatorIndex, k: nat)
    requires Shape(c, s) && k < |atts|
  {
    && Attests(c, s, atts[k], i) && atts[k].inclusionDelay <= best.inclusionDelay
    && forall j :: 0 <= j < |atts| && Attests(c, s, atts[j], i) ==>
         atts[k].inclusionDelay <= atts[j].inclusionDelay && (k < j ==> atts[k].inclusionDelay < atts[j].inclusionDelay)
  }

  lemma {:induction false} EarliestIsLast(c: Config, s: BeaconState, best: PendingAttestation,
                                          atts: seq<PendingAttestation>, i: ValidatorIndex) returns (k: nat)
    requires Shape(c, s) && NoLaterContains(c, s, best, atts, i)
    ensures k < |atts| && LastEarliest(c, s, best, atts, i, k) && EarliestFrom(c, s, best, atts, i) == atts[k]
    decreases |atts|
  {
    hide Attests, LastEarliest, NoLaterContains;
    SomeContains(c, s, best, atts, i);
    var better := Better(c, s, best, atts[0], i);
    if NoLaterContains(c, s, better, atts[1..], i) {
      var m := EarliestIsLast(c, s, better, atts[1..], i);
      LastShifts(c, s, best, atts, i, m);
      k := m + 1;
    } else {
      FirstIsLast(c, s, best, atts, i);
      NoneEarlier(c, s, better, atts[1..], i);
      k := 0;
    }
  }

  lemma {:induction false} NoneEarlier(c: Config, s: BeaconState, best: PendingAttestation,
                                       atts: seq<PendingAttestation>, i: ValidatorIndex)
    requires Shape(c, s) && !NoLaterContains(c, s, best, atts, i)
    ensures EarliestFrom(c, s, best, atts, i) == best
    decreases |atts|
  {
    hide Attests;
    if atts != [] {
      assert forall k :: 0 <= k < |atts| - 1 ==> atts[1..][k] == atts[k + 1];
      assert atts[0] in atts;
      NoneEarlier(c, s, best, atts[1..], i);
    }
  }

  lemma SomeContains(c: Config, s: BeaconState, best: PendingAttestation, atts: seq<PendingAttestation>,
                     i: ValidatorIndex)
    requires Shape(c, s) && NoLaterContains(c, s, best, atts, i)
    ensures atts != []
  {
  }

  function Better(c: Config, s: BeaconState, best: PendingAttestation, a: PendingAttestation, i: ValidatorIndex)
    : PendingAttestation
    requires Shape(c, s)
  {
    if Attests(c, s, a, i) && !(best.inclusionDelay < a.inclusionDelay) then a else best
  }

  lemma LastShifts(c: Config, s: BeaconState, best: PendingAttestation, atts: seq<PendingAttestation>,
                   i: ValidatorIndex, m: nat)
    requires Shape(c, s) && m + 1 < |atts|
    requires LastEarliest(c, s, Better(c, s, best, atts[0], i), atts[1..], i, m)
    ensures LastEarliest(c, s, best, atts, i, m + 1)
  {
    hide Attests;
    forall j | 0 <= j < |atts| && Attests(c, s, atts[j], i)
      ensures atts[m + 1].inclusionDelay <= atts[j].inclusionDelay
      ensures m + 1 < j ==> atts[m + 1].inclusionDelay < atts[j].inclusionDelay
    {
      if j > 0 {
        assert atts[j] == atts[1..][j - 1];
      }
    }
  }

  lemma FirstIsLast(c: Config, s: BeaconState, best: PendingAttestation, atts: seq<PendingAttestation>,
                    i: ValidatorIndex)
    requires Shape(c, s) && NoLaterContains(c, s, best, atts, i) && atts != []
    requires !NoLaterContains(c, s, Better(c, s, best, atts[0], i), atts[1..], i)
    ensures LastEarliest(c, s, best, atts, i, 0) && Better(c, s, best, atts[0], i) == atts[0]
  {
    hide Attests;
    var a :| a in atts && Attests(c, s, a, i) && a.inclusionDelay <= best.inclusionDelay;
    if a != atts[0] {
      var j :| 0 <= j < |atts| && atts[j] == a;
      assert a == atts[1..][j - 1];
    }
    forall j | 0 < j < |atts| && Attests(c, s, atts[j], i)
      ensures atts[0].inclusionDelay < atts[j].inclusionDelay
    {
      assert atts[j] == atts[1..][j - 1];
    }
  }

  /** Where the inclusion contains `i`, it is the last of the earliest attestations that do. */
  lemma {:induction false} InclusionIsLast(c: Config, s: BeaconState, x: RewardInputs, i: ValidatorIndex)
    returns (k: nat)
    requires Shape(c, s) && x.attestations != [] && Attests(c, s, Inclusion(c, s, x, i), i)
    ensures k < |x.attestations| && Inclusion(c, s, x, i) == x.attestations[k]
    ensures LastEarliest(c, s, x.attestations[0], x.attestations, i, k)
  {
    hide Attests, LastEarliest;
    InclusionContains(c, s, x, i);
    k := EarliestIsLast(c, s, x.attestations[0], x.attestations, i);
  }

  /** When the first attestation is earlier than every one that contains `i`, the proposer of the first
      is paid for `i`, and `i` is paid by a delay smaller than any of its own. */
  lemma {:induction false} FirstIsPaidFor(c: Config, s: BeaconState, x: RewardInputs, i: ValidatorIndex)
    requires Shape(c, s) && x.attestations != [] && i < |s.validators|
    requires forall k :: 0 <= k < |x.attestations| && Attests(c, s, x.attestations[k], i) ==>
      x.attestations[0].inclusionDelay < x.attestations[k].inclusionDelay
    ensures Inclusion(c, s, x, i) == x.attestations[0] && !Attests(c, s, x.attestations[0], i)
    ensures forall p :: ProposerReward(c, s, x, [i], p)
                     == if p == x.attestations[0].proposerIndex then ProposerShare(c, s, i) else 0
    ensures var delay := x.attestations[0].inclusionDelay;
      delay >= 1 ==> InclusionReward(c, s, x, [i], i) == AttesterShare(c, s, i, delay)
  {
    hide Attests, Inclusion, ProposerShare, AttesterShare;
    InclusionContains(c, s, x, i);
    assert [i][..0] == [];
  }

  /** No division by a zero delay and no reward to an index outside the registry. */
  ghost predicate InclusionsSound(c: Config, s: BeaconState, x: RewardInputs)
    requires Shape(c, s) && (x.attestations == [] ==> x.source == [])
  {
    forall i :: i in x.source ==>
      Inclusion(c, s, x, i).inclusionDelay >= 1 && Inclusion(c, s, x, i).proposerIndex < |s.validators|
  }

  predicate Eligible(c: Config, s: BeaconState, i: ValidatorIndex)
    requires ValidConfig(c) && i < |s.validators|
  {
    s.validators[i].IsEligible(PreviousEpoch(c, s))
  }

  function MatchReward(c: Config, s: BeaconState, attesters: seq<ValidatorIndex>, i: ValidatorIndex): Gwei
    requires ValidConfig(c) && InRange(attesters, |s.validators|) && i < |s.validators|
  {
    if Eligible(c, s, i) && i in attesters then
      Div(Mul(BaseReward(c, s, i), TotalBalance(s, attesters)), TotalActiveBalance(c, s))
    else 0
  }

  function MatchPenalty(c: Config, s: BeaconState, attesters: seq<ValidatorIndex>, i: ValidatorIndex): Gwei
    requires ValidConfig(c) && i < |s.validators|
  {
    if Eligible(c, s, i) && i !in attesters then BaseReward(c, s, i) else 0
  }

  function ProposerShare(c: Config, s: BeaconState, i: ValidatorIndex): (share: Gwei)
    requires ValidConfig(c) && i < |s.validators|
    ensures share <= BaseReward(c, s, i)
  {
    Div(BaseReward(c, s, i), c.proposerRewardQuotient)
  }

  function AttesterShare(c: Config, s: BeaconState, i: ValidatorIndex, delay: nat): Gwei
    requires ValidConfig(c) && i < |s.validators| && delay >= 1
  {
    Div(BaseReward(c, s, i) - ProposerShare(c, s, i), delay)
  }

  /** What `i` earns as proposer of the inclusions of `attesters`. */
  ghost function ProposerReward(c: Config, s: BeaconState, x: RewardInputs, attesters: seq<ValidatorIndex>,
                                i: ValidatorIndex): Gwei
    requires Shape(c, s) && InRange(attesters, |s.validators|) && (x.attestations == [] ==> attesters == [])
  {
    if attesters == [] then 0
    else
      var n := |attesters| - 1;
      ProposerReward(c, s, x, attesters[..n], i)
        + if Inclusion(c, s, x, attesters[n]).proposerIndex == i then ProposerShare(c, s, attesters[n]) else 0
  }

  /** What `i` earns for its own inclusion, if it is among `attesters`. */
  function InclusionReward(c: Config, s: BeaconState, x: RewardInputs, attesters: seq<ValidatorIndex>,
                           i: ValidatorIndex): Gwei
    requires Shape(c, s) && i < |s.validators| && (x.attestations == [] ==> attesters == [])
    requires i in attesters ==> Inclusion(c, s, x, i).inclusionDelay >= 1
  {
    if i in attesters then AttesterShare(c, s, i, Inclusion(c, s, x, i).inclusionDelay) else 0
  }

  ghost function Reward(c: Config, s: BeaconState, x: RewardInputs, i: ValidatorIndex): Gwei
    requires Shape(c, s) && InputsInRange(s, x) && (x.attestations == [] ==> x.source == [])
    requires InclusionsSound(c, s, x) && i < |s.validators|
  {
    MatchReward(c, s, x.source, i) + MatchReward(c, s, x.target, i) + MatchReward(c, s, x.head, i)
      + ProposerReward(c, s, x, x.source, i) + InclusionReward(c, s, x, x.source, i)
  }

  function InactivityPenalty(c: Config, s: BeaconState, x: RewardInputs, i: ValidatorIndex): Gwei
    requires ValidConfig(c) && i < |s.validators|
  {
    if x.finalityDelay > c.minEpochsToInactivityPenalty && Eligible(c, s, i) then
      BASE_REWARDS_PER_EPOCH * BaseReward(c, s, i)
        + if i in x.target then 0
          else Div(Mul(s.validators[i].effectiveBalance, x.finalityDelay), c.inactivityPenaltyQuotient)
    else 0
  }

  function Penalty(c: Config, s: BeaconState, x: RewardInputs, i: ValidatorIndex): Gwei
    requires ValidConfig(c) && i < |s.validators|
  {
    MatchPenalty(c, s, x.source, i) + MatchPenalty(c, s, x.target, i) + MatchPenalty(c, s, x.head, i)
      + InactivityPenalty(c, s, x, i)
  }

  ghost function RewardedBalance(c: Config, s: BeaconState, x: RewardInputs, i: ValidatorIndex): Gwei
    requires Shape(c, s) && InputsInRange(s, x) && (x.attestations == [] ==> x.source == [])
    requires InclusionsSound(c, s, x) && i < |s.balances|
  {
    SaturatingSub(s.balances[i] + Reward(c, s, x, i), Penalty(c, s, x, i))
  }

  ghost function RewardedBalances(c: Config, s: BeaconState, x: RewardInputs): (r: seq<Gwei>)
    requires Shape(c, s) && InputsInRange(s, x) && (x.attestations == [] ==> x.source == [])
    requires InclusionsSound(c, s, x)
    ensures |r| == |s.balances|
  {
    seq(|s.balances|, i requires 0 <= i < |s.balances| => RewardedBalance(c, s, x, i))
  }

  ghost function ProcessRewards(c: Config, s: BeaconState): (r: Result<BeaconState>)
    requires Shape(c, s)
    ensures r.Ok? ==> Shape(c, r.value) && r.value == s.(balances := r.value.balances)
  {
    if CurrentEpoch(c, s) == GENESIS_EPOCH then Ok(s)
    else
      var x :- GatherInputs(c, s);
      if !InclusionsSound(c, s, x) then Err(Panicked)
      else Ok(s.(balances := RewardedBalances(c, s, x)))
  }

  // Registry updates

  function MarkEligible(c: Config, s: BeaconState, i: ValidatorIndex): (s': BeaconState)
    requires Shape(c, s) && i < |s.validators|
    ensures Shape(c, s') && s' == s.(validators := s'.validators) && |s'.validators| == |s.validators|
  {
    var v := s.validators[i];
    if v.activationEligibilityEpoch == FAR_FUTURE_EPOCH && v.effectiveBalance == c.maxEffectiveBalance then
      s.(validators := s.validators[i := v.(activationEligibilityEpoch := CurrentEpoch(c, s))])
    else s
  }

  function Eject(c: Config, s: BeaconState, i: ValidatorIndex): (s': BeaconState)
    requires Shape(c, s) && i < |s.validators|
    ensures Shape(c, s') && s' == s.(validators := s'.validators) && |s'.validators| == |s.validators|
  {
    var v := s.validators[i];
    if v.IsActive(CurrentEpoch(c, s)) && v.effectiveBalance <= c.ejectionBalance then InitiateExit(c, s, i) else s
  }

  /** The first loop, after `k` validators. */
  function SweepRegistry(c: Config, s: BeaconState, k: nat): (s': BeaconState)
    requires Shape(c, s) && k <= |s.validators|
    ensures Shape(c, s') && s' == s.(validators := s'.validators) && |s'.validators| == |s.validators|
  {
    if k == 0 then s
    else
      var before := SweepRegistry(c, s, k - 1);
      Eject(c, MarkEligible(c, before, k - 1), k - 1)
  }

  predicate Queued(c: Config, s: BeaconState, i: ValidatorIndex)
    requires i < |s.validators|
  {
    && s.validators[i].activationEligibilityEpoch != FAR_FUTURE_EPOCH
    && s.validators[i].activationEpoch >= ActivationExitEpoch(c, s.finalizedCheckpoint.epoch)
  }

  function QueuedIndices(c: Config, s: BeaconState, k: nat): (r: seq<ValidatorIndex>)
    requires k <= |s.validators|
    ensures InRange(r, k) && Sorting.Increasing(r)
    ensures forall i :: i in r <==> 0 <= i < k && Queued(c, s, i)
  {
    if k == 0 then []
    else
      var before := QueuedIndices(c, s, k - 1);
      if Queued(c, s, k - 1) then before + [k - 1] else before
  }

  function EligibilityKey(vs: seq<Validator>): nat -> nat {
    (i: nat) => if i < |vs| then vs[i].activationEligibilityEpoch else 0
  }

  function ActivationQueue(c: Config, s: BeaconState): (r: seq<ValidatorIndex>)
    ensures InRange(r, |s.validators|)
  {
    var queued := QueuedIndices(c, s, |s.validators|);
    var r := Sorting.StableSort(queued, EligibilityKey(s.validators));
    assert InRange(r, |s.validators|) by {
      forall k | 0 <= k < |r| ensures r[k] < |s.validators| {
        Sorting.SortKeepsMembers(queued, EligibilityKey(s.validators), r[k]);
      }
    }
    r
  }

  function Activate(c: Config, now: Epoch, vs: seq<Validator>, queue: seq<ValidatorIndex>): (vs': seq<Validator>)
    requires InRange(queue, |vs|)
    ensures |vs'| == |vs|
    ensures forall i :: 0 <= i < |vs| ==>
      vs'[i] == if i in queue && vs[i].activationEpoch == FAR_FUTURE_EPOCH
                then vs[i].(activationEpoch := ActivationExitEpoch(c, now)) else vs[i]
  {
    if queue == [] then vs
    else
      var n := |queue| - 1;
      assert queue == queue[..n] + [queue[n]];
      var before := Activate(c, now, vs, queue[..n]);
      var v := before[queue[n]];
      if v.activationEpoch == FAR_FUTURE_EPOCH
      then before[queue[n] := v.(activationEpoch := ActivationExitEpoch(c, now))] else before
  }

  /** The part of the queue that the churn limit lets in. */
  function Admitted(c: Config, s: BeaconState): (r: seq<ValidatorIndex>)
    requires ValidConfig(c)
    ensures InRange(r, |s.validators|) && |r| <= ChurnLimit(c, s)
    ensures r <= ActivationQueue(c, s)
  {
    var queue := ActivationQueue(c, s);
    queue[..Min(|queue|, ChurnLimit(c, s))]
  }

  function ProcessRegistry(c: Config, s: BeaconState): (s': BeaconState)
    requires Shape(c, s)
    ensures Shape(c, s') && s' == s.(validators := s'.validators) && |s'.validators| == |s.validators|
  {
    var swept := SweepRegistry(c, s, |s.validators|);
    swept.(validators := Activate(c, CurrentEpoch(c, s), swept.validators, Admitted(c, swept)))
  }

  // Slashings

  function Sum(xs: seq<nat>): nat {
    if xs == [] then 0 else Sum(xs[..|xs| - 1]) + xs[|xs| - 1]
  }

  /** The correlated penalty falls halfway between slashing and withdrawal. */
  predicate PenaltyDue(c: Config, now: Epoch, v: Validator) {
    v.slashed && now + c.epochsPerSlashingsVector / 2 == v.withdrawableEpoch
  }

  function SlashingPenalty(c: Config, effectiveBalance: Gwei, slashed: Gwei, total: Gwei): Gwei
    requires ValidConfig(c) && total >= 1
  {
    var increment := c.effectiveBalanceIncrement;
    Mul(Div(Mul(Div(effectiveBalance, increment), Min(slashed * 3, total)), total), increment)
  }

  function ProcessSlashings(c: Config, s: BeaconState): (s': BeaconState)
    requires Shape(c, s)
    ensures Shape(c, s') && s' == s.(balances := s'.balances) && |s'.balances| == |s.balances|
    ensures forall i :: 0 <= i < |s.validators| && !PenaltyDue(c, CurrentEpoch(c, s), s.validators[i])
              ==> s'.balances[i] == s.balances[i]
  {
    var now, total := CurrentEpoch(c, s), TotalActiveBalance(c, s);
    s.(balances := seq(|s.balances|, i requires 0 <= i < |s.balances| =>
      if PenaltyDue(c, now, s.validators[i]) then
        SaturatingSub(s.balances[i], SlashingPenalty(c, s.validators[i].effectiveBalance, Sum(s.slashings), total))
      else s.balances[i]))
  }

  // Final updates

  function Hysteresis(c: Config, effectiveBalance: Gwei, balance: Gwei): Gwei
    requires ValidConfig(c)
  {
    if balance < effectiveBalance || effectiveBalance + 3 * (c.effectiveBalanceIncrement / 2) < balance then
      Min(balance - Mod(balance, c.effectiveBalanceIncrement), c.maxEffectiveBalance)
    else effectiveBalance
  }

  function UpdatedEffective(c: Config, s: BeaconState): (vs: seq<Validator>)
    requires Shape(c, s)
    ensures |vs| == |s.validators|
    ensures forall i :: 0 <= i < |vs| ==>
      vs[i] == s.validators[i].(effectiveBalance := Hysteresis(c, s.validators[i].effectiveBalance, s.balances[i]))
  {
    seq(|s.validators|, i requires 0 <= i < |s.validators| =>
      s.validators[i].(effectiveBalance := Hysteresis(c, s.validators[i].effectiveBalance, s.balances[i])))
  }

  function ProcessFinalUpdates(c: Config, s: BeaconState): (s': BeaconState)
    requires Shape(c, s)
    ensures Shape(c, s') && s'.slot == s.slot && |s'.validators| == |s.validators|
  {
    var now := CurrentEpoch(c, s);
    var next := now + 1;
    DivMonotone(c.slotsPerEpoch, c.slotsPerHistoricalRoot, c.slotsPerEpoch);
    DivModUnique(c.slotsPerEpoch, c.slotsPerEpoch, 1, 0);
    var period := Div(c.slotsPerHistoricalRoot, c.slotsPerEpoch);
    s.(
      eth1DataVotes := if Mod(s.slot + 1, c.slotsPerEth1VotingPeriod) == 0 then [] else s.eth1DataVotes,
      validators := UpdatedEffective(c, s),
      slashings := s.slashings[Mod(next, c.epochsPerSlashingsVector) := 0],
      randaoMixes := s.randaoMixes[Mod(next, c.epochsPerHistoricalVector) := RandaoMix(c, s, now)],
      historicalRoots := if Mod(next, period) == 0
                         then s.historicalRoots + [c.crypto.batchRoot(s.blockRoots, s.stateRoots)]
                         else s.historicalRoots,
      previousEpochAttestations := s.currentEpochAttestations,
      currentEpochAttestations := [])
  }

  ghost function ProcessEpoch(c: Config, s: BeaconState): (r: Result<BeaconState>)
    requires Shape(c, s)
    ensures r.Ok? ==> Shape(c, r.value) && r.value.slot == s.slot && |r.value.validators| == |s.validators|
  {
    var s1 :- ProcessJustification(c, s);
    var s2 :- ProcessRewards(c, s1);
    Ok(ProcessFinalUpdates(c, ProcessSlashings(c, ProcessRegistry(c, s2))))
  }

  /** What the stages before the final updates leave alone. */
  predicate StageFrame(s: BeaconState, s': BeaconState) {
    s' == WithFinality(s, FinalityOf(s')).(validators := s'.validators, balances := s'.balances)
  }

  /** The states between the stages of a successful epoch transition. */
  lemma EpochStages(c: Config, s: BeaconState) returns (s1: BeaconState, s2: BeaconState, s3: BeaconState,
                    s4: BeaconState)
    requires Shape(c, s) && ProcessEpoch(c, s).Ok?
    ensures ProcessJustification(c, s) == Ok(s1) && Shape(c, s1) && s1 == WithFinality(s, FinalityOf(s1))
    ensures ProcessRewards(c, s1) == Ok(s2) && Shape(c, s2) && s2 == s1.(balances := s2.balances)
    ensures s3 == ProcessRegistry(c, s2) && s3 == s2.(validators := s3.validators)
    ensures Shape(c, s3) && |s3.validators| == |s.validators|
    ensures s4 == ProcessSlashings(c, s3) && Shape(c, s4) && s4 == s3.(balances := s4.balances)
    ensures StageFrame(s, s4) && ProcessEpoch(c, s) == Ok(ProcessFinalUpdates(c, s4))
  {
    hide ProcessJustification, ProcessRewards, ProcessRegistry, ProcessSlashings, ProcessFinalUpdates;
    s1 := ProcessJustification(c, s).value;
    s2 := ProcessRewards(c, s1).value;
    s3 := ProcessRegistry(c, s2);
    s4 := ProcessSlashings(c, s3);
  }
}
