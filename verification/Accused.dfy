/**
 Who an attester slashing slashes: whoever is slashable in the union of the two attestations, and not
 only those who signed both. The exact condition for the latter, and when the operation succeeds.
 */
module Accused {
  import opened BeaconTypes
  import opened Accessors
  import opened Mutators
  import opened BlockProcessing
  import opened Turn
  import opened Arith
  import Sorting

  /** `v` is named by one of the two attestations. */
  predicate Named(a: AttesterSlashing, v: ValidatorIndex) {
    v in AllIndices(a.attestation1) || v in AllIndices(a.attestation2)
  }

  predicate NamedTwice(a: AttesterSlashing, v: ValidatorIndex) {
    v in AllIndices(a.attestation1) && v in AllIndices(a.attestation2)
  }

  predicate SlashableNow(c: Config, s: BeaconState, v: ValidatorIndex)
    requires ValidConfig(c)
  {
    && v < |s.validators| && !s.validators[v].slashed
    && s.validators[v].activationEpoch <= CurrentEpoch(c, s) < s.validators[v].withdrawableEpoch
  }

  predicate BecomesSlashed(s: BeaconState, s': BeaconState, v: ValidatorIndex) {
    v < |s.validators| && v < |s'.validators| && !s.validators[v].slashed && s'.validators[v].slashed
  }

  lemma AccusedAreNamed(a: AttesterSlashing, v: ValidatorIndex)
    ensures v in AccusedIndices(a) <==> Named(a, v)
  {
    hide Sorting.Sort, Sorting.Dedup;
    var named := AllIndices(a.attestation1) + AllIndices(a.attestation2);
    assert v in named <==> Named(a, v);
  }

  /** A slashing marks one record and touches no other. */
  lemma {:induction false} SlashMarksOne(c: Config, s: BeaconState, i: ValidatorIndex, v: ValidatorIndex)
    requires Shape(c, s) && i < |s.validators| && v < |s.validators| && SlashValidator(c, s, i, None).Ok?
    ensures var s' := SlashValidator(c, s, i, None).value;
      && |s'.validators| == |s.validators|
      && (if v == i then s'.validators[v].slashed else s'.validators[v] == s.validators[v])
  {
    hide ExitQueueEpoch, ProposerIndex, Div, Mod;
  }

  /** Slashing a list slashes exactly those in it who could be slashed at the start. */
  lemma {:induction false} SlashAllSlashes(c: Config, s: BeaconState, indices: seq<ValidatorIndex>, v: ValidatorIndex)
    requires Shape(c, s) && SlashAll(c, s, indices).Ok? && v < |s.validators|
    ensures var s' := SlashAll(c, s, indices).value.0;
      && (s'.validators[v].slashed <==> s.validators[v].slashed || (v in indices && SlashableNow(c, s, v)))
      && (s'.validators[v].slashed || s'.validators[v] == s.validators[v])
    decreases |indices|
  {
    hide SlashValidator;
    if indices != [] {
      var n := |indices| - 1;
      assert indices == indices[..n] + [indices[n]];
      SlashAllSlashes(c, s, indices[..n], v);
      var before := SlashAll(c, s, indices[..n]).value.0;
      if before.validators[indices[n]].IsSlashable(CurrentEpoch(c, before)) {
        SlashMarksOne(c, before, indices[n], v);
      }
    }
  }

  /** The flag tells whether anyone could be slashed. */
  lemma {:induction false} SlashAllFlag(c: Config, s: BeaconState, indices: seq<ValidatorIndex>)
    requires Shape(c, s) && SlashAll(c, s, indices).Ok?
    ensures SlashAll(c, s, indices).value.1 <==> exists k :: 0 <= k < |indices| && SlashableNow(c, s, indices[k])
    decreases |indices|
  {
    hide SlashValidator;
    if indices != [] {
      var n := |indices| - 1;
      SlashAllFlag(c, s, indices[..n]);
      var before := SlashAll(c, s, indices[..n]).value.0;
      SlashAllSlashes(c, s, indices[..n], indices[n]);
      if SlashableNow(c, s, indices[n]) && before.validators[indices[n]].slashed {
        var k :| 0 <= k < n && indices[..n][k] == indices[n];
        assert SlashableNow(c, s, indices[k]);
      }
    }
  }

  /** After a successful attester slashing the slashed are those of before and everyone named by either
      attestation who could be slashed. */
  lemma {:induction false} NamedAreSlashed(c: Config, s: BeaconState, a: AttesterSlashing, v: ValidatorIndex)
    requires Shape(c, s) && ProcessAttesterSlashing(c, s, a).Ok? && v < |s.validators|
    ensures var s' := ProcessAttesterSlashing(c, s, a).value;
      && |s'.validators| == |s.validators|
      && (s'.validators[v].slashed <==> s.validators[v].slashed || (Named(a, v) && SlashableNow(c, s, v)))
  {
    hide SlashAll, CheckAttesterSlashing, AccusedIndices;
    SlashAllSlashes(c, s, AccusedIndices(a), v);
    AccusedAreNamed(a, v);
  }

  /** The same about everyone at once. */
  lemma {:induction false} WhoIsSlashed(c: Config, s: BeaconState, a: AttesterSlashing)
    requires Shape(c, s)
    ensures var r := ProcessAttesterSlashing(c, s, a);
      r.Ok? ==>
        && |r.value.validators| == |s.validators|
        && forall v: ValidatorIndex :: v < |s.validators| ==>
             (r.value.validators[v].slashed <==> s.validators[v].slashed || (Named(a, v) && SlashableNow(c, s, v)))
  {
    hide ProcessAttesterSlashing, Named, SlashableNow;
    var r := ProcessAttesterSlashing(c, s, a);
    if r.Ok? {
      assert |r.value.validators| == |s.validators| by { SameLength(c, s, a); }
      forall v: ValidatorIndex | v < |s.validators|
        ensures r.value.validators[v].slashed <==> s.validators[v].slashed || (Named(a, v) && SlashableNow(c, s, v))
      {
        NamedAreSlashed(c, s, a, v);
      }
    }
  }

  lemma SameLength(c: Config, s: BeaconState, a: AttesterSlashing)
    requires Shape(c, s) && ProcessAttesterSlashing(c, s, a).Ok?
    ensures |ProcessAttesterSlashing(c, s, a).value.validators| == |s.validators|
  {
    hide SlashAll, CheckAttesterSlashing, AccusedIndices;
  }

  /** Only validators who signed both attestations are slashed exactly when nobody else named can be. */
  lemma {:induction false} OnlyCommonSlashed(c: Config, s: BeaconState, a: AttesterSlashing)
    requires Shape(c, s) && ProcessAttesterSlashing(c, s, a).Ok?
    ensures (forall v :: BecomesSlashed(s, ProcessAttesterSlashing(c, s, a).value, v) ==> NamedTwice(a, v))
       <==> (forall v :: Named(a, v) && SlashableNow(c, s, v) ==> NamedTwice(a, v))
  {
    hide ProcessAttesterSlashing, Named, NamedTwice;
    var s' := ProcessAttesterSlashing(c, s, a).value;
    forall v: ValidatorIndex
      ensures BecomesSlashed(s, s', v) <==> Named(a, v) && SlashableNow(c, s, v)
    {
      if v < |s.validators| {
        NamedAreSlashed(c, s, a, v);
      }
    }
  }

  // When it succeeds

  lemma {:induction false} SlashSucceeds(c: Config, s: BeaconState, i: ValidatorIndex)
    requires Shape(c, s) && i < |s.validators| && CurrentEpoch(c, s) < FAR_FUTURE_EPOCH && ProposerIndex(c, s).Ok?
    ensures SlashValidator(c, s, i, None).Ok?
  {
    hide ProposerIndex, MarkSlashed, Div;
    MarkKeepsTurn(c, s, i);
    SameProposer(c, s, MarkSlashed(c, s, i));
  }

  lemma {:induction false} SlashAllSucceeds(c: Config, s: BeaconState, indices: seq<ValidatorIndex>)
    requires Shape(c, s) && InRange(indices, |s.validators|)
    requires CurrentEpoch(c, s) < FAR_FUTURE_EPOCH && ProposerIndex(c, s).Ok?
    ensures SlashAll(c, s, indices).Ok?
    decreases |indices|
  {
    hide ProposerIndex, SlashValidator, SameTurn;
    if indices != [] {
      var n := |indices| - 1;
      SlashAllSucceeds(c, s, indices[..n]);
      SlashAllKeepsTurn(c, s, indices[..n]);
      var before := SlashAll(c, s, indices[..n]).value.0;
      SameProposer(c, s, before);
      SlashSucceeds(c, before, indices[n]);
    }
  }

  lemma CheckedAreRegistered(c: Config, s: BeaconState, a: AttesterSlashing)
    requires ValidConfig(c) && CheckAttesterSlashing(c, s, a).Ok?
    ensures InRange(AccusedIndices(a), |s.validators|)
  {
    hide Domain;
    var accused := AccusedIndices(a);
    forall k | 0 <= k < |accused|
      ensures accused[k] < |s.validators|
    {
      AccusedAreNamed(a, accused[k]);
    }
  }

  /** It succeeds exactly when the two attestations pass the checks and name someone who can be slashed. */
  lemma {:induction false} SlashingSucceeds(c: Config, s: BeaconState, a: AttesterSlashing)
    requires Shape(c, s) && CurrentEpoch(c, s) < FAR_FUTURE_EPOCH && ProposerIndex(c, s).Ok?
    ensures ProcessAttesterSlashing(c, s, a).Ok?
       <==> CheckAttesterSlashing(c, s, a).Ok? && exists v :: Named(a, v) && SlashableNow(c, s, v)
  {
    hide ProposerIndex, SlashAll, CheckAttesterSlashing, AccusedIndices, SlashableNow;
    if CheckAttesterSlashing(c, s, a).Ok? {
      var accused := AccusedIndices(a);
      CheckedAreRegistered(c, s, a);
      SlashAllSucceeds(c, s, accused);
      SlashAllFlag(c, s, accused);
      forall k | 0 <= k < |accused|
        ensures Named(a, accused[k])
      {
        AccusedAreNamed(a, accused[k]);
      }
      forall v | Named(a, v) && SlashableNow(c, s, v)
        ensures exists k :: 0 <= k < |accused| && SlashableNow(c, s, accused[k])
      {
        AccusedAreNamed(a, v);
      }
    }
  }

  /** Two validators who signed one attestation each are both slashed. */
  lemma {:induction false} BothAreSlashed(c: Config, s: BeaconState, a: AttesterSlashing, i: ValidatorIndex,
                                          j: ValidatorIndex)
    requires Shape(c, s) && CurrentEpoch(c, s) < FAR_FUTURE_EPOCH && ProposerIndex(c, s).Ok?
    requires i != j && SlashableNow(c, s, i) && SlashableNow(c, s, j)
    requires AllIndices(a.attestation1) == [i] && AllIndices(a.attestation2) == [j]
    requires CheckAttesterSlashing(c, s, a).Ok?
    ensures var r := ProcessAttesterSlashing(c, s, a);
      && r.Ok? && BecomesSlashed(s, r.value, i) && BecomesSlashed(s, r.value, j)
      && !NamedTwice(a, i) && !NamedTwice(a, j)
  {
    hide ProposerIndex, ProcessAttesterSlashing, CheckAttesterSlashing;
    assert Named(a, i) && Named(a, j);
    SlashingSucceeds(c, s, a);
    NamedAreSlashed(c, s, a, i);
    NamedAreSlashed(c, s, a, j);
  }

  // Proposer slashings

  /** Whether two headers convict the proposer of their slot. */
  predicate Convicts(c: Config, s: BeaconState, p: ProposerSlashing)
    requires ValidConfig(c)
  {
    && p.header1.slot == p.header2.slot && p.header1 != p.header2 && SlashableNow(c, s, p.proposerIndex)
    && HeaderSigned(c, s, s.validators[p.proposerIndex].pubkey, p.header1)
    && HeaderSigned(c, s, s.validators[p.proposerIndex].pubkey, p.header2)
  }

  /** A proposer slashing succeeds exactly when two different headers of one slot are signed by a slashable
      proposer, and slashes that proposer and nobody else. */
  lemma {:induction false} ProposerIsSlashed(c: Config, s: BeaconState, p: ProposerSlashing, v: ValidatorIndex)
    requires Shape(c, s) && CurrentEpoch(c, s) < FAR_FUTURE_EPOCH && ProposerIndex(c, s).Ok? && v < |s.validators|
    ensures ProcessProposerSlashing(c, s, p).Ok? <==> Convicts(c, s, p)
    ensures ProcessProposerSlashing(c, s, p).Ok? ==>
      var s' := ProcessProposerSlashing(c, s, p).value;
      && |s'.validators| == |s.validators|
      && (s'.validators[v].slashed <==> s.validators[v].slashed || v == p.proposerIndex)
  {
    hide ProposerIndex, SlashValidator, HeaderSigned;
    if CheckProposerSlashing(c, s, p).Ok? {
      SlashSucceeds(c, s, p.proposerIndex);
      SlashMarksOne(c, s, p.proposerIndex, v);
    }
  }
}
