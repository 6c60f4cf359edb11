/** The activation queue of one registry pass: bounded by the churn, first come first served. */
module ActivationQueue {
  import opened BeaconTypes
  import opened Accessors
  import opened Mutators
  import opened Lifecycle
  import opened EpochProcessing
  import opened Evolution
  import opened Arith
  import Sorting

  /** The registry as the queue finds it, after eligibility and ejections. */
  function Swept(c: Config, s: BeaconState): BeaconState
    requires Shape(c, s)
  {
    SweepRegistry(c, s, |s.validators|)
  }

  predicate Waiting(c: Config, s: BeaconState, i: ValidatorIndex)
    requires Shape(c, s) && i < |s.validators|
  {
    && Swept(c, s).validators[i].activationEligibilityEpoch != FAR_FUTURE_EPOCH
    && Swept(c, s).validators[i].activationEpoch == FAR_FUTURE_EPOCH
  }

  /** The pass gives a waiting validator its activation epoch. */
  predicate Activated(c: Config, s: BeaconState, i: ValidatorIndex)
    requires Shape(c, s) && i < |s.validators|
  {
    Waiting(c, s, i) && ProcessRegistry(c, s).validators[i].activationEpoch != FAR_FUTURE_EPOCH
  }

  /** Earlier in line: a smaller eligibility epoch, or the same one and a smaller index. */
  predicate AheadOf(c: Config, s: BeaconState, i: ValidatorIndex, j: ValidatorIndex)
    requires Shape(c, s) && i < |s.validators| && j < |s.validators|
  {
    var vs := Swept(c, s).validators;
    var a, b := vs[i].activationEligibilityEpoch, vs[j].activationEligibilityEpoch;
    a < b || (a == b && i < j)
  }

  lemma {:induction false} ActivatedIsAdmitted(c: Config, s: BeaconState, i: ValidatorIndex)
    requires Shape(c, s) && i < |s.validators| && Waiting(c, s, i)
    requires ActivationExitEpoch(c, CurrentEpoch(c, s)) < FAR_FUTURE_EPOCH
    ensures Activated(c, s, i) <==> i in Admitted(c, Swept(c, s))
  {
    hide SweepRegistry, Admitted;
  }

  lemma {:induction false} QueueInLine(c: Config, s: BeaconState)
    requires Shape(c, s)
    ensures Sorting.OrderedBy(ActivationQueue(c, s), EligibilityKey(s.validators))
  {
    Sorting.StableSortOrders(QueuedIndices(c, s, |s.validators|), EligibilityKey(s.validators));
  }

  lemma {:induction false} WaitingIsQueued(c: Config, s: BeaconState, i: ValidatorIndex)
    requires i < |s.validators|
    requires s.validators[i].activationEligibilityEpoch != FAR_FUTURE_EPOCH
    requires s.validators[i].activationEpoch == FAR_FUTURE_EPOCH
    requires ActivationExitEpoch(c, s.finalizedCheckpoint.epoch) <= FAR_FUTURE_EPOCH
    ensures i in ActivationQueue(c, s)
  {
    Sorting.SortKeepsMembers(QueuedIndices(c, s, |s.validators|), EligibilityKey(s.validators), i);
  }

  /** Nobody is activated past someone who was ahead of them. */
  lemma {:induction false} NobodyIsSkipped(c: Config, s: BeaconState, i: ValidatorIndex, j: ValidatorIndex)
    requires Shape(c, s) && i < |s.validators| && j < |s.validators|
    requires ActivationExitEpoch(c, CurrentEpoch(c, s)) < FAR_FUTURE_EPOCH
    requires ActivationExitEpoch(c, s.finalizedCheckpoint.epoch) <= FAR_FUTURE_EPOCH
    requires Activated(c, s, i) && Waiting(c, s, j) && AheadOf(c, s, j, i)
    ensures Activated(c, s, j)
  {
    hide SweepRegistry, ProcessRegistry;
    var w := Swept(c, s);
    var queue := EpochProcessing.ActivationQueue(c, w);
    ActivatedIsAdmitted(c, s, i);
    ActivatedIsAdmitted(c, s, j);
    QueueInLine(c, w);
    WaitingIsQueued(c, w, j);
    hide EpochProcessing.ActivationQueue;
    var p :| 0 <= p < |Admitted(c, w)| && Admitted(c, w)[p] == i;
    assert queue[p] == i;
    var q :| 0 <= q < |queue| && queue[q] == j;
    if p < q {
      assert Sorting.Before(queue[p], queue[q], EligibilityKey(w.validators));
    } else {
      assert Admitted(c, w)[q] == j;
    }
  }

  ghost function ActivatedSet(c: Config, s: BeaconState): set<ValidatorIndex>
    requires Shape(c, s)
  {
    set i: nat | i < |s.validators| && Activated(c, s, i)
  }

  lemma {:induction false} MembersAtMostLength(xs: seq<nat>, members: set<nat>)
    requires forall x :: x in members ==> x in xs
    ensures |members| <= |xs|
  {
    if xs == [] {
      assert members == {};
    } else {
      var n := |xs| - 1;
      assert xs == xs[..n] + [xs[n]];
      MembersAtMostLength(xs[..n], members - {xs[n]});
    }
  }

  /** A pass activates at most as many validators as the churn limit allows. */
  lemma {:induction false} ActivatesWithinChurn(c: Config, s: BeaconState)
    requires Ready(c, s)
    ensures |ActivatedSet(c, s)| <= ChurnLimit(c, s)
  {
    hide SweepRegistry, ProcessRegistry, Admitted;
    var w := Swept(c, s);
    forall i | i in ActivatedSet(c, s)
      ensures i in Admitted(c, w)
    {
      ActivatedIsAdmitted(c, s, i);
    }
    MembersAtMostLength(Admitted(c, w), ActivatedSet(c, s));
    SweepFollows(c, s, |s.validators|);
    ActiveSetsFixed(c, CurrentEpoch(c, s), s.validators, w.validators, CurrentEpoch(c, s));
  }

  /** And changes nobody's activity up to the lookahead after the current epoch. */
  lemma {:induction false} RegistryKeepsActive(c: Config, s: BeaconState, x: Epoch)
    requires Ready(c, s) && x <= CurrentEpoch(c, s) + c.maxSeedLookahead
    ensures ActiveIndices(ProcessRegistry(c, s).validators, x) == ActiveIndices(s.validators, x)
  {
    hide ProcessRegistry;
    RegistryFollows(c, s);
    ActiveSetsFixed(c, CurrentEpoch(c, s), s.validators, ProcessRegistry(c, s).validators, x);
  }
}
