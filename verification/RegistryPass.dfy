/**
 What one registry pass decides: who becomes eligible, who is ejected, who is activated, and which
 epoch an exit is queued for.
 */
module RegistryPass {
  import opened BeaconTypes
  import opened Accessors
  import opened Mutators
  import opened Lifecycle
  import opened EpochProcessing
  import opened BlockProcessing
  import opened Evolution
  import opened SlashingHistory
  import opened Arith
  import A = ActivationQueue
  import Sorting

  // The exit queue

  /** An exit may be queued for `e`: nobody is queued for later, and the churn of the epoch is not used up. */
  ghost predicate Open(c: Config, s: BeaconState, e: Epoch)
    requires ValidConfig(c)
  {
    && ActivationExitEpoch(c, CurrentEpoch(c, s)) <= e
    && (forall i :: 0 <= i < |s.validators| && s.validators[i].exitEpoch != FAR_FUTURE_EPOCH ==>
          s.validators[i].exitEpoch <= e)
    && CountExits(s.validators, e) < ChurnLimit(c, s)
  }

  /** An exit is queued for the first such epoch. */
  lemma {:induction false} ExitEpochIsFirst(c: Config, s: BeaconState, e: Epoch)
    requires ValidConfig(c) && ExitQueueEpoch(c, s) < FAR_FUTURE_EPOCH
    ensures Open(c, s, ExitQueueEpoch(c, s))
    ensures Open(c, s, e) ==> ExitQueueEpoch(c, s) <= e
  {
    hide ActiveIndices, EpochOf;
    var epoch := Max(LastExit(s.validators), ActivationExitEpoch(c, CurrentEpoch(c, s)));
    if CountExits(s.validators, epoch) >= ChurnLimit(c, s) {
      CountNone(s.validators, epoch + 1);
    }
  }

  ghost function ExitsIn(vs: seq<Validator>, e: Epoch): set<ValidatorIndex> {
    set i: nat | i < |vs| && vs[i].exitEpoch == e
  }

  /** The count is that of the validators who exit in `e`. */
  lemma {:induction false} CountExitsIsSize(vs: seq<Validator>, e: Epoch)
    ensures CountExits(vs, e) == |ExitsIn(vs, e)|
  {
    if vs != [] {
      var n := |vs| - 1;
      CountExitsIsSize(vs[..n], e);
      var before := ExitsIn(vs[..n], e);
      assert ExitsIn(vs, e) == if vs[n].exitEpoch == e then before + {n} else before;
    }
  }

  // The sweep

  /** Who becomes eligible, and what stays. */
  predicate Swept(c: Config, now: Epoch, v: Validator, v': Validator) {
    && v'.activationEligibilityEpoch
       == (if v.activationEligibilityEpoch == FAR_FUTURE_EPOCH && v.effectiveBalance == c.maxEffectiveBalance
           then now else v.activationEligibilityEpoch)
    && v'.activationEpoch == v.activationEpoch && v'.effectiveBalance == v.effectiveBalance
    && (v'.exitEpoch != FAR_FUTURE_EPOCH
        <==> v.exitEpoch != FAR_FUTURE_EPOCH || (v.IsActive(now) && v.effectiveBalance <= c.ejectionBalance))
    && (v.exitEpoch != FAR_FUTURE_EPOCH ==> v'.exitEpoch == v.exitEpoch)
  }

  lemma {:induction false} SweepOneDecides(c: Config, s: BeaconState, i: ValidatorIndex, j: ValidatorIndex)
    requires Ready(c, s) && i < |s.validators| && j < |s.validators|
    ensures var v' := Eject(c, MarkEligible(c, s, i), i).validators[j];
      if j == i then Swept(c, CurrentEpoch(c, s), s.validators[i], v') else v' == s.validators[j]
  {
    MarkEligibleFollows(c, s, i);
    var s1 := MarkEligible(c, s, i);
    if s1.validators[i].IsActive(CurrentEpoch(c, s1)) && s1.validators[i].effectiveBalance <= c.ejectionBalance {
      InitiateExitKeeps(c, s1, i);
    }
    hide ExitQueueEpoch, RegistryInv, EpochOf;
  }

  /** After `k` validators, those before have been decided on and those after are as they were. */
  lemma {:induction false} SweepDecides(c: Config, s: BeaconState, k: nat, j: ValidatorIndex)
    requires Ready(c, s) && k <= |s.validators| && j < |s.validators|
    ensures var v' := SweepRegistry(c, s, k).validators[j];
      if j < k then Swept(c, CurrentEpoch(c, s), s.validators[j], v') else v' == s.validators[j]
    decreases k
  {
    hide SweepRegistry, Eject, MarkEligible, RegistryInv, Swept;
    SweepUnfolds(c, s, k);
    if k > 0 {
      SweepDecides(c, s, k - 1, j);
      SweepDecides(c, s, k - 1, k - 1);
      SweepFollows(c, s, k - 1);
      SweepOneDecides(c, SweepRegistry(c, s, k - 1), k - 1, j);
    }
  }

  /** After a registry pass: whoever was unmarked at the maximal balance is marked eligible now and nobody else is;
      whoever is active at or below the ejection balance has an exit epoch, and nobody else gets one. */
  lemma {:induction false} PassDecides(c: Config, s: BeaconState, j: ValidatorIndex)
    requires Ready(c, s) && j < |s.validators|
    ensures var now, v, v' := CurrentEpoch(c, s), s.validators[j], ProcessRegistry(c, s).validators[j];
      && v'.activationEligibilityEpoch
         == (if v.activationEligibilityEpoch == FAR_FUTURE_EPOCH && v.effectiveBalance == c.maxEffectiveBalance
             then now else v.activationEligibilityEpoch)
      && (v'.exitEpoch != FAR_FUTURE_EPOCH
          <==> v.exitEpoch != FAR_FUTURE_EPOCH || (v.IsActive(now) && v.effectiveBalance <= c.ejectionBalance))
      && (v.exitEpoch != FAR_FUTURE_EPOCH ==> v'.exitEpoch == v.exitEpoch)
  {
    hide SweepRegistry, Admitted, RegistryInv, EpochOf;
    SweepDecides(c, s, |s.validators|, j);
  }

  // Voluntary exits

  /** A voluntary exit is accepted exactly for a registered, active validator that has served its period and has no
      exit yet, signed and not before its epoch; it gives that validator the next exit epoch and changes no other. */
  lemma {:induction false} VoluntaryExitLeaves(c: Config, s: BeaconState, e: VoluntaryExit, j: ValidatorIndex)
    requires Ready(c, s) && j < |s.validators|
    ensures ProcessVoluntaryExit(c, s, e).Ok? <==> MayLeave(c, s, e)
    ensures ProcessVoluntaryExit(c, s, e).Ok? ==>
      var s' := ProcessVoluntaryExit(c, s, e).value;
      && |s'.validators| == |s.validators|
      && (j != e.validatorIndex ==> s'.validators[j] == s.validators[j])
      && (j == e.validatorIndex ==>
            && Open(c, s, s'.validators[j].exitEpoch) && s'.validators[j].exitEpoch != FAR_FUTURE_EPOCH
            && s'.validators[j].withdrawableEpoch
               == s'.validators[j].exitEpoch + c.minValidatorWithdrawabilityDelay)
  {
    hide ExitQueueEpoch, Open, Domain, EpochOf, RegistryInv;
    if MayLeave(c, s, e) {
      InitiateExitKeeps(c, s, e.validatorIndex);
      QueueEpochIsSet(c, s, e.validatorIndex);
    }
  }

  predicate MayLeave(c: Config, s: BeaconState, e: VoluntaryExit)
    requires ValidConfig(c)
  {
    && e.validatorIndex < |s.validators|
    && var v, now := s.validators[e.validatorIndex], CurrentEpoch(c, s);
       && v.IsActive(now) && v.exitEpoch == FAR_FUTURE_EPOCH && e.epoch <= now
       && v.activationEpoch + c.persistentCommitteePeriod <= now
       && c.crypto.verify(v.pubkey, c.crypto.exitRoot(e.epoch, e.validatorIndex), e.signature,
                          Domain(c, s, DOMAIN_VOLUNTARY_EXIT, Some(e.epoch)))
  }

  lemma QueueEpochIsSet(c: Config, s: BeaconState, i: ValidatorIndex)
    requires Ready(c, s) && i < |s.validators| && s.validators[i].exitEpoch == FAR_FUTURE_EPOCH
    ensures ExitQueueEpoch(c, s) < FAR_FUTURE_EPOCH && Open(c, s, ExitQueueEpoch(c, s))
  {
    hide ExitQueueEpoch, Open, EpochOf;
    QueueEpochIsNear(c, s, i);
    ExitEpochIsFirst(c, s, 0);
  }

  // Activation

  /** The queued validators that are ahead of `i`. */
  ghost function AheadSet(c: Config, s: BeaconState, i: ValidatorIndex): set<ValidatorIndex>
    requires Shape(c, s) && i < |s.validators|
  {
    set j: nat | j < |s.validators| && Queued(c, A.Swept(c, s), j) && A.AheadOf(c, s, j, i)
  }

  lemma QueueIsDistinct(c: Config, s: BeaconState)
    ensures Sorting.Distinct(ActivationQueue(c, s))
  {
    var queued := QueuedIndices(c, s, |s.validators|);
    Sorting.SortPermutes(queued, EligibilityKey(s.validators));
    forall x
      ensures multiset(ActivationQueue(c, s))[x] <= 1
    {
      Sorting.DistinctCounts(queued, x);
    }
    Sorting.CountsDistinct(ActivationQueue(c, s));
  }

  lemma {:induction false} FrontIsAhead(c: Config, s: BeaconState, p: nat)
    requires Shape(c, s) && p < |ActivationQueue(c, A.Swept(c, s))|
    ensures var queue := ActivationQueue(c, A.Swept(c, s));
      AheadSet(c, s, queue[p]) == FirstOf(queue, p)
  {
    hide SweepRegistry, Sorting.StableSort;
    var w := A.Swept(c, s);
    var queue, key := ActivationQueue(c, w), EligibilityKey(w.validators);
    A.QueueInLine(c, w);
    QueueIsDistinct(c, w);
    forall j: nat | j < |s.validators|
      ensures j in AheadSet(c, s, queue[p]) <==> j in FirstOf(queue, p)
    {
      Sorting.SortKeepsMembers(QueuedIndices(c, w, |w.validators|), key, j);
      if j in queue {
        var k :| 0 <= k < |queue| && queue[k] == j;
        if k < p {
          assert Sorting.Before(queue[k], queue[p], key);
        } else if p < k {
          assert Sorting.Before(queue[p], queue[k], key);
        }
      }
    }
    forall k | 0 <= k < p
      ensures queue[k] < |s.validators|
    {
    }
  }

  ghost function FirstOf(queue: seq<nat>, p: nat): set<nat>
    requires p <= |queue|
  {
    set k | 0 <= k < p :: queue[k]
  }

  lemma {:induction false} PrefixSize(queue: seq<nat>, p: nat)
    requires p <= |queue| && Sorting.Distinct(queue)
    ensures |FirstOf(queue, p)| == p
  {
    if p > 0 {
      PrefixSize(queue, p - 1);
      assert FirstOf(queue, p) == FirstOf(queue, p - 1) + {queue[p - 1]};
    }
  }

  /** A waiting validator is activated exactly when fewer are ahead of it than the churn limit lets in. */
  lemma {:induction false} ActivatedWhenNear(c: Config, s: BeaconState, i: ValidatorIndex)
    requires Shape(c, s) && i < |s.validators| && A.Waiting(c, s, i)
    requires ActivationExitEpoch(c, CurrentEpoch(c, s)) < FAR_FUTURE_EPOCH
    requires ActivationExitEpoch(c, s.finalizedCheckpoint.epoch) <= FAR_FUTURE_EPOCH
    ensures A.Activated(c, s, i) <==> |AheadSet(c, s, i)| < ChurnLimit(c, A.Swept(c, s))
  {
    hide SweepRegistry, ProcessRegistry, ActivationQueue, ChurnLimit, AheadSet;
    var w := A.Swept(c, s);
    var queue := ActivationQueue(c, w);
    A.WaitingIsQueued(c, w, i);
    A.ActivatedIsAdmitted(c, s, i);
    var p :| 0 <= p < |queue| && queue[p] == i;
    FrontIsAhead(c, s, p);
    QueueIsDistinct(c, w);
    PrefixSize(queue, p);
    if p < ChurnLimit(c, w) {
      assert Admitted(c, w)[p] == i;
    }
    if i in Admitted(c, w) {
      var q :| 0 <= q < |Admitted(c, w)| && Admitted(c, w)[q] == i;
      assert queue[q] == i;
    }
  }
}
