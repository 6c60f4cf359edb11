/**
 What is justified and finalized, said by which epochs gathered two thirds: over every run of
 consecutive ballots, and over every run of the state machine.
 */
module Finalization {
  import opened Bytes
  import opened BeaconTypes
  import opened Accessors
  import opened EpochProcessing
  import opened Transition
  import opened RingHistory
  import opened FinalityHistory
  import opened Arith
  import opened J = Justification

  // Ballots

  /** `e` is the latest epoch that gathered two thirds, or zero when none did. */
  predicate LatestReached(ballots: seq<Ballot>, e: Epoch) {
    && (e == 0 || (e <= |ballots| + 1 && Reached(ballots, e)))
    && forall d :: e < d <= |ballots| + 1 ==> !Reached(ballots, d)
  }

  /** The checkpoint under which epoch `e` was last counted to two thirds. */
  function PointOf(genesis: Checkpoint, ballots: seq<Ballot>, e: Epoch): Checkpoint
    requires e == 0 || (e <= |ballots| + 1 && Reached(ballots, e))
  {
    if e == 0 then genesis
    else if e <= |ballots| && ballots[e - 1].PreviousReached() then ballots[e - 1].previous
    else ballots[e - 2].current
  }

  predicate IsJustified(genesis: Checkpoint, ballots: seq<Ballot>, p: Checkpoint) {
    LatestReached(ballots, p.epoch) && p == PointOf(genesis, ballots, p.epoch)
  }

  lemma {:induction false} JustifiedIsUnique(genesis: Checkpoint, ballots: seq<Ballot>, p: Checkpoint, q: Checkpoint)
    requires IsJustified(genesis, ballots, p) && IsJustified(genesis, ballots, q)
    ensures p == q
  {
    hide Reached, PointOf;
  }

  lemma {:induction false} JustifiedStep(genesis: Checkpoint, ballots: seq<Ballot>, f: Finality)
    requires genesis.epoch == 0 && Consecutive(ballots) && |ballots| >= 1
    requires IsJustified(genesis, ballots[..|ballots| - 1], f.currentJustified)
    ensures IsJustified(genesis, ballots, Justified(f, ballots[|ballots| - 1]))
  {
    var n := |ballots|;
    var before, b := ballots[..n - 1], ballots[n - 1];
    forall d: nat | d <= n + 1
      ensures Reached(ballots, d) <==> if d == n + 1 then b.CurrentReached()
                                       else Reached(before, d) || (d == n && b.PreviousReached())
    {
    }
  }

  /** After every run of ballots the justified checkpoint is that of the latest epoch that gathered two
      thirds, and the previous one is what was justified one ballot before. */
  lemma {:induction false} RunJustifies(genesis: Checkpoint, ballots: seq<Ballot>)
    requires genesis.epoch == 0 && Consecutive(ballots)
    ensures IsJustified(genesis, ballots, After(Start(genesis), ballots).currentJustified)
    ensures After(Start(genesis), ballots).previousJustified
         == if ballots == [] then genesis else After(Start(genesis), ballots[..|ballots| - 1]).currentJustified
    decreases |ballots|
  {
    hide IsJustified, Justified;
    if ballots == [] {
      NothingJustified(genesis);
    } else {
      RunJustifies(genesis, ballots[..|ballots| - 1]);
      JustifiedStep(genesis, ballots, After(Start(genesis), ballots[..|ballots| - 1]));
    }
  }

  lemma NothingJustified(genesis: Checkpoint)
    requires genesis.epoch == 0
    ensures IsJustified(genesis, [], genesis)
  {
  }

  ghost predicate AllReached(ballots: seq<Ballot>, from: nat, to: nat) {
    forall e :: from <= e <= to ==> Reached(ballots, e)
  }

  /**
   Over every run of ballots, the last of them being about epochs `n` and `n + 1`: where `one` and `two`
   are the checkpoints justified one and two ballots before, the finalized checkpoint becomes
   `one` when it is of epoch `n` and `n` and `n + 1` gathered two thirds, or of epoch `n - 1` and
   `n - 1` to `n + 1` did; else `two` when it is of epoch `n - 1` and `n - 1` and `n` did, or of epoch
   `n - 2` and `n - 2` to `n` did; else it stays.
   */
  lemma {:induction false} RunFinalizes(genesis: Checkpoint, ballots: seq<Ballot>, one: Checkpoint, two: Checkpoint)
    requires genesis.epoch == 0 && Consecutive(ballots) && |ballots| >= 1
    requires IsJustified(genesis, ballots[..|ballots| - 1], one)
    requires IsJustified(genesis, ballots[..Max(|ballots| - 2, 0)], two)
    ensures var n := |ballots|;
      After(Start(genesis), ballots).finalized
      == if one.epoch == n && AllReached(ballots, n, n + 1) then one
         else if one.epoch + 1 == n && AllReached(ballots, n - 1, n + 1) then one
         else if two.epoch + 1 == n && AllReached(ballots, n - 1, n) then two
         else if two.epoch + 2 == n && AllReached(ballots, n - 2, n) then two
         else After(Start(genesis), ballots[..n - 1]).finalized
  {
    var n := |ballots|;
    var before := ballots[..n - 1];
    var f, f' := After(Start(genesis), before), After(Start(genesis), ballots);
    RunJustifies(genesis, before);
    JustifiedIsUnique(genesis, before, one, f.currentJustified);
    if n >= 2 {
      assert before[..n - 2] == ballots[..n - 2];
      RunJustifies(genesis, ballots[..n - 2]);
      JustifiedIsUnique(genesis, ballots[..n - 2], two, f.previousJustified);
    } else {
      NothingJustified(genesis);
      JustifiedIsUnique(genesis, [], two, genesis);
    }
    RunKeepsRecord(genesis, ballots);
    SpansAreBits(f', ballots);
  }

  lemma SpansAreBits(f: Finality, ballots: seq<Ballot>)
    requires |f.bits| == 4 && BitsRecord(f, ballots) && |ballots| >= 1
    ensures var n := |ballots|;
      && (AllReached(ballots, n, n + 1) <==> f.bits[0] && f.bits[1])
      && (AllReached(ballots, n - 1, n + 1) <==> f.bits[0] && f.bits[1] && f.bits[2])
      && (AllReached(ballots, n - 1, n) <==> f.bits[1] && f.bits[2])
      && (n >= 2 ==> (AllReached(ballots, n - 2, n) <==> f.bits[1] && f.bits[2] && f.bits[3]))
  {
    hide Reached;
    var n := |ballots|;
    assert f.bits[0] <==> Reached(ballots, n + 1);
    assert f.bits[1] <==> Reached(ballots, n);
    assert f.bits[2] <==> Reached(ballots, n - 1);
    assert n >= 2 ==> (f.bits[3] <==> Reached(ballots, n - 2));
  }

  /** Two consecutive epochs that each gather two thirds while they are current finalize the first. */
  lemma {:induction false} OnTimeTwice(genesis: Checkpoint, ballots: seq<Ballot>)
    requires genesis.epoch == 0 && Consecutive(ballots) && |ballots| >= 2
    requires var n := |ballots|; ballots[n - 2].CurrentReached() && ballots[n - 1].CurrentReached()
    ensures After(Start(genesis), ballots).finalized == ballots[|ballots| - 2].current
  {
    var n := |ballots|;
    var before := ballots[..n - 1];
    var p := ballots[n - 2].current;
    assert Reached(before, n) && IsJustified(genesis, before, p);
    RunJustifies(genesis, ballots[..n - 2]);
    assert AllReached(ballots, n, n + 1);
    RunFinalizes(genesis, ballots, p, After(Start(genesis), ballots[..n - 2]).currentJustified);
  }

  predicate BothReached(ballots: seq<Ballot>, e: Epoch) {
    Reached(ballots, e) && Reached(ballots, e + 1)
  }

  /** Where no two consecutive epochs gather two thirds, nothing is ever finalized. */
  lemma {:induction false} NeverTwice(genesis: Checkpoint, ballots: seq<Ballot>)
    requires genesis.epoch == 0 && Consecutive(ballots)
    requires forall e :: 0 <= e <= |ballots| ==> !BothReached(ballots, e)
    ensures After(Start(genesis), ballots).finalized == genesis
    decreases |ballots|
  {
    hide Process;
    var n := |ballots|;
    if n > 0 {
      var before := ballots[..n - 1];
      forall e | 0 <= e <= n - 1
        ensures !BothReached(before, e)
      {
        FewerReached(ballots, e);
      }
      NeverTwice(genesis, before);
      RunJustifies(genesis, before);
      RunJustifies(genesis, ballots[..Max(n - 2, 0)]);
      assert !BothReached(ballots, n) && !BothReached(ballots, n - 1);
      RunFinalizes(genesis, ballots, After(Start(genesis), before).currentJustified,
                   After(Start(genesis), ballots[..Max(n - 2, 0)]).currentJustified);
    }
  }

  lemma FewerReached(ballots: seq<Ballot>, e: Epoch)
    requires ballots != [] && !BothReached(ballots, e)
    ensures !BothReached(ballots[..|ballots| - 1], e)
  {
    assert forall d: nat :: Reached(ballots[..|ballots| - 1], d) ==> Reached(ballots, d);
  }

  // Runs

  /** In every state of a run the justified checkpoint is the default one, or of an epoch that had its
      quorum; and no later epoch had. */
  lemma {:induction false} RunJustifiesLatest(c: Config, t: seq<BeaconState>, k: nat, x: Epoch)
    requires Run(c, t) && k < |t|
    ensures var p := t[k].currentJustifiedCheckpoint;
      && (p == ORIGIN || (p.epoch >= 1 && HadQuorum(c, t, k, p.epoch)))
      && (x > p.epoch ==> !HadQuorum(c, t, k, x))
  {
    hide Step, IsGenesis, HadQuorum, EpochOf, Cast, After, Start, Reached, PointOf;
    var ends, ballots := RunFeedsJustifier(c, t, k);
    RunJustifies(ORIGIN, ballots);
    var p := t[k].currentJustifiedCheckpoint;
    if p.epoch == 0 {
      OriginPoint(ballots);
    } else {
      ReachedIsQuorum(c, t, k, ends, ballots, p.epoch);
    }
    if x > p.epoch {
      ReachedIsQuorum(c, t, k, ends, ballots, x);
      ReachedInRange(ballots, x);
    }
  }

  lemma OriginPoint(ballots: seq<Ballot>)
    ensures PointOf(ORIGIN, ballots, 0) == ORIGIN
  {
  }

  lemma ReachedInRange(ballots: seq<Ballot>, x: Epoch)
    ensures Reached(ballots, x) ==> x <= |ballots| + 1
  {
  }

  ghost predicate HadQuorums(c: Config, t: seq<BeaconState>, k: nat, from: nat, to: nat)
    requires ValidConfig(c)
  {
    forall x :: from <= x <= to ==> HadQuorum(c, t, k, x)
  }

  /** What the step that ends epoch `e` of a run finalizes, by which of the epochs up to `e` had their
      quorum and by the two justified checkpoints before the step. */
  lemma {:induction false} RunFinalizesQuorums(c: Config, t: seq<BeaconState>, k: nat)
    requires Run(c, t) && EndsEpoch(c, t, k) && CurrentEpoch(c, t[k]) >= 2
    ensures var e := CurrentEpoch(c, t[k]);
      var one, two := t[k].currentJustifiedCheckpoint, t[k].previousJustifiedCheckpoint;
      t[k + 1].finalizedCheckpoint
      == if one.epoch + 1 == e && HadQuorums(c, t, k + 1, e - 1, e) then one
         else if one.epoch + 2 == e && HadQuorums(c, t, k + 1, e - 2, e) then one
         else if two.epoch + 2 == e && HadQuorums(c, t, k + 1, e - 2, e - 1) then two
         else if two.epoch + 3 == e && HadQuorums(c, t, k + 1, e - 3, e - 1) then two
         else t[k].finalizedCheckpoint
  {
    hide Step, IsGenesis, HadQuorum, EpochOf, EpochBallot, ProcessEpoch;
    RunEpochEnd(c, t, k);
    StepFinality(c, t[k], t[k + 1]);
    BallotEpochs(c, ProcessSlot(c, t[k]));
    QuorumsAreBits(c, t, k);
  }

  lemma {:induction false} QuorumsAreBits(c: Config, t: seq<BeaconState>, k: nat)
    requires Run(c, t) && EndsEpoch(c, t, k) && CurrentEpoch(c, t[k]) >= 2
    ensures |t[k + 1].justificationBits| == 4
    ensures var e, bits := CurrentEpoch(c, t[k]), t[k + 1].justificationBits;
      && (HadQuorums(c, t, k + 1, e - 1, e) <==> bits[0] && bits[1])
      && (HadQuorums(c, t, k + 1, e - 2, e) <==> bits[0] && bits[1] && bits[2])
      && (HadQuorums(c, t, k + 1, e - 2, e - 1) <==> bits[1] && bits[2])
      && (e >= 3 ==> (HadQuorums(c, t, k + 1, e - 3, e - 1) <==> bits[1] && bits[2] && bits[3]))
  {
    hide Step, IsGenesis, HadQuorum, EpochOf;
    var e := CurrentEpoch(c, t[k]);
    RunBitsRecordQuorums(c, t, k + 1, 0);
    RunBitsRecordQuorums(c, t, k + 1, 1);
    RunBitsRecordQuorums(c, t, k + 1, 2);
    RunBitsRecordQuorums(c, t, k + 1, 3);
    NoQuorumForOrigin(c, t, k + 1);
  }

  lemma NoQuorumForOrigin(c: Config, t: seq<BeaconState>, k: nat)
    requires ValidConfig(c)
    ensures !HadQuorum(c, t, k, 0)
  {
    hide AttestingTargetBalance, TotalActiveBalance, ProcessSlot, EpochOf;
  }

  /** Inside an epoch of a run nothing is justified or finalized. */
  lemma {:induction false} FinalityRests(c: Config, t: seq<BeaconState>, i: nat, j: nat)
    requires Run(c, t) && i <= j < |t| && CurrentEpoch(c, t[i]) == CurrentEpoch(c, t[j])
    ensures FinalityOf(t[i]) == FinalityOf(t[j])
    decreases j
  {
    hide Step, IsGenesis, EpochBallot, Process, Div;
    if i < j {
      SlotsGrow(c, t, i, j - 1);
      SlotsGrow(c, t, j - 1, j);
      DivMonotone(t[i].slot, t[j - 1].slot, c.slotsPerEpoch);
      DivMonotone(t[j - 1].slot, t[j].slot, c.slotsPerEpoch);
      FinalityRests(c, t, i, j - 1);
      assert Step(c, t[j - 1], t[j - 1 + 1]);
      StepKeepsShape(c, t[j - 1], t[j]);
      StepFinality(c, t[j - 1], t[j]);
    }
  }

  /** A quorum for the epoch that ends justifies its checkpoint. */
  lemma {:induction false} OnTimeJustifies(c: Config, t: seq<BeaconState>, j: nat, x: Epoch)
    requires Run(c, t) && x >= 2 && QuorumAt(c, t, j, x) && CurrentEpoch(c, t[j]) == x
    ensures var root := BlockRoot(c, ProcessSlot(c, t[j]), x);
      root.Ok? && t[j + 1].currentJustifiedCheckpoint == Checkpoint(x, root.value)
  {
    hide Step, IsGenesis, ProcessEpoch, AttestingTargetBalance, BlockRoot, TotalActiveBalance, Div;
    RunEpochEnd(c, t, j);
    StepFinality(c, t[j], t[j + 1]);
  }

  /** Two consecutive epochs of a run that each have their quorum when they end finalize the first, under the
      root that was its own when it ended. */
  lemma {:induction false} OnTimeTwiceFinalizes(c: Config, t: seq<BeaconState>, j: nat, k: nat, x: Epoch)
    requires Run(c, t) && x >= 2
    requires QuorumAt(c, t, j, x) && CurrentEpoch(c, t[j]) == x
    requires QuorumAt(c, t, k, x + 1) && CurrentEpoch(c, t[k]) == x + 1
    ensures var root := BlockRoot(c, ProcessSlot(c, t[j]), x);
      root.Ok? && t[k + 1].finalizedCheckpoint == Checkpoint(x, root.value)
  {
    hide Step, IsGenesis, QuorumAt, Div, BlockRoot;
    QuorumEnds(c, t, j, x);
    QuorumEnds(c, t, k, x + 1);
    if k <= j {
      SlotsGrow(c, t, k, j);
      DivMonotone(t[k].slot, t[j].slot, c.slotsPerEpoch);
    }
    OnTimeJustifies(c, t, j, x);
    FinalityRests(c, t, j + 1, k);
    assert HadQuorum(c, t, k + 1, x) && HadQuorum(c, t, k + 1, x + 1);
    RunFinalizesQuorums(c, t, k);
  }

  lemma QuorumEnds(c: Config, t: seq<BeaconState>, j: nat, x: Epoch)
    requires ValidConfig(c) && QuorumAt(c, t, j, x)
    ensures EndsEpoch(c, t, j)
  {
    hide AttestingTargetBalance, TotalActiveBalance, ProcessSlot, EpochOf;
  }
}
