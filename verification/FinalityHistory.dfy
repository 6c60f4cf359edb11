/**
 Finality over whole runs of the chain: every run drives the justifier with the target balances it
 counted at its own epoch ends, so the order, the bits and the monotonicity of justifier runs hold
 of every reachable state, and every checkpoint root is one that the run recorded.
 */
module FinalityHistory {
  import opened Bytes
  import opened BeaconTypes
  import opened Accessors
  import opened EpochProcessing
  import opened BlockProcessing
  import opened Transition
  import opened Invariants
  import opened RingHistory
  import opened Arith
  import J = Justification

  const ORIGIN := Checkpoint(0, ZERO_HASH)

  /** The ballots of a state of epoch `e` are those about epochs 2 to `e - 1`. */
  function Counted(e: Epoch): nat {
    if e < 2 then 0 else e - 2
  }

  /** A step leaves finality alone, or ends an epoch and feeds the justifier what it counts then. */
  ghost predicate FinalityStep(c: Config, s: BeaconState, s': BeaconState)
    requires Shape(c, s) && Shape(c, s')
  {
    if Counted(CurrentEpoch(c, s')) == Counted(CurrentEpoch(c, s)) then FinalityOf(s') == FinalityOf(s)
    else
      && CurrentEpoch(c, s') == CurrentEpoch(c, s) + 1
      && EpochBallot(c, ProcessSlot(c, s)).Ok?
      && FinalityOf(s') == J.Process(FinalityOf(s), EpochBallot(c, ProcessSlot(c, s)).value)
  }

  lemma {:induction false} EpochFinality(c: Config, s: BeaconState)
    requires Shape(c, s) && ProcessEpoch(c, s).Ok?
    ensures var f := FinalityOf(ProcessEpoch(c, s).value);
            if CurrentEpoch(c, s) < 2 then f == FinalityOf(s)
            else EpochBallot(c, s).Ok? && f == J.Process(FinalityOf(s), EpochBallot(c, s).value)
  {
    hide ProcessEpoch, ProcessRewards, ProcessRegistry, ProcessSlashings, J.Process, EpochBallot;
    var s1, s2, s3, s4 := EpochStages(c, s);
  }

  lemma {:induction false} AdvanceFinality(c: Config, s: BeaconState)
    requires Shape(c, s) && AdvanceSlot(c, s).Ok?
    ensures FinalityStep(c, s, AdvanceSlot(c, s).value)
  {
    hide ProcessEpoch, J.Process, EpochBallot;
    EpochOfNextSlot(c, s.slot);
    var s1 := ProcessSlot(c, s);
    if AtEpochEnd(c, s1) {
      EpochFinality(c, s1);
    }
  }

  lemma {:induction false} StepFinality(c: Config, s: BeaconState, s': BeaconState)
    requires Shape(c, s) && Shape(c, s') && Step(c, s, s')
    ensures FinalityStep(c, s, s')
  {
    hide AdvanceSlot, ApplyOperation, ProcessHeader, ProcessRandao, ProcessEth1Data, EpochBallot;
    var a :| Act(c, s, a) == Ok(s');
    if a.Advance? {
      AdvanceFinality(c, s);
    }
  }

  lemma {:induction false} DepositsKeepFinality(c: Config, s: BeaconState, deposits: seq<Deposit>)
    requires Shape(c, s) && ApplyDeposits(c, s, deposits).Ok?
    ensures OperationFrame(s, ApplyDeposits(c, s, deposits).value)
    decreases |deposits|
  {
    hide ProcessDeposit;
    if deposits != [] {
      DepositsKeepFinality(c, s, deposits[..|deposits| - 1]);
    }
  }

  lemma {:induction false} GenesisFinality(c: Config, s: BeaconState)
    requires ValidConfig(c) && IsGenesis(c, s)
    ensures Shape(c, s) && CurrentEpoch(c, s) == 0 && FinalityOf(s) == J.Start(ORIGIN)
  {
    hide ApplyDeposits;
    var deposits, time, eth1 :| GenesisState(c, deposits, time, eth1) == Ok(s);
    DepositsKeepFinality(c, BlankState(c, time, eth1), deposits);
  }

  lemma StepKeepsShape(c: Config, s: BeaconState, s': BeaconState)
    requires Step(c, s, s')
    ensures Shape(c, s) && Shape(c, s')
  {
    hide Act;
  }

  // The run as a run of the justifier

  /** Step `j` of the run ends epoch `e` and counts `b`. */
  ghost predicate CastAt(c: Config, t: seq<BeaconState>, j: nat, e: Epoch, b: J.Ballot)
    requires ValidConfig(c)
  {
    && EndsEpoch(c, t, j) && CurrentEpoch(c, t[j]) == e && Shape(c, t[j])
    && EpochBallot(c, ProcessSlot(c, t[j])) == Ok(b)
  }

  /** The ballots that the run counted before step `k`, epoch by epoch from the third on. */
  ghost predicate Cast(c: Config, t: seq<BeaconState>, k: nat, ends: seq<nat>, ballots: seq<J.Ballot>)
    requires ValidConfig(c)
  {
    && |ends| == |ballots|
    && forall i :: 0 <= i < |ballots| ==> ends[i] < k && CastAt(c, t, ends[i], i + 2, ballots[i])
  }

  lemma BallotEpochs(c: Config, s: BeaconState)
    requires Shape(c, s) && EpochBallot(c, s).Ok?
    ensures EpochBallot(c, s).value.current.epoch == CurrentEpoch(c, s)
    ensures EpochBallot(c, s).value.previous.epoch == PreviousEpoch(c, s)
  {
    hide AttestingTargetBalance, BlockRoot, TotalActiveBalance, EpochOf;
  }

  /** Every state of a run holds what the justifier holds after the ballots that the run counted. */
  lemma {:induction false} RunFeedsJustifier(c: Config, t: seq<BeaconState>, k: nat)
    returns (ends: seq<nat>, ballots: seq<J.Ballot>)
    requires Run(c, t) && k < |t|
    ensures Shape(c, t[k]) && Cast(c, t, k, ends, ballots)
    ensures J.Consecutive(ballots) && |ballots| == Counted(CurrentEpoch(c, t[k]))
    ensures FinalityOf(t[k]) == J.After(J.Start(ORIGIN), ballots)
  {
    hide Step, IsGenesis, J.Process, J.Start, EpochBallot, EpochOf;
    if k == 0 {
      GenesisFinality(c, t[0]);
      ends, ballots := [], [];
    } else {
      ends, ballots := RunFeedsJustifier(c, t, k - 1);
      var s, s' := t[k - 1], t[k];
      assert Step(c, s, s');
      StepKeepsShape(c, s, s');
      StepFinality(c, s, s');
      if Counted(CurrentEpoch(c, s')) != Counted(CurrentEpoch(c, s)) {
        var b := EpochBallot(c, ProcessSlot(c, s)).value;
        BallotEpochs(c, ProcessSlot(c, s));
        assert CastAt(c, t, k - 1, CurrentEpoch(c, s), b);
        assert (ballots + [b])[..|ballots|] == ballots;
        ends, ballots := ends + [k - 1], ballots + [b];
      }
    }
  }

  /** In every reachable state: the bits record the quorums of the ballots that the run counted,
      finalized, previous and current justified are in order up to the previous epoch, and the
      current justified epoch is that of the lowest set bit. */
  lemma {:induction false} RunFinalityInOrder(c: Config, t: seq<BeaconState>, k: nat)
    returns (ends: seq<nat>, ballots: seq<J.Ballot>)
    requires Run(c, t) && k < |t|
    ensures Shape(c, t[k]) && Cast(c, t, k, ends, ballots) && |ballots| == Counted(CurrentEpoch(c, t[k]))
    ensures J.BitsRecord(FinalityOf(t[k]), ballots)
    ensures J.Ordered(FinalityOf(t[k]), PreviousEpoch(c, t[k]))
    ensures J.LowestBit(FinalityOf(t[k]), Counted(CurrentEpoch(c, t[k])) + 1)
  {
    hide EpochOf, J.Process, CastAt;
    ends, ballots := RunFeedsJustifier(c, t, k);
    J.RunKeepsRecord(ORIGIN, ballots);
  }

  /** At the end of step `j`'s epoch, two thirds of the active balance stand behind the target of epoch `x`. */
  ghost predicate QuorumAt(c: Config, t: seq<BeaconState>, j: nat, x: Epoch)
    requires ValidConfig(c)
  {
    && EndsEpoch(c, t, j) && Shape(c, t[j])
    && (CurrentEpoch(c, t[j]) == x || CurrentEpoch(c, t[j]) == x + 1)
    && CurrentEpoch(c, t[j]) >= 2
    && var s := ProcessSlot(c, t[j]);
       var balance := AttestingTargetBalance(c, s, x);
       balance.Ok? && balance.value * 3 >= TotalActiveBalance(c, s) * 2
  }

  lemma {:induction false} BallotIsQuorum(c: Config, t: seq<BeaconState>, j: nat, e: Epoch, b: J.Ballot)
    requires ValidConfig(c) && CastAt(c, t, j, e, b) && e >= 2
    ensures QuorumAt(c, t, j, e) <==> b.CurrentReached()
    ensures QuorumAt(c, t, j, e - 1) <==> b.PreviousReached()
  {
    hide AttestingTargetBalance, BlockRoot, TotalActiveBalance, EpochOf;
  }

  /** A run ends an epoch once. */
  lemma {:induction false} EndsOnce(c: Config, t: seq<BeaconState>, j: nat, j': nat)
    requires Run(c, t) && EndsEpoch(c, t, j) && EndsEpoch(c, t, j')
    requires CurrentEpoch(c, t[j]) == CurrentEpoch(c, t[j'])
    ensures j == j'
  {
    hide Step, IsGenesis, Div;
    if j < j' {
      SlotsGrow(c, t, j + 1, j');
      DivMonotone(t[j + 1].slot, t[j'].slot, c.slotsPerEpoch);
    } else if j' < j {
      SlotsGrow(c, t, j' + 1, j);
      DivMonotone(t[j' + 1].slot, t[j].slot, c.slotsPerEpoch);
    }
  }

  /** Such a quorum was counted before step `k`. */
  ghost predicate HadQuorum(c: Config, t: seq<BeaconState>, k: nat, x: Epoch)
    requires ValidConfig(c)
  {
    exists j :: 0 <= j < k && QuorumAt(c, t, j, x)
  }

  lemma {:induction false} ReachedHadQuorum(c: Config, t: seq<BeaconState>, k: nat, ends: seq<nat>,
                                            ballots: seq<J.Ballot>, x: Epoch)
    requires ValidConfig(c) && Cast(c, t, k, ends, ballots) && J.Reached(ballots, x)
    ensures HadQuorum(c, t, k, x)
  {
    hide QuorumAt, CastAt;
    if 2 <= x <= |ballots| + 1 && ballots[x - 2].CurrentReached() {
      BallotIsQuorum(c, t, ends[x - 2], x, ballots[x - 2]);
    } else {
      BallotIsQuorum(c, t, ends[x - 1], x + 1, ballots[x - 1]);
    }
  }

  lemma {:induction false} QuorumIsReached(c: Config, t: seq<BeaconState>, k: nat, ends: seq<nat>,
                                           ballots: seq<J.Ballot>, j: nat, x: Epoch)
    requires Run(c, t) && j < k < |t| && Cast(c, t, k, ends, ballots) && QuorumAt(c, t, j, x)
    requires |ballots| == Counted(CurrentEpoch(c, t[k]))
    ensures x >= 1 ==> J.Reached(ballots, x)
  {
    hide Step, Path, IsGenesis, QuorumAt, EpochOf, EpochBallot;
    QuorumWhen(c, t, k, j, x);
    var e := CurrentEpoch(c, t[j]);
    assert CastAt(c, t, ends[e - 2], e, ballots[e - 2]);
    EndsOnce(c, t, j, ends[e - 2]);
    BallotIsQuorum(c, t, j, e, ballots[e - 2]);
  }

  lemma {:induction false} ReachedIsQuorum(c: Config, t: seq<BeaconState>, k: nat, ends: seq<nat>,
                                           ballots: seq<J.Ballot>, x: Epoch)
    requires Run(c, t) && k < |t| && Cast(c, t, k, ends, ballots) && x >= 1
    requires |ballots| == Counted(CurrentEpoch(c, t[k]))
    ensures J.Reached(ballots, x) <==> HadQuorum(c, t, k, x)
  {
    hide Path, IsGenesis, QuorumAt, Cast, J.Reached;
    if J.Reached(ballots, x) {
      ReachedHadQuorum(c, t, k, ends, ballots, x);
    }
    if HadQuorum(c, t, k, x) {
      var j :| 0 <= j < k && QuorumAt(c, t, j, x);
      QuorumIsReached(c, t, k, ends, ballots, j, x);
    }
  }

  lemma {:induction false} QuorumWhen(c: Config, t: seq<BeaconState>, k: nat, j: nat, x: Epoch)
    requires Run(c, t) && j < k < |t| && QuorumAt(c, t, j, x)
    ensures EndsEpoch(c, t, j) && 2 <= CurrentEpoch(c, t[j]) < CurrentEpoch(c, t[k])
    ensures CurrentEpoch(c, t[j]) == x || CurrentEpoch(c, t[j]) == x + 1
  {
    hide Step, IsGenesis, Div, AttestingTargetBalance, TotalActiveBalance;
    SlotsGrow(c, t, j + 1, k);
    DivMonotone(t[j + 1].slot, t[k].slot, c.slotsPerEpoch);
  }

  /** Bit `i` of a reachable state is set exactly when two thirds of the active balance stood behind the
      target of the `i`-th most recent epoch, at its own end or one epoch later. */
  lemma {:induction false} RunBitsRecordQuorums(c: Config, t: seq<BeaconState>, k: nat, i: nat)
    requires Run(c, t) && k < |t| && i < 4
    ensures |t[k].justificationBits| == 4
    ensures t[k].justificationBits[i] <==>
      var e := CurrentEpoch(c, t[k]);
      e >= 2 + i && HadQuorum(c, t, k, e - 1 - i)
  {
    hide Step, IsGenesis, HadQuorum, EpochOf, CastAt;
    var ends, ballots := RunFinalityInOrder(c, t, k);
    var e := CurrentEpoch(c, t[k]);
    if e >= 2 + i {
      ReachedIsQuorum(c, t, k, ends, ballots, e - 1 - i);
    }
  }

  /** Between any two states of a run no checkpoint moves back. */
  lemma {:induction false} RunFinalityNeverDecreases(c: Config, t: seq<BeaconState>, i: nat, j: nat)
    requires Run(c, t) && i <= j < |t|
    ensures J.NoneDecreases(FinalityOf(t[i]), FinalityOf(t[j]))
    decreases j
  {
    hide Step, IsGenesis, J.Process, J.LowestBit, J.BitsRecord, EpochBallot, Cast, EpochOf;
    if i < j {
      RunFinalityNeverDecreases(c, t, i, j - 1);
      var s, s' := t[j - 1], t[j];
      assert Step(c, s, s');
      StepKeepsShape(c, s, s');
      StepFinality(c, s, s');
      var _, _ := RunFinalityInOrder(c, t, j - 1);
      if Counted(CurrentEpoch(c, s')) != Counted(CurrentEpoch(c, s)) {
        BallotEpochs(c, ProcessSlot(c, s));
        J.ProcessKeepsOrder(FinalityOf(s), EpochBallot(c, ProcessSlot(c, s)).value);
      }
    }
  }

  // Checkpoint roots

  /** The checkpoint is the default one, or its root was recorded when the run left the first slot of its epoch. */
  ghost predicate Recorded(c: Config, t: seq<BeaconState>, k: nat, point: Checkpoint) {
    || point == ORIGIN
    || exists m :: 0 <= m < k && Leaves(t, m, StartSlot(c, point.epoch)) && point.root == RecordedRoot(c, t[m])
  }

  lemma {:induction false} StartInWindow(c: Config, s: BeaconState, e: Epoch)
    requires Shape(c, s) && AtEpochEnd(c, s) && (e == CurrentEpoch(c, s) || e == PreviousEpoch(c, s))
    ensures StartSlot(c, e) < s.slot < s.slot + 1 <= StartSlot(c, e) + c.slotsPerHistoricalRoot
  {
    hide StartSlot, Div, Mod;
    LastSlot(c, s);
    if e < CurrentEpoch(c, s) {
      NextStart(c, e);
    }
  }

  /** The lookup that a ballot makes inside the transition is still answered after it. */
  lemma {:induction false} RootIsRecorded(c: Config, t: seq<BeaconState>, j: nat, e: Epoch)
    requires Run(c, t) && EndsEpoch(c, t, j) && Shape(c, t[j])
    requires e == CurrentEpoch(c, t[j]) || e == PreviousEpoch(c, t[j])
    requires BlockRoot(c, ProcessSlot(c, t[j]), e).Ok?
    ensures Recorded(c, t, j + 1, Checkpoint(e, BlockRoot(c, ProcessSlot(c, t[j]), e).value))
  {
    hide Step, Path, IsGenesis, AtEpochEnd, ProcessEpoch, CurrentEpoch, PreviousEpoch, RecordedRoot, StartSlot, Mod;
    var s, slot := t[j], StartSlot(c, e);
    RunEpochEnd(c, t, j);
    StepRecords(c, s, t[j + 1]);
    StartInWindow(c, s, e);
    assert BlockRootAtSlot(c, t[j + 1], slot) == BlockRoot(c, ProcessSlot(c, s), e);
    var m := LookupFindsRecord(c, t, j + 1, slot);
  }

  lemma {:induction false} BallotIsRecorded(c: Config, t: seq<BeaconState>, j: nat)
    requires Run(c, t) && EndsEpoch(c, t, j) && Shape(c, t[j])
    requires EpochBallot(c, ProcessSlot(c, t[j])).Ok?
    ensures var b := EpochBallot(c, ProcessSlot(c, t[j])).value;
            Recorded(c, t, j + 1, b.current) && Recorded(c, t, j + 1, b.previous)
  {
    hide Step, IsGenesis, Recorded, AttestingTargetBalance, BlockRoot, TotalActiveBalance, EpochOf;
    RootIsRecorded(c, t, j, CurrentEpoch(c, t[j]));
    RootIsRecorded(c, t, j, PreviousEpoch(c, t[j]));
  }

  lemma RecordedStays(c: Config, t: seq<BeaconState>, k: nat, point: Checkpoint)
    requires Recorded(c, t, k, point)
    ensures Recorded(c, t, k + 1, point)
  {
    hide RecordedRoot, StartSlot;
  }

  /** In every reachable state, every justified or finalized checkpoint names the root that the run
      recorded when it left the first slot of that epoch. */
  lemma {:induction false} RunCheckpointsAreRecorded(c: Config, t: seq<BeaconState>, k: nat)
    requires Run(c, t) && k < |t|
    ensures Recorded(c, t, k, t[k].currentJustifiedCheckpoint)
    ensures Recorded(c, t, k, t[k].previousJustifiedCheckpoint)
    ensures Recorded(c, t, k, t[k].finalizedCheckpoint)
  {
    hide Step, IsGenesis, Recorded, EpochBallot, EpochOf;
    if k == 0 {
      GenesisFinality(c, t[0]);
      OriginIsRecorded(c, t);
    } else {
      RunCheckpointsAreRecorded(c, t, k - 1);
      var s, s' := t[k - 1], t[k];
      RecordedStays(c, t, k - 1, s.currentJustifiedCheckpoint);
      RecordedStays(c, t, k - 1, s.previousJustifiedCheckpoint);
      RecordedStays(c, t, k - 1, s.finalizedCheckpoint);
      assert Step(c, s, s');
      StepKeepsShape(c, s, s');
      StepFinality(c, s, s');
      if Counted(CurrentEpoch(c, s')) != Counted(CurrentEpoch(c, s)) {
        BallotIsRecorded(c, t, k - 1);
      }
    }
  }

  lemma OriginIsRecorded(c: Config, t: seq<BeaconState>)
    ensures Recorded(c, t, 0, ORIGIN)
  {
  }
}
