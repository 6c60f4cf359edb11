/**
 Casper FFG justification and finalization: one epoch of the `Justifier`, and what every run of
 consecutive epochs keeps.
 */
module Justification {
  import opened BeaconTypes

  datatype Finality = Finality(
    bits: seq<bool>,
    previousJustified: Checkpoint,
    currentJustified: Checkpoint,
    finalized: Checkpoint)

  /** What the registry answers while one epoch is processed. */
  datatype Ballot = Ballot(
    previous: Checkpoint,
    current: Checkpoint,
    previousBalance: Gwei,
    currentBalance: Gwei,
    totalBalance: Gwei)
  {
    predicate PreviousReached() { previousBalance * 3 >= totalBalance * 2 }
    predicate CurrentReached() { currentBalance * 3 >= totalBalance * 2 }
  }

  function ShiftedBits(f: Finality, b: Ballot): (bits: seq<bool>)
    requires |f.bits| == 4
    ensures |bits| == 4
  {
    [b.CurrentReached(), f.bits[0] || b.PreviousReached(), f.bits[1], f.bits[2]]
  }

  function Justified(f: Finality, b: Ballot): Checkpoint {
    if b.CurrentReached() then b.current
    else if b.PreviousReached() then b.previous
    else f.currentJustified
  }

  /** The last matching finalization rule wins, so the rules read from the last to the first. */
  function Finalized(f: Finality, bits: seq<bool>, epoch: Epoch): Checkpoint
    requires |bits| == 4
  {
    if bits[0] && bits[1] && f.currentJustified.epoch + 1 == epoch then f.currentJustified
    else if bits[0] && bits[1] && bits[2] && f.currentJustified.epoch + 2 == epoch then f.currentJustified
    else if bits[1] && bits[2] && f.previousJustified.epoch + 2 == epoch then f.previousJustified
    else if bits[1] && bits[2] && bits[3] && f.previousJustified.epoch + 3 == epoch then f.previousJustified
    else f.finalized
  }

  function Process(f: Finality, b: Ballot): (f': Finality)
    requires |f.bits| == 4
    ensures |f'.bits| == 4
  {
    var bits := ShiftedBits(f, b);
    Finality(bits, f.currentJustified, Justified(f, b), Finalized(f, bits, b.current.epoch))
  }

  class Justifier {
    var bits: array<bool>
    var currentJustified: Checkpoint
    var previousJustified: Checkpoint
    var finalized: Checkpoint

    constructor (f: Finality)
      requires |f.bits| == 4
      ensures fresh(bits) && bits.Length == 4 && Value() == f
    {
      var copy := new bool[4](i requires 0 <= i < 4 => f.bits[i]);
      bits := copy;
      currentJustified, previousJustified, finalized :=
        f.currentJustified, f.previousJustified, f.finalized;
      new;
      assert bits[..] == f.bits;
    }

    function Value(): Finality
      reads this, bits
    {
      Finality(bits[..], previousJustified, currentJustified, finalized)
    }

    /** The justification half of the epoch. */
    method Justify(b: Ballot)
      requires bits.Length == 4
      modifies this, bits
      ensures bits == old(bits) && finalized == old(finalized)
      ensures bits[..] == ShiftedBits(old(Value()), b)
      ensures previousJustified == old(currentJustified)
      ensures currentJustified == Justified(old(Value()), b)
    {
      previousJustified := currentJustified;
      var oldBits := bits[..];
      forall i | 1 <= i < 4 {
        bits[i] := oldBits[i - 1];
      }
      bits[0] := false;

      if b.PreviousReached() {
        currentJustified := b.previous;
        bits[1] := true;
      }
      if b.CurrentReached() {
        currentJustified := b.current;
        bits[0] := true;
      }
    }

    method ProcessEpoch(b: Ballot)
      requires bits.Length == 4
      modifies this, bits
      ensures bits == old(bits)
      ensures Value() == Process(old(Value()), b)
    {
      var epoch := b.current.epoch;
      var oldPreviousJustified := previousJustified;
      var oldCurrentJustified := currentJustified;

      Justify(b);

      var now := bits[..];
      if now[1] && now[2] && now[3] && oldPreviousJustified.epoch + 3 == epoch {
        finalized := oldPreviousJustified;
      }
      if now[1] && now[2] && oldPreviousJustified.epoch + 2 == epoch {
        finalized := oldPreviousJustified;
      }
      if now[0] && now[1] && now[2] && oldCurrentJustified.epoch + 2 == epoch {
        finalized := oldCurrentJustified;
      }
      if now[0] && now[1] && oldCurrentJustified.epoch + 1 == epoch {
        finalized := oldCurrentJustified;
      }
    }
  }

  // Runs of consecutive epochs

  function Start(genesis: Checkpoint): Finality {
    Finality([false, false, false, false], genesis, genesis, genesis)
  }

  function After(f: Finality, ballots: seq<Ballot>): (f': Finality)
    requires |f.bits| == 4
    ensures |f'.bits| == 4
  {
    if ballots == [] then f
    else Process(After(f, ballots[..|ballots| - 1]), ballots[|ballots| - 1])
  }

  /** The first epoch that is processed is the third one: ballot `k` is about epochs `k+1` and `k+2`. */
  predicate Consecutive(ballots: seq<Ballot>) {
    forall k :: 0 <= k < |ballots| ==>
      ballots[k].previous.epoch == k + 1 && ballots[k].current.epoch == k + 2
  }

  /** Epoch `e` gathered two thirds, either while it was current or one epoch later. */
  predicate Reached(ballots: seq<Ballot>, e: Epoch) {
    || (2 <= e <= |ballots| + 1 && ballots[e - 2].CurrentReached())
    || (1 <= e <= |ballots| && ballots[e - 1].PreviousReached())
  }

  predicate Ordered(f: Finality, epoch: Epoch) {
    f.finalized.epoch <= f.previousJustified.epoch <= f.currentJustified.epoch <= epoch
  }

  predicate NoneDecreases(f: Finality, f': Finality) {
    && f.finalized.epoch <= f'.finalized.epoch
    && f.previousJustified.epoch <= f'.previousJustified.epoch
    && f.currentJustified.epoch <= f'.currentJustified.epoch
  }

  /** One epoch keeps the order of the three checkpoints and moves none of them back. */
  lemma ProcessKeepsOrder(f: Finality, b: Ballot)
    requires |f.bits| == 4
    requires b.current.epoch == b.previous.epoch + 1
    requires Ordered(f, b.previous.epoch)
    ensures Ordered(Process(f, b), b.current.epoch)
    ensures NoneDecreases(f, Process(f, b))
  {
  }

  /** Bit `i` says whether epoch `epoch - i` gathered two thirds. */
  ghost predicate BitsRecord(f: Finality, ballots: seq<Ballot>)
    requires |f.bits| == 4
  {
    forall i :: 0 <= i < 4 ==>
      (f.bits[i] <==> i <= |ballots| + 1 && Reached(ballots, |ballots| + 1 - i))
  }

  predicate LowestBit(f: Finality, epoch: Epoch)
    requires |f.bits| == 4
  {
    && (f.bits[0] ==> f.currentJustified.epoch == epoch)
    && (!f.bits[0] && f.bits[1] ==> f.currentJustified.epoch + 1 == epoch)
    && (!f.bits[0] && !f.bits[1] && f.bits[2] ==> f.currentJustified.epoch + 2 == epoch)
    && (!f.bits[0] && !f.bits[1] && !f.bits[2] && f.bits[3] ==> f.currentJustified.epoch + 3 == epoch)
  }

  lemma ReachedPrefix(ballots: seq<Ballot>, e: Epoch)
    requires |ballots| >= 1
    ensures e < |ballots| ==> (Reached(ballots, e) <==> Reached(ballots[..|ballots| - 1], e))
    ensures e == |ballots| ==> (Reached(ballots, e) <==>
              Reached(ballots[..e - 1], e) || ballots[e - 1].PreviousReached())
  {
  }

  lemma BitsStep(f: Finality, ballots: seq<Ballot>)
    requires |f.bits| == 4 && |ballots| >= 1
    requires BitsRecord(f, ballots[..|ballots| - 1])
    ensures BitsRecord(Process(f, ballots[|ballots| - 1]), ballots)
  {
    var n := |ballots|;
    var before := ballots[..n - 1];
    var bits := ShiftedBits(f, ballots[n - 1]);
    forall i | 0 <= i < 4
      ensures bits[i] <==> i <= n + 1 && Reached(ballots, n + 1 - i)
    {
      if 1 <= i <= n + 1 {
        ReachedPrefix(ballots, n + 1 - i);
        assert f.bits[i - 1] <==> i - 1 <= n && Reached(before, n - (i - 1));
      }
    }
  }

  /** Over every run: the bits are the record of the quorums, the checkpoints are ordered, and the
      current justified epoch is that of the lowest set bit. */
  lemma {:induction false} RunKeepsRecord(genesis: Checkpoint, ballots: seq<Ballot>)
    requires genesis.epoch == 0 && Consecutive(ballots)
    ensures BitsRecord(After(Start(genesis), ballots), ballots)
    ensures Ordered(After(Start(genesis), ballots), |ballots| + 1)
    ensures LowestBit(After(Start(genesis), ballots), |ballots| + 1)
  {
    var n := |ballots|;
    if n == 0 {
    } else {
      var before := ballots[..n - 1];
      RunKeepsRecord(genesis, before);
      var f := After(Start(genesis), before);
      BitsStep(f, ballots);
      ProcessKeepsOrder(f, ballots[n - 1]);
    }
  }

  /** Over every run no checkpoint epoch ever goes back, however far apart the two moments are. */
  lemma {:induction false} RunIsMonotone(genesis: Checkpoint, ballots: seq<Ballot>, k: nat)
    requires genesis.epoch == 0 && Consecutive(ballots) && k <= |ballots|
    ensures NoneDecreases(After(Start(genesis), ballots[..k]), After(Start(genesis), ballots))
    decreases |ballots|
  {
    var n := |ballots|;
    if k == n {
      assert ballots[..k] == ballots;
    } else {
      var before := ballots[..n - 1];
      assert ballots[..k] == before[..k];
      RunIsMonotone(genesis, before, k);
      RunKeepsRecord(genesis, before);
      ProcessKeepsOrder(After(Start(genesis), before), ballots[n - 1]);
    }
  }
}
