/**
 Accountable safety of the finality gadget: two runs of the `Justifier` over one validator set that
 finalize conflicting checkpoints expose validators with a third of the weight, each of whom signed
 two attestations that `is_slashable` accepts.
 */
module AccountableSafety {
  import opened Bytes
  import opened BeaconTypes
  import opened Justification
  import Arith

  // Weighted sets of validators

  function Weight(w: seq<Gwei>, s: set<ValidatorIndex>): Gwei {
    if w == [] then 0
    else Weight(w[..|w| - 1], s) + if |w| - 1 in s then w[|w| - 1] else 0
  }

  function Total(w: seq<Gwei>): Gwei {
    if w == [] then 0 else Total(w[..|w| - 1]) + w[|w| - 1]
  }

  lemma {:induction false} WeightOfUnion(w: seq<Gwei>, s: set<ValidatorIndex>, t: set<ValidatorIndex>)
    ensures Weight(w, s + t) + Weight(w, s * t) == Weight(w, s) + Weight(w, t)
  {
    if w != [] {
      WeightOfUnion(w[..|w| - 1], s, t);
    }
  }

  lemma {:induction false} WeightAtMostTotal(w: seq<Gwei>, s: set<ValidatorIndex>)
    ensures Weight(w, s) <= Total(w)
  {
    if w != [] {
      WeightAtMostTotal(w[..|w| - 1], s);
    }
  }

  /** `total_balance` never answers less than one, for the voters and for the whole set alike. */
  function Balance(weight: Gwei): Gwei {
    Arith.Max(weight, 1)
  }

  predicate Quorum(w: seq<Gwei>, s: set<ValidatorIndex>) {
    Balance(Weight(w, s)) * 3 >= Balance(Total(w)) * 2
  }

  /** The floor of one makes the empty set a quorum exactly when the whole weight is below two. */
  lemma EmptyQuorum(w: seq<Gwei>)
    ensures Quorum(w, {}) <==> Total(w) < 2
  {
    NobodyWeighsNothing(w);
  }

  lemma {:induction false} NobodyWeighsNothing(w: seq<Gwei>)
    ensures Weight(w, {}) == 0
  {
    if w != [] {
      NobodyWeighsNothing(w[..|w| - 1]);
    }
  }

  lemma QuorumsIntersect(w: seq<Gwei>, s: set<ValidatorIndex>, t: set<ValidatorIndex>)
    requires Total(w) >= 2
    requires Quorum(w, s) && Quorum(w, t)
    ensures 3 * Weight(w, s * t) >= Total(w)
  {
    WeightOfUnion(w, s, t);
    WeightAtMostTotal(w, s + t);
  }

  // Two views of the chain

  /** One view: the checkpoint root of every epoch, and who was counted for it while the epoch was
      current and while it was the previous one. */
  datatype Chain = Chain(
    roots: seq<Hash>,
    onTime: seq<set<ValidatorIndex>>,
    late: seq<set<ValidatorIndex>>)
  {
    predicate Valid() { |roots| == |onTime| == |late| }
  }

  datatype World = World(
    weights: seq<Gwei>,
    genesis: Checkpoint,
    signed: (ValidatorIndex, AttestationData) -> bool)

  function CheckpointAt(m: World, x: Chain, e: Epoch): Checkpoint
    requires e < |x.roots|
  {
    if e == 0 then m.genesis else Checkpoint(e, x.roots[e])
  }

  function BallotAt(m: World, x: Chain, e: Epoch): Ballot
    requires x.Valid() && 2 <= e < |x.roots|
  {
    Ballot(CheckpointAt(m, x, e - 1), CheckpointAt(m, x, e),
           Balance(Weight(m.weights, x.late[e - 1])), Balance(Weight(m.weights, x.onTime[e])),
           Balance(Total(m.weights)))
  }

  /** The finality fields after epoch `p` has been processed; the first two epochs are skipped. */
  function FinalityAfter(m: World, x: Chain, p: Epoch): (f: Finality)
    requires x.Valid() && p < |x.roots|
    ensures |f.bits| == 4
  {
    if p <= 1 then Start(m.genesis) else Process(FinalityAfter(m, x, p - 1), BallotAt(m, x, p))
  }

  /** The checkpoint that was justified while epoch `e` was current. */
  function SourceOf(m: World, x: Chain, e: Epoch): Checkpoint
    requires x.Valid() && 1 <= e < |x.roots|
  {
    FinalityAfter(m, x, e - 1).currentJustified
  }

  ghost predicate Voted(m: World, v: ValidatorIndex, source: Checkpoint, target: Checkpoint) {
    exists d: AttestationData :: m.signed(v, d) && d.source == source && d.target == target
  }

  /** Every counted vote was signed, with the source justified when its target epoch was current. For the votes
      counted on time `EpochTotality.OnTimeVotesAreSourced` proves this of every run; for the late ones the
      transition does not look at the source. */
  ghost predicate VotesAreSourced(m: World, x: Chain)
    requires x.Valid()
  {
    forall e, v :: 1 <= e < |x.roots| && (v in x.onTime[e] || v in x.late[e]) ==>
      Voted(m, v, SourceOf(m, x, e), CheckpointAt(m, x, e))
  }

  /** Equal roots have equal ancestors: a checkpoint root commits to every earlier one. */
  predicate RootsCommit(x: Chain, y: Chain) {
    forall d, e {:trigger x.roots[d], x.roots[e]} ::
      0 <= d <= e < |x.roots| && e < |y.roots| && x.roots[e] == y.roots[e]
      ==> x.roots[d] == y.roots[d]
  }

  predicate Conflict(m: World, x: Chain, y: Chain, a: Checkpoint, b: Checkpoint)
    requires a.epoch < |x.roots| && b.epoch < |y.roots|
  {
    if a.epoch <= b.epoch then CheckpointAt(m, y, a.epoch) != a
    else CheckpointAt(m, x, b.epoch) != b
  }

  ghost predicate Slashable(m: World, v: ValidatorIndex) {
    exists d: AttestationData, d': AttestationData ::
      m.signed(v, d) && m.signed(v, d') && d.IsSlashable(d')
  }

  ghost predicate ThirdSlashable(m: World) {
    exists guilty: set<ValidatorIndex> ::
      && 3 * Weight(m.weights, guilty) >= Total(m.weights)
      && forall v :: v in guilty ==> Slashable(m, v)
  }

  // Supermajority links

  predicate Backed(m: World, x: Chain, e: Epoch)
    requires x.Valid()
  {
    1 <= e < |x.roots| && (Quorum(m.weights, x.onTime[e]) || Quorum(m.weights, x.late[e]))
  }

  predicate Settled(m: World, x: Chain, c: Checkpoint, p: Epoch)
    requires x.Valid()
  {
    c.epoch <= p && c.epoch < |x.roots| && c == CheckpointAt(m, x, c.epoch) && (c.epoch == 0 || Backed(m, x, c.epoch))
  }

  predicate AnchoredBy(m: World, x: Chain, c: Checkpoint, t: Epoch)
    requires x.Valid()
  {
    && c.epoch < t <= c.epoch + 2 && Backed(m, x, t) && SourceOf(m, x, t) == c
    && (t == c.epoch + 2 ==> Backed(m, x, c.epoch + 1))
  }

  /** A finalized checkpoint after genesis is the source of a link of length one or two, and no
      epoch under the link is unjustified. */
  ghost predicate Anchored(m: World, x: Chain, c: Checkpoint)
    requires x.Valid()
  {
    c.epoch == 0 || exists t: Epoch :: AnchoredBy(m, x, c, t)
  }

  ghost predicate Explained(m: World, x: Chain, f: Finality, p: Epoch)
    requires x.Valid() && |f.bits| == 4
  {
    && Settled(m, x, f.currentJustified, p)
    && Settled(m, x, f.previousJustified, p)
    && Settled(m, x, f.finalized, p)
    && Anchored(m, x, f.finalized)
    && (forall i :: 0 <= i < 4 && f.bits[i] ==> i < p && Backed(m, x, p - i))
  }

  lemma BitsExplained(m: World, x: Chain, f: Finality, p: Epoch)
    requires m.genesis.epoch == 0 && x.Valid() && 2 <= p < |x.roots| && |f.bits| == 4
    requires Explained(m, x, f, p - 1)
    ensures var bits := ShiftedBits(f, BallotAt(m, x, p));
            forall i :: 0 <= i < 4 && bits[i] ==> i < p && Backed(m, x, p - i)
  {
    var bits := ShiftedBits(f, BallotAt(m, x, p));
    forall i | 0 <= i < 4 && bits[i]
      ensures i < p && Backed(m, x, p - i)
    {
      if i >= 1 && f.bits[i - 1] {
        assert Backed(m, x, p - 1 - (i - 1));
      }
    }
  }

  lemma AnchorStep(m: World, x: Chain, p: Epoch)
    requires m.genesis.epoch == 0 && x.Valid() && 2 <= p < |x.roots|
    requires Explained(m, x, FinalityAfter(m, x, p - 1), p - 1)
    ensures Anchored(m, x, FinalityAfter(m, x, p).finalized)
  {
    var f := FinalityAfter(m, x, p - 1);
    var bits := ShiftedBits(f, BallotAt(m, x, p));
    BitsExplained(m, x, f, p);
    assert bits[0] ==> Backed(m, x, p);
    assert bits[1] ==> Backed(m, x, p - 1);
    assert bits[2] ==> 2 < p && Backed(m, x, p - 2);
    var c := Finalized(f, bits, p);
    if c == f.finalized {
    } else if c == f.currentJustified && c.epoch + 2 >= p && bits[0] && bits[1] {
      assert SourceOf(m, x, p) == c;
      assert AnchoredBy(m, x, c, p);
    } else {
      assert SourceOf(m, x, p - 1) == c;
      assert AnchoredBy(m, x, c, p - 1);
    }
  }

  /** Everything the run justifies or finalizes rests on quorums of the run. */
  lemma {:induction false} RunIsExplained(m: World, x: Chain, p: Epoch)
    requires m.genesis.epoch == 0 && x.Valid() && 1 <= p < |x.roots|
    ensures Explained(m, x, FinalityAfter(m, x, p), p)
  {
    if p >= 2 {
      RunIsExplained(m, x, p - 1);
      BitsExplained(m, x, FinalityAfter(m, x, p - 1), p);
      AnchorStep(m, x, p);
    }
  }

  /** Walking back along the links from a justified epoch, one of them starts at or before `a` and
      ends after it. */
  lemma {:induction false} LinkAcross(m: World, x: Chain, b: Epoch, a: Epoch) returns (e: Epoch)
    requires m.genesis.epoch == 0 && x.Valid() && Backed(m, x, b) && a < b
    ensures a < e <= b && Backed(m, x, e)
    ensures SourceOf(m, x, e).epoch <= a
    ensures Settled(m, x, SourceOf(m, x, e), a)
    decreases b
  {
    if b >= 2 {
      RunIsExplained(m, x, b - 1);
    }
    var source := SourceOf(m, x, b);
    if source.epoch <= a {
      e := b;
    } else {
      e := LinkAcross(m, x, source.epoch, a);
    }
  }

  lemma BackersVoted(m: World, x: Chain, e: Epoch) returns (q: set<ValidatorIndex>)
    requires x.Valid() && VotesAreSourced(m, x) && Backed(m, x, e)
    ensures Quorum(m.weights, q)
    ensures forall v :: v in q ==> Voted(m, v, SourceOf(m, x, e), CheckpointAt(m, x, e))
  {
    q := if Quorum(m.weights, x.onTime[e]) then x.onTime[e] else x.late[e];
  }

  predicate Offending(source: Checkpoint, target: Checkpoint, source': Checkpoint, target': Checkpoint) {
    || (target.epoch == target'.epoch && (source != source' || target != target'))
    || (source.epoch < source'.epoch && target'.epoch < target.epoch)
  }

  /** Two quorums behind links that no one may sign together share a third of the weight. */
  lemma OffendingLinks(m: World, x: Chain, e: Epoch, y: Chain, e': Epoch)
    requires Total(m.weights) >= 2
    requires x.Valid() && VotesAreSourced(m, x) && Backed(m, x, e)
    requires y.Valid() && VotesAreSourced(m, y) && Backed(m, y, e')
    requires Offending(SourceOf(m, x, e), CheckpointAt(m, x, e), SourceOf(m, y, e'), CheckpointAt(m, y, e'))
    ensures ThirdSlashable(m)
  {
    var q := BackersVoted(m, x, e);
    var q' := BackersVoted(m, y, e');
    QuorumsIntersect(m.weights, q, q');
    forall v | v in q * q'
      ensures Slashable(m, v)
    {
      var d: AttestationData :| m.signed(v, d) && d.source == SourceOf(m, x, e) && d.target == CheckpointAt(m, x, e);
      var d': AttestationData :|
        m.signed(v, d') && d'.source == SourceOf(m, y, e') && d'.target == CheckpointAt(m, y, e');
      assert d.IsSlashable(d');
    }
  }

  /** A link of `y` that passes over the finalized checkpoint `a` of `x` meets the link from `a`. */
  lemma LinksMeet(m: World, x: Chain, y: Chain, a: Epoch, t: Epoch, e: Epoch)
    requires Total(m.weights) >= 2
    requires x.Valid() && VotesAreSourced(m, x)
    requires y.Valid() && VotesAreSourced(m, y)
    requires 1 <= a < t <= a + 2 && Backed(m, x, t) && SourceOf(m, x, t).epoch == a
    requires t == a + 2 ==> Backed(m, x, a + 1)
    requires a < e && Backed(m, y, e) && SourceOf(m, y, e).epoch < a
    requires e < |x.roots| ==> x.roots[e] != y.roots[e]
    ensures ThirdSlashable(m)
  {
    if t <= e {
      OffendingLinks(m, y, e, x, t);
    } else {
      OffendingLinks(m, x, e, y, e);
    }
  }

  /** Different checkpoints of one epoch, both backed. */
  lemma SameEpochOffends(m: World, x: Chain, y: Chain, e: Epoch)
    requires Total(m.weights) >= 2
    requires x.Valid() && VotesAreSourced(m, x) && Backed(m, x, e)
    requires y.Valid() && VotesAreSourced(m, y) && Backed(m, y, e)
    requires CheckpointAt(m, x, e) != CheckpointAt(m, y, e)
    ensures ThirdSlashable(m)
  {
    hide FinalityAfter, VotesAreSourced, Quorum, ThirdSlashable;
    OffendingLinks(m, x, e, y, e);
  }

  /** A checkpoint after the finalized one, on a view that does not have it. */
  lemma LaterOffends(m: World, x: Chain, y: Chain, a: Checkpoint, b: Epoch)
    requires Total(m.weights) >= 2 && m.genesis.epoch == 0
    requires x.Valid() && VotesAreSourced(m, x) && Settled(m, x, a, a.epoch) && Anchored(m, x, a)
    requires y.Valid() && VotesAreSourced(m, y) && Backed(m, y, b)
    requires RootsCommit(x, y)
    requires 1 <= a.epoch < b && CheckpointAt(m, y, a.epoch) != a
    ensures ThirdSlashable(m)
  {
    hide FinalityAfter, VotesAreSourced, Quorum, ThirdSlashable;
    var e := LinkAcross(m, y, b, a.epoch);
    if SourceOf(m, y, e).epoch == a.epoch {
      SameEpochOffends(m, x, y, a.epoch);
    } else {
      var t: Epoch :| AnchoredBy(m, x, a, t);
      assert x.roots[a.epoch] != y.roots[a.epoch];
      LinksMeet(m, x, y, a.epoch, t, e);
    }
  }

  lemma SafetyOneWay(m: World, x: Chain, y: Chain, a: Checkpoint, b: Checkpoint)
    requires Total(m.weights) >= 2 && m.genesis.epoch == 0
    requires x.Valid() && VotesAreSourced(m, x)
    requires y.Valid() && VotesAreSourced(m, y)
    requires RootsCommit(x, y)
    requires Settled(m, x, a, a.epoch) && Anchored(m, x, a)
    requires Settled(m, y, b, b.epoch)
    requires a.epoch <= b.epoch && CheckpointAt(m, y, a.epoch) != a
    ensures ThirdSlashable(m)
  {
    hide FinalityAfter, VotesAreSourced, Quorum, ThirdSlashable, RootsCommit, Anchored;
    if b.epoch == a.epoch {
      SameEpochOffends(m, x, y, a.epoch);
    } else {
      LaterOffends(m, x, y, a, b.epoch);
    }
  }

  /** Accountable safety. */
  lemma ConflictingFinalityIsSlashable(m: World, x: Chain, y: Chain, p: Epoch, p': Epoch)
    requires Total(m.weights) >= 2 && m.genesis.epoch == 0
    requires x.Valid() && VotesAreSourced(m, x) && 1 <= p < |x.roots|
    requires y.Valid() && VotesAreSourced(m, y) && 1 <= p' < |y.roots|
    requires RootsCommit(x, y)
    requires var a, b := FinalityAfter(m, x, p).finalized, FinalityAfter(m, y, p').finalized;
             a.epoch < |x.roots| && b.epoch < |y.roots| && Conflict(m, x, y, a, b)
    ensures ThirdSlashable(m)
  {
    RunIsExplained(m, x, p);
    RunIsExplained(m, y, p');
    var a, b := FinalityAfter(m, x, p).finalized, FinalityAfter(m, y, p').finalized;
    if a.epoch <= b.epoch {
      SafetyOneWay(m, x, y, a, b);
    } else {
      forall d, e | 0 <= d <= e < |y.roots| && e < |x.roots| && y.roots[e] == x.roots[e]
        ensures y.roots[d] == x.roots[d]
      {
        assert x.roots[d] == y.roots[d];
      }
      SafetyOneWay(m, y, x, b, a);
    }
  }
}
