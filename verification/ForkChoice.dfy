/**
 LMD-GHOST over an archive of blocks: latest votes with an overlay, the greedy walk from the
 justified block to a leaf, and the import step with its rollback.
 */
module ForkChoice {
  import opened Bytes
  import opened BeaconTypes

  type Id = Hash
  type Votes = map<ValidatorIndex, Id>

  /** What the backend answers: the genesis block, and parent, depth and children of every known block. */
  datatype BlockTree = BlockTree(
    genesis: Id, parents: map<Id, Option<Id>>, depths: map<Id, nat>, children: map<Id, seq<Id>>)

  predicate Known(t: BlockTree, b: Id) {
    b in t.depths
  }

  ghost predicate WellFormed(t: BlockTree) {
    && t.parents.Keys == t.depths.Keys == t.children.Keys
    && (forall b :: b in t.parents && t.parents[b].None? ==> t.depths[b] == 0)
    && (forall b :: b in t.parents && t.parents[b].Some? ==>
          t.parents[b].value in t.depths && t.depths[b] == t.depths[t.parents[b].value] + 1)
    && (forall b, x :: b in t.children && x in t.children[b] ==> x in t.parents && t.parents[x] == Some(b))
    && (forall x :: x in t.parents && t.parents[x].Some? ==> x in t.children[t.parents[x].value])
  }

  // Ancestors

  function AncestorAt(t: BlockTree, b: Id, depth: nat): (a: Id)
    requires WellFormed(t) && Known(t, b)
    ensures Known(t, a) && t.depths[a] <= depth && t.depths[a] <= t.depths[b]
    ensures t.depths[b] >= depth ==> t.depths[a] == depth
    decreases t.depths[b]
  {
    if t.depths[b] > depth then AncestorAt(t, t.parents[b].value, depth) else b
  }

  /** `b` is in the subtree of `a`. */
  predicate Descends(t: BlockTree, b: Id, a: Id)
    requires WellFormed(t) && Known(t, a) && Known(t, b)
  {
    AncestorAt(t, b, t.depths[a]) == a
  }

  lemma {:induction false} AncestorOfAncestor(t: BlockTree, b: Id, d: nat, d': nat)
    requires WellFormed(t) && Known(t, b) && d' <= d
    ensures AncestorAt(t, AncestorAt(t, b, d), d') == AncestorAt(t, b, d')
    decreases t.depths[b]
  {
    if t.depths[b] > d {
      AncestorOfAncestor(t, t.parents[b].value, d, d');
    }
  }

  lemma DescendsTransitive(t: BlockTree, x: Id, y: Id, z: Id)
    requires WellFormed(t) && Known(t, x) && Known(t, y) && Known(t, z)
    requires Descends(t, x, y) && Descends(t, y, z)
    ensures Descends(t, x, z)
  {
    hide WellFormed;
    AncestorOfAncestor(t, x, t.depths[y], t.depths[z]);
  }

  lemma ChildDescends(t: BlockTree, b: Id, x: Id)
    requires WellFormed(t) && Known(t, b) && x in t.children[b]
    ensures Known(t, x) && t.depths[x] == t.depths[b] + 1 && Descends(t, x, b)
  {
    assert t.parents[x] == Some(b);
    assert AncestorAt(t, x, t.depths[b]) == AncestorAt(t, b, t.depths[b]);
  }

  /** Below `b` on the way to a strict descendant there is a child of `b`. */
  lemma {:induction false} StepTowards(t: BlockTree, d: Id, b: Id)
    requires WellFormed(t) && Known(t, d) && Known(t, b) && Descends(t, d, b) && d != b
    ensures var x := AncestorAt(t, d, t.depths[b] + 1); x in t.children[b] && Descends(t, d, x)
    decreases t.depths[d]
  {
    var p := t.parents[d].value;
    if t.depths[d] > t.depths[b] + 1 {
      StepTowards(t, p, b);
    } else {
      assert AncestorAt(t, d, t.depths[b]) == AncestorAt(t, p, t.depths[b]) == p;
    }
  }

  // Votes

  /** Latest votes, the overlay taking precedence. */
  function Effective(votes: Votes, overlay: Votes): Votes {
    votes + overlay
  }

  /** What remains of a list of votes when a later vote of a validator replaces an earlier one. */
  function Latest(votes: seq<(ValidatorIndex, Id)>): Votes {
    if votes == [] then map[] else
    var last := votes[|votes| - 1];
    Latest(votes[..|votes| - 1])[last.0 := last.1]
  }

  function Kept(votes: Votes, active: seq<ValidatorIndex>): Votes {
    map v | v in votes && v in active :: votes[v]
  }

  ghost predicate TargetsKnown(t: BlockTree, votes: Votes) {
    forall v :: v in votes ==> Known(t, votes[v])
  }

  /** The validators whose latest vote is for `block` or a descendant of it. */
  ghost function Supporters(t: BlockTree, votes: Votes, block: Id, depth: nat): set<ValidatorIndex>
    requires WellFormed(t) && TargetsKnown(t, votes)
  {
    set v | v in votes && AncestorAt(t, votes[v], depth) == block
  }

  ghost function Score(t: BlockTree, votes: Votes, block: Id): nat
    requires WellFormed(t) && TargetsKnown(t, votes) && Known(t, block)
  {
    |Supporters(t, votes, block, t.depths[block])|
  }

  ghost predicate AllKnown(t: BlockTree, blocks: seq<Id>) {
    forall i :: 0 <= i < |blocks| ==> Known(t, blocks[i])
  }

  ghost function Scores(t: BlockTree, votes: Votes, blocks: seq<Id>): (scores: seq<nat>)
    requires WellFormed(t) && TargetsKnown(t, votes) && AllKnown(t, blocks)
    ensures |scores| == |blocks|
  {
    seq(|blocks|, i requires 0 <= i < |blocks| => Score(t, votes, blocks[i]))
  }

  /** The first greatest entry: the very first entry when all are zero. */
  predicate IsBest(scores: seq<nat>, k: nat)
    requires k < |scores|
  {
    && (forall i :: 0 <= i < |scores| ==> scores[i] <= scores[k])
    && (forall i :: 0 <= i < k ==> scores[i] < scores[k])
  }

  function Best(scores: seq<nat>): (k: nat)
    requires |scores| > 0
    ensures k < |scores| && IsBest(scores, k)
  {
    var n := |scores| - 1;
    if n == 0 then 0 else
    var k := Best(scores[..n]);
    assert IsBest(scores[..n], k);
    if scores[n] > scores[k] then n else k
  }

  /** `best` is the first best of the first `i` blocks and `score` its score. */
  ghost predicate Leads(blocks: seq<Id>, scores: seq<nat>, i: nat, best: Id, score: nat)
    requires 0 < |blocks|
  {
    if i == 0 then best == blocks[0] && score == 0 else
    i <= |blocks| == |scores|
    && best == blocks[Best(scores[..i])] && score == scores[Best(scores[..i])]
  }

  lemma LeadsAtStart(blocks: seq<Id>, scores: seq<nat>)
    requires 0 < |blocks|
    ensures Leads(blocks, scores, 0, blocks[0], 0)
  {
  }

  lemma LeadsNext(blocks: seq<Id>, scores: seq<nat>, i: nat, best: Id, score: nat)
    requires i < |blocks| == |scores| && Leads(blocks, scores, i, best, score)
    ensures scores[i] > score ==> Leads(blocks, scores, i + 1, blocks[i], scores[i])
    ensures scores[i] <= score ==> Leads(blocks, scores, i + 1, best, score)
  {
    assert scores[..i + 1][..i] == scores[..i];
  }

  lemma LeadsAtEnd(blocks: seq<Id>, scores: seq<nat>, best: Id, score: nat)
    requires 0 < |blocks| && Leads(blocks, scores, |blocks|, best, score)
    ensures |blocks| == |scores| && best == blocks[Best(scores)]
  {
    assert scores[..|blocks|] == scores;
  }

  ghost function Deeper(t: BlockTree, depth: nat): set<Id> {
    set x | x in t.depths && t.depths[x] > depth
  }

  ghost function BestChild(t: BlockTree, votes: Votes, b: Id): (x: Id)
    requires WellFormed(t) && TargetsKnown(t, votes) && Known(t, b) && t.children[b] != []
    ensures x in t.children[b] && Known(t, x) && t.depths[x] == t.depths[b] + 1
    ensures Deeper(t, t.depths[x]) < Deeper(t, t.depths[b])
    ensures AllKnown(t, t.children[b])
  {
    hide WellFormed, Score, Scores, TargetsKnown, AncestorAt;
    ChildrenKnown(t, b);
    var x := t.children[b][Best(Scores(t, votes, t.children[b]))];
    ChildDescends(t, b, x);
    assert x in Deeper(t, t.depths[b]) && x !in Deeper(t, t.depths[x]);
    x
  }

  /** The greedy walk. */
  ghost function Head(t: BlockTree, votes: Votes, b: Id): (h: Id)
    requires WellFormed(t) && TargetsKnown(t, votes) && Known(t, b)
    ensures Known(t, h)
    decreases Deeper(t, t.depths[b])
  {
    if t.children[b] == [] then b else Head(t, votes, BestChild(t, votes, b))
  }

  /** Whether and where the walk ends: nothing is counted at a leaf. */
  ghost function HeadOf(t: BlockTree, votes: Votes, b: Id): Option<Id>
    requires WellFormed(t)
  {
    if !Known(t, b) then None
    else if t.children[b] == [] then Some(b)
    else if !TargetsKnown(t, votes) then None
    else Some(Head(t, votes, b))
  }

  // The majority wins

  lemma SubsetSize<T>(a: set<T>, b: set<T>)
    requires a <= b
    ensures |a| <= |b|
  {
    assert b == a + (b - a);
  }

  lemma {:induction false} SupportGrows(t: BlockTree, votes: Votes, d: Id, a: Id)
    requires WellFormed(t) && TargetsKnown(t, votes) && Known(t, d) && Known(t, a)
    requires Descends(t, d, a)
    ensures Score(t, votes, d) <= Score(t, votes, a)
  {
    hide WellFormed, AncestorAt;
    var low, high := Supporters(t, votes, d, t.depths[d]), Supporters(t, votes, a, t.depths[a]);
    forall v | v in low
      ensures v in high
    {
      AncestorOfAncestor(t, votes[v], t.depths[d], t.depths[a]);
    }
    SubsetSize(low, high);
  }

  /** Two blocks of one depth share no supporter. */
  lemma SupportSplits(t: BlockTree, votes: Votes, x: Id, y: Id)
    requires WellFormed(t) && TargetsKnown(t, votes) && Known(t, x) && Known(t, y)
    requires t.depths[x] == t.depths[y] && x != y
    ensures Score(t, votes, x) + Score(t, votes, y) <= |votes|
  {
    hide WellFormed, AncestorAt;
    var a, b := Supporters(t, votes, x, t.depths[x]), Supporters(t, votes, y, t.depths[y]);
    assert a !! b;
    assert |a + b| == |a| + |b|;
    SubsetSize(a + b, votes.Keys);
  }

  /** The best child is on the way to a block that holds the majority. */
  lemma {:induction false} MajorityIsBest(t: BlockTree, votes: Votes, b: Id, d: Id)
    requires WellFormed(t) && TargetsKnown(t, votes) && Known(t, b) && b in t.children && Known(t, d)
    requires Descends(t, d, b) && d != b && 2 * Score(t, votes, d) > |votes|
    ensures t.children[b] != [] && Descends(t, d, BestChild(t, votes, b))
  {
    hide WellFormed, Score, AncestorAt;
    StepTowards(t, d, b);
    var x, y := AncestorAt(t, d, t.depths[b] + 1), BestChild(t, votes, b);
    ChildDescends(t, b, x);
    SupportGrows(t, votes, d, x);
    if x != y {
      var i :| 0 <= i < |t.children[b]| && t.children[b][i] == x;
      var scores := Scores(t, votes, t.children[b]);
      assert scores[i] <= scores[Best(scores)];
      SupportSplits(t, votes, x, y);
    }
  }

  /** The walk ends at a leaf that descends from its start. */
  lemma {:induction false} HeadIsLeaf(t: BlockTree, votes: Votes, b: Id)
    requires WellFormed(t) && TargetsKnown(t, votes) && Known(t, b)
    ensures t.children[Head(t, votes, b)] == [] && Descends(t, Head(t, votes, b), b)
    decreases Deeper(t, t.depths[b])
  {
    hide BestChild, Deeper, Scores;
    if t.children[b] != [] {
      var x := BestChild(t, votes, b);
      ChildDescends(t, b, x);
      HeadIsLeaf(t, votes, x);
      DescendsTransitive(t, Head(t, votes, b), x, b);
    }
  }

  /** The head lies in the subtree of every descendant of the start that holds over half of the votes. */
  lemma {:induction false} MajorityHoldsHead(t: BlockTree, votes: Votes, b: Id, d: Id)
    requires WellFormed(t) && TargetsKnown(t, votes) && Known(t, b) && Known(t, d)
    requires Descends(t, d, b) && 2 * Score(t, votes, d) > |votes|
    ensures Descends(t, Head(t, votes, b), d)
    decreases Deeper(t, t.depths[b])
  {
    hide Score, AncestorAt, BestChild, Deeper;
    if d == b {
      HeadIsLeaf(t, votes, b);
    } else {
      MajorityIsBest(t, votes, b, d);
      MajorityHoldsHead(t, votes, BestChild(t, votes, b), d);
    }
  }

  // The greedy walk, said without it

  /** `x` is the first among its siblings of the most supported ones. */
  ghost predicate Heaviest(t: BlockTree, votes: Votes, p: Id, x: Id)
    requires WellFormed(t) && TargetsKnown(t, votes) && Known(t, p)
  {
    exists i :: 0 <= i < |t.children[p]| && FirstHeaviest(t, votes, p, i) && t.children[p][i] == x
  }

  ghost predicate FirstHeaviest(t: BlockTree, votes: Votes, p: Id, i: nat)
    requires WellFormed(t) && TargetsKnown(t, votes) && Known(t, p) && i < |t.children[p]|
  {
    forall k {:trigger t.children[p][k]} :: 0 <= k < |t.children[p]| ==>
      && Score(t, votes, t.children[p][k]) <= Score(t, votes, t.children[p][i])
      && (k < i ==> Score(t, votes, t.children[p][k]) < Score(t, votes, t.children[p][i]))
  }

  /** `h` is a leaf below `b`, and every block after `b` on the way to it is the heaviest of its siblings. */
  ghost predicate Greedy(t: BlockTree, votes: Votes, b: Id, h: Id)
    requires WellFormed(t) && TargetsKnown(t, votes)
  {
    && Known(t, b) && Known(t, h) && t.children[h] == [] && Descends(t, h, b)
    && forall x :: OnTheWay(t, b, h, x) ==> HeaviestSibling(t, votes, x)
  }

  ghost predicate OnTheWay(t: BlockTree, b: Id, h: Id, x: Id)
    requires WellFormed(t) && Known(t, b) && Known(t, h)
  {
    Known(t, x) && x != b && Descends(t, x, b) && Descends(t, h, x)
  }

  ghost predicate HeaviestSibling(t: BlockTree, votes: Votes, x: Id)
    requires WellFormed(t) && TargetsKnown(t, votes) && Known(t, x)
  {
    t.parents[x].Some? && Heaviest(t, votes, t.parents[x].value, x)
  }

  lemma ChildHasParent(t: BlockTree, votes: Votes, b: Id, x: Id)
    requires WellFormed(t) && TargetsKnown(t, votes) && Known(t, b) && x in t.children[b]
    ensures Known(t, x) && (HeaviestSibling(t, votes, x) <==> Heaviest(t, votes, b, x))
  {
    hide Heaviest, TargetsKnown;
  }

  lemma {:induction false} BestIsHeaviest(t: BlockTree, votes: Votes, b: Id)
    requires WellFormed(t) && TargetsKnown(t, votes) && Known(t, b) && t.children[b] != []
    ensures Heaviest(t, votes, b, BestChild(t, votes, b))
  {
    hide Score, AncestorAt, Deeper;
    ChildrenKnown(t, b);
    var scores := Scores(t, votes, t.children[b]);
    var i := Best(scores);
    assert IsBest(scores, i);
    assert FirstHeaviest(t, votes, b, i) by {
      forall k | 0 <= k < |t.children[b]|
        ensures Score(t, votes, t.children[b][k]) == scores[k]
      {
      }
    }
  }

  lemma {:induction false} GreedyOnTheWay(t: BlockTree, votes: Votes, b: Id, x: Id)
    requires WellFormed(t) && TargetsKnown(t, votes) && Known(t, b) && OnTheWay(t, b, Head(t, votes, b), x)
    ensures HeaviestSibling(t, votes, x)
    decreases Deeper(t, t.depths[b])
  {
    hide WellFormed, Heaviest, HeaviestSibling, Deeper, Scores, BestChild, AncestorAt;
    var h := Head(t, votes, b);
    ChildrenKnown(t, b);
    WayIsThroughChild(t, b, h, x);
    HeadIsBelowBest(t, votes, b);
    var y := BestChild(t, votes, b);
    if x == y {
      BestIsHeaviest(t, votes, b);
      ChildHasParent(t, votes, b, y);
    } else {
      GreedyOnTheWay(t, votes, y, x);
    }
  }

  /** What is on the way from `b` to `h` is the child of `b` towards `h`, or on the way from there. */
  lemma {:induction false} WayIsThroughChild(t: BlockTree, b: Id, h: Id, x: Id)
    requires WellFormed(t) && Known(t, b) && Known(t, h) && OnTheWay(t, b, h, x)
    ensures var y := AncestorAt(t, h, t.depths[b] + 1);
      b in t.children && y in t.children[b] && Known(t, y) && (x == y || OnTheWay(t, y, h, x))
  {
    hide WellFormed, AncestorAt;
    ChildTowards(t, x, b);
    AncestorOfAncestor(t, h, t.depths[x], t.depths[b] + 1);
  }

  lemma ChildTowards(t: BlockTree, d: Id, b: Id)
    requires WellFormed(t) && Known(t, d) && Known(t, b) && Descends(t, d, b) && d != b
    ensures var x := AncestorAt(t, d, t.depths[b] + 1);
      && b in t.children && x in t.children[b] && Known(t, x) && t.depths[x] == t.depths[b] + 1 <= t.depths[d]
      && Descends(t, d, x)
  {
    hide AncestorAt;
    StepTowards(t, d, b);
    ChildDescends(t, b, AncestorAt(t, d, t.depths[b] + 1));
    DescendsFrom(t, d, AncestorAt(t, d, t.depths[b] + 1));
  }

  lemma DescendsFrom(t: BlockTree, x: Id, y: Id)
    requires WellFormed(t) && Known(t, x) && Known(t, y) && Descends(t, x, y)
    ensures t.depths[y] <= t.depths[x]
  {
  }

  lemma HeadIsBelowBest(t: BlockTree, votes: Votes, b: Id)
    requires WellFormed(t) && TargetsKnown(t, votes) && Known(t, b) && t.children[b] != []
    ensures var h, y := Head(t, votes, b), BestChild(t, votes, b);
      h == Head(t, votes, y) && AncestorAt(t, h, t.depths[b] + 1) == y
  {
    hide WellFormed, Deeper, Scores, BestChild, AncestorAt;
    HeadIsLeaf(t, votes, BestChild(t, votes, b));
  }

  /** The walk is greedy: the head is a leaf below the start, and on the way to it every block has at least
      the support of each of its siblings, and more than each that comes before it in the list of children. */
  lemma {:induction false} HeadIsGreedy(t: BlockTree, votes: Votes, b: Id)
    requires WellFormed(t) && TargetsKnown(t, votes) && Known(t, b)
    ensures Greedy(t, votes, b, Head(t, votes, b))
  {
    hide HeaviestSibling, WellFormed, AncestorAt;
    HeadIsLeaf(t, votes, b);
    forall x | OnTheWay(t, b, Head(t, votes, b), x)
      ensures HeaviestSibling(t, votes, x)
    {
      GreedyOnTheWay(t, votes, b, x);
    }
  }

  /** Only one leaf is reached so. */
  lemma {:induction false} GreedyIsUnique(t: BlockTree, votes: Votes, b: Id, h: Id, h': Id)
    requires WellFormed(t) && TargetsKnown(t, votes) && Greedy(t, votes, b, h) && Greedy(t, votes, b, h')
    ensures h == h'
  {
    hide WellFormed, AncestorAt, OnTheWay, HeaviestSibling;
    HeadIsOnly(t, votes, b, h);
    HeadIsOnly(t, votes, b, h');
  }

  lemma {:induction false} HeadIsOnly(t: BlockTree, votes: Votes, b: Id, h: Id)
    requires WellFormed(t) && TargetsKnown(t, votes) && Greedy(t, votes, b, h)
    ensures h == Head(t, votes, b)
    decreases Deeper(t, t.depths[b])
  {
    hide WellFormed, Deeper, Scores, BestChild, AncestorAt, Heaviest, HeaviestSibling;
    ChildrenKnown(t, b);
    if h == b {
      assert Head(t, votes, b) == b;
    } else {
      var x := FirstOnTheWay(t, b, h);
      assert HeaviestSibling(t, votes, x);
      ChildHasParent(t, votes, b, x);
      BestIsHeaviest(t, votes, b);
      OneHeaviest(t, votes, b, x, BestChild(t, votes, b));
      forall y | OnTheWay(t, x, h, y)
        ensures HeaviestSibling(t, votes, y)
      {
        DescendsTransitive(t, y, x, b);
        assert OnTheWay(t, b, h, y) by { StrictlyBelow(t, y, x, b); }
      }
      HeadIsOnly(t, votes, x, h);
      assert Head(t, votes, b) == Head(t, votes, BestChild(t, votes, b));
    }
  }

  lemma {:induction false} FirstOnTheWay(t: BlockTree, b: Id, h: Id) returns (x: Id)
    requires WellFormed(t) && Known(t, b) && Known(t, h) && Descends(t, h, b) && h != b
    ensures b in t.children && x in t.children[b] && OnTheWay(t, b, h, x) && t.depths[x] == t.depths[b] + 1
  {
    hide WellFormed, AncestorAt;
    x := AncestorAt(t, h, t.depths[b] + 1);
    ChildTowards(t, h, b);
    ChildDescends(t, b, x);
  }

  lemma StrictlyBelow(t: BlockTree, y: Id, x: Id, b: Id)
    requires WellFormed(t) && Known(t, b) && x in t.depths && t.depths[x] == t.depths[b] + 1
    requires Known(t, y) && Descends(t, y, x)
    ensures y != b
  {
    hide WellFormed;
    DescendsFrom(t, y, x);
  }

  lemma OneHeaviest(t: BlockTree, votes: Votes, p: Id, x: Id, y: Id)
    requires WellFormed(t) && TargetsKnown(t, votes) && Known(t, p)
    requires Heaviest(t, votes, p, x) && Heaviest(t, votes, p, y)
    ensures x == y
  {
    hide Score, AncestorAt;
    ChildrenKnown(t, p);
    var i :| 0 <= i < |t.children[p]| && FirstHeaviest(t, votes, p, i) && t.children[p][i] == x;
    var j :| 0 <= j < |t.children[p]| && FirstHeaviest(t, votes, p, j) && t.children[p][j] == y;
  }

  /** `h` is what the fork choice should answer from `b`: nothing is counted at a leaf. */
  ghost predicate Chosen(t: BlockTree, votes: Votes, b: Id, h: Id)
    requires WellFormed(t)
  {
    Known(t, b) && if t.children[b] == [] then h == b else TargetsKnown(t, votes) && Greedy(t, votes, b, h)
  }

  lemma HeadOfIsChosen(t: BlockTree, votes: Votes, b: Id)
    requires WellFormed(t)
    ensures HeadOf(t, votes, b).Some? <==> Known(t, b) && (t.children[b] == [] || TargetsKnown(t, votes))
    ensures HeadOf(t, votes, b).Some? ==> Chosen(t, votes, b, HeadOf(t, votes, b).value)
  {
    hide Greedy, TargetsKnown;
    if Known(t, b) && TargetsKnown(t, votes) {
      HeadIsGreedy(t, votes, b);
    }
  }

  // The archive and its importer

  lemma OverlayFirst(t: BlockTree, votes: Votes, overlay: Votes)
    ensures TargetsKnown(t, Effective(votes, overlay))
            <==> TargetsKnown(t, overlay) && TargetsKnown(t, votes - overlay.Keys)
  {
    var counted := Effective(votes, overlay);
    assert forall v :: v in overlay ==> counted[v] == overlay[v];
    assert forall v :: v in votes - overlay.Keys ==> counted[v] == (votes - overlay.Keys)[v];
  }

  /** A validator is counted once: by the overlay when it has a vote there. */
  lemma OverlayAdds(t: BlockTree, votes: Votes, overlay: Votes, block: Id, depth: nat)
    requires WellFormed(t) && TargetsKnown(t, Effective(votes, overlay))
    requires TargetsKnown(t, overlay) && TargetsKnown(t, votes - overlay.Keys)
    ensures |Supporters(t, Effective(votes, overlay), block, depth)|
         == |Supporters(t, overlay, block, depth)| + |Supporters(t, votes - overlay.Keys, block, depth)|
  {
    hide WellFormed, AncestorAt;
    var a, b := Supporters(t, overlay, block, depth), Supporters(t, votes - overlay.Keys, block, depth);
    assert a !! b;
    assert Supporters(t, Effective(votes, overlay), block, depth) == a + b;
  }

  lemma ChildrenKnown(t: BlockTree, b: Id)
    requires WellFormed(t) && Known(t, b)
    ensures b in t.children && AllKnown(t, t.children[b])
  {
  }

  lemma ScoreOfChild(t: BlockTree, votes: Votes, b: Id, i: nat)
    requires WellFormed(t) && TargetsKnown(t, votes) && Known(t, b) && i < |t.children[b]|
    requires AllKnown(t, t.children[b])
    ensures Scores(t, votes, t.children[b])[i] == |Supporters(t, votes, t.children[b][i], t.depths[b] + 1)|
  {
    ChildDescends(t, b, t.children[b][i]);
  }

  datatype ImportError = ExecutorFailed | BackendFailed

  datatype Import = Imported | Failed(error: ImportError)

  class ArchiveGhost {
    var tree: BlockTree
    var head: Id
    var votes: Votes
    var overlay: Votes

    constructor (tree: BlockTree)
      ensures this.tree == tree && head == tree.genesis && votes == map[] && overlay == map[]
    {
      this.tree, head, votes, overlay := tree, tree.genesis, map[], map[];
    }

    ghost function Counted(): Votes
      reads this
    {
      Effective(votes, overlay)
    }

    method UpdateOverlay(validator: ValidatorIndex, target: Id)
      modifies `overlay
      ensures overlay == old(overlay)[validator := target]
    {
      overlay := overlay[validator := target];
    }

    /** Moves the overlay into the votes: no vote that counts changes. */
    method CommitOverlay()
      modifies `votes, `overlay
      ensures overlay == map[] && votes == Counted() == old(Counted())
    {
      var moved := overlay;
      var rest := moved.Keys;
      overlay := map[];
      while rest != {}
        invariant rest <= moved.Keys && overlay == map[]
        invariant votes == old(votes) + map v | v in moved.Keys - rest :: moved[v]
        decreases rest
      {
        var v :| v in rest;
        votes := votes[v := moved[v]];
        rest := rest - {v};
      }
      assert (map v | v in moved.Keys - rest :: moved[v]) == moved;
    }

    method ResetOverlay()
      modifies `overlay
      ensures overlay == map[]
    {
      overlay := map[];
    }

    method UpdateActive(active: seq<ValidatorIndex>)
      modifies `votes
      ensures votes == Kept(old(votes), active)
    {
      votes := map v | v in votes && v in active :: votes[v];
    }

    /** Fails exactly on an unknown block. */
    method Ancestor(id: Id, depth: nat) returns (r: Option<Id>)
      requires WellFormed(tree)
      ensures r == if Known(tree, id) then Some(AncestorAt(tree, id, depth)) else None
    {
      if id !in tree.depths {
        return None;
      }
      var current := id;
      while tree.depths[current] > depth
        invariant Known(tree, current) && AncestorAt(tree, current, depth) == AncestorAt(tree, id, depth)
        decreases tree.depths[current]
      {
        current := tree.parents[current].value;
      }
      return Some(current);
    }

    /** Counts the targets at or below `block`, leaving some validators out. */
    method CountTargets(targets: Votes, skipped: set<ValidatorIndex>, block: Id, depth: nat) returns (r: Option<nat>)
      requires WellFormed(tree)
      ensures r.Some? <==> TargetsKnown(tree, targets - skipped)
      ensures r.Some? ==> r.value == |Supporters(tree, targets - skipped, block, depth)|
    {
      hide WellFormed, AncestorAt;
      var total := 0;
      ghost var found := {};
      var rest := targets.Keys;
      while rest != {}
        invariant rest <= targets.Keys && total == |found|
        invariant TargetsKnown(tree, targets - skipped - rest)
        invariant found == Supporters(tree, targets - skipped - rest, block, depth)
        decreases rest
      {
        var v :| v in rest;
        if v !in skipped {
          var a := Ancestor(targets[v], depth);
          if a.None? {
            assert (targets - skipped)[v] == targets[v];
            return None;
          }
          if a.value == block {
            total, found := total + 1, found + {v};
          }
        }
        assert targets - skipped - (rest - {v})
            == (targets - skipped - rest) + (if v in skipped then map[] else map[v := targets[v]]);
        rest := rest - {v};
      }
      assert targets - skipped - {} == targets - skipped;
      return Some(total);
    }

    /** Fails exactly when some vote that counts is for an unknown block. */
    method VoteCount(block: Id, depth: nat) returns (r: Option<nat>)
      requires WellFormed(tree)
      ensures r.Some? <==> TargetsKnown(tree, Counted())
      ensures r.Some? ==> r.value == |Supporters(tree, Counted(), block, depth)|
    {
      hide WellFormed, AncestorAt;
      assert overlay - {} == overlay;
      OverlayFirst(tree, votes, overlay);
      var above := CountTargets(overlay, {}, block, depth);
      if above.None? {
        return None;
      }
      var below := CountTargets(votes, overlay.Keys, block, depth);
      if below.None? {
        return None;
      }
      OverlayAdds(tree, votes, overlay, block, depth);
      return Some(above.value + below.value);
    }

    /** The child to walk to. */
    method ChooseChild(b: Id, depth: nat) returns (r: Option<Id>)
      requires WellFormed(tree) && Known(tree, b) && depth == tree.depths[b] && tree.children[b] != []
      ensures r.Some? <==> TargetsKnown(tree, Counted())
      ensures r.Some? ==> r.value == BestChild(tree, Counted(), b) && Heaviest(tree, Counted(), b, r.value)
    {
      hide Heaviest, WellFormed, AncestorAt, Score, Scores, TargetsKnown, Best, IsBest, AllKnown, Supporters, Leads,
        Deeper;
      ChildrenKnown(tree, b);
      var children := tree.children[b];
      ghost var known := TargetsKnown(tree, Counted());
      ghost var scores: seq<nat> := if known then Scores(tree, Counted(), children) else [];
      var best, bestScore, i := children[0], 0, 0;
      LeadsAtStart(children, scores);
      while i < |children|
        invariant 0 <= i <= |children|
        invariant i > 0 ==> known
        invariant Leads(children, scores, i, best, bestScore)
      {
        var count := VoteCount(children[i], depth + 1);
        if count.None? {
          return None;
        }
        ScoreOfChild(tree, Counted(), b, i);
        LeadsNext(children, scores, i, best, bestScore);
        if count.value > bestScore {
          best, bestScore := children[i], count.value;
        }
        i := i + 1;
      }
      LeadsAtEnd(children, scores, best, bestScore);
      BestIsHeaviest(tree, Counted(), b);
      return Some(best);
    }

    method FindHead(justified: Id) returns (r: Option<Id>)
      requires WellFormed(tree)
      ensures r == HeadOf(tree, Counted(), justified)
      ensures r.Some? ==> Chosen(tree, Counted(), justified, r.value)
    {
      hide BestChild, Greedy;
      HeadOfIsChosen(tree, Counted(), justified);
      if justified !in tree.depths {
        return None;
      }
      var b, depth := justified, tree.depths[justified];
      while tree.children[b] != []
        invariant Known(tree, b) && depth == tree.depths[b]
        invariant b != justified ==> TargetsKnown(tree, Counted())
        invariant HeadOf(tree, Counted(), b) == HeadOf(tree, Counted(), justified)
        decreases Deeper(tree, tree.depths[b])
      {
        var next := ChooseChild(b, depth);
        if next.None? {
          return None;
        }
        b, depth := next.value, depth + 1;
      }
      return Some(b);
    }

    /**
     Imports one block. The answers of the executor and of the backend are parameters: what the
     executor reads off the new state, the tree once the block is stored, and whether setting the
     head succeeds.
     */
    method ImportRaw(active: Option<seq<ValidatorIndex>>, justified: Option<Option<Id>>,
                     cast: Option<seq<(ValidatorIndex, Id)>>, stored: Option<BlockTree>, settable: bool)
      returns (r: Import)
      requires WellFormed(tree) && overlay == map[]
      requires stored.Some? ==> WellFormed(stored.value)
      modifies this
      ensures WellFormed(tree) && overlay == map[]
      ensures active.None? || justified.None? || cast.None? ==>
                r == Failed(ExecutorFailed) && tree == old(tree) && votes == old(votes) && head == old(head)
      ensures active.Some? && justified.Some? && cast.Some? && stored.None? ==>
                r == Failed(BackendFailed) && tree == old(tree) && votes == old(votes) && head == old(head)
      ensures active.Some? && justified.Some? && cast.Some? && stored.Some? ==>
                var kept := Kept(old(votes), active.value);
                var counted := Effective(kept, Latest(cast.value));
                var root := if justified.value.Some? then justified.value.value else old(tree).genesis;
                var chosen := HeadOf(stored.value, counted, root);
                && tree == stored.value
                && r == (if chosen.Some? then Imported else Failed(BackendFailed))
                && votes == (if chosen.Some? && settable then counted else kept)
                && head == (if chosen.Some? && settable then chosen.value else old(head))
                && (r.Imported? && settable ==> Chosen(tree, votes, root, head))
    {
      hide Greedy;
      if active.None? || justified.None? || cast.None? {
        return Failed(ExecutorFailed);
      }
      var root := if justified.value.Some? then justified.value.value else tree.genesis;
      if stored.None? {
        return Failed(BackendFailed);
      }
      tree := stored.value;
      for i := 0 to |cast.value|
        invariant tree == stored.value && votes == old(votes) && head == old(head)
        invariant overlay == Latest(cast.value[..i])
      {
        assert cast.value[..i + 1][..i] == cast.value[..i];
        UpdateOverlay(cast.value[i].0, cast.value[i].1);
      }
      assert cast.value[..|cast.value|] == cast.value;
      UpdateActive(active.value);
      var chosen := FindHead(root);
      if chosen.None? {
        ResetOverlay();
        return Failed(BackendFailed);
      }
      if settable {
        head := chosen.value;
        CommitOverlay();
      } else {
        ResetOverlay();
      }
      return Imported;
    }
  }
}
