/** Deposit trees: building the tree, reading off a proof, and folding the proof back to the root. */
module Merkle {
  import opened Bytes
  import opened BeaconTypes
  import opened Arith

  function Node(c: Config, left: Hash, right: Hash): Hash {
    c.crypto.hash(left + right)
  }

  /** The root a branch leads to: each sibling joins on the side the index bit says. */
  function BranchRoot(c: Config, leaf: Hash, proof: seq<Hash>, index: nat): Hash
    decreases |proof|
  {
    if proof == [] then leaf
    else
      var parent := if index % 2 == 1 then Node(c, proof[0], leaf) else Node(c, leaf, proof[0]);
      BranchRoot(c, parent, proof[1..], index / 2)
  }

  predicate IsValidMerkleBranch(c: Config, leaf: Hash, proof: seq<Hash>, depth: nat, index: nat, root: Hash) {
    |proof| == depth && BranchRoot(c, leaf, proof, index) == root
  }

  // Layers

  /** The root of an empty subtree of height `h`. */
  function ZeroHash(c: Config, h: nat): Hash {
    if h == 0 then ZERO_HASH else Node(c, ZeroHash(c, h - 1), ZeroHash(c, h - 1))
  }

  /** The node at `i`, or the padding beyond the layer. */
  function Padded(c: Config, layer: seq<Hash>, h: nat, i: nat): Hash {
    if i < |layer| then layer[i] else ZeroHash(c, h)
  }

  function Up(c: Config, layer: seq<Hash>, h: nat): (above: seq<Hash>)
    ensures |above| == (|layer| + 1) / 2
    ensures forall i :: 0 <= i < |above| ==> above[i] == Node(c, layer[2 * i], Padded(c, layer, h, 2 * i + 1))
  {
    var n := (|layer| + 1) / 2;
    seq(n, i requires 0 <= i < n => Node(c, layer[2 * i], Padded(c, layer, h, 2 * i + 1)))
  }

  /** The nodes at height `h` above the leaves. */
  function Layer(c: Config, leaves: seq<Hash>, h: nat): seq<Hash> {
    if h == 0 then leaves else Up(c, Layer(c, leaves, h - 1), h - 1)
  }

  function LengthLeaf(n: nat): Hash {
    LittleEndian(n, 8) + Zeros(24)
  }

  const MAX_DEPOSITS: nat := 0x1_0000_0000

  lemma {:induction false} LayerAtMost(c: Config, leaves: seq<Hash>, h: nat, m: nat)
    ensures |Layer(c, leaves, h)| <= m <==> |leaves| <= Mul(m, Pow2(h))
    decreases h
  {
    hide Up;
    MulIsProduct(m, Pow2(h));
    if h > 0 {
      MulIsProduct(2 * m, Pow2(h - 1));
      LayerAtMost(c, leaves, h - 1, 2 * m);
      MulByDouble(m, Pow2(h - 1));
    }
  }

  lemma MulByDouble(m: nat, p: nat)
    ensures (2 * m) * p == m * (2 * p)
  {
  }

  /** One node is left at the top exactly for one to 2^32 deposits. */
  lemma SingleTop(c: Config, leaves: seq<Hash>)
    ensures |Layer(c, leaves, DEPOSIT_CONTRACT_TREE_DEPTH)| == 1 <==> 1 <= |leaves| <= MAX_DEPOSITS
  {
    Pow2Of32();
    LayerAtMost(c, leaves, 32, 1);
    LayerAtMost(c, leaves, 32, 0);
  }

  lemma Pow2Of32()
    ensures Pow2(32) == MAX_DEPOSITS
  {
    assert Pow2(8) == 256;
    assert Pow2(16) == 65536;
    assert Pow2(24) == 16777216;
  }

  // The complete tree

  /** Node `i` at height `h` of the complete tree over the leaves and, beyond them, zero leaves. */
  function Complete(c: Config, leaves: seq<Hash>, h: nat, i: nat): Hash {
    if h == 0 then if i < |leaves| then leaves[i] else ZERO_HASH
    else c.crypto.hash(Complete(c, leaves, h - 1, 2 * i) + Complete(c, leaves, h - 1, 2 * i + 1))
  }

  /** The layers and their padding are the complete tree. */
  lemma {:induction false} LayersAreComplete(c: Config, leaves: seq<Hash>, h: nat, i: nat)
    ensures Padded(c, Layer(c, leaves, h), h, i) == Complete(c, leaves, h, i)
    decreases h
  {
    hide Padded, Up, Layer, Complete;
    if h == 0 {
      LeavesAreComplete(c, leaves, i);
    } else {
      OneLayerUp(c, leaves, h, i);
      PaddedAbove(c, Layer(c, leaves, h - 1), h - 1, i);
      LayersAreComplete(c, leaves, h - 1, 2 * i);
      LayersAreComplete(c, leaves, h - 1, 2 * i + 1);
    }
  }

  lemma LeavesAreComplete(c: Config, leaves: seq<Hash>, i: nat)
    ensures Padded(c, Layer(c, leaves, 0), 0, i) == Complete(c, leaves, 0, i)
  {
  }

  lemma OneLayerUp(c: Config, leaves: seq<Hash>, h: nat, i: nat)
    requires h > 0
    ensures Layer(c, leaves, h) == Up(c, Layer(c, leaves, h - 1), h - 1)
    ensures Complete(c, leaves, h, i)
         == Node(c, Complete(c, leaves, h - 1, 2 * i), Complete(c, leaves, h - 1, 2 * i + 1))
  {
    hide Up;
  }

  lemma PaddedAbove(c: Config, layer: seq<Hash>, h: nat, i: nat)
    ensures Padded(c, Up(c, layer, h), h + 1, i) == Node(c, Padded(c, layer, h, 2 * i), Padded(c, layer, h, 2 * i + 1))
  {
    hide Node;
  }

  // Tree and proof

  /** The 32 layers, the top with the mixed-in length, and the root. */
  function Tree(c: Config, leaves: seq<Hash>): (tree: seq<seq<Hash>>)
    requires 1 <= |leaves| <= MAX_DEPOSITS
    ensures |tree| == 34
    ensures forall h :: 0 <= h < 32 ==> tree[h] == Layer(c, leaves, h)
    ensures tree[32] == Layer(c, leaves, 32) + [LengthLeaf(|leaves|)] && |tree[32]| == 2
    ensures tree[33] == [Node(c, tree[32][0], tree[32][1])]
  {
    SingleTop(c, leaves);
    var top := Layer(c, leaves, 32)[0];
    var length := LengthLeaf(|leaves|);
    seq(32, h requires 0 <= h < 32 => Layer(c, leaves, h)) + [[top, length], [Node(c, top, length)]]
  }

  function DepositRoot(tree: seq<seq<Hash>>): Hash
    requires |tree| > 0 && |tree[|tree| - 1]| > 0
  {
    tree[|tree| - 1][0]
  }

  /** The index with its last bit flipped. */
  function Sibling(i: nat): nat {
    if i % 2 == 0 then i + 1 else i - 1
  }

  function Proof(c: Config, tree: seq<seq<Hash>>, index: nat): (proof: seq<Hash>)
    requires |tree| == 34 && |tree[32]| == 2
    ensures |proof| == 33
    ensures forall h :: 0 <= h < 32 ==> proof[h] == Padded(c, tree[h], h, Sibling(Div(index, Pow2(h))))
    ensures proof[32] == tree[32][1]
  {
    seq(32, h requires 0 <= h < 32 => Padded(c, tree[h], h, Sibling(Div(index, Pow2(h))))) + [tree[32][1]]
  }

  lemma HalveAgain(index: nat, h: nat)
    ensures Div(index, Pow2(h + 1)) == Div(index, Pow2(h)) / 2
  {
    var p := Pow2(h);
    var q, r := Div(index, p), Mod(index, p);
    DivModLaw(index, p);
    MulByDouble(q / 2, p);
    Distribute(2 * (q / 2), q % 2, p);
    assert q == 2 * (q / 2) + q % 2;
    if q % 2 == 0 {
      DivModUnique(index, 2 * p, q / 2, r);
    } else {
      DivModUnique(index, 2 * p, q / 2, p + r);
    }
  }

  lemma {:induction false} IndexInLayer(c: Config, leaves: seq<Hash>, index: nat, h: nat)
    requires index < |leaves|
    ensures Div(index, Pow2(h)) < |Layer(c, leaves, h)|
  {
    hide Up, Div;
    if h == 0 {
      DivModUnique(index, 1, index, 0);
    } else {
      IndexInLayer(c, leaves, index, h - 1);
      HalveAgain(index, h - 1);
    }
  }

  /** Joining a node with its sibling gives the node above. */
  lemma {:induction false} JoinIsAbove(c: Config, layer: seq<Hash>, h: nat, i: nat)
    requires i < |layer|
    ensures i / 2 < |Up(c, layer, h)|
    ensures Up(c, layer, h)[i / 2] ==
      if i % 2 == 1 then Node(c, Padded(c, layer, h, Sibling(i)), layer[i])
      else Node(c, layer[i], Padded(c, layer, h, Sibling(i)))
  {
    hide Node, ZeroHash;
    assert i == 2 * (i / 2) + i % 2;
  }

  lemma BranchAtTop(c: Config, leaves: seq<Hash>, index: nat)
    requires index < |leaves| <= MAX_DEPOSITS
    ensures var i := Div(index, Pow2(32)); var tree := Tree(c, leaves);
      && i < |Layer(c, leaves, 32)|
      && BranchRoot(c, Layer(c, leaves, 32)[i], Proof(c, tree, index)[32..], i) == DepositRoot(tree)
  {
    hide Node, Tree, Proof, Up, Padded, Div, Pow2, Layer;
    var tree := Tree(c, leaves);
    var proof := Proof(c, tree, index);
    IndexInLayer(c, leaves, index, 32);
    SingleTop(c, leaves);
    assert proof[32..] == [proof[32]];
    assert tree[32][0] == Layer(c, leaves, 32)[0];
    assert BranchRoot(c, Node(c, tree[32][0], proof[32]), [], 0) == Node(c, tree[32][0], proof[32]);
  }

  /** From every layer on, the rest of the proof leads to the root. */
  lemma {:induction false} BranchFromLayer(c: Config, leaves: seq<Hash>, index: nat, h: nat)
    requires index < |leaves| <= MAX_DEPOSITS && h <= 32
    ensures var i := Div(index, Pow2(h)); var tree := Tree(c, leaves);
      && i < |Layer(c, leaves, h)|
      && BranchRoot(c, Layer(c, leaves, h)[i], Proof(c, tree, index)[h..], i) == DepositRoot(tree)
    decreases 32 - h
  {
    hide Node, Tree, Proof, Up, Padded, Div, Pow2, DepositRoot;
    var i := Div(index, Pow2(h));
    var tree := Tree(c, leaves);
    var proof := Proof(c, tree, index);
    IndexInLayer(c, leaves, index, h);
    if h == 32 {
      BranchAtTop(c, leaves, index);
    } else {
      BranchFromLayer(c, leaves, index, h + 1);
      HalveAgain(index, h);
      JoinIsAbove(c, Layer(c, leaves, h), h, i);
      assert proof[h..][1..] == proof[h + 1..];
    }
  }

  /** The deposit root is that of the complete tree of height 32, hashed with the number of deposits in eight
      bytes, lowest first. */
  lemma DepositRootIsComplete(c: Config, leaves: seq<Hash>)
    requires 1 <= |leaves| <= MAX_DEPOSITS
    ensures DepositRoot(Tree(c, leaves))
         == c.crypto.hash(Complete(c, leaves, 32, 0) + (LittleEndian(|leaves|, 8) + Zeros(24)))
  {
    hide Layer, Complete, LittleEndian;
    SingleTop(c, leaves);
    LayersAreComplete(c, leaves, 32, 0);
  }

  /** Every proof read off the tree is accepted at its index. */
  lemma ProofVerifies(c: Config, leaves: seq<Hash>, index: nat)
    requires index < |leaves| <= MAX_DEPOSITS
    ensures var tree := Tree(c, leaves);
      IsValidMerkleBranch(c, leaves[index], Proof(c, tree, index), DEPOSIT_CONTRACT_TREE_DEPTH + 1, index,
                          DepositRoot(tree))
  {
    BranchFromLayer(c, leaves, index, 0);
    DivModUnique(index, 1, index, 0);
    assert Pow2(0) == 1;
    var proof := Proof(c, Tree(c, leaves), index);
    assert proof[0..] == proof;
  }

  // The loops that build them

  method ZeroHashes(c: Config) returns (zeros: seq<Hash>)
    ensures |zeros| == 32 && forall h :: 0 <= h < 32 ==> zeros[h] == ZeroHash(c, h)
  {
    zeros := [ZERO_HASH];
    for layer := 1 to 32
      invariant |zeros| == layer && forall h :: 0 <= h < layer ==> zeros[h] == ZeroHash(c, h)
    {
      zeros := zeros + [Node(c, zeros[layer - 1], zeros[layer - 1])];
    }
  }

  method NextLayer(c: Config, values: seq<Hash>, h: nat, zero: Hash) returns (above: seq<Hash>)
    requires zero == ZeroHash(c, h)
    ensures above == Up(c, values, h)
  {
    hide Node, ZeroHash;
    var padded := values;
    if |padded| % 2 == 1 {
      padded := padded + [zero];
    }
    above := [];
    for i := 0 to |padded| / 2
      invariant |above| == i
      invariant forall k :: 0 <= k < i ==> above[k] == Node(c, padded[k * 2], padded[k * 2 + 1])
    {
      above := above + [Node(c, padded[i * 2], padded[i * 2 + 1])];
    }
    assert forall k :: 0 <= k < |above| ==> padded[k * 2] == values[2 * k];
  }

  lemma {:induction false} Assembled(c: Config, leaves: seq<Hash>, layers: seq<seq<Hash>>)
    requires 1 <= |leaves| <= MAX_DEPOSITS && |layers| == 33
    requires forall k :: 0 <= k <= 32 ==> layers[k] == Layer(c, leaves, k)
    ensures var length := LengthLeaf(|leaves|);
      |layers[32]| == 1
      && layers[32 := layers[32] + [length]] + [[Node(c, layers[32][0], length)]] == Tree(c, leaves)
  {
    hide Node, LengthLeaf, Tree, Layer;
    SingleTop(c, leaves);
  }

  /** The tree, unless the assertion of a single node at the top fails. */
  method DepositTree(c: Config, leaves: seq<Hash>) returns (r: Result<seq<seq<Hash>>>)
    ensures r.Ok? <==> 1 <= |leaves| <= MAX_DEPOSITS
    ensures r.Ok? ==> r.value == Tree(c, leaves)
    ensures r.Err? ==> r == Err(Panicked)
  {
    hide Node, Up, Padded, LengthLeaf, ZeroHash, Tree;
    var zeros := ZeroHashes(c);
    var values := leaves;
    var tree := [values];
    for h := 0 to 32
      invariant values == Layer(c, leaves, h)
      invariant |tree| == h + 1 && forall k :: 0 <= k <= h ==> tree[k] == Layer(c, leaves, k)
    {
      values := NextLayer(c, values, h, zeros[h]);
      tree := tree + [values];
    }
    SingleTop(c, leaves);
    if |values| != 1 {
      return Err(Panicked);
    }
    var length := LengthLeaf(|leaves|);
    Assembled(c, leaves, tree);
    tree := tree[32 := tree[32] + [length]];
    tree := tree + [[Node(c, values[0], length)]];
    return Ok(tree);
  }

  method DepositProof(c: Config, tree: seq<seq<Hash>>, index: nat) returns (proof: seq<Hash>)
    requires |tree| == 34 && |tree[32]| == 2
    ensures proof == Proof(c, tree, index)
  {
    hide Node, ZeroHash, Div, Pow2;
    var zeros := ZeroHashes(c);
    proof := [];
    for h := 0 to 32
      invariant |proof| == h
      invariant forall k :: 0 <= k < h ==> proof[k] == Padded(c, tree[k], k, Sibling(Div(index, Pow2(k))))
    {
      var subindex := Sibling(Div(index, Pow2(h)));
      if subindex < |tree[h]| {
        proof := proof + [tree[h][subindex]];
      } else {
        proof := proof + [zeros[h]];
      }
    }
    proof := proof + [tree[32][1]];
  }
}
