/**
 The Merkle tree as the code has it: nodes with parent pointers, built level by
 level with a stateful hasher, and proofs checked with one.
 */
module MerkleTree {
  import opened Common
  import opened Merkle

  /** A hasher holds what was written since its last reset. */
  class HashState {
    const H: Hasher
    var pending: Bytes

    constructor (H: Hasher)
      ensures this.H == H && pending == []
    {
      this.H, pending := H, [];
    }

    method Reset()
      modifies this
      ensures pending == []
    {
      pending := [];
    }

    method Write(b: Bytes)
      modifies this
      ensures pending == old(pending) + b
    {
      pending := pending + b;
    }

    method Sum() returns (h: Hash)
      ensures h == H(pending)
    {
      h := H(pending);
    }
  }

  // ---------- checking ----------

  /** The leaf is written without a reset, so it is hashed together with what the hasher held. */
  method GetProofHash(index: nat, leaf: Bytes, proof: seq<Hash>, hasher: HashState) returns (computed: Hash)
    modifies hasher
    ensures computed == ProofHash(hasher.H, index, hasher.H(old(hasher.pending) + leaf), proof)
    ensures hasher.pending == Checked(hasher.H, index, old(hasher.pending) + leaf, proof)[|proof|]
  {
    hide Beside;
    hasher.Write(leaf);
    computed := hasher.Sum();
    var at := index;
    ghost var first := hasher.pending;
    for i := 0 to |proof|
      invariant computed == hasher.H(hasher.pending)
      invariant ProofHash(hasher.H, index, hasher.H(first), proof) == ProofHash(hasher.H, at, computed, proof[i..])
      invariant Checked(hasher.H, index, first, proof)[|proof|] == Checked(hasher.H, at, hasher.pending, proof[i..])[|proof| - i]
    {
      assert proof[i..] == [proof[i]] + proof[i + 1..];
      FoldOne(hasher.H, at, computed, proof[i], proof[i + 1..]);
      OneChecked(hasher.H, at, hasher.pending, proof[i], proof[i + 1..]);
      WriteBeside(hasher, at, computed, proof[i]);
      computed := hasher.Sum();
      at := at / 2;
    }
  }

  method WriteBeside(hasher: HashState, at: nat, computed: Hash, sibling: Hash)
    modifies hasher
    ensures hasher.pending == Beside(at, computed, sibling)
  {
    hasher.Reset();
    if at % 2 == 0 {
      hasher.Write(computed);
      hasher.Write(sibling);
    } else {
      hasher.Write(sibling);
      hasher.Write(computed);
    }
  }

  datatype VerifyError = EmptyLeaf | InvalidIndex | NotAMember

  method VerifyProofUsing(index: nat, leaf: Bytes, proof: seq<Hash>, root: Hash, hasher: HashState, outOfRange: int)
    returns (err: Option<VerifyError>)
    modifies hasher
    ensures err == None <==> Accepts(hasher.H, old(hasher.pending), index, leaf, proof, root, outOfRange)
    ensures err == Some(EmptyLeaf) <==> leaf == []
    ensures err == Some(InvalidIndex) <==> leaf != [] && AsSigned(index) >= PowAsInt(|proof|, outOfRange)
    ensures hasher.pending == if err == Some(EmptyLeaf) || err == Some(InvalidIndex) then old(hasher.pending)
                              else Checked(hasher.H, index, old(hasher.pending) + leaf, proof)[|proof|]
  {
    hide ProofHash, Checked;
    if |leaf| == 0 {
      return Some(EmptyLeaf);
    }
    if AsSigned(index) >= PowAsInt(|proof|, outOfRange) {
      return Some(InvalidIndex);
    }
    var computed := GetProofHash(index, leaf, proof, hasher);
    if root != computed {
      return Some(NotAMember);
    }
    return None;
  }

  /** The default check makes a hasher of its own, which is empty. */
  method VerifyProof(H: Hasher, index: nat, leaf: Bytes, proof: seq<Hash>, root: Hash, outOfRange: int)
    returns (err: Option<VerifyError>)
    ensures err == None <==> Accepts(H, [], index, leaf, proof, root, outOfRange)
  {
    hide Accepts;
    var hasher := new HashState(H);
    err := VerifyProofUsing(index, leaf, proof, root, hasher, outOfRange);
  }

  // ---------- building ----------

  class Node {
    const left: Node?
    const right: Node?
    const data: Bytes
    const hash: Hash
    var parent: Node?

    /** Where the node stands in its tree. */
    ghost const level: nat
    ghost const pos: nat

    constructor (left: Node?, right: Node?, data: Bytes, hash: Hash, ghost level: nat, ghost pos: nat)
      ensures this.left == left && this.right == right && this.data == data && this.hash == hash
      ensures parent == null && this.level == level && this.pos == pos
    {
      this.left, this.right, this.data, this.hash, this.level, this.pos := left, right, data, hash, level, pos;
      parent := null;
    }
  }

  /** A leaf hashes its data, an inner node the hashes of its children; the hasher is reset before. */
  method NewNode(left: Node?, right: Node?, data: Bytes, hasher: HashState, ghost level: nat, ghost pos: nat) returns (node: Node)
    requires left == null <==> right == null
    modifies hasher
    ensures fresh(node) && node.left == left && node.right == right && node.data == data && node.level == level && node.pos == pos
    ensures hasher.pending == (if left == null || right == null then data else Join(left.hash, right.hash))
    ensures node.hash == hasher.H(hasher.pending)
  {
    hasher.Reset();
    if left == null || right == null {
      hasher.Write(data);
    } else {
      hasher.Write(Join(left.hash, right.hash));
    }
    var hash := hasher.Sum();
    node := new Node(left, right, data, hash, level, pos);
  }

  /** The nodes of one level, each at its place. */
  ghost predicate Placed(nodes: seq<Node>, level: nat) {
    forall i | 0 <= i < |nodes| :: nodes[i].level == level && nodes[i].pos == i
  }

  ghost function Hashes(nodes: seq<Node>): (hs: seq<Hash>)
    ensures |hs| == |nodes| && forall i | 0 <= i < |nodes| :: hs[i] == nodes[i].hash
  {
    if nodes == [] then [] else
      assert forall i | 1 <= i < |nodes| :: nodes[i] == nodes[1..][i - 1];
      [nodes[0].hash] + Hashes(nodes[1..])
  }

  /** The nodes of `above` are the parents of the first pairs of `below`. */
  ghost predicate Pairs(below: seq<Node>, above: seq<Node>) {
    && 2 * |above| <= |below| + 1
    && forall j | 0 <= j < |above| :: above[j].left == below[2 * j] && above[j].right == below[Partner(|below|, 2 * j)]
  }

  ghost predicate Climbs(below: seq<Node>, above: seq<Node>, i: nat)
    reads below
  {
    i < |below| && i / 2 < |above| ==> below[i].parent == above[i / 2]
  }

  /** The hashes of the level above, as far as it is built. */
  ghost predicate Summed(H: Hasher, below: seq<Node>, above: seq<Node>)
    requires 2 * |above| <= |below| + 1
  {
    forall j | 0 <= j < |above| :: above[j].hash == AboveAt(H, Hashes(below), j)
  }

  lemma SumOne(H: Hasher, below: seq<Node>, above: seq<Node>, parent: Node)
    requires 2 * |above| < |below| && Summed(H, below, above)
    requires parent.hash == H(Join(below[2 * |above|].hash, below[Partner(|below|, 2 * |above|)].hash))
    ensures Summed(H, below, above + [parent])
  {
    hide Join;
    forall j | 0 <= j < |above| + 1 ensures (above + [parent])[j].hash == AboveAt(H, Hashes(below), j) {
      if j < |above| {
        assert above[j].hash == AboveAt(H, Hashes(below), j);
      }
    }
  }

  /** Makes the parent of the next pair. */
  method AddParent(hasher: HashState, nodes: seq<Node>, above: seq<Node>, ghost level: nat) returns (parent: Node)
    requires 2 * |above| < |nodes| && Placed(nodes, level)
    requires forall i | 0 <= i < |nodes| :: Climbs(nodes, above, i)
    modifies nodes, hasher
    ensures fresh(parent) && parent.level == level + 1 && parent.pos == |above|
    ensures parent.left == nodes[2 * |above|] && parent.right == nodes[Partner(|nodes|, 2 * |above|)]
    ensures hasher.pending == Join(nodes[2 * |above|].hash, nodes[Partner(|nodes|, 2 * |above|)].hash)
    ensures parent.hash == hasher.H(hasher.pending)
    ensures forall i | 0 <= i < |nodes| :: Climbs(nodes, above + [parent], i)
  {
    hide Join;
    var i := 2 * |above|;
    var left, right := nodes[i], nodes[i];
    if i + 1 < |nodes| {
      right := nodes[i + 1];
    }
    parent := NewNode(left, right, [], hasher, level + 1, |above|);
    left.parent := parent;
    right.parent := parent;
    forall j | 0 <= j < |nodes| ensures Climbs(nodes, above + [parent], j) {
      assert old(Climbs(nodes, above, j));
      assert nodes[j].pos == j && left.pos == i;
    }
  }

  /** One round of building: pairs of nodes get a parent, and the hasher holds what the last parent was made of. */
  method BuildLevel(hasher: HashState, nodes: seq<Node>, ghost level: nat) returns (above: seq<Node>)
    requires Placed(nodes, level) && nodes != []
    modifies nodes, hasher
    ensures Placed(above, level + 1) && Pairs(nodes, above) && |above| == (|nodes| + 1) / 2 && fresh(above)
    ensures forall i | 0 <= i < |nodes| :: Climbs(nodes, above, i)
    ensures Hashes(above) == LevelAbove(hasher.H, Hashes(nodes))
    ensures var last := 2 * (|above| - 1); hasher.pending == Join(nodes[last].hash, nodes[Partner(|nodes|, last)].hash)
  {
    hide Join, Climbs, Summed, Hashes;
    above := [];
    var i := 0;
    NoneAbove(hasher.H, nodes);
    while i < |nodes|
      invariant i == 2 * |above| && i <= |nodes| + 1
      invariant Placed(above, level + 1) && Pairs(nodes, above) && fresh(above) && Summed(hasher.H, nodes, above)
      invariant forall j | 0 <= j < |nodes| :: Climbs(nodes, above, j)
      invariant above != [] ==> hasher.pending == Join(nodes[i - 2].hash, nodes[Partner(|nodes|, i - 2)].hash)
    {
      var parent := AddParent(hasher, nodes, above, level);
      SumOne(hasher.H, nodes, above, parent);
      above := above + [parent];
      i := i + 2;
    }
    AllSummed(hasher.H, nodes, above);
  }

  lemma NoneAbove(H: Hasher, nodes: seq<Node>)
    ensures Summed(H, nodes, []) && forall j | 0 <= j < |nodes| :: Climbs(nodes, [], j)
  {
  }

  lemma AllSummed(H: Hasher, below: seq<Node>, above: seq<Node>)
    requires |above| == (|below| + 1) / 2 && Summed(H, below, above)
    ensures Hashes(above) == LevelAbove(H, Hashes(below))
  {
  }

  /** Two adjacent levels of a tree. */
  ghost predicate Joined(H: Hasher, below: seq<Node>, above: seq<Node>)
    reads below
  {
    && Pairs(below, above) && |above| == (|below| + 1) / 2
    && (forall i | 0 <= i < |below| :: Climbs(below, above, i))
    && Hashes(above) == LevelAbove(H, Hashes(below))
  }

  ghost function NodesOf(levels: seq<seq<Node>>): set<Node> {
    set k: nat, i: nat | k < |levels| && i < |levels[k]| :: levels[k][i]
  }

  /** All levels built so far, from the leaves up. */
  ghost predicate Stacked(H: Hasher, levels: seq<seq<Node>>)
    reads NodesOf(levels)
  {
    && (forall k | 0 <= k < |levels| :: Placed(levels[k], k))
    && (forall k | 0 <= k < |levels| - 1 :: Joined(H, levels[k], levels[k + 1]))
  }

  class Tree {
    const H: Hasher
    const rootNode: Node
    const leafNodes: seq<Node>
    ghost const levels: seq<seq<Node>>

    ghost predicate Valid()
      reads NodesOf(levels)
    {
      && Stacked(H, levels) && levels != [] && levels[0] == leafNodes && leafNodes != []
      && levels[|levels| - 1] == [rootNode] && rootNode.hash == RootOf(H, Hashes(leafNodes))
    }

    constructor (H: Hasher, rootNode: Node, leafNodes: seq<Node>, ghost levels: seq<seq<Node>>)
      requires Stacked(H, levels) && levels != [] && levels[0] == leafNodes && leafNodes != []
      requires levels[|levels| - 1] == [rootNode] && rootNode.hash == RootOf(H, Hashes(leafNodes))
      ensures Valid() && this.H == H && this.leafNodes == leafNodes
    {
      this.H, this.rootNode, this.leafNodes, this.levels := H, rootNode, leafNodes, levels;
    }

    /** The first leaf node with the given data. */
    method FindLeaf(leaf: Bytes) returns (index: Option<nat>)
      ensures index == None <==> forall i | 0 <= i < |leafNodes| :: leafNodes[i].data != leaf
      ensures index.Some? ==> index.value < |leafNodes| && leafNodes[index.value].data == leaf
      ensures index.Some? ==> forall i | 0 <= i < index.value :: leafNodes[i].data != leaf
    {
      for i := 0 to |leafNodes|
        invariant forall j | 0 <= j < i :: leafNodes[j].data != leaf
      {
        if leafNodes[i].data == leaf {
          return Some(i);
        }
      }
      return None;
    }

    /** Climbs from the first node with the given data to the first that has the root's hash. */
    method GenerateProof(leaf: Bytes) returns (proof: Option<seq<Hash>>, ghost index: nat)
      requires Valid()
      ensures proof == None <==> forall i | 0 <= i < |leafNodes| :: leafNodes[i].data != leaf
      ensures proof.Some? ==> index < |leafNodes| && leafNodes[index].data == leaf && forall i | 0 <= i < index :: leafNodes[i].data != leaf
      ensures proof.Some? ==>
                var hs := Hashes(leafNodes);
                proof.value == Up(H, hs, index, RootOf(H, hs))
    {
      hide RootOf, FullPath, MeetsRoot, Joined, Placed;
      var found := FindLeaf(leaf);
      if found == None {
        return None, 0;
      }
      index := found.value;
      var siblings := [];
      var node := leafNodes[found.value];
      ghost var root := rootNode.hash;
      ghost var k, i: nat := 0, index;
      while node.hash != rootNode.hash
        invariant Stacked(H, levels) && k < |levels| && i < |levels[k]| && node == levels[k][i] && RootOf(H, Hashes(levels[k])) == root
        invariant Up(H, Hashes(leafNodes), index, root) == siblings + Up(H, Hashes(levels[k]), i, root)
        decreases |levels| - k
      {
        Climb(H, levels, rootNode, k, i);
        if node.parent.left.hash == node.hash {
          siblings := siblings + [node.parent.right.hash];
        } else {
          siblings := siblings + [node.parent.left.hash];
        }
        node := node.parent;
        k, i := k + 1, i / 2;
      }
      AtRoot(H, Hashes(levels[k]), i, root);
      return Some(siblings), index;
    }
  }

  /** Below the root there is a parent, whose children give the sibling even if their hashes are equal. */
  lemma Climb(H: Hasher, levels: seq<seq<Node>>, rootNode: Node, k: nat, i: nat)
    requires Stacked(H, levels) && k < |levels| && levels[|levels| - 1] == [rootNode]
    requires i < |levels[k]| && RootOf(H, Hashes(levels[k])) == rootNode.hash && levels[k][i].hash != rootNode.hash
    ensures k + 1 < |levels| && i / 2 < |levels[k + 1]| && levels[k][i].parent == levels[k + 1][i / 2]
    ensures RootOf(H, Hashes(levels[k + 1])) == rootNode.hash
    ensures var p := levels[k + 1][i / 2];
            && p.left != null && p.right != null
            && Up(H, Hashes(levels[k]), i, rootNode.hash)
               == [if p.left.hash == levels[k][i].hash then p.right.hash else p.left.hash] + Up(H, Hashes(levels[k + 1]), i / 2, rootNode.hash)
  {
    hide Up, LevelAbove, RootOf, Joined, Sibling, Placed;
    var hs := Hashes(levels[k]);
    UpOne(H, hs, i, rootNode.hash);
    assert k + 1 < |levels|;
    assert Joined(H, levels[k], levels[k + 1]);
    Children(H, levels[k], levels[k + 1], i);
  }

  lemma Children(H: Hasher, below: seq<Node>, above: seq<Node>, i: nat)
    requires Joined(H, below, above) && i < |below|
    ensures i / 2 < |above| && below[i].parent == above[i / 2] && Hashes(above) == LevelAbove(H, Hashes(below))
    ensures var p := above[i / 2];
            && p.left != null && p.right != null
            && Sibling(Hashes(below), i) == if p.left.hash == below[i].hash then p.right.hash else p.left.hash
  {
    hide LevelAbove, Hashes;
    assert Climbs(below, above, i);
    var j := i / 2;
    assert i == 2 * j || i == 2 * j + 1;
    ChildHashes(below, above, i, j);
  }

  lemma ChildHashes(below: seq<Node>, above: seq<Node>, i: nat, j: nat)
    requires Pairs(below, above) && i < |below| && j < |above| && (i == 2 * j || i == 2 * j + 1)
    ensures var p := above[j];
            && p.left != null && p.right != null
            && Sibling(Hashes(below), i) == if p.left.hash == below[i].hash then p.right.hash else p.left.hash
  {
    hide Hashes;
    assert above[j].left == below[2 * j] && above[j].right == below[Partner(|below|, 2 * j)];
    assert (i % 2 == 0) == (i == 2 * j);
  }

  lemma StackOne(H: Hasher, nodes: seq<Node>)
    requires Placed(nodes, 0)
    ensures Stacked(H, [nodes])
  {
  }

  /** Another level on top. */
  lemma Stack(H: Hasher, levels: seq<seq<Node>>, above: seq<Node>)
    requires Stacked(H, levels) && levels != [] && Placed(above, |levels|) && Joined(H, levels[|levels| - 1], above)
    ensures Stacked(H, levels + [above])
  {
    hide Joined, Placed;
    var all := levels + [above];
    forall k | 0 <= k < |all| - 1 ensures Joined(H, all[k], all[k + 1]) {
      assert k < |levels| - 1 ==> Joined(H, levels[k], levels[k + 1]);
    }
  }

  method MakeLeaves(hasher: HashState, data: seq<Bytes>) returns (nodes: seq<Node>)
    modifies hasher
    ensures Placed(nodes, 0) && fresh(nodes) && |nodes| == |data| && forall i | 0 <= i < |data| :: nodes[i].data == data[i]
    ensures Hashes(nodes) == LeafHashes(hasher.H, data)
    ensures data != [] ==> hasher.pending == data[|data| - 1]
  {
    nodes := [];
    for i := 0 to |data|
      invariant |nodes| == i && Placed(nodes, 0) && fresh(nodes)
      invariant forall j | 0 <= j < i :: nodes[j].data == data[j] && nodes[j].hash == hasher.H(data[j])
      invariant i > 0 ==> hasher.pending == data[i - 1]
    {
      var node := NewNode(null, null, data[i], hasher, 0, i);
      nodes := nodes + [node];
    }
  }

  method AddLevel(hasher: HashState, nodes: seq<Node>, ghost levels: seq<seq<Node>>) returns (above: seq<Node>)
    requires Stacked(hasher.H, levels) && levels != [] && levels[|levels| - 1] == nodes && nodes != []
    modifies nodes, hasher
    ensures Stacked(hasher.H, levels + [above]) && fresh(above) && |above| == (|nodes| + 1) / 2
    ensures Hashes(above) == LevelAbove(hasher.H, Hashes(nodes))
    ensures var last := 2 * (|above| - 1); hasher.pending == Join(nodes[last].hash, nodes[Partner(|nodes|, last)].hash)
  {
    hide Hashes, LevelAbove, Climbs, Join;
    above := BuildLevel(hasher, nodes, |levels| - 1);
    forall k | 0 <= k < |levels| - 1 ensures Joined(hasher.H, levels[k], levels[k + 1]) {
      var below, next := levels[k], levels[k + 1];
      assert old(Joined(hasher.H, below, next));
      forall i: nat | i < |below| ensures Climbs(below, next, i) {
        assert old(Climbs(below, next, i));
        assert below[i].level == k;
      }
    }
    Stack(hasher.H, levels, above);
  }

  /** One level up: the hashes are those of the inputs above, and the hasher holds the last of these. */
  lemma LevelInputsStep(H: Hasher, nodes: seq<Node>, above: seq<Node>, ins: seq<Bytes>, pending: Bytes)
    requires |nodes| > 1 && Hashes(nodes) == LeafHashes(H, ins) && Hashes(above) == LevelAbove(H, Hashes(nodes))
    requires |above| == (|nodes| + 1) / 2
    requires var last := 2 * (|above| - 1); pending == Join(nodes[last].hash, nodes[Partner(|nodes|, last)].hash)
    ensures var next := InputsAbove(H, ins);
            && Hashes(above) == LeafHashes(H, next) && next != [] && pending == next[|next| - 1]
            && RootOf(H, Hashes(nodes)) == RootOf(H, Hashes(above)) && DepthOf(|ins|) == 1 + DepthOf(|next|)
  {
    hide Join, LeafHashes, LevelAbove, Hashes;
    InputsAreHashed(H, ins);
    RootAbove(H, ins);
    assert |ins| == |LeafHashes(H, ins)| == |nodes|;
    var last := 2 * (|above| - 1);
    assert Hashes(nodes)[last] == H(ins[last]) && Hashes(nodes)[Partner(|nodes|, last)] == H(ins[Partner(|nodes|, last)]);
  }

  /** Builds the tree of a non-empty list; afterwards the hasher still holds what the root was hashed from. */
  method NewTree(hasher: HashState, data: seq<Bytes>) returns (tree: Option<Tree>)
    modifies hasher
    ensures tree == None <==> data == []
    ensures tree.Some? ==> tree.value.Valid() && tree.value.H == hasher.H && Hashes(tree.value.leafNodes) == LeafHashes(hasher.H, data)
    ensures tree.Some? ==> forall i | 0 <= i < |data| :: tree.value.leafNodes[i].data == data[i]
    ensures tree.Some? ==> hasher.pending == LevelInputs(hasher.H, data, DepthOf(|data|))[0]
  {
    hide Stacked, Hashes, LeafHashes, LevelAbove, InputsAbove, Join, RootOf, DepthOf, LevelInputs;
    if |data| == 0 {
      return None;
    }
    var H := hasher.H;
    var leafNodes := MakeLeaves(hasher, data);
    var nodes := leafNodes;
    ghost var levels := [leafNodes];
    ghost var ins, up := data, 0;
    StackOne(H, leafNodes);
    NoLevel(H, data);
    while |nodes| > 1
      invariant levels != [] && levels[0] == leafNodes && levels[|levels| - 1] == nodes && nodes != []
      invariant Stacked(H, levels) && fresh(nodes)
      invariant RootOf(H, Hashes(nodes)) == RootOf(H, Hashes(leafNodes))
      invariant |ins| == |nodes| && Hashes(nodes) == LeafHashes(H, ins) && hasher.pending == ins[|ins| - 1]
      invariant ins == LevelInputs(H, data, up) && up + DepthOf(|ins|) == DepthOf(|data|)
      decreases |nodes|
    {
      var above := AddLevel(hasher, nodes, levels);
      LevelInputsStep(H, nodes, above, ins, hasher.pending);
      OneLevelMore(H, data, up);
      levels, nodes := levels + [above], above;
      ins, up := InputsAbove(H, ins), up + 1;
    }
    OnlyNode(H, nodes);
    var t := new Tree(H, nodes[0], leafNodes, levels);
    return Some(t);
  }

  lemma NoLevel(H: Hasher, ins: seq<Bytes>)
    ensures LevelInputs(H, ins, 0) == ins
  {
  }

  lemma OnlyNode(H: Hasher, nodes: seq<Node>)
    requires |nodes| == 1
    ensures RootOf(H, Hashes(nodes)) == nodes[0].hash && DepthOf(1) == 0 && nodes == [nodes[0]]
  {
  }

  lemma {:induction false} OneLevelMore(H: Hasher, ins: seq<Bytes>, levels: nat)
    ensures LevelInputs(H, ins, levels + 1) == InputsAbove(H, LevelInputs(H, ins, levels))
    decreases levels
  {
    hide InputsAbove;
    if levels > 0 {
      OneLevelMore(H, InputsAbove(H, ins), levels - 1);
    }
  }
}
