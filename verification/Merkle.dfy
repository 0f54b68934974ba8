/**
 The Merkle tree: built level by level from node objects with parent pointers,
 proofs made by climbing those pointers, and proofs checked by folding hashes.
 */
module Merkle {
  import opened Common

  type Hash = h: Bytes | |h| == 32 witness seq(32, _ => 0)
  type Hasher = Bytes -> Hash

  function Join(l: Hash, r: Hash): (b: Bytes)
    ensures |b| == 64 && b[..32] == l && b[32..] == r
  {
    var left: Bytes, right: Bytes := l, r;
    left + right
  }

  lemma JoinIsInjective(l: Hash, r: Hash, l': Hash, r': Hash)
    ensures Join(l, r) == Join(l', r') <==> l == l' && r == r'
  {
    assert l == Join(l, r)[..32] && r == Join(l, r)[32..];
    assert l' == Join(l', r')[..32] && r' == Join(l', r')[32..];
  }

  // ---------- the tree as lists of hashes ----------

  function AboveAt(H: Hasher, hs: seq<Hash>, j: nat): Hash
    requires 2 * j < |hs|
  {
    H(Join(hs[2 * j], hs[Partner(|hs|, 2 * j)]))
  }

  /** The right partner of an even position: the last node of an odd level is its own. */
  function Partner(n: nat, i: nat): (j: nat)
    requires i < n
    ensures i <= j < n
  {
    if i + 1 < n then i + 1 else i
  }

  function LevelAbove(H: Hasher, hs: seq<Hash>): (r: seq<Hash>)
    ensures |r| == (|hs| + 1) / 2
  {
    seq((|hs| + 1) / 2, j requires 0 <= j < (|hs| + 1) / 2 => AboveAt(H, hs, j))
  }

  function RootOf(H: Hasher, hs: seq<Hash>): Hash
    requires hs != []
    decreases |hs|
  {
    if |hs| == 1 then hs[0] else RootOf(H, LevelAbove(H, hs))
  }

  /** The root of three leaves: the left hash first, and the odd one paired with itself. */
  lemma RootOfThree(H: Hasher, x: Hash, y: Hash, z: Hash)
    ensures RootOf(H, [x, y, z]) == H(Join(H(Join(x, y)), H(Join(z, z))))
  {
    var two := [H(Join(x, y)), H(Join(z, z))];
    var one := [H(Join(two[0], two[1]))];
    assert LevelAbove(H, [x, y, z]) == two && LevelAbove(H, two) == one;
    assert RootOf(H, [x, y, z]) == RootOf(H, two) == RootOf(H, one) == one[0];
  }

  /** The number of levels above the leaves. */
  function DepthOf(n: nat): nat
    requires n > 0
  {
    if n == 1 then 0 else 1 + DepthOf((n + 1) / 2)
  }

  function Pow2(k: nat): nat {
    if k == 0 then 1 else 2 * Pow2(k - 1)
  }

  /** 2 to the depth is the least power of two that is not below the number of leaves. */
  lemma {:induction false} DepthIsLogarithm(n: nat)
    requires n > 0
    ensures n <= Pow2(DepthOf(n))
    ensures n > 1 ==> DepthOf(n) > 0 && Pow2(DepthOf(n) - 1) < n
  {
    hide DepthOf, Pow2;
    if n <= 2 {
      SmallDepths();
    } else {
      var half := (n + 1) / 2;
      DepthIsLogarithm(half);
      DepthStep(n, half);
    }
  }

  lemma SmallDepths()
    ensures DepthOf(1) == 0 && DepthOf(2) == 1 && Pow2(0) == 1 && Pow2(1) == 2
  {
  }

  lemma DepthStep(n: nat, half: nat)
    requires n > 2 && half == (n + 1) / 2
    ensures half > 1 && DepthOf(n) == DepthOf(half) + 1 && DepthOf(half) > 0
    ensures Pow2(DepthOf(n)) == 2 * Pow2(DepthOf(half)) && Pow2(DepthOf(n) - 1) == 2 * Pow2(DepthOf(half) - 1)
  {
  }

  /** The other child of the parent of position `i`. */
  function Sibling(hs: seq<Hash>, i: nat): Hash
    requires i < |hs|
  {
    if i % 2 == 0 then hs[Partner(|hs|, i)] else hs[i - 1]
  }

  /** The siblings on the way up from position `i`, all the way to the root. */
  function FullPath(H: Hasher, hs: seq<Hash>, i: nat): (p: seq<Hash>)
    requires i < |hs|
    ensures |p| == DepthOf(|hs|)
    decreases |hs|
  {
    if |hs| == 1 then [] else [Sibling(hs, i)] + FullPath(H, LevelAbove(H, hs), i / 2)
  }

  /** The height at which the way up from position `i` first meets the hash of the root. */
  function MeetsRoot(H: Hasher, hs: seq<Hash>, i: nat, root: Hash): (k: nat)
    requires i < |hs| && root == RootOf(H, hs)
    ensures k <= DepthOf(|hs|)
    decreases |hs|
  {
    if hs[i] == root then 0 else 1 + MeetsRoot(H, LevelAbove(H, hs), i / 2, root)
  }

  // ---------- checking a proof ----------

  /** A hash next to its sibling, on the side that the index says. */
  function Beside(index: nat, h: Hash, sibling: Hash): Bytes {
    if index % 2 == 0 then Join(h, sibling) else Join(sibling, h)
  }

  function Step(H: Hasher, index: nat, h: Hash, sibling: Hash): Hash {
    H(Beside(index, h, sibling))
  }

  function ProofHash(H: Hasher, index: nat, h: Hash, proof: seq<Hash>): Hash
    decreases |proof|
  {
    if proof == [] then h else ProofHash(H, index / 2, Step(H, index, h, proof[0]), proof[1..])
  }

  /** A 64-bit index read as a signed number. */
  function AsSigned(x: nat): int {
    if x < U64 / 2 then x else x - U64
  }

  /** 2^k as a signed 64-bit number; `outOfRange` is what the platform yields when it does not fit. */
  function PowAsInt(k: nat, outOfRange: int): int {
    if k < 63 then Pow2(k) else outOfRange
  }

  /** What the checker accepts with a hasher that already holds `pending`: the leaf is written after that. */
  ghost predicate Accepts(H: Hasher, pending: Bytes, index: nat, leaf: Bytes, proof: seq<Hash>, root: Hash, outOfRange: int) {
    leaf != [] && AsSigned(index) < PowAsInt(|proof|, outOfRange) && ProofHash(H, index, H(pending + leaf), proof) == root
  }

  lemma {:induction false} PowSum(a: nat, b: nat)
    ensures Pow2(a + b) == Pow2(a) * Pow2(b)
  {
    if a > 0 {
      PowSum(a - 1, b);
      assert Pow2(a + b) == 2 * Pow2(a - 1 + b);
    }
  }

  lemma HalfRange()
    ensures Pow2(63) == U64 / 2
  {
    assert Pow2(7) == 128;
    PowSum(7, 7);
    PowSum(14, 7);
    PowSum(21, 21);
    PowSum(42, 21);
  }

  lemma HalfOf(index: nat, x: nat)
    ensures (index + 2 * x) % 2 == index % 2 && (index + 2 * x) / 2 == index / 2 + x
  {
  }

  /** A fold reads as many bits of the index as the proof is long. */
  lemma {:induction false} HighBits(H: Hasher, index: nat, m: nat, h: Hash, proof: seq<Hash>)
    ensures ProofHash(H, index + m * Pow2(|proof|), h, proof) == ProofHash(H, index, h, proof)
    decreases |proof|
  {
    if proof != [] {
      hide Join;
      var x := m * Pow2(|proof| - 1);
      assert m * Pow2(|proof|) == 2 * x;
      HalfOf(index, x);
      HighBits(H, index / 2, m, Step(H, index, h, proof[0]), proof[1..]);
    }
  }

  /** In the upper half of the 64-bit range the bound on the index is no bound: it is read as negative, and only its lower bits count. */
  lemma HighHalfAcceptsIff(H: Hasher, pending: Bytes, index: nat, leaf: Bytes, proof: seq<Hash>, root: Hash, outOfRange: int)
    requires index < U64 / 2 && |proof| < 63
    ensures Accepts(H, pending, index + U64 / 2, leaf, proof, root, outOfRange)
            <==> leaf != [] && ProofHash(H, index, H(pending + leaf), proof) == root
  {
    hide Pow2;
    HalfRange();
    PowSum(63 - |proof|, |proof|);
    HighBits(H, index, Pow2(63 - |proof|), H(pending + leaf), proof);
    PowIsPositive(|proof|);
  }

  lemma {:induction false} PowIsPositive(k: nat)
    ensures Pow2(k) > 0
  {
    if k > 0 {
      PowIsPositive(k - 1);
    }
  }

  // ---------- prover and checker ----------

  /** The way up from a position to the first node with the root's hash. */
  ghost function Up(H: Hasher, hs: seq<Hash>, i: nat, root: Hash): (p: seq<Hash>)
    requires i < |hs| && root == RootOf(H, hs)
    ensures |p| == MeetsRoot(H, hs, i, root)
  {
    FullPath(H, hs, i)[..MeetsRoot(H, hs, i, root)]
  }

  lemma AtRoot(H: Hasher, hs: seq<Hash>, i: nat, root: Hash)
    requires i < |hs| && root == RootOf(H, hs) && hs[i] == root
    ensures Up(H, hs, i, root) == []
  {
  }

  lemma UpOne(H: Hasher, hs: seq<Hash>, i: nat, root: Hash)
    requires i < |hs| && root == RootOf(H, hs) && hs[i] != root
    ensures |hs| > 1 && root == RootOf(H, LevelAbove(H, hs))
    ensures Up(H, hs, i, root) == [Sibling(hs, i)] + Up(H, LevelAbove(H, hs), i / 2, root)
  {
    hide LevelAbove, Sibling;
    var above := LevelAbove(H, hs);
    var k, p := MeetsRoot(H, above, i / 2, root), FullPath(H, above, i / 2);
    assert ([Sibling(hs, i)] + p)[..1 + k] == [Sibling(hs, i)] + p[..k];
  }

  lemma StepUp(H: Hasher, hs: seq<Hash>, i: nat)
    requires i < |hs|
    ensures Step(H, i, hs[i], Sibling(hs, i)) == LevelAbove(H, hs)[i / 2]
  {
    hide Join;
    var j := i / 2;
    if i % 2 == 0 {
      assert i == 2 * j;
    } else {
      assert i == 2 * j + 1 && Partner(|hs|, 2 * j) == i;
    }
    assert LevelAbove(H, hs)[j] == AboveAt(H, hs, j);
  }

  lemma FoldOne(H: Hasher, index: nat, h: Hash, sibling: Hash, rest: seq<Hash>)
    ensures ProofHash(H, index, h, [sibling] + rest) == ProofHash(H, index / 2, Step(H, index, h, sibling), rest)
  {
    assert ([sibling] + rest)[1..] == rest;
  }

  /** The way up from a position folds to the root. */
  lemma {:induction false} PathFolds(H: Hasher, hs: seq<Hash>, i: nat, root: Hash)
    requires i < |hs| && root == RootOf(H, hs)
    ensures ProofHash(H, i, hs[i], Up(H, hs, i, root)) == root
    decreases |hs|
  {
    hide Join, Up, RootOf, ProofHash, LevelAbove, Step;
    if hs[i] == root {
      AtRoot(H, hs, i, root);
      FoldNone(H, i, hs[i]);
    } else {
      UpOne(H, hs, i, root);
      PathFolds(H, LevelAbove(H, hs), i / 2, root);
      StepUp(H, hs, i);
      FoldOne(H, i, hs[i], Sibling(hs, i), Up(H, LevelAbove(H, hs), i / 2, root));
    }
  }

  lemma FoldNone(H: Hasher, index: nat, h: Hash)
    ensures ProofHash(H, index, h, []) == h
  {
  }

  /** If the root's hash first occurs at the root, the way up is the full one. */
  lemma {:induction false} MeetsAtTop(H: Hasher, hs: seq<Hash>, i: nat, root: Hash)
    requires i < |hs| && root == RootOf(H, hs)
    ensures MeetsRoot(H, hs, i, root) == DepthOf(|hs|) <==> Clear(H, hs, i, root)
    decreases |hs|
  {
    if |hs| > 1 && hs[i] != root {
      MeetsAtTop(H, LevelAbove(H, hs), i / 2, root);
    }
  }

  /** No node below the root on the way up has the root's hash. */
  ghost predicate Clear(H: Hasher, hs: seq<Hash>, i: nat, root: Hash)
    requires i < |hs|
    decreases |hs|
  {
    |hs| > 1 ==> hs[i] != root && Clear(H, LevelAbove(H, hs), i / 2, root)
  }

  // ---------- what is hashed on the way up ----------

  function LeafHashes(H: Hasher, data: seq<Bytes>): (hs: seq<Hash>)
    ensures |hs| == |data| && forall i | 0 <= i < |data| :: hs[i] == H(data[i])
  {
    if data == [] then [] else
      assert forall i | 1 <= i < |data| :: data[i] == data[1..][i - 1];
      [H(data[0])] + LeafHashes(H, data[1..])
  }

  /** What the builder hashes for the level above, given what it hashed for a level. */
  function InputsAbove(H: Hasher, ins: seq<Bytes>): (r: seq<Bytes>)
    ensures |r| == (|ins| + 1) / 2
    ensures forall j | 0 <= j < |r| :: r[j] == Join(H(ins[2 * j]), H(ins[Partner(|ins|, 2 * j)]))
  {
    seq((|ins| + 1) / 2, j requires 0 <= j < (|ins| + 1) / 2 => Join(H(ins[2 * j]), H(ins[Partner(|ins|, 2 * j)])))
  }

  lemma InputsAreHashed(H: Hasher, ins: seq<Bytes>)
    ensures LevelAbove(H, LeafHashes(H, ins)) == LeafHashes(H, InputsAbove(H, ins))
  {
    hide Join;
    var hs, above := LeafHashes(H, ins), InputsAbove(H, ins);
    forall j | 0 <= j < |above| ensures LevelAbove(H, hs)[j] == H(above[j]) {
      assert LevelAbove(H, hs)[j] == AboveAt(H, hs, j);
    }
  }

  /** What the builder hashes for the node `levels` above the leaves. */
  function LevelInputs(H: Hasher, ins: seq<Bytes>, levels: nat): (r: seq<Bytes>)
    ensures ins != [] ==> r != []
    decreases levels
  {
    if levels == 0 then ins else LevelInputs(H, InputsAbove(H, ins), levels - 1)
  }

  /** Where an index of any size leads in a level of `n` nodes: a missing right child is the left one again. */
  function Reach(n: nat, index: nat): (p: nat)
    requires n > 0
    ensures p < n
  {
    if n == 1 then 0
    else
      var q := Reach((n + 1) / 2, index / 2);
      if index % 2 == 0 then 2 * q else Partner(n, 2 * q)
  }

  lemma {:induction false} ReachIsIndex(n: nat, index: nat)
    requires index < n
    ensures Reach(n, index) == index
  {
    if n > 1 {
      ReachIsIndex((n + 1) / 2, index / 2);
    }
  }

  /** The hash opposite to the node that an index leads to. */
  function Opposite(H: Hasher, ins: seq<Bytes>, index: nat): Hash
    requires ins != []
  {
    var q := Reach((|ins| + 1) / 2, index / 2);
    if index % 2 == 0 then H(ins[Partner(|ins|, 2 * q)]) else H(ins[2 * q])
  }

  /** The opposite hashes on the way that an index leads. */
  function Path(H: Hasher, ins: seq<Bytes>, index: nat): (p: seq<Hash>)
    requires ins != []
    ensures |p| == DepthOf(|ins|)
    decreases |ins|
  {
    if |ins| == 1 then [] else [Opposite(H, ins, index)] + Path(H, InputsAbove(H, ins), index / 2)
  }

  /** What the builder hashed for the nodes on that way, from the bottom to the root. */
  function Built(H: Hasher, ins: seq<Bytes>, index: nat): (b: seq<Bytes>)
    requires ins != []
    ensures |b| == DepthOf(|ins|) + 1 && b[0] == ins[Reach(|ins|, index)]
    decreases |ins|
  {
    [ins[Reach(|ins|, index)]] + if |ins| == 1 then [] else Built(H, InputsAbove(H, ins), index / 2)
  }

  /** What the checker hashes for a proof, from the leaf to the last step. */
  function Checked(H: Hasher, index: nat, first: Bytes, proof: seq<Hash>): (c: seq<Bytes>)
    ensures |c| == |proof| + 1 && c[0] == first
    decreases |proof|
  {
    [first] + if proof == [] then [] else Checked(H, index / 2, Beside(index, H(first), proof[0]), proof[1..])
  }

  lemma {:induction false} LastIsProofHash(H: Hasher, index: nat, first: Bytes, proof: seq<Hash>)
    ensures ProofHash(H, index, H(first), proof) == H(Checked(H, index, first, proof)[|proof|])
    decreases |proof|
  {
    hide Beside;
    if proof != [] {
      LastIsProofHash(H, index / 2, Beside(index, H(first), proof[0]), proof[1..]);
    }
  }

  /** A step at which checker and builder hash different things to the same hash. */
  ghost predicate Collides(H: Hasher, checked: seq<Bytes>, built: seq<Bytes>, m: nat) {
    m < |checked| && m < |built| && checked[m] != built[m] && H(checked[m]) == H(built[m])
  }

  lemma BesideIsInjective(index: nat, h: Hash, s: Hash, h': Hash, s': Hash)
    ensures Beside(index, h, s) == Beside(index, h', s') <==> h == h' && s == s'
  {
    hide Join;
    if index % 2 == 0 {
      JoinIsInjective(h, s, h', s');
    } else {
      JoinIsInjective(s, h, s', h');
    }
  }

  /** One level up, the builder hashes the node reached beside its opposite. */
  lemma BuiltAbove(H: Hasher, ins: seq<Bytes>, index: nat)
    requires |ins| > 1
    ensures var above := InputsAbove(H, ins);
            above[Reach(|above|, index / 2)] == Beside(index, H(ins[Reach(|ins|, index)]), Opposite(H, ins, index))
  {
    hide Join;
  }

  lemma RootAbove(H: Hasher, ins: seq<Bytes>)
    requires |ins| > 1
    ensures RootOf(H, LeafHashes(H, ins)) == RootOf(H, LeafHashes(H, InputsAbove(H, ins)))
    ensures DepthOf(|ins|) == 1 + DepthOf(|InputsAbove(H, ins)|)
  {
    hide LevelAbove;
    InputsAreHashed(H, ins);
  }

  lemma OneUp(H: Hasher, ins: seq<Bytes>, index: nat)
    requires |ins| > 1
    ensures Path(H, ins, index) == [Opposite(H, ins, index)] + Path(H, InputsAbove(H, ins), index / 2)
    ensures Built(H, ins, index) == [ins[Reach(|ins|, index)]] + Built(H, InputsAbove(H, ins), index / 2)
  {
    hide Reach, Opposite, InputsAbove;
  }

  lemma OneChecked(H: Hasher, index: nat, first: Bytes, sibling: Hash, rest: seq<Hash>)
    ensures Checked(H, index, first, [sibling] + rest) == [first] + Checked(H, index / 2, Beside(index, H(first), sibling), rest)
  {
    hide Beside;
    assert ([sibling] + rest)[1..] == rest;
  }

  lemma OneNode(H: Hasher, ins: seq<Bytes>, index: nat, first: Bytes)
    requires |ins| == 1
    ensures Path(H, ins, index) == [] && Built(H, ins, index) == [ins[0]] && Checked(H, index, first, []) == [first]
    ensures RootOf(H, LeafHashes(H, ins)) == H(ins[0])
  {
  }

  /** The way that any index leads folds to the root: the checker hashes what the builder hashed. */
  lemma {:induction false} PathIsChecked(H: Hasher, ins: seq<Bytes>, index: nat)
    requires ins != []
    ensures Checked(H, index, ins[Reach(|ins|, index)], Path(H, ins, index)) == Built(H, ins, index)
    ensures H(Built(H, ins, index)[DepthOf(|ins|)]) == RootOf(H, LeafHashes(H, ins))
    decreases |ins|
  {
    hide Beside, Opposite, InputsAbove, LeafHashes, RootOf, Path, Built, Checked;
    if |ins| == 1 {
      OneNode(H, ins, index, ins[0]);
    } else {
      var above, mine := InputsAbove(H, ins), ins[Reach(|ins|, index)];
      PathIsChecked(H, above, index / 2);
      BuiltAbove(H, ins, index);
      RootAbove(H, ins);
      OneUp(H, ins, index);
      OneChecked(H, index, mine, Opposite(H, ins, index), Path(H, above, index / 2));
    }
  }

  /** What a proof of the tree's depth opens: the node its index leads to, with that way's opposite hashes. */
  ghost predicate Opens(H: Hasher, ins: seq<Bytes>, index: nat, first: Bytes, proof: seq<Hash>)
    requires ins != []
  {
    first == ins[Reach(|ins|, index)] && proof == Path(H, ins, index)
  }

  /** Above step `m` the proof goes the builder's way, and at step `m` there is a collision. */
  ghost predicate Forges(H: Hasher, ins: seq<Bytes>, index: nat, first: Bytes, proof: seq<Hash>, m: nat)
    requires ins != []
  {
    && |proof| == DepthOf(|ins|) && m <= |proof|
    && proof[m..] == Path(H, ins, index)[m..]
    && Collides(H, Checked(H, index, first, proof), Built(H, ins, index), m)
  }

  /** A proof that folds to the root opens what it should, or forges at some step. */
  lemma {:induction false} FoldOpens(H: Hasher, ins: seq<Bytes>, index: nat, first: Bytes, proof: seq<Hash>) returns (m: nat)
    requires ins != [] && |proof| == DepthOf(|ins|)
    requires ProofHash(H, index, H(first), proof) == RootOf(H, LeafHashes(H, ins))
    ensures Opens(H, ins, index, first, proof) || Forges(H, ins, index, first, proof, m)
    decreases |ins|
  {
    hide Beside, Opposite, Collides, InputsAbove, LeafHashes, RootOf, Path, Built, Checked, ProofHash;
    m := 0;
    var mine := ins[Reach(|ins|, index)];
    if |ins| == 1 {
      OneNode(H, ins, index, first);
      FoldNone(H, index, H(first));
      assert H(first) == H(mine);
    } else {
      var above, next := InputsAbove(H, ins), Beside(index, H(first), proof[0]);
      RootAbove(H, ins);
      BuiltAbove(H, ins, index);
      OneUp(H, ins, index);
      assert proof == [proof[0]] + proof[1..];
      FoldOne(H, index, H(first), proof[0], proof[1..]);
      var k := FoldOpens(H, above, index / 2, next, proof[1..]);
      if Opens(H, above, index / 2, next, proof[1..]) {
        BesideIsInjective(index, H(first), proof[0], H(mine), Opposite(H, ins, index));
      } else {
        m := k + 1;
        ForgeHigher(H, ins, index, first, proof, k);
      }
    }
    if !Opens(H, ins, index, first, proof) && m == 0 {
      ForgeHere(H, ins, index, first, proof);
    }
  }

  lemma ForgeHere(H: Hasher, ins: seq<Bytes>, index: nat, first: Bytes, proof: seq<Hash>)
    requires ins != [] && proof == Path(H, ins, index) && first != ins[Reach(|ins|, index)] && H(first) == H(ins[Reach(|ins|, index)])
    ensures Forges(H, ins, index, first, proof, 0)
  {
  }

  lemma ForgeHigher(H: Hasher, ins: seq<Bytes>, index: nat, first: Bytes, proof: seq<Hash>, k: nat)
    requires |ins| > 1 && proof != []
    requires Forges(H, InputsAbove(H, ins), index / 2, Beside(index, H(first), proof[0]), proof[1..], k)
    ensures Forges(H, ins, index, first, proof, k + 1)
  {
    hide Beside, Reach, Opposite, InputsAbove, Path, Built, Checked;
    var above, next := InputsAbove(H, ins), Beside(index, H(first), proof[0]);
    OneUp(H, ins, index);
    assert proof == [proof[0]] + proof[1..];
    OneChecked(H, index, first, proof[0], proof[1..]);
    assert proof[k + 1..] == proof[1..][k..];
    assert Path(H, ins, index)[k + 1..] == Path(H, above, index / 2)[k..];
    assert Checked(H, index, first, proof)[k + 1] == Checked(H, index / 2, next, proof[1..])[k];
    assert Built(H, ins, index)[k + 1] == Built(H, above, index / 2)[k];
  }

  /** The other way round: equal hashes at a step, and the builder's way above it, fold to the root. */
  lemma {:induction false} ForgedFolds(H: Hasher, ins: seq<Bytes>, index: nat, first: Bytes, proof: seq<Hash>, m: nat)
    requires ins != [] && |proof| == DepthOf(|ins|) && m <= |proof| && proof[m..] == Path(H, ins, index)[m..]
    requires H(Checked(H, index, first, proof)[m]) == H(Built(H, ins, index)[m])
    ensures ProofHash(H, index, H(first), proof) == RootOf(H, LeafHashes(H, ins))
    decreases |ins|
  {
    hide Beside, Opposite, InputsAbove, LeafHashes, RootOf, Path, Built, Checked, ProofHash;
    if m == 0 {
      var mine := ins[Reach(|ins|, index)];
      assert proof == proof[0..] == Path(H, ins, index)[0..] == Path(H, ins, index);
      PathIsChecked(H, ins, index);
      LastIsProofHash(H, index, mine, proof);
    } else {
      DepthAbove(|ins|);
      var above, next := InputsAbove(H, ins), Beside(index, H(first), proof[0]);
      RootAbove(H, ins);
      OneUp(H, ins, index);
      assert proof == [proof[0]] + proof[1..];
      OneChecked(H, index, first, proof[0], proof[1..]);
      FoldOne(H, index, H(first), proof[0], proof[1..]);
      assert proof[m..] == proof[1..][m - 1..];
      assert Path(H, ins, index)[m..] == Path(H, above, index / 2)[m - 1..];
      ForgedFolds(H, above, index / 2, next, proof[1..], m - 1);
    }
  }

  lemma DepthAbove(n: nat)
    requires n > 0
    ensures DepthOf(n) > 0 <==> n > 1
  {
  }

  /** Exactly which proofs of a tree's depth fold to its root. */
  lemma FoldsIff(H: Hasher, ins: seq<Bytes>, index: nat, first: Bytes, proof: seq<Hash>)
    requires ins != [] && |proof| == DepthOf(|ins|)
    ensures ProofHash(H, index, H(first), proof) == RootOf(H, LeafHashes(H, ins))
            <==> Opens(H, ins, index, first, proof) || exists m: nat :: Forges(H, ins, index, first, proof, m)
  {
    hide ProofHash, RootOf, Path, Built, Checked, Reach;
    if ProofHash(H, index, H(first), proof) == RootOf(H, LeafHashes(H, ins)) {
      var m := FoldOpens(H, ins, index, first, proof);
    } else if Opens(H, ins, index, first, proof) {
      ForgedFolds(H, ins, index, first, proof, 0);
    } else if m: nat :| Forges(H, ins, index, first, proof, m) {
      ForgedFolds(H, ins, index, first, proof, m);
    }
  }

  // ---------- proofs of any length ----------

  /** An index after `j` steps up. */
  function Shift(index: nat, j: nat): nat {
    if j == 0 then index else Shift(index / 2, j - 1)
  }

  lemma {:induction false} FoldInTwo(H: Hasher, index: nat, first: Bytes, proof: seq<Hash>, j: nat)
    requires j <= |proof|
    ensures ProofHash(H, index, H(first), proof)
            == ProofHash(H, Shift(index, j), H(Checked(H, index, first, proof)[j]), proof[j..])
    decreases j
  {
    hide Beside;
    if j == 0 {
      assert proof[0..] == proof;
    } else {
      FoldInTwo(H, index / 2, Beside(index, H(first), proof[0]), proof[1..], j - 1);
      assert proof[1..][j - 1..] == proof[j..];
    }
  }

  lemma {:induction false} LevelHasRoot(H: Hasher, ins: seq<Bytes>, levels: nat)
    requires ins != [] && levels <= DepthOf(|ins|)
    ensures DepthOf(|LevelInputs(H, ins, levels)|) == DepthOf(|ins|) - levels
    ensures RootOf(H, LeafHashes(H, LevelInputs(H, ins, levels))) == RootOf(H, LeafHashes(H, ins))
    decreases levels
  {
    hide InputsAbove, LeafHashes, LevelAbove;
    if levels > 0 {
      RootAbove(H, ins);
      LevelHasRoot(H, InputsAbove(H, ins), levels - 1);
    }
  }

  /**
   What a proof of any length has to open: if it is short, a node as far below
   the root as the proof is long; if it is long, its upper part opens a leaf,
   and the leaf's data is what the checker hashed at the step below.
   */
  ghost predicate OpensAny(H: Hasher, data: seq<Bytes>, index: nat, first: Bytes, proof: seq<Hash>)
    requires data != []
  {
    var (ins, j) := Target(H, data, |proof|);
    Opens(H, ins, Shift(index, j), Checked(H, index, first, proof)[j], proof[j..])
  }

  ghost predicate ForgesAny(H: Hasher, data: seq<Bytes>, index: nat, first: Bytes, proof: seq<Hash>, m: nat)
    requires data != []
  {
    var (ins, j) := Target(H, data, |proof|);
    Forges(H, ins, Shift(index, j), Checked(H, index, first, proof)[j], proof[j..], m)
  }

  /** The level that a proof of length `k` speaks about, and the number of its steps below that level. */
  ghost function Target(H: Hasher, data: seq<Bytes>, k: nat): (r: (seq<Bytes>, nat))
    requires data != []
    ensures r.0 != [] && r.1 <= k
  {
    var d := DepthOf(|data|);
    if k <= d then (LevelInputs(H, data, d - k), 0) else (data, k - d)
  }

  /**
   Exactly what the checker accepts, for every index, every length of proof and
   whatever the hasher held before: what opens a node of the tree, or forges one
   by a collision at a step of this very proof.
   */
  lemma AcceptsIff(H: Hasher, data: seq<Bytes>, pending: Bytes, index: nat, leaf: Bytes, proof: seq<Hash>, outOfRange: int)
    requires data != []
    ensures Accepts(H, pending, index, leaf, proof, RootOf(H, LeafHashes(H, data)), outOfRange)
            <==> && leaf != [] && AsSigned(index) < PowAsInt(|proof|, outOfRange)
                 && (OpensAny(H, data, index, pending + leaf, proof)
                     || exists m: nat :: ForgesAny(H, data, index, pending + leaf, proof, m))
  {
    hide ProofHash, RootOf, Opens, Forges, Checked, Shift, PowAsInt;
    var (ins, j) := Target(H, data, |proof|);
    if |proof| <= DepthOf(|data|) {
      LevelHasRoot(H, data, DepthOf(|data|) - |proof|);
    }
    FoldInTwo(H, index, pending + leaf, proof, j);
    var at, reached := Shift(index, j), Checked(H, index, pending + leaf, proof)[j];
    FoldsIff(H, ins, at, reached, proof[j..]);
    assert forall m: nat :: ForgesAny(H, data, index, pending + leaf, proof, m) <==> Forges(H, ins, at, reached, proof[j..], m);
  }

  // ---------- consequences ----------

  /**
   An accepted proof of full depth for an index below the number of leaves
   proves the leaf at that index and is its only such proof, or it forges: at
   step `m` the checker hashed something else than the builder, to the same hash.
   */
  lemma AcceptedIsMember(H: Hasher, data: seq<Bytes>, index: nat, leaf: Bytes, proof: seq<Hash>, outOfRange: int) returns (m: nat)
    requires index < |data| && |proof| == DepthOf(|data|)
    requires Accepts(H, [], index, leaf, proof, RootOf(H, LeafHashes(H, data)), outOfRange)
    ensures (leaf == data[index] && proof == FullPath(H, LeafHashes(H, data), index))
            || Collides(H, Checked(H, index, leaf, proof), Built(H, data, index), m)
  {
    hide RootOf, FullPath, ProofHash, DepthOf, Path, Built, Checked, Collides;
    assert [] + leaf == leaf;
    m := FoldOpens(H, data, index, leaf, proof);
    ReachIsIndex(|data|, index);
    PathIsFull(H, data, index);
  }

  lemma {:induction false} PathIsFull(H: Hasher, ins: seq<Bytes>, i: nat)
    requires i < |ins|
    ensures Path(H, ins, i) == FullPath(H, LeafHashes(H, ins), i)
    decreases |ins|
  {
    hide LevelAbove, InputsAbove, Opposite, Sibling, Path, LeafHashes;
    if |ins| == 1 {
      OneNode(H, ins, i, ins[0]);
    } else {
      InputsAreHashed(H, ins);
      OneUp(H, ins, i);
      SiblingIsOpposite(H, ins, i);
      PathIsFull(H, InputsAbove(H, ins), i / 2);
    }
  }

  /** Every node of the tree is accepted as a leaf, with the hashes on its way as the proof, inner nodes included. */
  lemma NodeIsAcceptedIff(H: Hasher, data: seq<Bytes>, levels: nat, index: nat, outOfRange: int)
    requires data != [] && levels <= DepthOf(|data|)
    ensures var ins := LevelInputs(H, data, levels);
            var leaf := ins[Reach(|ins|, index)];
            Accepts(H, [], index, leaf, Path(H, ins, index), RootOf(H, LeafHashes(H, data)), outOfRange)
            <==> leaf != [] && AsSigned(index) < PowAsInt(DepthOf(|data|) - levels, outOfRange)
  {
    hide RootOf, ProofHash, Path, Built, Checked, LeafHashes, LevelInputs, PowAsInt;
    var ins := LevelInputs(H, data, levels);
    var leaf := ins[Reach(|ins|, index)];
    assert [] + leaf == leaf;
    LevelHasRoot(H, data, levels);
    FoldsIff(H, ins, index, leaf, Path(H, ins, index));
  }

  /** With an odd number of leaves the last one is accepted once more, at the index after it. */
  lemma LastLeafTwice(H: Hasher, data: seq<Bytes>, outOfRange: int)
    requires |data| % 2 == 1 && 1 < |data| < U64 / 2 && data[|data| - 1] != [] && DepthOf(|data|) < 63
    ensures var n := |data|;
            Accepts(H, [], n, data[n - 1], Path(H, data, n), RootOf(H, LeafHashes(H, data)), outOfRange)
  {
    hide RootOf, ProofHash, Path, LeafHashes, Accepts, Pow2;
    var n := |data|;
    hide Reach, DepthOf;
    NodeIsAcceptedIff(H, data, 0, n, outOfRange);
    ReachAfterLast(n);
    DepthAbove(n);
    DepthIsLogarithm(n);
    OddIsNoPower(DepthOf(n));
  }

  lemma ReachAfterLast(n: nat)
    requires n % 2 == 1 && n > 1
    ensures Reach(n, n) == n - 1
  {
    var j := n / 2;
    assert n == 2 * j + 1 && (n + 1) / 2 == j + 1;
    ReachIsIndex(j + 1, j);
  }

  lemma OddIsNoPower(k: nat)
    ensures k > 0 ==> Pow2(k) % 2 == 0
  {
  }

  /** Two starts with the same siblings end at the same hash exactly when they collide on the way. */
  lemma {:induction false} SameSiblings(H: Hasher, index: nat, x: Bytes, y: Bytes, proof: seq<Hash>)
    requires x != y
    ensures ProofHash(H, index, H(x), proof) == ProofHash(H, index, H(y), proof)
            <==> exists m: nat :: Collides(H, Checked(H, index, x, proof), Checked(H, index, y, proof), m)
    decreases |proof|
  {
    hide Beside, Checked, ProofHash;
    var cx, cy := Checked(H, index, x, proof), Checked(H, index, y, proof);
    if H(x) == H(y) {
      assert cx[0] == x && cy[0] == y;
      assert Collides(H, Checked(H, index, x, proof), Checked(H, index, y, proof), 0);
      assert ProofHash(H, index, H(x), proof) == ProofHash(H, index, H(y), proof);
    } else if proof == [] {
      FoldNone(H, index, H(x));
      FoldNone(H, index, H(y));
      CheckedNone(H, index, x);
      CheckedNone(H, index, y);
    } else {
      var x', y' := Beside(index, H(x), proof[0]), Beside(index, H(y), proof[0]);
      assert proof == [proof[0]] + proof[1..];
      FoldOne(H, index, H(x), proof[0], proof[1..]);
      FoldOne(H, index, H(y), proof[0], proof[1..]);
      OneChecked(H, index, x, proof[0], proof[1..]);
      OneChecked(H, index, y, proof[0], proof[1..]);
      BesideIsInjective(index, H(x), proof[0], H(y), proof[0]);
      SameSiblings(H, index / 2, x', y', proof[1..]);
      ShiftCollision(H, cx, cy, Checked(H, index / 2, x', proof[1..]), Checked(H, index / 2, y', proof[1..]));
    }
  }

  lemma ShiftCollision(H: Hasher, cx: seq<Bytes>, cy: seq<Bytes>, dx: seq<Bytes>, dy: seq<Bytes>)
    requires |cx| == |dx| + 1 && |cy| == |dy| + 1 && cx[1..] == dx && cy[1..] == dy && H(cx[0]) != H(cy[0])
    ensures (exists m: nat :: Collides(H, cx, cy, m)) <==> (exists m: nat :: Collides(H, dx, dy, m))
  {
    if m: nat :| Collides(H, cx, cy, m) {
      assert Collides(H, dx, dy, m - 1);
    }
    if m: nat :| Collides(H, dx, dy, m) {
      assert cx[m + 1] == dx[m] && cy[m + 1] == dy[m];
      assert Collides(H, cx, cy, m + 1);
    }
  }

  /** Climbing to the first node with the root's hash, the checker hashes what the builder did. */
  lemma {:induction false} UpIsChecked(H: Hasher, data: seq<Bytes>, i: nat, root: Hash)
    requires i < |data| && root == RootOf(H, LeafHashes(H, data))
    ensures var hs := LeafHashes(H, data);
            var k := MeetsRoot(H, hs, i, root);
            Checked(H, i, data[i], Up(H, hs, i, root)) == Built(H, data, i)[..k + 1]
    decreases |data|
  {
    hide Beside, Opposite, InputsAbove, LevelAbove, RootOf, Path, Built, Checked, Up, LeafHashes;
    var hs := LeafHashes(H, data);
    ReachIsIndex(|data|, i);
    if hs[i] == root {
      AtRoot(H, hs, i, root);
      CheckedNone(H, i, data[i]);
      assert Built(H, data, i)[..1] == [data[i]];
    } else {
      UpOne(H, hs, i, root);
      var above := InputsAbove(H, data);
      InputsAreHashed(H, data);
      UpIsChecked(H, above, i / 2, root);
      ReachIsIndex(|above|, i / 2);
      BuiltAbove(H, data, i);
      OneUp(H, data, i);
      SiblingIsOpposite(H, data, i);
      OneChecked(H, i, data[i], Sibling(hs, i), Up(H, LeafHashes(H, above), i / 2, root));
    }
  }

  lemma CheckedNone(H: Hasher, index: nat, first: Bytes)
    ensures Checked(H, index, first, []) == [first]
  {
  }

  lemma SiblingIsOpposite(H: Hasher, data: seq<Bytes>, i: nat)
    requires i < |data| && |data| > 1
    ensures Sibling(LeafHashes(H, data), i) == Opposite(H, data, i)
  {
    hide Reach, LeafHashes;
    var j := i / 2;
    ReachIsIndex((|data| + 1) / 2, j);
    if i % 2 == 0 {
      assert i == 2 * j;
    } else {
      assert i == 2 * j + 1;
    }
  }

  /**
   A generated proof is accepted exactly when the leaf is not empty, its index is
   below 2 to the length of the proof, and the hasher was empty: the checker
   does not reset it first. With a used hasher only a collision on the way helps.
   */
  lemma GeneratedIsAcceptedIff(H: Hasher, data: seq<Bytes>, i: nat, pending: Bytes, outOfRange: int)
    requires i < |data| < U64 / 2
    ensures var hs := LeafHashes(H, data);
            var root := RootOf(H, hs);
            var proof := Up(H, hs, i, root);
            Accepts(H, pending, i, data[i], proof, root, outOfRange)
            <==> && data[i] != [] && i < PowAsInt(MeetsRoot(H, hs, i, root), outOfRange)
                 && (pending == [] || exists m: nat :: Collides(H, Checked(H, i, pending + data[i], proof), Built(H, data, i), m))
  {
    hide RootOf, ProofHash, Built, Checked, LeafHashes, MeetsRoot, Up, PowAsInt, Collides;
    var hs := LeafHashes(H, data);
    var root := RootOf(H, hs);
    var proof, x, y := Up(H, hs, i, root), pending + data[i], data[i];
    PathFolds(H, hs, i, root);
    if pending == [] {
      assert x == y;
    } else {
      assert |x| > |y|;
      SameSiblings(H, i, x, y, proof);
      UpIsChecked(H, data, i, root);
      CutCollision(H, Checked(H, i, x, proof), Built(H, data, i), |proof| + 1);
    }
  }

  lemma CutCollision(H: Hasher, checked: seq<Bytes>, built: seq<Bytes>, n: nat)
    requires |checked| == n <= |built|
    ensures (exists m: nat :: Collides(H, checked, built[..n], m)) <==> (exists m: nat :: Collides(H, checked, built, m))
  {
    if m: nat :| Collides(H, checked, built[..n], m) {
      assert Collides(H, checked, built, m);
    }
    if m: nat :| Collides(H, checked, built, m) {
      assert Collides(H, checked, built[..n], m);
    }
  }

  /** With a clear way up and a fresh hasher, the proof of every non-empty leaf is accepted, as far as 2^depth fits. */
  lemma ClearIsAcceptedIff(H: Hasher, data: seq<Bytes>, i: nat, outOfRange: int)
    requires i < |data| < U64 / 2 && data[i] != []
    requires Clear(H, LeafHashes(H, data), i, RootOf(H, LeafHashes(H, data)))
    ensures Accepts(H, [], i, data[i], FullPath(H, LeafHashes(H, data), i), RootOf(H, LeafHashes(H, data)), outOfRange)
            <==> DepthOf(|data|) < 63 || i < outOfRange
  {
    hide Accepts, RootOf, FullPath, Clear, MeetsRoot, DepthOf, Pow2, Built, Checked;
    var hs := LeafHashes(H, data);
    var root := RootOf(H, hs);
    GeneratedIsAcceptedIff(H, data, i, [], outOfRange);
    MeetsAtTop(H, hs, i, root);
    DepthIsLogarithm(|data|);
    var k := MeetsRoot(H, hs, i, root);
    assert FullPath(H, hs, i)[..k] == FullPath(H, hs, i);
  }

  /** A hash that collides everywhere: the second of two leaves gets an empty proof, which is refused. */
  lemma EarlyStopIsRefused(H: Hasher, outOfRange: int)
    requires forall b :: H(b) == seq(32, _ => 0)
    ensures var data: seq<Bytes> := [[1], [2]];
            var hs := LeafHashes(H, data);
            var root := RootOf(H, hs);
            MeetsRoot(H, hs, 1, root) == 0 && !Accepts(H, [], 1, data[1], Up(H, hs, 1, root), root, outOfRange)
  {
    var data: seq<Bytes> := [[1], [2]];
    GeneratedIsAcceptedIff(H, data, 1, [], outOfRange);
    var hs := LeafHashes(H, data);
    assert hs[1] == RootOf(H, hs);
  }

  function Filled(v: Byte): Hash {
    [v, v, v, v, v, v, v, v, v, v, v, v, v, v, v, v, v, v, v, v, v, v, v, v, v, v, v, v, v, v, v, v]
  }

  /** A small hash without collisions among what two one-byte leaves make it hash. */
  function SampleHash(b: Bytes): Hash {
    if |b| == 1 then Filled(b[0])
    else if b == Join(Filled(1), Filled(2)) then Filled(3)
    else Filled(4)
  }

  /** Checked with the hasher that built the tree, which still holds the root's input, a generated proof is refused. */
  lemma UsedHasherIsRefused(outOfRange: int)
    ensures var data: seq<Bytes> := [[1], [2]];
            var hs := LeafHashes(SampleHash, data);
            var root := RootOf(SampleHash, hs);
            var pending := Join(Filled(1), Filled(2));
            && Accepts(SampleHash, [], 0, data[0], Up(SampleHash, hs, 0, root), root, outOfRange)
            && !Accepts(SampleHash, pending, 0, data[0], Up(SampleHash, hs, 0, root), root, outOfRange)
  {
    var data: seq<Bytes> := [[1], [2]];
    var hs := LeafHashes(SampleHash, data);
    var root := RootOf(SampleHash, hs);
    var pending := Join(Filled(1), Filled(2));
    assert hs == [Filled(1), Filled(2)];
    assert LevelAbove(SampleHash, hs) == [Filled(3)];
    assert RootOf(SampleHash, [Filled(3)]) == Filled(3);
    assert root == Filled(3);
    assert Filled(3)[0] != Filled(1)[0];
    UpOne(SampleHash, hs, 0, root);
    AtRoot(SampleHash, [Filled(3)], 0, root);
    var proof := Up(SampleHash, hs, 0, root);
    assert proof == [Filled(2)];
    FoldOne(SampleHash, 0, Filled(1), Filled(2), []);
    FoldOne(SampleHash, 0, SampleHash(pending + [1]), Filled(2), []);
    assert |pending + [1]| == 65;
    assert Filled(4)[0] != Filled(1)[0];
    JoinIsInjective(Filled(4), Filled(2), Filled(1), Filled(2));
  }
}
