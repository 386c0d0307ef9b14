/** Merkle trees, proof generation and proof verification (merkle-tree/merkle_tree.go). */
module Merkle {
  import opened Transactions
  import opened Arithmetic

  type Data = seq<bv8>

  /** The hash of a leaf and the hash of two concatenated hashes. */
  datatype Hasher = Hasher(leaf: Data -> Hash, node: (Hash, Hash) -> Hash)

  /** The levels of the tree from the leaves up. */
  datatype Tree = Tree(data: seq<Data>, levels: seq<seq<Hash>>)

  /** The right child of node `i` in the level above: the last node of an odd level is its own sibling. */
  function RightOf(level: seq<Hash>, i: nat): Hash
    requires 2 * i < |level|
  {
    if 2 * i + 1 < |level| then level[2 * i + 1] else level[2 * i]
  }

  /** `upper` is the level built on `lower`. */
  ghost predicate Builds(h: Hasher, lower: seq<Hash>, upper: seq<Hash>) {
    && |upper| == (|lower| + 1) / 2
    && forall i :: 0 <= i < |upper| ==> upper[i] == h.node(lower[2 * i], RightOf(lower, i))
  }

  /** Levels built one on the other, from at least one leaf to the root alone. */
  ghost predicate Pyramid(h: Hasher, levels: seq<seq<Hash>>) {
    && levels != [] && levels[0] != [] && |levels[|levels| - 1]| == 1
    && forall l :: BuiltAt(h, levels, l)
  }

  ghost predicate BuiltAt(h: Hasher, levels: seq<seq<Hash>>, l: int) {
    0 <= l < |levels| - 1 ==> |levels[l]| > 1 && Builds(h, levels[l], levels[l + 1])
  }

  ghost predicate ValidTree(h: Hasher, t: Tree) {
    && Pyramid(h, t.levels)
    && |t.levels[0]| == |t.data|
    && forall i :: 0 <= i < |t.data| ==> t.levels[0][i] == h.leaf(t.data[i])
  }

  function Root(t: Tree): Hash
    requires t.levels != [] && t.levels[|t.levels| - 1] != []
  {
    t.levels[|t.levels| - 1][0]
  }

  function Depth(t: Tree): nat
    requires t.levels != []
  {
    |t.levels| - 1
  }

  function Pow2(n: nat): (p: nat)
    ensures p > 0
  {
    if n == 0 then 1 else 2 * Pow2(n - 1)
  }

  /** The position at level `l` of the node above position `i` of the lowest level. */
  function Above(i: nat, l: nat): nat { if l == 0 then i else Above(i, l - 1) / 2 }

  lemma {:induction false} AboveIsInside(h: Hasher, t: Tree, i: nat, l: nat)
    requires Pyramid(h, t.levels) && i < |t.levels[0]| && l < |t.levels|
    ensures Above(i, l) < |t.levels[l]|
  {
    if l > 0 {
      AboveIsInside(h, t, i, l - 1);
      assert BuiltAt(h, t.levels, l - 1);
    }
  }

  /** The depth is the rounded-up binary logarithm of the number of leaves. */
  lemma {:induction false} DepthIsLogarithm(h: Hasher, levels: seq<seq<Hash>>)
    requires Pyramid(h, levels)
    ensures |levels[0]| <= Pow2(|levels| - 1)
    ensures |levels| > 1 ==> Pow2(|levels| - 2) < |levels[0]|
    decreases |levels|
  {
    if |levels| > 1 {
      TailIsPyramid(h, levels);
      assert BuiltAt(h, levels, 0);
      DepthIsLogarithm(h, levels[1..]);
    }
  }

  // Verification.

  function Combine(h: Hasher, index: nat, computed: Hash, sibling: Hash): Hash {
    if index % 2 == 0 then h.node(computed, sibling) else h.node(sibling, computed)
  }

  /** The root that a proof computes from a hash at the given index. */
  function ProofHash(h: Hasher, index: nat, computed: Hash, proof: seq<Hash>): Hash
    decreases |proof|
  {
    if proof == [] then computed else ProofHash(h, index / 2, Combine(h, index, computed, proof[0]), proof[1..])
  }

  /**
   Two to the length of the proof; from 63 on it does not fit and converts to `overflow`, whatever the platform makes
   of it.
   */
  function Bound(length: nat, overflow: int): int { if length < 63 then Pow2(length) else overflow }

  predicate Accepts(h: Hasher, index: nat, leaf: Data, proof: seq<Hash>, root: Hash, overflow: int) {
    leaf != [] && Signed(index) < Bound(|proof|, overflow) && ProofHash(h, index, h.leaf(leaf), proof) == root
  }

  method VerifyProof(h: Hasher, index: nat, leaf: Data, proof: seq<Hash>, root: Hash, overflow: int) returns (ok: bool)
    requires index < TWO64
    ensures ok == Accepts(h, index, leaf, proof, root, overflow)
  {
    if |leaf| == 0 || Signed(index) >= Bound(|proof|, overflow) { return false; }
    var computed: Hash, at: nat := h.leaf(leaf), index;
    for i := 0 to |proof|
      invariant ProofHash(h, index, h.leaf(leaf), proof) == ProofHash(h, at, computed, proof[i..])
    {
      assert proof[i..][1..] == proof[i + 1..];
      computed := if at % 2 == 0 then h.node(computed, proof[i]) else h.node(proof[i], computed);
      at := at / 2;
    }
    return root == computed;
  }

  lemma {:induction false} PowerOfSum(a: nat, b: nat)
    ensures Pow2(a + b) == Pow2(a) * Pow2(b)
  {
    if a > 0 { PowerOfSum(a - 1, b); }
  }

  /** Doubling the exponent, and one more. */
  lemma Squared(n: nat, p: nat)
    requires Pow2(n) == p
    ensures Pow2(2 * n + 1) == 2 * (p * p)
  {
    PowerOfSum(n, n);
  }

  lemma TwoTo63()
    ensures Pow2(63) == TWO63
  {
    hide Pow2;
    assert Pow2(1) == 2 by { PowerOfOne(); }
    Squared(1, 2);
    Squared(3, 0x8);
    Squared(7, 0x80);
    Squared(15, 0x8000);
    Squared(31, 0x8000_0000);
  }

  lemma PowerOfOne()
    ensures Pow2(1) == 2
  {
  }

  /** A power of two below 2^63 divides it an even number of times. */
  lemma PowersDivide(n: nat) returns (k: nat)
    requires n < 63
    ensures k > 0 && TWO63 == 2 * k * Pow2(n)
  {
    TwoTo63();
    PowerOfSum(63 - n, n);
    k := Pow2(62 - n);
  }

  /** Only the low bits of the index steer the computation. */
  lemma {:induction false} LowBitsDecide(h: Hasher, index: nat, computed: Hash, proof: seq<Hash>)
    ensures ProofHash(h, index, computed, proof) == ProofHash(h, index % Pow2(|proof|), computed, proof)
    decreases |proof|
  {
    if proof != [] {
      var n := |proof| - 1;
      HalfOfRest(index, Pow2(n));
      LowBitsDecide(h, index / 2, Combine(h, index, computed, proof[0]), proof[1..]);
      LowBitsDecide(h, (index % Pow2(n + 1)) / 2, Combine(h, index, computed, proof[0]), proof[1..]);
    }
  }

  lemma HalfOfRest(i: nat, m: nat)
    requires m > 0
    ensures (i % (2 * m)) % 2 == i % 2
    ensures ((i % (2 * m)) / 2) % m == (i / 2) % m
  {
    HalvesOf(i, m, i / (2 * m), i % (2 * m));
  }

  lemma HalvesOf(i: nat, m: nat, q: nat, r: nat)
    requires r < 2 * m && i == 2 * m * q + r
    ensures r % 2 == i % 2 && (r / 2) % m == (i / 2) % m
  {
    Halves(i, q * m, r);
    Remainder(i / 2, m, q, r / 2);
    Remainder(r / 2, m, 0, r / 2);
  }

  lemma Halves(i: nat, x: nat, r: nat)
    requires i == 2 * x + r
    ensures i / 2 == x + r / 2 && i % 2 == r % 2
  {
  }

  /** For proofs of up to 62 hashes the check lets through the indexes that fit the length, and all from 2^63 on. */
  lemma IndexesThatPass(index: nat, length: nat, overflow: int)
    requires index < TWO64 && length < 63
    ensures Signed(index) < Bound(length, overflow) <==> index < Pow2(length) || index >= TWO63
  {
    var k := PowersDivide(length);
    MulMonotone(1, 2 * k, Pow2(length));
  }

  /**
   An index beyond the tree that passes: if a proof of up to 62 hashes is accepted at `index`, it is accepted at
   `index` + 2^63 as well.
   */
  lemma HighIndexPasses(h: Hasher, index: nat, leaf: Data, proof: seq<Hash>, root: Hash, overflow: int)
    requires index < Pow2(|proof|) && |proof| < 63
    ensures index + TWO63 < TWO64
    ensures Accepts(h, index, leaf, proof, root, overflow) <==> Accepts(h, index + TWO63, leaf, proof, root, overflow)
  {
    var m := Pow2(|proof|);
    var k := PowersDivide(|proof|);
    MulMonotone(2, 2 * k, m);
    Remainder(index + TWO63, m, 2 * k, index);
    Remainder(index, m, 0, index);
    LowBitsDecide(h, index, h.leaf(leaf), proof);
    LowBitsDecide(h, index + TWO63, h.leaf(leaf), proof);
  }

  ghost predicate Injective(h: Hasher) {
    && (forall a, b :: h.leaf(a) == h.leaf(b) ==> a == b)
    && (forall a, b, c, d :: h.node(a, b) == h.node(c, d) ==> a == c && b == d)
  }

  /**
   A hash from which a proof of full length computes the root stands in the lowest level, and at its index if that is
   in range.
   */
  lemma {:induction false} FullProofIsSound(h: Hasher, levels: seq<seq<Hash>>, index: nat, computed: Hash,
                                            proof: seq<Hash>)
    requires Injective(h) && Pyramid(h, levels) && |proof| == |levels| - 1
    requires ProofHash(h, index, computed, proof) == levels[|levels| - 1][0]
    ensures computed in levels[0]
    ensures index < |levels[0]| ==> levels[0][index] == computed
    decreases |proof|
  {
    if |proof| > 0 {
      TailIsPyramid(h, levels);
      var upper := Combine(h, index, computed, proof[0]);
      FullProofIsSound(h, levels[1..], index / 2, upper, proof[1..]);
      var j: nat :| j < |levels[1]| && levels[1][j] == upper && (index < |levels[0]| ==> j == index / 2);
      assert BuiltAt(h, levels, 0);
      assert upper == h.node(levels[0][2 * j], RightOf(levels[0], j));
    }
  }

  lemma TailIsPyramid(h: Hasher, levels: seq<seq<Hash>>)
    requires Pyramid(h, levels) && |levels| > 1
    ensures Pyramid(h, levels[1..]) && Builds(h, levels[0], levels[1])
  {
    assert BuiltAt(h, levels, 0);
    forall l ensures BuiltAt(h, levels[1..], l) { assert BuiltAt(h, levels, l + 1); }
  }

  /**
   Whatever an accepted proof of full depth shows is a leaf of the tree: the one at the low bits of the index, if that
   is in range.
   */
  lemma AcceptedProofsAreSound(h: Hasher, t: Tree, index: nat, leaf: Data, proof: seq<Hash>, overflow: int)
    requires Injective(h) && ValidTree(h, t) && |proof| == Depth(t) && Accepts(h, index, leaf, proof, Root(t), overflow)
    ensures leaf in t.data
    ensures index % Pow2(Depth(t)) < |t.data| ==> t.data[index % Pow2(Depth(t))] == leaf
  {
    var low := index % Pow2(Depth(t));
    LowBitsDecide(h, index, h.leaf(leaf), proof);
    FullProofIsSound(h, t.levels, low, h.leaf(leaf), proof);
    var j: nat :| j < |t.levels[0]| && t.levels[0][j] == h.leaf(leaf) && (low < |t.data| ==> j == low);
    assert t.data[j] == leaf;
  }

  // Construction.

  method NewLevel(h: Hasher, nodes: seq<Hash>) returns (level: seq<Hash>)
    ensures Builds(h, nodes, level)
  {
    level := [];
    var i := 0;
    while i < |nodes|
      invariant i == 2 * |level| && i <= |nodes| + 1
      invariant forall k :: 0 <= k < |level| ==> level[k] == h.node(nodes[2 * k], RightOf(nodes, k))
    {
      var left, right := nodes[i], nodes[i];
      if i + 1 < |nodes| { right := nodes[i + 1]; }
      level := level + [h.node(left, right)];
      i := i + 2;
    }
  }

  /** A tree for every non-empty list of leaves. */
  method NewMerkleTree(h: Hasher, data: seq<Data>) returns (t: Option<Tree>)
    ensures t.None? <==> data == []
    ensures t.Some? ==> t.value.data == data && ValidTree(h, t.value)
  {
    if data == [] { return None; }
    var nodes: seq<Hash> := seq(|data|, i requires 0 <= i < |data| => h.leaf(data[i]));
    ghost var leaves := nodes;
    var levels: seq<seq<Hash>> := [nodes];
    while |nodes| > 1
      invariant levels != [] && levels[0] == leaves && levels[|levels| - 1] == nodes && nodes != []
      invariant forall l :: BuiltAt(h, levels, l)
      decreases |nodes|
    {
      ghost var lower := levels;
      nodes := NewLevel(h, nodes);
      levels := levels + [nodes];
      forall l ensures BuiltAt(h, levels, l) { assert BuiltAt(h, lower, l); }
    }
    return Some(Tree(data, levels));
  }

  // Proof generation.

  /** The first position of the leaf. */
  ghost predicate FirstAt(data: seq<Data>, leaf: Data, i: nat) {
    i < |data| && data[i] == leaf && forall k :: 0 <= k < i ==> data[k] != leaf
  }

  method LeafIndex(t: Tree, leaf: Data) returns (r: Option<nat>)
    ensures r.None? <==> leaf !in t.data
    ensures r.Some? ==> FirstAt(t.data, leaf, r.value)
  {
    for i := 0 to |t.data|
      invariant forall k :: 0 <= k < i ==> t.data[k] != leaf
    {
      if t.data[i] == leaf { return Some(i); }
    }
    return None;
  }

  lemma {:induction false} ProofHashSnoc(h: Hasher, index: nat, computed: Hash, proof: seq<Hash>, x: Hash)
    ensures ProofHash(h, index, computed, proof + [x]) ==
            Combine(h, Above(index, |proof|), ProofHash(h, index, computed, proof), x)
    decreases |proof|
  {
    if proof == [] {
      assert (proof + [x])[1..] == [];
    } else {
      assert (proof + [x])[1..] == proof[1..] + [x];
      ProofHashSnoc(h, index / 2, Combine(h, index, computed, proof[0]), proof[1..], x);
      AboveShift(index, |proof| - 1);
    }
  }

  lemma {:induction false} AboveShift(index: nat, l: nat)
    ensures Above(index / 2, l) == Above(index, l + 1)
  {
    if l > 0 { AboveShift(index, l - 1); }
  }

  /** The hash of the node above leaf `i` at level `l`. */
  function NodeAbove(t: Tree, i: nat, l: nat): Hash
    requires l < |t.levels| && Above(i, l) < |t.levels[l]|
  {
    t.levels[l][Above(i, l)]
  }

  /** No node on the leaf's way up has the root's hash below level `n`. */
  ghost predicate NoRootBelow(h: Hasher, t: Tree, i: nat, n: nat)
    requires ValidTree(h, t) && i < |t.data| && n <= Depth(t)
  {
    forall l :: 0 <= l < n ==> Above(i, l) < |t.levels[l]| && NodeAbove(t, i, l) != Root(t)
  }

  /** Level `l` has the first node with the root's hash on the leaf's way up. */
  ghost predicate RootLevel(h: Hasher, t: Tree, i: nat, l: nat)
    requires ValidTree(h, t) && i < |t.data|
  {
    l <= Depth(t) && Above(i, l) < |t.levels[l]| && NodeAbove(t, i, l) == Root(t) && NoRootBelow(h, t, i, l)
  }

  lemma NoRootStep(h: Hasher, t: Tree, i: nat, n: nat)
    requires ValidTree(h, t) && i < |t.data| && n <= Depth(t) && NoRootBelow(h, t, i, n) && Above(i, n) < |t.levels[n]|
    ensures NodeAbove(t, i, n) != Root(t) ==> n < Depth(t) && NoRootBelow(h, t, i, n + 1)
  {
  }

  /** The hash put into the proof: the right child's if the left child has the node's hash, else the left child's. */
  function SiblingOf(level: seq<Hash>, at: nat): Hash
    requires at < |level|
  {
    var up := at / 2;
    if level[2 * up] == level[at] then RightOf(level, up) else level[2 * up]
  }

  /** One level of a proof: the sibling's hash completes the node above. */
  lemma SiblingCompletes(h: Hasher, t: Tree, i: nat, l: nat)
    requires ValidTree(h, t) && i < |t.data| && l < Depth(t) && Above(i, l) < |t.levels[l]|
    requires Above(i, l + 1) < |t.levels[l + 1]|
    ensures Combine(h, Above(i, l), NodeAbove(t, i, l), SiblingOf(t.levels[l], Above(i, l))) == NodeAbove(t, i, l + 1)
  {
    assert BuiltAt(h, t.levels, l);
  }

  /**
   The generated proof computes the root from the leaf's first position, and it ends at the first node with the
   root's hash.
   */
  method GenerateProof(h: Hasher, t: Tree, leaf: Data) returns (r: Option<seq<Hash>>, ghost i: nat)
    requires ValidTree(h, t)
    ensures r.None? <==> leaf !in t.data
    ensures r.Some? ==>
              && FirstAt(t.data, leaf, i)
              && RootLevel(h, t, i, |r.value|)
              && ProofHash(h, i, h.leaf(leaf), r.value) == Root(t)
  {
    var found := LeafIndex(t, leaf);
    if found.None? { return None, 0; }
    i := found.value;
    assert ProofHash(h, i, h.leaf(leaf), []) == h.leaf(leaf) == t.levels[0][i];
    hide ProofHash, Combine, Builds, FirstAt, SiblingOf, NoRootBelow, Pyramid;
    var proof: seq<Hash>, l: nat, at: nat := [], 0, found.value;
    while t.levels[l][at] != Root(t)
      invariant l == |proof| <= Depth(t) && at == Above(i, l) < |t.levels[l]|
      invariant ProofHash(h, i, h.leaf(leaf), proof) == t.levels[l][at]
      invariant NoRootBelow(h, t, i, l)
      decreases Depth(t) - l
    {
      NoRootStep(h, t, i, l);
      var sibling := SiblingOf(t.levels[l], at);
      AboveIsInside(h, t, i, l + 1);
      SiblingCompletes(h, t, i, l);
      ProofHashSnoc(h, i, h.leaf(leaf), proof, sibling);
      proof := proof + [sibling];
      l, at := l + 1, at / 2;
    }
    NoRootStep(h, t, i, l);
    return Some(proof), i;
  }

  /** What a generated proof is. */
  ghost predicate Generated(h: Hasher, t: Tree, leaf: Data, i: nat, proof: seq<Hash>) {
    && ValidTree(h, t) && FirstAt(t.data, leaf, i) && RootLevel(h, t, i, |proof|)
    && ProofHash(h, i, h.leaf(leaf), proof) == Root(t)
  }

  lemma {:induction false} AboveIsZero(i: nat, l: nat)
    ensures i < Pow2(l) <==> Above(i, l) == 0
  {
    if l > 0 {
      AboveShift(i, l - 1);
      AboveIsZero(i / 2, l - 1);
    }
  }

  /**
   A generated proof verifies at the leaf's index if and only if the leaf is not empty and the index fits the level of
   the first node with the root's hash: up to level 62 that node is the first of its level, as the root is.
   */
  lemma GeneratedProofVerifiesExactly(h: Hasher, t: Tree, leaf: Data, i: nat, l: nat, proof: seq<Hash>, overflow: int)
    requires Generated(h, t, leaf, i, proof) && RootLevel(h, t, i, l) && |t.data| < TWO63
    ensures Accepts(h, i, leaf, proof, Root(t), overflow) <==> leaf != [] && i < Bound(l, overflow)
    ensures l < 63 ==> (i < Bound(l, overflow) <==> Above(i, l) == 0)
    ensures l == Depth(t) ==> Above(i, l) == 0
  {
    assert l == |proof|;
    AboveIsZero(i, l);
    DepthIsLogarithm(h, t.levels);
  }

  /** No hash of a leaf is the hash of an inner node. */
  ghost predicate Separated(h: Hasher) { forall d, a, b :: h.leaf(d) != h.node(a, b) }

  /** Without collisions no two levels share a hash. */
  lemma {:induction false} LevelsAreDisjoint(h: Hasher, t: Tree, l: nat, j: nat, m: nat, k: nat)
    requires Injective(h) && Separated(h) && ValidTree(h, t) && l < m < |t.levels| && j < |t.levels[l]|
    requires k < |t.levels[m]|
    ensures t.levels[l][j] != t.levels[m][k]
    decreases l
  {
    assert BuiltAt(h, t.levels, m - 1);
    if l > 0 {
      assert BuiltAt(h, t.levels, l - 1);
      LevelsAreDisjoint(h, t, l - 1, 2 * j, m - 1, 2 * k);
    }
  }

  /** Without collisions every generated proof has full length and verifies. */
  lemma GeneratedProofsVerify(h: Hasher, t: Tree, leaf: Data, i: nat, proof: seq<Hash>, overflow: int)
    requires Injective(h) && Separated(h) && Generated(h, t, leaf, i, proof) && leaf != []
    requires |t.data| < TWO63 && Depth(t) < 63
    ensures |proof| == Depth(t) && Accepts(h, i, leaf, proof, Root(t), overflow)
  {
    if |proof| < Depth(t) {
      LevelsAreDisjoint(h, t, |proof|, Above(i, |proof|), Depth(t), 0);
      assert false;
    }
    GeneratedProofVerifiesExactly(h, t, leaf, i, |proof|, proof, overflow);
  }

  /** A tree whose hashes collide: the generated proof of its second leaf does not verify. */
  lemma CollidingTreeFails(a: Data, b: Data, overflow: int)
    requires a != b
    ensures var h, t := Hasher(_ => 0, (_, _) => 0), Tree([a, b], [[0, 0], [0]]);
            Generated(h, t, b, 1, []) && !Accepts(h, 1, b, [], Root(t), overflow)
  {
    var h, t := Hasher(_ => 0, (_, _) => 0), Tree([a, b], [[0, 0], [0]]);
    assert Builds(h, t.levels[0], t.levels[1]);
    assert Pyramid(h, t.levels);
    assert Above(1, 0) == 1;
  }
}
