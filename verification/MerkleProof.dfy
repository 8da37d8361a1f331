/**
 Inclusion proofs (agent/lib/merkle.mjs): a branch of sibling hashes folded along the bits of the
 claimed index. Every leaf's own branch verifies. With a collision-free node hash nothing else verifies
 at its index, whatever branch is offered and however long; but past the count some leaf always does.
 */
module MerkleProof {
  import opened Merkle

  /** The other child of the node above leaf i: an odd last leaf's is itself. */
  function Sibling<H>(xs: seq<H>, i: nat): H
    requires i < |xs|
  {
    var s := if i % 2 == 1 then i - 1 else i + 1;
    if s < |xs| then xs[s] else xs[i]
  }

  /** The branch for leaf i: its sibling at every layer. */
  function Branch<H>(node: NodeHash<H>, xs: seq<H>, i: nat): (b: seq<H>)
    requires i < |xs|
    decreases |xs|
  {
    if |xs| == 1 then []
    else
      [Sibling(xs, i)] + Branch(node, Layer(node, xs), i / 2)
  }

  /** What a leaf, a branch and a claimed index fold to. */
  function Fold<H>(node: NodeHash<H>, acc: H, branch: seq<H>, i: nat): H {
    if branch == [] then acc
    else Fold(node, if i % 2 == 1 then node(branch[0], acc) else node(acc, branch[0]), branch[1..], i / 2)
  }

  /** `proof`: one sibling per layer of the tree. */
  method MakeProof<H>(node: NodeHash<H>, leaves: seq<H>, index: nat) returns (branch: seq<H>)
    requires index < |leaves|
    ensures branch == Branch(node, leaves, index)
  {
    branch := [];
    hide Layer;
    var layer: seq<H>, idx: nat := leaves, index;
    while |layer| > 1
      invariant idx < |layer|
      invariant branch + Branch(node, layer, idx) == Branch(node, leaves, index)
      decreases |layer|
    {
      var sibling := if idx % 2 == 1 then idx - 1 else idx + 1;
      var hash := if sibling < |layer| then layer[sibling] else layer[idx];
      assert branch + Branch(node, layer, idx) == (branch + [hash]) + Branch(node, Layer(node, layer), idx / 2);
      branch := branch + [hash];
      layer, idx := Layer(node, layer), idx / 2;
    }
  }

  /** `verifyProof`: the bits of the claimed index decide left and right. */
  method VerifyProof<H(==)>(node: NodeHash<H>, leaf: H, branch: seq<H>, index: nat, root: H) returns (ok: bool)
    ensures ok <==> Fold(node, leaf, branch, index) == root
  {
    var acc, idx := leaf, index;
    var k := 0;
    while k < |branch|
      invariant 0 <= k <= |branch|
      invariant Fold(node, acc, branch[k..], idx) == Fold(node, leaf, branch, index)
    {
      acc := if idx % 2 == 1 then node(branch[k], acc) else node(acc, branch[k]);
      assert branch[k..][1..] == branch[k + 1..];
      idx, k := idx / 2, k + 1;
    }
    ok := acc == root;
  }

  // ---- One layer of each -------------------------------------------------------------------------

  lemma RootOneUp<H>(node: NodeHash<H>, xs: seq<H>)
    requires |xs| > 1
    ensures Root(node, xs) == Root(node, Layer(node, xs))
  {
  }

  lemma BranchOneUp<H>(node: NodeHash<H>, xs: seq<H>, i: nat)
    requires i < |xs| && |xs| > 1
    ensures var b := Branch(node, xs, i);
            b != [] && b[0] == Sibling(xs, i) && b[1..] == Branch(node, Layer(node, xs), i / 2)
  {
    hide Layer;
  }

  lemma NodeAbove<H>(node: NodeHash<H>, xs: seq<H>, i: nat)
    requires i < |xs|
    ensures i / 2 < |Layer(node, xs)|
    ensures Layer(node, xs)[i / 2] == if i % 2 == 1 then node(Sibling(xs, i), xs[i]) else node(xs[i], Sibling(xs, i))
  {
    hide Layer;
    var h := i / 2;
    assert i == 2 * h + i % 2;
    assert Layer(node, xs)[h] == node(xs[2 * h], if 2 * h + 1 < |xs| then xs[2 * h + 1] else xs[2 * h]);
  }

  lemma FoldOneUp<H>(node: NodeHash<H>, acc: H, branch: seq<H>, i: nat)
    requires branch != []
    ensures Fold(node, acc, branch, i)
            == Fold(node, if i % 2 == 1 then node(branch[0], acc) else node(acc, branch[0]), branch[1..], i / 2)
  {
  }

  /** Main result: every leaf's own branch verifies at its index. */
  lemma {:induction false} OwnBranchVerifies<H>(node: NodeHash<H>, xs: seq<H>, i: nat)
    requires i < |xs|
    ensures Fold(node, xs[i], Branch(node, xs, i), i) == Root(node, xs)
    decreases |xs|
  {
    if |xs| == 1 {
      assert Branch(node, xs, i) == [];
    } else {
      hide Layer, Fold, Branch, Root, Sibling;
      RootOneUp(node, xs);
      BranchOneUp(node, xs, i);
      NodeAbove(node, xs, i);
      FoldOneUp(node, xs[i], Branch(node, xs, i), i);
      OwnBranchVerifies(node, Layer(node, xs), i / 2);
    }
  }

  // ---- Nothing else verifies ---------------------------------------------------------------------

  /** No two pairs hash alike, and `leaf` tells the leaf hashes from the node hashes, as the domain
      bytes 0x00 and 0x01 do. */
  ghost predicate Separated<H(!new)>(node: NodeHash<H>, leaf: H -> bool) {
    && (forall a, b, c, d :: node(a, b) == node(c, d) ==> a == c && b == d)
    && (forall a, b :: !leaf(node(a, b)))
  }

  function Height(n: nat): nat
    requires n > 0
  {
    if n == 1 then 0 else 1 + Height((n + 1) / 2)
  }

  /** Every path down from h takes exactly k steps to a leaf. */
  ghost predicate Perfect<H(!new)>(node: NodeHash<H>, leaf: H -> bool, k: nat, h: H) {
    if k == 0 then leaf(h)
    else exists a, b :: h == node(a, b) && Perfect(node, leaf, k - 1, a) && Perfect(node, leaf, k - 1, b)
  }

  lemma {:induction false} RootIsPerfect<H(!new)>(node: NodeHash<H>, leaf: H -> bool, xs: seq<H>, k: nat)
    requires |xs| > 0 && forall x :: x in xs ==> Perfect(node, leaf, k, x)
    ensures Perfect(node, leaf, k + Height(|xs|), Root(node, xs))
    decreases |xs|
  {
    if |xs| > 1 {
      var up := Layer(node, xs);
      forall i | 0 <= i < |up| ensures Perfect(node, leaf, k + 1, up[i]) {
        var a, b := xs[2 * i], if 2 * i + 1 < |xs| then xs[2 * i + 1] else xs[2 * i];
        assert up[i] == node(a, b);
      }
      RootIsPerfect(node, leaf, up, k + 1);
    }
  }

  function Bit(i: nat, k: nat): nat
    decreases k
  {
    if k == 0 then i % 2 else Bit(i / 2, k - 1)
  }

  /** The last sibling of a branch is hashed in last. */
  lemma {:induction false} FoldLast<H>(node: NodeHash<H>, acc: H, branch: seq<H>, i: nat)
    requires branch != []
    ensures var m := |branch| - 1;
            var below := Fold(node, acc, branch[..m], i);
            Fold(node, acc, branch, i) == if Bit(i, m) == 1 then node(branch[m], below) else node(below, branch[m])
    decreases |branch|
  {
    if |branch| > 1 {
      var next := if i % 2 == 1 then node(branch[0], acc) else node(acc, branch[0]);
      FoldLast(node, next, branch[1..], i / 2);
      assert branch[..|branch| - 1][1..] == branch[1..][..|branch| - 2];
    }
  }

  /** A leaf folds to the root of a perfect tree only by a branch as long as the tree is high. */
  lemma {:induction false} BranchLength<H(!new)>(node: NodeHash<H>, leaf: H -> bool, x: H, branch: seq<H>, i: nat, k: nat)
    requires Separated(node, leaf) && leaf(x)
    requires Perfect(node, leaf, k, Fold(node, x, branch, i))
    ensures |branch| == k
    decreases |branch|
  {
    if branch != [] {
      FoldLast(node, x, branch, i);
      if k > 0 {
        BranchLength(node, leaf, x, branch[..|branch| - 1], i, k - 1);
      }
    }
  }

  lemma {:induction false} SameHeightSameLeaf<H(!new)>(node: NodeHash<H>, leaf: H -> bool, x: H, branch: seq<H>, xs: seq<H>, i: nat)
    requires Separated(node, leaf) && i < |xs| && |branch| == Height(|xs|)
    requires Fold(node, x, branch, i) == Root(node, xs)
    ensures x == xs[i]
    decreases |xs|
  {
    hide Separated, Layer;
    if |xs| > 1 {
      var next := if i % 2 == 1 then node(branch[0], x) else node(x, branch[0]);
      var up := Layer(node, xs);
      SameHeightSameLeaf(node, leaf, next, branch[1..], up, i / 2);
      var j := i / 2 * 2;
      var a, b := xs[j], if j + 1 < |xs| then xs[j + 1] else xs[j];
      assert up[i / 2] == node(a, b);
      if i % 2 == 1 {
        SamePair(node, leaf, branch[0], x, a, b);
      } else {
        SamePair(node, leaf, x, branch[0], a, b);
      }
    }
  }

  lemma SamePair<H(!new)>(node: NodeHash<H>, leaf: H -> bool, a: H, b: H, c: H, d: H)
    requires Separated(node, leaf) && node(a, b) == node(c, d)
    ensures a == c && b == d
  {
  }

  /** Main result: `verifyProof` accepts a leaf at an index below the count only if it is the leaf
      at that index. */
  lemma OnlyOwnLeafVerifies<H(!new)>(node: NodeHash<H>, leaf: H -> bool, x: H, branch: seq<H>, xs: seq<H>, i: nat)
    requires Separated(node, leaf) && i < |xs|
    requires leaf(x) && forall y :: y in xs ==> leaf(y)
    requires Fold(node, x, branch, i) == Root(node, xs)
    ensures x == xs[i]
  {
    hide Separated, Root, Fold;
    RootIsPerfect(node, leaf, xs, 0);
    BranchLength(node, leaf, x, branch, i, Height(|xs|));
    SameHeightSameLeaf(node, leaf, x, branch, xs, i);
  }

  // ---- Past the count ------------------------------------------------------------------------------

  /** At every index, below the count or not, some leaf verifies by some branch: the bits of the index
      lead down the tree to one. */
  lemma {:induction false} SomeLeafVerifiesAnywhere<H>(node: NodeHash<H>, xs: seq<H>, i: nat) returns (j: nat, b: seq<H>)
    requires |xs| > 0
    ensures j < |xs| && Fold(node, xs[j], b, i) == Root(node, xs)
    decreases |xs|
  {
    if |xs| == 1 {
      j, b := 0, [];
    } else {
      hide Layer, Fold, Root;
      RootOneUp(node, xs);
      var up := Layer(node, xs);
      var k, rest := SomeLeafVerifiesAnywhere(node, up, i / 2);
      var right := if 2 * k + 1 < |xs| then 2 * k + 1 else 2 * k;
      assert up[k] == node(xs[2 * k], xs[right]);
      j := if i % 2 == 1 then right else 2 * k;
      b := [if i % 2 == 1 then xs[2 * k] else xs[right]] + rest;
      assert b[1..] == rest;
      FoldOneUp(node, xs[j], b, i);
    }
  }

  /** `verifyProof` accepts nothing at index i but the leaf there, of a tree over these leaves. */
  ghost predicate BindsAt<H(!new)>(node: NodeHash<H>, leaf: H -> bool, xs: seq<H>, i: nat)
    requires |xs| > 0
  {
    forall x: H, b: seq<H> :: leaf(x) && Fold(node, x, b, i) == Root(node, xs) ==> i < |xs| && x == xs[i]
  }

  /** Main result: the exact condition. `verifyProof` is not given the number of leaves; the root binds
      an index to its leaf exactly below that number, and at every index from it on it lets some
      leaf through. */
  lemma BindsExactlyBelowCount<H(!new)>(node: NodeHash<H>, leaf: H -> bool, xs: seq<H>, i: nat)
    requires Separated(node, leaf) && |xs| > 0 && forall y :: y in xs ==> leaf(y)
    ensures BindsAt(node, leaf, xs, i) <==> i < |xs|
  {
    hide Separated, Root, Fold;
    if i < |xs| {
      forall x: H, b: seq<H> | leaf(x) && Fold(node, x, b, i) == Root(node, xs) ensures x == xs[i] {
        OnlyOwnLeafVerifies(node, leaf, x, b, xs, i);
      }
    } else {
      var j, b := SomeLeafVerifiesAnywhere(node, xs, i);
      assert leaf(xs[j]);
    }
  }
}
