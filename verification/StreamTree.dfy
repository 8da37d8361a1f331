/**
 The streaming Merkle builder of bench/overhead.mjs: a binary counter of pending subtree roots.
 Its root equals the layer-by-layer root for every number of leaves.
 */
module StreamTree {
  import opened Wrappers
  import opened Merkle

  // ---- The layers of the counter ---------------------------------------------------------------

  /** The full nodes one layer up: pairs only, an odd last node dropped. */
  function Pairs<H>(node: NodeHash<H>, xs: seq<H>): (up: seq<H>)
    ensures |up| == |xs| / 2
    ensures forall i :: 0 <= i < |up| ==> up[i] == node(xs[2 * i], xs[2 * i + 1])
  {
    seq(|xs| / 2, i requires 0 <= i < |xs| / 2 => node(xs[2 * i], xs[2 * i + 1]))
  }

  /** What the counter holds when the full nodes of its lowest layer are xs: layer by layer the
      last node where their number is odd, nothing where it is even. */
  function Pending<H>(node: NodeHash<H>, xs: seq<H>): (p: seq<Option<H>>)
    ensures xs == [] <==> p == []
    ensures p != [] ==> p[|p| - 1].Some?
    ensures |xs| == 1 ==> |p| == 1
    ensures |xs| > 1 ==> |p| > 1
    decreases |xs|
  {
    if xs == [] then []
    else [if |xs| % 2 == 1 then Some(xs[|xs| - 1]) else None] + Pending(node, Pairs(node, xs))
  }

  /** Full nodes l layers up. */
  function Full<H>(node: NodeHash<H>, xs: seq<H>, l: nat): seq<H>
    decreases l
  {
    if l == 0 then xs else Full(node, Pairs(node, xs), l - 1)
  }

  /** Dropping an odd last leaf changes no pair. */
  lemma PairsOfPrefix<H>(node: NodeHash<H>, xs: seq<H>, x: H)
    ensures |xs| % 2 == 0 ==> Pairs(node, xs + [x]) == Pairs(node, xs)
    ensures |xs| % 2 == 1 ==> Pairs(node, xs + [x]) == Pairs(node, xs) + [node(xs[|xs| - 1], x)]
  {
  }

  // ---- Closing the counter ---------------------------------------------------------------------

  /** `some(Boolean)` over the layers above. */
  predicate AnyAbove<H>(p: seq<Option<H>>) {
    exists i :: 0 <= i < |p| && p[i].Some?
  }

  function AsSeq<H>(c: Option<H>): seq<H> {
    match c case None => [] case Some(h) => [h]
  }

  /** The loop of `root` from one layer on, carrying the node made of whatever is left over. */
  function Close<H>(node: NodeHash<H>, p: seq<Option<H>>, carry: Option<H>): Option<H> {
    if p == [] then carry
    else
      var above := AnyAbove(p[1..]);
      if !above && (if p[0].Some? then carry.None? else carry.Some?) then
        (if p[0].Some? then p[0] else carry)
      else if p[0].Some? && carry.Some? then Close(node, p[1..], Some(node(p[0].value, carry.value)))
      else if p[0].Some? then Close(node, p[1..], Some(node(p[0].value, p[0].value)))
      else if carry.Some? then Close(node, p[1..], Some(node(carry.value, carry.value)))
      else Close(node, p[1..], None)
  }

  /** What is carried up past the pairs of xs. */
  function LeftOver<H>(node: NodeHash<H>, xs: seq<H>, carry: Option<H>): Option<H>
    requires xs != []
  {
    if |xs| % 2 == 1 then Some(node(xs[|xs| - 1], if carry.Some? then carry.value else xs[|xs| - 1]))
    else if carry.Some? then Some(node(carry.value, carry.value))
    else None
  }

  lemma LayerOver<H>(node: NodeHash<H>, xs: seq<H>, carry: Option<H>)
    requires xs != [] && |xs + AsSeq(carry)| > 1
    ensures Layer(node, xs + AsSeq(carry)) == Pairs(node, xs) + AsSeq(LeftOver(node, xs, carry))
  {
  }

  /** Closing the counter over xs, with a carried node to their right, is taking the root of all
      of them. */
  lemma {:induction false} CloseIsRoot<H>(node: NodeHash<H>, xs: seq<H>, carry: Option<H>)
    requires xs != [] || carry.Some?
    ensures Close(node, Pending(node, xs), carry) == Some(Root(node, xs + AsSeq(carry)))
    decreases |xs|
  {
    hide Layer;
    var all := xs + AsSeq(carry);
    if xs != [] {
      var up := Pairs(node, xs);
      var p := Pending(node, xs);
      assert p[1..] == Pending(node, up);
      if |xs| > 1 { assert Pending(node, up)[|Pending(node, up)| - 1].Some?; }
      var next := LeftOver(node, xs, carry);
      if |all| > 1 {
        LayerOver(node, xs, carry);
        CloseIsRoot(node, up, next);
      }
    }
  }

  // ---- What each pending node is ----------------------------------------------------------------

  /** n >> l */
  function Shr(n: nat, l: nat): nat
    decreases l
  {
    if l == 0 then n else Shr(n / 2, l - 1)
  }

  /** i << l */
  function Shl(i: nat, l: nat): nat {
    if l == 0 then i else 2 * Shl(i, l - 1)
  }

  lemma {:induction false} ShlOfShr(n: nat, l: nat)
    ensures Shl(Shr(n, l), l) <= n
    decreases l
  {
    if l > 0 {
      ShlOfShr(n / 2, l - 1);
    }
  }

  lemma {:induction false} ShlStep(i: nat, l: nat)
    ensures Shl(i + 1, l) == Shl(i, l) + Shl(1, l) && Shl(1, l) >= 1
  {
    if l > 0 { ShlStep(i, l - 1); }
  }

  lemma {:induction false} FullLayerLength<H>(node: NodeHash<H>, xs: seq<H>, l: nat)
    ensures |Full(node, xs, l)| == Shr(|xs|, l)
    decreases l
  {
    if l > 0 { FullLayerLength(node, Pairs(node, xs), l - 1); }
  }

  lemma {:induction false} PendingAt<H>(node: NodeHash<H>, xs: seq<H>, l: nat)
    requires l < |Pending(node, xs)|
    ensures var f := Full(node, xs, l);
            Pending(node, xs)[l] == if |f| % 2 == 1 then Some(f[|f| - 1]) else None
    decreases l
  {
    hide Pairs;
    if l > 0 {
      ghost var rest := Pending(node, Pairs(node, xs));
      assert Pending(node, xs) == [Pending(node, xs)[0]] + rest;
      assert Pending(node, xs)[l] == rest[l - 1];
      PendingAt(node, Pairs(node, xs), l - 1);
    }
  }

  /** Node i of layer l is the root of its own 2^l leaves. */
  lemma {:induction false} FullNodeIsRoot<H>(node: NodeHash<H>, xs: seq<H>, l: nat, i: nat)
    requires Shl(i + 1, l) <= |xs|
    ensures i < |Full(node, xs, l)|
    ensures Shl(i, l) < Shl(i + 1, l)
    ensures Full(node, xs, l)[i] == Root(node, xs[Shl(i, l)..Shl(i + 1, l)])
    decreases l
  {
    hide Pairs, Root, Layer;
    ShlStep(i, l);
    if l == 0 {
      assert Root(node, [xs[i]]) == xs[i] by { RootOfOne(node, xs[i]); }
      assert xs[i..i + 1] == [xs[i]];
    } else {
      ShlStep(i, l - 1);
      var up := Pairs(node, xs);
      FullNodeIsRoot(node, up, l - 1, i);
      RootOfPairs(node, xs, Shl(i, l - 1), Shl(i + 1, l - 1));
    }
  }

  lemma RootOfOne<H>(node: NodeHash<H>, x: H)
    ensures Root(node, [x]) == x
  {
  }

  lemma RootOfPairs<H>(node: NodeHash<H>, xs: seq<H>, a: nat, b: nat)
    requires a < b <= |xs| / 2
    ensures Root(node, xs[2 * a..2 * b]) == Root(node, Pairs(node, xs)[a..b])
  {
    hide Pairs;
    var block := xs[2 * a..2 * b];
    assert Layer(node, block) == Pairs(node, xs)[a..b];
  }

  /** After n leaves, pending[l] is set exactly when bit l of n is, and is then the root of the last
      complete run of 2^l leaves. */
  lemma PendingIsFullSubtree<H>(node: NodeHash<H>, xs: seq<H>, l: nat)
    requires l < |Pending(node, xs)|
    ensures var q := Shr(|xs|, l);
            && (Pending(node, xs)[l].Some? <==> q % 2 == 1)
            && (q % 2 == 1 ==>
                  && Shl(q - 1, l) < Shl(q, l) <= |xs|
                  && Pending(node, xs)[l] == Some(Root(node, xs[Shl(q - 1, l)..Shl(q, l)])))
  {
    hide Pending, Full, Root, Shr, Shl;
    PendingAt(node, xs, l);
    FullLayerLength(node, xs, l);
    var q := Shr(|xs|, l);
    ShlOfShr(|xs|, l);
    if q % 2 == 1 {
      FullNodeIsRoot(node, xs, l, q - 1);
    }
  }

  // ---- Adding a leaf ------------------------------------------------------------------------------

  /** With an odd node waiting, the new one pairs with it and the pair moves up a layer. */
  lemma CarryUp<H>(node: NodeHash<H>, xs: seq<H>, h: H)
    requires xs != [] && Pending(node, xs)[0].Some?
    ensures var rest := Pending(node, xs);
            && rest[1..] == Pending(node, Pairs(node, xs))
            && Pending(node, xs + [h]) == [None] + Pending(node, Pairs(node, xs) + [node(rest[0].value, h)])
  {
    PairsOfPrefix(node, xs, h);
  }

  /** With none waiting, it waits. */
  lemma Settle<H>(node: NodeHash<H>, xs: seq<H>, h: H)
    requires xs != [] ==> Pending(node, xs)[0].None?
    ensures Pending(node, xs + [h]) == [Some(h)] + (if xs == [] then [] else Pending(node, xs)[1..])
  {
    PairsOfPrefix(node, xs, h);
    if xs == [] { assert Pairs(node, [h]) == []; }
  }

  /** Two counters with the same lower layers and, above them, the new node in front. */
  lemma Spliced<T>(before: seq<T>, goal: seq<T>, after: seq<T>, l: nat, x: T)
    requires l <= |before| && l <= |goal|
    requires forall k :: 0 <= k < l ==> before[k] == goal[k]
    requires goal[l..] == [x] + (if l == |before| then [] else before[l..][1..])
    requires after == if l < |before| then before[l := x] else before + [x]
    ensures after == goal
  {
    assert after[l..] == goal[l..];
    assert after == after[..l] + after[l..] && goal == goal[..l] + goal[l..];
  }

  lemma FromLayer<T>(s: seq<T>, l: nat)
    requires l < |s|
    ensures s[l..][0] == s[l] && s[l..][1..] == s[l + 1..]
  {
  }

  lemma AboveLayer<T>(s: seq<T>, l: nat, x: T)
    requires l < |s|
    ensures s[l := x][l + 1..] == s[l + 1..]
  {
  }

  /** One turn of the carry loop: layer l is emptied, and the layers above are those of the pairs. */
  lemma CarryStep<H>(node: NodeHash<H>, pending: seq<Option<H>>, goal: seq<Option<H>>, l: nat, xs: seq<H>, h: H)
    requires l < |pending| && l <= |goal| && pending[l].Some? && pending[l..] == Pending(node, xs) && goal[l..] == Pending(node, xs + [h])
    requires forall k :: 0 <= k < l ==> pending[k] == goal[k]
    ensures var after := pending[l := None];
            && l + 1 <= |goal| && after[l + 1..] == Pending(node, Pairs(node, xs))
            && goal[l + 1..] == Pending(node, Pairs(node, xs) + [node(pending[l].value, h)])
            && forall k :: 0 <= k < l + 1 ==> after[k] == goal[k]
  {
    hide Pending, Pairs;
    CarryUp(node, xs, h);
    FromLayer(goal, l);
    FromLayer(pending, l);
    AboveLayer(pending, l, None);
  }

  /** Above its top the counter has only zero bits. */
  lemma {:induction false} PendingLength<H>(node: NodeHash<H>, xs: seq<H>)
    ensures Shr(|xs|, |Pending(node, xs)|) == 0
    decreases |xs|
  {
    if xs != [] { PendingLength(node, Pairs(node, xs)); }
  }

  // ---- The class --------------------------------------------------------------------------------

  class StreamTree<H> {
    const node: NodeHash<H>
    var pending: seq<Option<H>>
    var n: nat
    /** Every leaf added so far. */
    ghost var leaves: seq<H>

    ghost predicate Valid()
      reads this
    {
      n == |leaves| && pending == Pending(node, leaves)
    }

    constructor (node: NodeHash<H>)
      ensures Valid() && leaves == [] && this.node == node
    {
      this.node := node;
      pending, n, leaves := [], 0, [];
    }

    method Add(leaf: H)
      requires Valid()
      modifies this
      ensures Valid() && leaves == old(leaves) + [leaf]
    {
      hide Pending, Pairs;
      var h, l := leaf, 0;
      ghost var xs := leaves;
      ghost var goal := Pending(node, leaves + [leaf]);
      assert pending[0..] == pending && goal[0..] == goal;
      while l < |pending| && pending[l].Some?
        invariant 0 <= l <= |pending| && l <= |goal| && leaves == old(leaves) && n == |leaves|
        invariant pending[l..] == Pending(node, xs)
        invariant goal[l..] == Pending(node, xs + [h])
        invariant forall k :: 0 <= k < l ==> pending[k] == goal[k]
      {
        CarryStep(node, pending, goal, l, xs, h);
        xs := Pairs(node, xs);
        h := node(pending[l].value, h);
        pending := pending[l := None];
        l := l + 1;
      }
      Settle(node, xs, h);
      ghost var before := pending;
      pending := if l < |pending| then pending[l := Some(h)] else pending + [Some(h)];
      assert pending == goal by { Spliced(before, goal, pending, l, Some(h)); }
      n := n + 1;
      leaves := leaves + [leaf];
    }

    /** The root over the leaves added so far; nothing when there are none. The tree can go on
        growing afterwards. */
    method GetRoot() returns (root: Option<H>)
      requires Valid()
      ensures root == if leaves == [] then None else Some(Root(node, leaves))
    {
      var carry: Option<H> := None;
      if leaves != [] {
        CloseIsRoot(node, leaves, None);
        assert leaves + AsSeq<H>(None) == leaves;
      }
      assert pending[0..] == pending;
      var l := 0;
      while l < |pending|
        invariant 0 <= l <= |pending|
        invariant Close(node, pending, None) == Close(node, pending[l..], carry)
      {
        var p := pending[l];
        assert pending[l..][0] == p && pending[l..][1..] == pending[l + 1..];
        var above := AnyAbove(pending[l + 1..]);
        if !above && (if p.Some? then carry.None? else carry.Some?) {
          return if p.Some? then p else carry;
        }
        if p.Some? && carry.Some? {
          carry := Some(node(p.value, carry.value));
        } else if p.Some? {
          carry := Some(node(p.value, p.value));
        } else if carry.Some? {
          carry := Some(node(carry.value, carry.value));
        }
        l := l + 1;
      }
      return carry;
    }
  }
}
