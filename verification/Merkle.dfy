/**
 Merkle roots with an odd last node paired with itself: the layer-by-layer tree of
 agent/lib/merkle.mjs, and the in-place reduction of flight/custody.c over one scratch array.

 The node hash is a parameter, so everything here holds of any hash.
 */
module Merkle {

  type NodeHash<!H> = (H, H) -> H

  /** One layer up: nodes paired left to right, an odd last one with itself. */
  function Layer<H>(node: NodeHash<H>, xs: seq<H>): (up: seq<H>)
    ensures |up| == (|xs| + 1) / 2
    ensures forall i :: 0 <= i < |up| ==> up[i] == node(xs[2 * i], if 2 * i + 1 < |xs| then xs[2 * i + 1] else xs[2 * i])
  {
    seq((|xs| + 1) / 2, i requires 0 <= i < (|xs| + 1) / 2 =>
      node(xs[2 * i], if 2 * i + 1 < |xs| then xs[2 * i + 1] else xs[2 * i]))
  }

  /** The root of the tree over at least one leaf. */
  function Root<H>(node: NodeHash<H>, xs: seq<H>): H
    requires |xs| > 0
    decreases |xs|
  {
    if |xs| == 1 then xs[0] else Root(node, Layer(node, xs))
  }

  /** One layer of the in-place reduction: each node written over the array its children came
      from, never over one still to be read. */
  method ReduceLayer<H>(node: NodeHash<H>, s: array<H>, w: nat)
    requires 1 < w <= s.Length
    modifies s
    ensures s[..(w + 1) / 2] == Layer(node, old(s[..w]))
    ensures s[(w + 1) / 2..] == old(s[(w + 1) / 2..])
  {
    hide Layer;
    ghost var xs := s[..w];
    ghost var up := Layer(node, xs);
    var i := 0;
    while i < w
      invariant 0 <= i <= w + 1 && i % 2 == 0
      invariant forall k :: 0 <= k < i / 2 ==> s[k] == up[k]
      invariant forall k :: i / 2 <= k < s.Length ==> s[k] == old(s[k])
      decreases w - i
    {
      s[i / 2] := node(s[i], if i + 1 < w then s[i + 1] else s[i]);
      i := i + 2;
    }
  }

  /** The loop of `ck_root` and `ck_batch`: layer over layer until one node is left. */
  method Reduce<H>(node: NodeHash<H>, s: array<H>, n: nat)
    requires 1 <= n <= s.Length
    modifies s
    ensures s[0] == Root(node, old(s[..n]))
    ensures s[n..] == old(s[n..])
  {
    var w := n;
    while w > 1
      invariant 1 <= w <= n
      invariant Root(node, s[..w]) == Root(node, old(s[..n]))
      invariant forall k :: n <= k < s.Length ==> s[k] == old(s[k])
    {
      ghost var before := s[..];
      ReduceLayer(node, s, w);
      forall k | n <= k < s.Length ensures s[k] == before[k] {
        assert s[k] == s[(w + 1) / 2..][k - (w + 1) / 2];
      }
      w := (w + 1) / 2;
    }
  }
}
