/**
 The route table of constellation/sim.mjs: how many hops each satellite is from the nearest one that
 sees a ground station, by breadth-first search from all of those at once.
 */
module Distances {

  /** `adj[i]` lists the satellites satellite i has a link to. */
  type Links = seq<seq<nat>>

  ghost predicate InRange(adj: Links, sources: seq<nat>) {
    && (forall i :: i in sources ==> i < |adj|)
    && (forall i, n :: 0 <= i < |adj| && n in adj[i] ==> n < |adj|)
  }

  ghost predicate Symmetric(adj: Links) {
    forall i, n :: 0 <= i < |adj| && n in adj[i] ==> n < |adj| && i in adj[n]
  }

  /** Some chain of exactly k links leads from a source to n. */
  ghost predicate Chain(adj: Links, sources: seq<nat>, n: nat, k: nat)
    decreases k
  {
    if k == 0 then n in sources
    else exists m: nat :: m < |adj| && n in adj[m] && Chain(adj, sources, m, k - 1)
  }

  /** d is the length of the shortest chain to n, or -1 when there is none. */
  ghost predicate IsDistance(adj: Links, sources: seq<nat>, n: nat, d: int) {
    && d >= -1
    && (d >= 0 ==> Chain(adj, sources, n, d))
    && (forall k: nat :: Chain(adj, sources, n, k) ==> 0 <= d <= k)
  }

  ghost predicate AreDistances(adj: Links, sources: seq<nat>, d: seq<int>) {
    |d| == |adj| && forall n: nat :: n < |adj| ==> IsDistance(adj, sources, n, d[n])
  }

  // ---- The search ------------------------------------------------------------------------------------

  /** What is numbered is numbered by a chain, and is in the queue. */
  ghost predicate Numbered(adj: Links, sources: seq<nat>, d: seq<int>, q: seq<nat>) {
    && |d| == |adj|
    && (forall i :: i in q ==> i < |adj| && d[i] >= 0)
    && (forall i: nat :: i < |adj| ==> d[i] >= -1 && (d[i] >= 0 ==> i in q && Chain(adj, sources, i, d[i])))
    && (forall i :: i in sources ==> i < |adj| && d[i] == 0)
  }

  /** The queue never steps down, and from its h-th entry on it steps up at most once. */
  ghost predicate QueueInOrder(d: seq<int>, q: seq<nat>, h: nat) {
    && (forall i :: 0 <= i < |q| ==> q[i] < |d|)
    && (forall i, j :: 0 <= i < j < |q| ==> d[q[i]] <= d[q[j]])
    && (forall i, j :: h <= i < |q| && 0 <= j < |q| ==> d[q[j]] <= d[q[i]] + 1)
  }

  /** The neighbours of m up to index c are numbered at most one more than m. */
  ghost predicate Relaxed(adj: Links, d: seq<int>, m: nat, c: nat) {
    && m < |adj| && |d| == |adj|
    && forall x :: 0 <= x < c && x < |adj[m]| ==> adj[m][x] < |d| && 0 <= d[adj[m][x]] <= d[m] + 1
  }

  ghost predicate RelaxedUpTo(adj: Links, d: seq<int>, q: seq<nat>, h: nat) {
    forall i :: 0 <= i < h && i < |q| ==> q[i] < |adj| && Relaxed(adj, d, q[i], |adj[q[i]]|)
  }

  /** How many satellites have no number yet. */
  ghost function Unnumbered(d: seq<int>): nat {
    if d == [] then 0 else (if d[|d| - 1] < 0 then 1 else 0) + Unnumbered(d[..|d| - 1])
  }

  lemma {:induction false} NumberingOne(d: seq<int>, n: nat, v: int)
    requires n < |d| && d[n] < 0 && v >= 0
    ensures Unnumbered(d[n := v]) < Unnumbered(d)
    decreases |d|
  {
    if n == |d| - 1 {
      assert d[n := v][..|d| - 1] == d[..|d| - 1];
    } else {
      NumberingOne(d[..|d| - 1], n, v);
      assert d[n := v][..|d| - 1] == d[..|d| - 1][n := v];
    }
  }

  /** Numbering the next neighbour of the queue's h-th entry keeps everything said of the queue. */
  lemma NumberNeighbour(adj: Links, sources: seq<nat>, d: seq<int>, q: seq<nat>, h: nat, n: nat)
    requires Numbered(adj, sources, d, q) && QueueInOrder(d, q, h) && h < |q|
    requires q[h] < |adj| && n < |adj| && d[n] < 0 && n in adj[q[h]]
    ensures var d' := d[n := d[q[h]] + 1];
            Numbered(adj, sources, d', q + [n]) && QueueInOrder(d', q + [n], h)
  {
    hide Chain;
    var d', q' := d[n := d[q[h]] + 1], q + [n];
    assert n !in q;
    assert Chain(adj, sources, n, d'[n]) by { ExtendChain(adj, sources, q[h], n, d[q[h]]); }
    assert forall i :: 0 <= i < |q| ==> q'[i] == q[i] && d'[q[i]] == d[q[i]];
    assert forall i :: i in q' ==> i in q || i == n;
    forall i: nat | i < |adj| && d'[i] >= 0 ensures i in q' && Chain(adj, sources, i, d'[i]) {
      if i != n { assert i in q; }
    }
    assert q'[|q|] == n;
    assert d[q[h]] <= d[q[h]] + 1;
  }

  lemma ExtendChain(adj: Links, sources: seq<nat>, m: nat, n: nat, k: nat)
    requires m < |adj| && n in adj[m] && Chain(adj, sources, m, k)
    ensures Chain(adj, sources, n, k + 1)
  {
  }

  /** With every edge relaxed, no chain is shorter than the number it leads to. */
  lemma {:induction false} NoShorterChain(adj: Links, sources: seq<nat>, d: seq<int>, n: nat, k: nat)
    requires InRange(adj, sources) && |d| == |adj|
    requires forall i :: i in sources ==> d[i] == 0
    requires forall m: nat :: m < |adj| && d[m] >= 0 ==> Relaxed(adj, d, m, |adj[m]|)
    requires Chain(adj, sources, n, k)
    ensures n < |adj| && 0 <= d[n] <= k
    decreases k
  {
    if k > 0 {
      var m: nat :| m < |adj| && n in adj[m] && Chain(adj, sources, m, k - 1);
      NoShorterChain(adj, sources, d, m, k - 1);
      var x :| 0 <= x < |adj[m]| && adj[m][x] == n;
    }
  }

  lemma SearchIsDone(adj: Links, sources: seq<nat>, d: seq<int>, q: seq<nat>)
    requires InRange(adj, sources) && Numbered(adj, sources, d, q) && RelaxedUpTo(adj, d, q, |q|)
    ensures AreDistances(adj, sources, d)
  {
    hide Chain, Relaxed;
    forall m: nat | m < |adj| && d[m] >= 0 ensures Relaxed(adj, d, m, |adj[m]|) {
      assert m in q;
      var i :| 0 <= i < |q| && q[i] == m;
    }
    forall n: nat | n < |adj| ensures IsDistance(adj, sources, n, d[n]) {
      forall k: nat | Chain(adj, sources, n, k) ensures 0 <= d[n] <= k { NoShorterChain(adj, sources, d, n, k); }
    }
  }

  lemma RelaxingKept(adj: Links, d: seq<int>, d': seq<int>, q: seq<nat>, q': seq<nat>, h: nat)
    requires RelaxedUpTo(adj, d, q, h) && h <= |q| && q <= q' && |d'| == |d|
    requires forall i :: 0 <= i < |d| && d[i] >= 0 ==> d'[i] == d[i]
    requires forall i :: i in q ==> i < |d| && d[i] >= 0
    ensures RelaxedUpTo(adj, d', q', h)
  {
  }

  method Distances(adj: Links, sources: seq<nat>) returns (dist: array<int>)
    requires InRange(adj, sources)
    ensures fresh(dist) && dist.Length == |adj| && AreDistances(adj, sources, dist[..])
  {
    hide Chain, Numbered, QueueInOrder, Relaxed, RelaxedUpTo, AreDistances;
    var d := new int[|adj|](_ => -1);
    var q: seq<nat> := [];
    for s := 0 to |sources|
      invariant forall i: nat :: i < |adj| ==> d[i] == if i in sources[..s] then 0 else -1
      invariant q == sources[..s]
    {
      assert sources[s] in sources;
      d[sources[s]] := 0;
      q := q + [sources[s]];
      assert sources[..s + 1] == sources[..s] + [sources[s]];
    }
    assert q == sources;
    SourcesNumbered(adj, sources, d[..]);
    var h := 0;
    while h < |q|
      invariant 0 <= h <= |q|
      invariant Numbered(adj, sources, d[..], q) && QueueInOrder(d[..], q, h) && RelaxedUpTo(adj, d[..], q, h)
      decreases Unnumbered(d[..]), |q| - h
    {
      assert q[h] < |adj| && d[q[h]] >= 0 by { assert q[h] in q; QueueEntry(adj, sources, d[..], q, q[h]); }
      ghost var before, qBefore := d[..], q;
      assert Relaxed(adj, d[..], q[h], 0) by { NothingRelaxed(adj, d[..], q[h]); }
      var c := 0;
      while c < |adj[q[h]]|
        invariant h < |q| && qBefore <= q && q[h] < |adj| && 0 <= c <= |adj[q[h]]|
        invariant Numbered(adj, sources, d[..], q) && QueueInOrder(d[..], q, h) && RelaxedUpTo(adj, d[..], q, h)
        invariant Relaxed(adj, d[..], q[h], c) && d[q[h]] >= 0
        invariant (q == qBefore && d[..] == before) || Unnumbered(d[..]) < Unnumbered(before)
      {
        var n := adj[q[h]][c];
        ghost var was, qWas := d[..], q;
        NeighbourStep(adj, sources, was, q, h, c);
        if d[n] < 0 {
          NumberingOne(was, n, d[q[h]] + 1);
          d[n] := d[q[h]] + 1;
          q := q + [n];
          assert d[..] == was[n := was[qWas[h]] + 1];
        }
        c := c + 1;
      }
      HeadRelaxed(adj, sources, d[..], q, h);
      h := h + 1;
    }
    SearchIsDone(adj, sources, d[..], q);
    dist := d;
  }

  lemma SourcesNumbered(adj: Links, sources: seq<nat>, d: seq<int>)
    requires InRange(adj, sources) && |d| == |adj|
    requires forall i: nat :: i < |adj| ==> d[i] == if i in sources then 0 else -1
    ensures Numbered(adj, sources, d, sources) && QueueInOrder(d, sources, 0) && RelaxedUpTo(adj, d, sources, 0)
  {
    assert forall i :: 0 <= i < |sources| ==> sources[i] in sources;
  }

  lemma QueueEntry(adj: Links, sources: seq<nat>, d: seq<int>, q: seq<nat>, i: nat)
    requires Numbered(adj, sources, d, q) && i in q
    ensures i < |adj| == |d| && d[i] >= 0
  {
  }

  lemma NothingRelaxed(adj: Links, d: seq<int>, m: nat)
    requires m < |adj| == |d|
    ensures Relaxed(adj, d, m, 0)
  {
  }

  /** One neighbour looked at. */
  lemma NeighbourStep(adj: Links, sources: seq<nat>, d: seq<int>, q: seq<nat>, h: nat, c: nat)
    requires InRange(adj, sources) && Numbered(adj, sources, d, q) && QueueInOrder(d, q, h) && RelaxedUpTo(adj, d, q, h)
    requires h < |q| && q[h] < |adj| && c < |adj[q[h]]| && Relaxed(adj, d, q[h], c)
    ensures var n := adj[q[h]][c];
            && n < |adj| == |d|
            && (d[n] >= 0 ==> Relaxed(adj, d, q[h], c + 1))
            && (d[n] < 0 ==>
                  var d', q' := d[n := d[q[h]] + 1], q + [n];
                  && Numbered(adj, sources, d', q') && QueueInOrder(d', q', h) && RelaxedUpTo(adj, d', q', h)
                  && Relaxed(adj, d', q[h], c + 1) && d'[q[h]] == d[q[h]])
  {
    hide Chain, RelaxedUpTo;
    var n := adj[q[h]][c];
    assert n in adj[q[h]];
    assert q[h] in q;
    if d[n] >= 0 {
      assert n in q;
      var j :| 0 <= j < |q| && q[j] == n;
      assert d[q[j]] <= d[q[h]] + 1;
    } else {
      NumberNeighbour(adj, sources, d, q, h, n);
      RelaxingKept(adj, d, d[n := d[q[h]] + 1], q, q + [n], h);
    }
  }

  lemma HeadRelaxed(adj: Links, sources: seq<nat>, d: seq<int>, q: seq<nat>, h: nat)
    requires Numbered(adj, sources, d, q) && QueueInOrder(d, q, h) && RelaxedUpTo(adj, d, q, h)
    requires h < |q| && q[h] < |adj| && Relaxed(adj, d, q[h], |adj[q[h]]|)
    ensures QueueInOrder(d, q, h + 1) && RelaxedUpTo(adj, d, q, h + 1)
  {
  }

  // ---- What the numbers are for -------------------------------------------------------------------------

  /** The zeros are the satellites that see a station. */
  lemma ZeroAtSources(adj: Links, sources: seq<nat>, d: seq<int>, n: nat)
    requires AreDistances(adj, sources, d) && n < |adj|
    ensures d[n] == 0 <==> n in sources
  {
    assert IsDistance(adj, sources, n, d[n]);
    if n in sources { assert Chain(adj, sources, n, 0); }
  }

  /** Over links that go both ways, a satellite with a route has a neighbour exactly one hop closer. */
  lemma CloserNeighbour(adj: Links, sources: seq<nat>, d: seq<int>, i: nat) returns (n: nat)
    requires AreDistances(adj, sources, d) && Symmetric(adj) && i < |adj| && d[i] > 0
    ensures n in adj[i] && n < |adj| && d[n] == d[i] - 1
  {
    assert IsDistance(adj, sources, i, d[i]);
    n :| n < |adj| && i in adj[n] && Chain(adj, sources, n, d[i] - 1);
    assert IsDistance(adj, sources, n, d[n]);
    ExtendChain(adj, sources, n, i, d[n]);
  }

  /** Distances are unique: two right tables are the same table. */
  lemma DistancesAreUnique(adj: Links, sources: seq<nat>, d: seq<int>, d': seq<int>)
    requires AreDistances(adj, sources, d) && AreDistances(adj, sources, d')
    ensures d == d'
  {
    hide Chain;
    forall n: nat | n < |adj| ensures d[n] == d'[n] {
      assert IsDistance(adj, sources, n, d[n]) && IsDistance(adj, sources, n, d'[n]);
      if d[n] >= 0 { assert Chain(adj, sources, n, d[n]); }
      if d'[n] >= 0 { assert Chain(adj, sources, n, d'[n]); }
    }
  }
}
