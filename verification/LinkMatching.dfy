/**
 Which satellites link to which, epoch after epoch: the greedy selection inside `topology` of
 constellation/orbits.mjs. Candidate pairs and what each station can see are inputs.
 */
module LinkMatching {
  import opened Wrappers
  import opened Distances

  /** Two satellites in range and in sight of each other, the lower index first. */
  datatype Pair = Pair(km: real, i: nat, j: nat)

  type Edge = (nat, nat)

  function Ends(p: Pair): Edge { (p.i, p.j) }

  /** What the neighbour search yields: each pair once, nearest first. */
  ghost predicate Candidates(pairs: seq<Pair>, n: nat) {
    && (forall k :: 0 <= k < |pairs| ==> pairs[k].i < pairs[k].j < n)
    && (forall k, l :: 0 <= k < l < |pairs| ==> Ends(pairs[k]) != Ends(pairs[l]) && pairs[k].km <= pairs[l].km)
  }

  ghost function Incident(edges: set<Edge>, v: nat): set<Edge> {
    set e | e in edges && (e.0 == v || e.1 == v)
  }

  ghost function Degree(edges: set<Edge>, v: nat): nat {
    |Incident(edges, v)|
  }

  ghost predicate Bounded(edges: set<Edge>, maxIsl: nat) {
    forall v: nat :: Degree(edges, v) <= maxIsl
  }

  function Between(v: nat, w: nat): Edge {
    if v < w then (v, w) else (w, v)
  }

  // ---- The tables beside the edge set ---------------------------------------------------------------

  /** `deg` counts in a byte; `adj` lists each neighbour once. */
  ghost predicate Tabled(deg: seq<int>, adj: Links, edges: set<Edge>) {
    && |deg| == |adj|
    && (forall e :: e in edges ==> e.0 < e.1 < |adj|)
    && (forall v: nat :: v < |adj| ==> Row(deg[v], adj[v], edges, v))
  }

  ghost predicate Row(count: int, neighbours: seq<nat>, edges: set<Edge>, v: nat) {
    && count == Degree(edges, v) % 256
    && |neighbours| == Degree(edges, v)
    && forall w: nat :: w in neighbours <==> v != w && Between(v, w) in edges
  }

  lemma IncidentAfter(edges: set<Edge>, e: Edge, v: nat)
    requires e !in edges
    ensures Incident(edges + {e}, v) == if v == e.0 || v == e.1 then Incident(edges, v) + {e} else Incident(edges, v)
    ensures Degree(edges + {e}, v) == Degree(edges, v) + if v == e.0 || v == e.1 then 1 else 0
  {
    assert Incident(edges + {e}, v) == if v == e.0 || v == e.1 then Incident(edges, v) + {e} else Incident(edges, v);
  }

  lemma RowAfter(count: int, neighbours: seq<nat>, edges: set<Edge>, e: Edge, v: nat)
    requires Row(count, neighbours, edges, v) && e !in edges && e.0 < e.1
    ensures v == e.0 ==> Row((count + 1) % 256, neighbours + [e.1], edges + {e}, v)
    ensures v == e.1 ==> Row((count + 1) % 256, neighbours + [e.0], edges + {e}, v)
    ensures v != e.0 && v != e.1 ==> Row(count, neighbours, edges + {e}, v)
  {
    hide Degree, Incident;
    IncidentAfter(edges, e, v);
    var other := if v == e.0 then e.1 else e.0;
    assert forall w :: w in neighbours + [other] <==> w in neighbours || w == other;
  }

  lemma TabledAfter(deg: seq<int>, adj: Links, edges: set<Edge>, p: Pair)
    requires Tabled(deg, adj, edges) && p.i < p.j < |adj| && Ends(p) !in edges
    ensures var deg' := deg[p.i := (deg[p.i] + 1) % 256]; var adj' := adj[p.i := adj[p.i] + [p.j]];
            Tabled(deg'[p.j := (deg'[p.j] + 1) % 256], adj'[p.j := adj'[p.j] + [p.i]], edges + {Ends(p)})
  {
    hide Row;
    forall v: nat | v < |adj|
      ensures v == p.i ==> Row((deg[v] + 1) % 256, adj[v] + [p.j], edges + {Ends(p)}, v)
      ensures v == p.j ==> Row((deg[v] + 1) % 256, adj[v] + [p.i], edges + {Ends(p)}, v)
      ensures v != p.i && v != p.j ==> Row(deg[v], adj[v], edges + {Ends(p)}, v)
    {
      RowAfter(deg[v], adj[v], edges, Ends(p), v);
    }
  }

  lemma TablesAreSymmetric(deg: seq<int>, adj: Links, edges: set<Edge>)
    requires Tabled(deg, adj, edges)
    ensures Symmetric(adj)
    ensures forall v: nat, w: nat :: v < |adj| ==> (w in adj[v] <==> v != w && Between(v, w) in edges)
  {
    forall v, w | 0 <= v < |adj| && w in adj[v] ensures w < |adj| && v in adj[w] {
      assert Row(deg[v], adj[v], edges, v);
      assert Between(v, w) == Between(w, v) && Between(v, w) in edges;
      assert Row(deg[w], adj[w], edges, w);
    }
  }

  // ---- What the selection promises --------------------------------------------------------------------

  ghost predicate OldKept(pairs: seq<Pair>, prev: set<Edge>, edges: set<Edge>, c: nat) {
    forall k :: 0 <= k < c && k < |pairs| && Ends(pairs[k]) in prev ==> Ends(pairs[k]) in edges
  }

  /** v has all its terminals in use, on links kept from the last epoch or on pairs before the k-th. */
  ghost predicate Saturated(pairs: seq<Pair>, prev: set<Edge>, edges: set<Edge>, maxIsl: nat, v: nat, k: nat) {
    && Degree(edges, v) == maxIsl
    && forall e :: e in Incident(edges, v) ==> e in prev || Earlier(pairs, e, k)
  }

  ghost predicate Earlier(pairs: seq<Pair>, e: Edge, k: nat) {
    exists l :: 0 <= l < k && l < |pairs| && Ends(pairs[l]) == e
  }

  /** Every pair up to c is linked, or one of its ends is taken by links that came first. */
  ghost predicate Settled(pairs: seq<Pair>, prev: set<Edge>, edges: set<Edge>, maxIsl: nat, c: nat) {
    forall k :: 0 <= k < c && k < |pairs| ==> Decided(pairs, prev, edges, maxIsl, k)
  }

  ghost predicate Decided(pairs: seq<Pair>, prev: set<Edge>, edges: set<Edge>, maxIsl: nat, k: nat)
    requires k < |pairs|
  {
    || Ends(pairs[k]) in edges
    || (maxIsl <= 255 && Saturated(pairs, prev, edges, maxIsl, pairs[k].i, k))
    || (maxIsl <= 255 && Saturated(pairs, prev, edges, maxIsl, pairs[k].j, k))
  }

  /** An old link not yet kept leaves room at both its ends. */
  lemma RoomForOld(prev: set<Edge>, edges: set<Edge>, e: Edge, v: nat, maxIsl: nat)
    requires edges <= prev && e in prev && e !in edges && (v == e.0 || v == e.1) && Bounded(prev, maxIsl)
    ensures Degree(edges, v) < maxIsl
  {
    assert Incident(edges, v) <= Incident(prev, v) - {e};
    Smaller(Incident(edges, v), Incident(prev, v) - {e});
    assert Degree(prev, v) <= maxIsl;
  }

  lemma Smaller<T>(a: set<T>, b: set<T>)
    requires a <= b
    ensures |a| <= |b|
  {
    assert b == a + (b - a);
  }

  lemma SettledAfter(pairs: seq<Pair>, prev: set<Edge>, edges: set<Edge>, maxIsl: nat, c: nat, p: Pair)
    requires Settled(pairs, prev, edges, maxIsl, c) && Ends(p) !in edges
    requires maxIsl <= 255 ==> Degree(edges, p.i) < maxIsl && Degree(edges, p.j) < maxIsl
    ensures Settled(pairs, prev, edges + {Ends(p)}, maxIsl, c)
  {
    hide Degree, Incident;
    forall k | 0 <= k < c && k < |pairs| ensures Decided(pairs, prev, edges + {Ends(p)}, maxIsl, k) {
      assert Decided(pairs, prev, edges, maxIsl, k);
      IncidentAfter(edges, Ends(p), pairs[k].i);
      IncidentAfter(edges, Ends(p), pairs[k].j);
    }
  }

  lemma BoundedAfter(edges: set<Edge>, maxIsl: nat, p: Pair)
    requires Bounded(edges, maxIsl) && Ends(p) !in edges && Degree(edges, p.i) < maxIsl && Degree(edges, p.j) < maxIsl
    ensures Bounded(edges + {Ends(p)}, maxIsl)
  {
    hide Degree, Incident;
    forall v: nat ensures Degree(edges + {Ends(p)}, v) <= maxIsl {
      assert Degree(edges, v) <= maxIsl;
      IncidentAfter(edges, Ends(p), v);
    }
  }

  lemma {:induction false} EmptyIsBounded(maxIsl: nat)
    ensures Bounded({}, maxIsl) && forall v: nat :: Degree({}, v) == 0
  {
    forall v: nat ensures Degree({}, v) == 0 { assert Incident({}, v) == {}; }
  }

  lemma EmptyTables(deg: seq<int>, adj: Links)
    requires |deg| == |adj| && forall v: nat :: v < |adj| ==> deg[v] == 0 && adj[v] == []
    ensures Tabled(deg, adj, {})
  {
    hide Degree;
    EmptyIsBounded(0);
  }

  /** A refused pair is one with a saturated end. */
  lemma RefusedIsSettled(pairs: seq<Pair>, prev: set<Edge>, edges: set<Edge>, maxIsl: nat, c: nat, v: nat)
    requires c < |pairs| && (v == pairs[c].i || v == pairs[c].j)
    requires Settled(pairs, prev, edges, maxIsl, c) && maxIsl <= 255 && Degree(edges, v) == maxIsl
    requires SeenBefore(pairs, prev, edges, c)
    ensures Settled(pairs, prev, edges, maxIsl, c + 1)
  {
    hide Degree;
    forall e | e in Incident(edges, v) ensures e in prev || Earlier(pairs, e, c) {
      assert e in edges;
    }
    assert Decided(pairs, prev, edges, maxIsl, c);
  }

  /** Every link is a pair already looked at, or an old one. */
  ghost predicate SeenBefore(pairs: seq<Pair>, prev: set<Edge>, edges: set<Edge>, c: nat) {
    forall e :: e in edges ==> e in prev || Earlier(pairs, e, c)
  }

  lemma NothingYet(pairs: seq<Pair>, prev: set<Edge>, maxIsl: nat)
    ensures Bounded({}, maxIsl) && (forall edges :: Settled(pairs, prev, edges, maxIsl, 0)) && OldKept(pairs, prev, {}, 0)
    ensures prev == {} ==> OldKept(pairs, prev, {}, |pairs|)
  {
    EmptyIsBounded(maxIsl);
  }

  lemma OldKeptAfter(pairs: seq<Pair>, prev: set<Edge>, edges: set<Edge>, c: nat)
    requires c < |pairs|
    ensures OldKept(pairs, prev, edges, c) ==> OldKept(pairs, prev, edges + {Ends(pairs[c])}, c + 1)
    ensures OldKept(pairs, prev, edges, c) && Ends(pairs[c]) !in prev ==> OldKept(pairs, prev, edges, c + 1)
    ensures OldKept(pairs, prev, edges, |pairs|) ==> OldKept(pairs, prev, edges + {Ends(pairs[c])}, |pairs|)
  {
  }

  lemma LinkedIsSettled(pairs: seq<Pair>, prev: set<Edge>, edges: set<Edge>, maxIsl: nat, c: nat)
    requires Settled(pairs, prev, edges, maxIsl, c) && c < |pairs| && Ends(pairs[c]) in edges
    ensures Settled(pairs, prev, edges, maxIsl, c + 1)
  {
  }

  /** The byte counters refuse exactly the satellites with no terminal free. */
  lemma TablesCount(deg: seq<int>, adj: Links, edges: set<Edge>, p: Pair, maxIsl: nat)
    requires Tabled(deg, adj, edges) && p.i < p.j < |adj| && (maxIsl <= 255 ==> Bounded(edges, maxIsl))
    ensures |deg| == |adj|
    ensures deg[p.i] >= maxIsl <==> maxIsl <= 255 && Degree(edges, p.i) == maxIsl
    ensures deg[p.j] >= maxIsl <==> maxIsl <= 255 && Degree(edges, p.j) == maxIsl
    ensures maxIsl <= 255 ==> Degree(edges, p.i) <= maxIsl && Degree(edges, p.j) <= maxIsl
  {
    hide Degree;
  }

  /** What a selection guarantees: only candidates are linked; every old link still possible is kept;
      no satellite exceeds its terminals; and nothing that would fit is left out, shorter links first. */
  ghost predicate Chosen(pairs: seq<Pair>, prev: set<Edge>, edges: set<Edge>, maxIsl: nat) {
    && SeenBefore(pairs, {}, edges, |pairs|)
    && OldKept(pairs, prev, edges, |pairs|)
    && (maxIsl <= 255 ==> Bounded(edges, maxIsl))
    && Settled(pairs, prev, edges, maxIsl, |pairs|)
  }

  /** Those guarantees leave no choice: they pick out one set of links. */
  lemma ChosenIsUnique(pairs: seq<Pair>, prev: set<Edge>, e: set<Edge>, f: set<Edge>, maxIsl: nat)
    requires Chosen(pairs, prev, e, maxIsl) && Chosen(pairs, prev, f, maxIsl)
    ensures e == f
  {
    hide Decided, Degree, Incident, Bounded;
    SameUpTo(pairs, prev, e, f, maxIsl, |pairs|);
    assert forall x :: x in e ==> Earlier(pairs, x, |pairs|);
    assert forall x :: x in f ==> Earlier(pairs, x, |pairs|);
  }

  lemma {:induction false} SameUpTo(pairs: seq<Pair>, prev: set<Edge>, e: set<Edge>, f: set<Edge>, maxIsl: nat, c: nat)
    requires Chosen(pairs, prev, e, maxIsl) && Chosen(pairs, prev, f, maxIsl) && c <= |pairs|
    ensures forall k :: 0 <= k < c ==> (Ends(pairs[k]) in e <==> Ends(pairs[k]) in f)
  {
    if c > 0 {
      hide Chosen, Decided, Degree, Incident;
      SameUpTo(pairs, prev, e, f, maxIsl, c - 1);
      LinkedInBoth(pairs, prev, e, f, maxIsl, c - 1);
      LinkedInBoth(pairs, prev, f, e, maxIsl, c - 1);
    }
  }

  lemma LinkedInBoth(pairs: seq<Pair>, prev: set<Edge>, e: set<Edge>, f: set<Edge>, maxIsl: nat, k: nat)
    requires Chosen(pairs, prev, e, maxIsl) && Chosen(pairs, prev, f, maxIsl) && k < |pairs|
    requires forall l :: 0 <= l < k ==> (Ends(pairs[l]) in e <==> Ends(pairs[l]) in f)
    ensures Ends(pairs[k]) in e ==> Ends(pairs[k]) in f
  {
    var p := pairs[k];
    assert Decided(pairs, prev, f, maxIsl, k);
    if Ends(p) in e && Ends(p) !in f {
      var v := if Saturated(pairs, prev, f, maxIsl, p.i, k) then p.i else p.j;
      assert Ends(p) !in Incident(f, v);
      forall x | x in Incident(f, v) ensures x in Incident(e, v) {
        if x in prev {
          assert Earlier(pairs, x, |pairs|);
        } else {
          assert Earlier(pairs, x, k);
        }
      }
      assert Degree(e, v) <= maxIsl;
      Smaller(Incident(f, v) + {Ends(p)}, Incident(e, v));
      assert false;
    }
  }

  /** Where a candidate stays unlinked, one end has all its terminals on old links or ones no longer. */
  lemma UnlinkedHasSaturatedEnd(pairs: seq<Pair>, n: nat, prev: set<Edge>, edges: set<Edge>, maxIsl: nat, k: nat)
    requires Candidates(pairs, n) && Chosen(pairs, prev, edges, maxIsl) && k < |pairs| && Ends(pairs[k]) !in edges
    ensures exists v ::
              && (v == pairs[k].i || v == pairs[k].j) && Degree(edges, v) == maxIsl
              && forall e :: e in Incident(edges, v) ==> e in prev || NoLonger(pairs, e, pairs[k].km)
  {
    hide Degree, Incident;
    assert Decided(pairs, prev, edges, maxIsl, k);
    var v := if Saturated(pairs, prev, edges, maxIsl, pairs[k].i, k) then pairs[k].i else pairs[k].j;
    forall e | e in Incident(edges, v) && e !in prev ensures NoLonger(pairs, e, pairs[k].km) {
      assert Earlier(pairs, e, k);
    }
  }

  ghost predicate NoLonger(pairs: seq<Pair>, e: Edge, km: real) {
    exists k :: 0 <= k < |pairs| && Ends(pairs[k]) == e && pairs[k].km <= km
  }

  // ---- Stations ------------------------------------------------------------------------------------------

  /** How high a satellite stands over a station. */
  datatype Look = Look(elevation: real, i: nat)

  ghost predicate Rising(looks: seq<Look>) {
    forall a, b :: 0 <= a < b < |looks| ==> looks[a].i < looks[b].i
  }

  /** Each satellite once, by index. */
  ghost predicate ByIndex(looks: seq<Look>, n: nat) {
    Rising(looks) && forall a :: 0 <= a < |looks| ==> looks[a].i < n
  }

  /** Those at or above the mask, in the same order. */
  function AboveMask(looks: seq<Look>, mask: real): (r: seq<Look>)
    ensures forall x :: x in r <==> x in looks && x.elevation >= mask
  {
    if looks == [] then []
    else
      var x := looks[|looks| - 1];
      assert looks == looks[..|looks| - 1] + [x];
      AboveMask(looks[..|looks| - 1], mask) + if x.elevation >= mask then [x] else []
  }

  /** Put behind all that are as high. */
  function InsertDown(s: seq<Look>, x: Look): (r: seq<Look>)
    ensures |r| == |s| + 1 && forall y :: y in r <==> y in s || y == x
  {
    if s == [] || s[|s| - 1].elevation >= x.elevation then s + [x]
    else
      var last := s[|s| - 1];
      assert s == s[..|s| - 1] + [last];
      InsertDown(s[..|s| - 1], x) + [last]
  }

  /** `sort` by falling elevation, which keeps the order of equals. */
  function SortDown(s: seq<Look>): (r: seq<Look>)
    ensures |r| == |s| && forall y :: y in r <==> y in s
  {
    if s == [] then []
    else
      assert s == s[..|s| - 1] + [s[|s| - 1]];
      InsertDown(SortDown(s[..|s| - 1]), s[|s| - 1])
  }

  /** The two a station uses, or as many as there are. */
  function Highest(looks: seq<Look>, mask: real): (r: seq<nat>)
    ensures |r| <= 2
  {
    var s := SortDown(AboveMask(looks, mask));
    var k := if |s| < 2 then |s| else 2;
    seq(k, a requires 0 <= a < k => s[a].i)
  }

  /** Higher, or as high with the lower index. */
  predicate Ahead(x: Look, y: Look) {
    x.elevation > y.elevation || (x.elevation == y.elevation && x.i < y.i)
  }

  ghost predicate Falling(s: seq<Look>) {
    forall a, b :: 0 <= a < b < |s| ==> Ahead(s[a], s[b])
  }

  lemma {:induction false} InsertKeepsFalling(s: seq<Look>, x: Look)
    requires Falling(s) && forall y :: y in s ==> y.i < x.i
    ensures Falling(InsertDown(s, x))
    decreases |s|
  {
    if s != [] {
      var last := s[|s| - 1];
      if last.elevation >= x.elevation {
        forall a | 0 <= a < |s| ensures Ahead(s[a], x) { assert a == |s| - 1 || Ahead(s[a], last); assert s[a] in s; }
      } else {
        var rest := s[..|s| - 1];
        InsertKeepsFalling(rest, x);
        var r := InsertDown(rest, x);
        forall a | 0 <= a < |r| ensures Ahead(r[a], last) {
          assert r[a] in r;
          if r[a] != x {
            assert r[a] in rest;
            var b :| 0 <= b < |rest| && rest[b] == r[a];
            assert Ahead(s[b], s[|s| - 1]);
          }
        }
      }
    }
  }

  /** The last has the greatest index. */
  lemma LastIsGreatest(s: seq<Look>, y: Look)
    requires Rising(s) && s != [] && y in s[..|s| - 1]
    ensures y.i < s[|s| - 1].i
  {
    var a :| 0 <= a < |s| - 1 && s[a] == y;
  }

  lemma {:induction false} SortIsFalling(s: seq<Look>)
    requires Rising(s)
    ensures Falling(SortDown(s))
    decreases |s|
  {
    hide Falling, InsertDown;
    if s == [] {
      assert Falling([]) by { NoneFalling(); }
    } else {
      var rest := s[..|s| - 1];
      SortIsFalling(rest);
      forall y | y in rest ensures y.i < s[|s| - 1].i { LastIsGreatest(s, y); }
      InsertKeepsFalling(SortDown(rest), s[|s| - 1]);
    }
  }

  lemma NoneFalling()
    ensures Falling([])
  {
  }

  lemma {:induction false} AboveMaskRising(looks: seq<Look>, mask: real)
    requires Rising(looks)
    ensures Rising(AboveMask(looks, mask))
    decreases |looks|
  {
    if looks != [] {
      var rest, r := looks[..|looks| - 1], AboveMask(looks, mask);
      AboveMaskRising(rest, mask);
      forall a, b | 0 <= a < b < |r| ensures r[a].i < r[b].i {
        var before := AboveMask(rest, mask);
        assert before[a] in before;
        if b == |before| { LastIsGreatest(looks, before[a]); }
      }
    }
  }

  /** At or above the mask, with at most one satellite there ahead of it. */
  ghost predicate AmongTwoHighest(looks: seq<Look>, mask: real, x: Look) {
    && x in looks && x.elevation >= mask
    && forall y, z :: y in looks && z in looks && y.elevation >= mask && z.elevation >= mask && y != z
         ==> !(Ahead(y, x) && Ahead(z, x))
  }

  /** The first two are those with at most one ahead. */
  lemma FirstTwo(s: seq<Look>, k: nat)
    requires Falling(s) && k < |s|
    ensures k < 2 <==> forall y, z :: y in s && z in s && y != z ==> !(Ahead(y, s[k]) && Ahead(z, s[k]))
  {
    if k < 2 {
      forall y, z | y in s && z in s && y != z ensures !(Ahead(y, s[k]) && Ahead(z, s[k])) {
        var a :| 0 <= a < |s| && s[a] == y;
        var b :| 0 <= b < |s| && s[b] == z;
        assert a > k ==> Ahead(s[k], s[a]);
        assert b > k ==> Ahead(s[k], s[b]);
      }
    } else {
      assert s[0] in s && s[1] in s && Ahead(s[0], s[1]) && Ahead(s[0], s[k]) && Ahead(s[1], s[k]);
    }
  }

  lemma HighestIs(looks: seq<Look>, mask: real)
    ensures var top, s := Highest(looks, mask), SortDown(AboveMask(looks, mask));
            |top| == (if |s| < 2 then |s| else 2) && forall a :: 0 <= a < |top| ==> top[a] == s[a].i
  {
    hide SortDown, AboveMask;
  }

  lemma OneOfTwo(top: seq<nat>, s: seq<Look>, i: nat)
    requires |top| == (if |s| < 2 then |s| else 2) && forall a :: 0 <= a < |top| ==> top[a] == s[a].i
    ensures i in top <==> exists k :: 0 <= k < |s| && k < 2 && s[k].i == i
  {
    if k :| 0 <= k < |s| && k < 2 && s[k].i == i { assert top[k] == i; }
  }

  /** Main result: a station uses exactly the satellites with at most one other ahead, so none left out is higher
      than one used. */
  lemma HighestIff(looks: seq<Look>, n: nat, mask: real, x: Look)
    requires ByIndex(looks, n) && x in looks
    ensures x.i in Highest(looks, mask) <==> AmongTwoHighest(looks, mask, x)
  {
    hide SortDown, AboveMask, Highest, Falling, Rising, Ahead;
    var s := SortDown(AboveMask(looks, mask));
    AboveMaskRising(looks, mask);
    SortIsFalling(AboveMask(looks, mask));
    HighestIs(looks, mask);
    OneOfTwo(Highest(looks, mask), s, x.i);
    if x.i in Highest(looks, mask) {
      var k :| 0 <= k < |s| && k < 2 && s[k].i == x.i;
      assert s[k] in s && s[k] in looks;
      SameLook(looks, s[k], x);
      FirstTwo(s, k);
    }
    if AmongTwoHighest(looks, mask, x) {
      assert x in s;
      var k :| 0 <= k < |s| && s[k] == x;
      FirstTwo(s, k);
    }
  }

  lemma SameLook(looks: seq<Look>, x: Look, y: Look)
    requires Rising(looks) && x in looks && y in looks && x.i == y.i
    ensures x == y
  {
    var a :| 0 <= a < |looks| && looks[a] == x;
    var b :| 0 <= b < |looks| && looks[b] == y;
    assert !(a < b) && !(b < a);
  }

  /** Each satellite serves the first station that has it among its two highest, if any does. */
  ghost predicate Serves(visible: seq<seq<Look>>, mask: real, c: nat, sees: map<nat, nat>) {
    && c <= |visible|
    && (forall i :: i in sees ==>
          && sees[i] < c && i in Highest(visible[sees[i]], mask)
          && forall g :: 0 <= g < sees[i] ==> i !in Highest(visible[g], mask))
    && (forall g :: 0 <= g < c ==> forall i :: i in Highest(visible[g], mask) ==> i in sees)
  }

  function Served(sees: map<nat, nat>, g: nat): set<nat> {
    set i | i in sees && sees[i] == g
  }

  /** No station uses more than two satellites, and no satellite serves two stations. */
  lemma AtMostTwoEach(visible: seq<seq<Look>>, mask: real, sees: map<nat, nat>, g: nat)
    requires Serves(visible, mask, |visible|, sees) && g < |visible|
    ensures |Served(sees, g)| <= 2
    ensures forall h :: h != g ==> Served(sees, g) !! Served(sees, h)
  {
    hide Highest;
    var top := Highest(visible[g], mask);
    assert forall i :: i in Served(sees, g) ==> i in top;
    if |top| == 2 { Smaller(Served(sees, g), {top[0], top[1]}); }
    else if |top| == 1 { Smaller(Served(sees, g), {top[0]}); }
    else { Smaller(Served(sees, g), {}); }
  }

  /** What serving one more station adds. */
  ghost predicate Adds(before: map<nat, nat>, sees: map<nat, nat>, top: seq<nat>, g: nat) {
    && (forall i :: i in sees <==> i in before || i in top)
    && (forall i :: i in sees ==> sees[i] == if i in before then before[i] else g)
  }

  lemma ServesAfter(visible: seq<seq<Look>>, mask: real, g: nat, before: map<nat, nat>, sees: map<nat, nat>)
    requires g < |visible| && Serves(visible, mask, g, before) && Adds(before, sees, Highest(visible[g], mask), g)
    ensures Serves(visible, mask, g + 1, sees)
  {
    hide Highest;
  }

  lemma HighestAreVisible(looks: seq<Look>, n: nat, mask: real, i: nat)
    requires ByIndex(looks, n) && i in Highest(looks, mask)
    ensures i < n
  {
    hide SortDown, AboveMask;
    var s, top := SortDown(AboveMask(looks, mask)), Highest(looks, mask);
    var k :| 0 <= k < |top| && top[k] == i;
    assert s[k] in s && s[k] in looks;
  }

  lemma AboveMaskNext(looks: seq<Look>, mask: real, a: nat)
    requires a < |looks|
    ensures AboveMask(looks[..a + 1], mask) == AboveMask(looks[..a], mask) + if looks[a].elevation >= mask then [looks[a]] else []
  {
    assert looks[..a + 1][..a] == looks[..a];
  }

  lemma AboveMaskOfNone(mask: real)
    ensures AboveMask([], mask) == []
  {
  }

  /** One station's satellites: those above the mask are collected, sorted, and the first two used. */
  method Use(looks: seq<Look>, mask: real) returns (top: seq<nat>)
    ensures top == Highest(looks, mask)
  {
    hide SortDown, AboveMask, Highest;
    var cands := [];
    AboveMaskOfNone(mask);
    for a := 0 to |looks|
      invariant cands == AboveMask(looks[..a], mask)
    {
      AboveMaskNext(looks, mask, a);
      if looks[a].elevation >= mask { cands := cands + [looks[a]]; }
    }
    assert looks[..|looks|] == looks;
    var s := SortDown(cands);
    top := [];
    HighestIs(looks, mask);
    for a := 0 to if |s| < 2 then |s| else 2
      invariant |top| == a && forall b :: 0 <= b < a ==> top[b] == s[b].i
    {
      top := top + [s[a].i];
    }
  }

  method Stations(visible: seq<seq<Look>>, mask: real, n: nat) returns (sees: map<nat, nat>)
    requires forall g :: 0 <= g < |visible| ==> ByIndex(visible[g], n)
    ensures Serves(visible, mask, |visible|, sees)
    ensures forall i :: i in sees ==> i < n
  {
    hide Serves, Highest, ByIndex;
    sees := map[];
    assert Serves(visible, mask, 0, sees) by { NoneServed(visible, mask); }
    for g := 0 to |visible|
      invariant Serves(visible, mask, g, sees)
      invariant forall i :: i in sees ==> i < n
    {
      var top := Use(visible[g], mask);
      ghost var before := sees;
      for c := 0 to |top|
        invariant Adds(before, sees, top[..c], g)
      {
        assert forall i :: i in top[..c + 1] <==> i in top[..c] || i == top[c];
        if top[c] !in sees { sees := sees[top[c] := g]; }
      }
      assert top[..|top|] == top;
      ServesAfter(visible, mask, g, before, sees);
      forall i | i in sees ensures i < n {
        if i !in before { HighestAreVisible(visible[g], n, mask, i); }
      }
    }
  }

  lemma NoneServed(visible: seq<seq<Look>>, mask: real)
    ensures Serves(visible, mask, 0, map[])
  {
  }

  // ---- The selection -----------------------------------------------------------------------------------

  class Orbits {
    const n: nat
    const maxIsl: nat
    var prevEdges: Option<set<Edge>>
    var cache: map<nat, (Links, map<nat, nat>)>

    ghost predicate Valid()
      reads this
    {
      prevEdges.Some? && maxIsl <= 255 ==> Bounded(prevEdges.value, maxIsl)
    }

    ghost function Old(): set<Edge>
      reads this
    {
      if prevEdges.Some? then prevEdges.value else {}
    }

    constructor (n: nat, maxIsl: nat)
      ensures Valid() && this.n == n && this.maxIsl == maxIsl && prevEdges.None? && cache == map[]
    {
      this.n, this.maxIsl := n, maxIsl;
      prevEdges, cache := None, map[];
    }

    /** Give the pair a link. */
    method Link(deg: array<int>, adj: array<seq<nat>>, ghost edges: set<Edge>, p: Pair)
      requires deg != adj as object && p.i < p.j < deg.Length == adj.Length
      requires Tabled(deg[..], adj[..], edges) && Ends(p) !in edges
      modifies deg, adj
      ensures Tabled(deg[..], adj[..], edges + {Ends(p)})
    {
      hide Tabled;
      ghost var d, a := deg[..], adj[..];
      TabledAfter(d, a, edges, p);
      deg[p.i] := (deg[p.i] + 1) % 256;
      deg[p.j] := (deg[p.j] + 1) % 256;
      adj[p.i] := adj[p.i] + [p.j];
      adj[p.j] := adj[p.j] + [p.i];
      ghost var d', a' := d[p.i := (d[p.i] + 1) % 256], a[p.i := a[p.i] + [p.j]];
      assert deg[..] == d'[p.j := (d'[p.j] + 1) % 256] && adj[..] == a'[p.j := a'[p.j] + [p.i]];
    }

    /** Links for this epoch: last epoch's that are still possible, then the nearest that fit. */
    method Select(pairs: seq<Pair>) returns (adj: array<seq<nat>>, edges: set<Edge>)
      requires Valid() && Candidates(pairs, n)
      modifies this`prevEdges
      ensures Valid() && prevEdges == Some(edges)
      ensures fresh(adj) && adj.Length == n && Symmetric(adj[..])
      ensures forall v: nat, w: nat :: v < n ==> (w in adj[v] <==> v != w && Between(v, w) in edges)
      ensures Chosen(pairs, old(Old()), edges, maxIsl)
    {
      hide Degree, Incident, Tabled, Decided, Bounded, Settled, OldKept;
      var deg := new int[n](_ => 0);
      adj := new seq<nat>[n](_ => []);
      edges := {};
      ghost var prev := Old();
      EmptyTables(deg[..], adj[..]);
      NothingYet(pairs, prev, maxIsl);
      if prevEdges.Some? {
        for c := 0 to |pairs|
          invariant prevEdges == Some(prev)
          invariant Tabled(deg[..], adj[..], edges) && edges <= prev && OldKept(pairs, prev, edges, c)
          invariant SeenBefore(pairs, {}, edges, c) && (maxIsl <= 255 ==> Bounded(edges, maxIsl))
        {
          var p := pairs[c];
          assert Ends(p) !in edges;
          TablesCount(deg[..], adj[..], edges, p, maxIsl);
          if Ends(p) in prevEdges.value && maxIsl <= 255 {
            RoomForOld(prev, edges, Ends(p), p.i, maxIsl);
            RoomForOld(prev, edges, Ends(p), p.j, maxIsl);
          }
          OldKeptAfter(pairs, prev, edges, c);
          if !(Ends(p) !in prevEdges.value || deg[p.i] >= maxIsl || deg[p.j] >= maxIsl) {
            if maxIsl <= 255 { BoundedAfter(edges, maxIsl, p); }
            Link(deg, adj, edges, p);
            edges := edges + {Ends(p)};
          }
        }
      }
      assert OldKept(pairs, prev, edges, |pairs|);
      for c := 0 to |pairs|
        invariant Tabled(deg[..], adj[..], edges) && OldKept(pairs, prev, edges, |pairs|)
        invariant SeenBefore(pairs, prev, edges, c) && SeenBefore(pairs, {}, edges, |pairs|)
        invariant maxIsl <= 255 ==> Bounded(edges, maxIsl)
        invariant Settled(pairs, prev, edges, maxIsl, c)
      {
        var p := pairs[c];
        TablesCount(deg[..], adj[..], edges, p, maxIsl);
        if Ends(p) in edges {
          LinkedIsSettled(pairs, prev, edges, maxIsl, c);
        } else if deg[p.i] >= maxIsl || deg[p.j] >= maxIsl {
          RefusedIsSettled(pairs, prev, edges, maxIsl, c, if deg[p.i] >= maxIsl then p.i else p.j);
        } else {
          SettledAfter(pairs, prev, edges, maxIsl, c, p);
          if maxIsl <= 255 { BoundedAfter(edges, maxIsl, p); }
          OldKeptAfter(pairs, prev, edges, c);
          Link(deg, adj, edges, p);
          edges := edges + {Ends(p)};
          LinkedIsSettled(pairs, prev, edges, maxIsl, c);
        }
      }
      TablesAreSymmetric(deg[..], adj[..], edges);
      prevEdges := Some(edges);
    }

    /** The topology of an epoch, worked out once: asking again neither changes it nor the links kept. */
    method Topology(e: nat, pairs: seq<Pair>, visible: seq<seq<Look>>, mask: real) returns (topo: (Links, map<nat, nat>))
      requires Valid() && Candidates(pairs, n)
      requires forall g :: 0 <= g < |visible| ==> ByIndex(visible[g], n)
      modifies this
      ensures Valid() && cache == old(cache)[e := topo]
      ensures e in old(cache) ==> topo == old(cache)[e] && prevEdges == old(prevEdges)
      ensures e !in old(cache) ==>
                && prevEdges.Some? && Chosen(pairs, old(Old()), prevEdges.value, maxIsl)
                && |topo.0| == n && Symmetric(topo.0) && Serves(visible, mask, |visible|, topo.1)
                && forall v: nat, w: nat :: v < n ==> (w in topo.0[v] <==> v != w && Between(v, w) in prevEdges.value)
    {
      if e in cache { return cache[e]; }
      var adj, edges := Select(pairs);
      var sees := Stations(visible, mask, n);
      topo := (adj[..], sees);
      cache := cache[e := topo];
    }
  }
}
