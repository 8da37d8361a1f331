/**
 The grid of constellation/sim.mjs: satellites in planes and slots, linked within a plane and across to
 the next one, and the stations' view of it. Which links fail, which are within optical range, and which
 stations are up, are inputs.
 */
module Grid {
  import opened Arithmetic
  import opened Distances
  import opened Routing

  /** A station's plane and its first slot. */
  datatype Site = Site(p: nat, s0: nat)

  datatype Shape = Shape(
    planes: nat, slots: nat, epoch: nat, optical: bool, failed: (nat, nat) -> bool, inRange: (nat, nat) -> bool)
  {
    /** Only an optical link needs its ends within range. */
    predicate Near(a: nat, b: nat) {
      optical ==> inRange(a, b)
    }
  }

  function Id(g: Shape, p: nat, s: nat): nat {
    p * g.slots + s
  }

  /** The two bands where no plane links to the next. */
  predicate Polar(g: Shape, s: nat)
    requires g.slots > 0
  {
    var phase := (s + g.epoch) % g.slots;
    phase < 3 || -6 < 2 * phase - g.slots < 6
  }

  /** The link forward from a: to the next slot of its plane, or the same slot of the next plane. */
  predicate Forward(g: Shape, a: nat, b: nat)
    requires g.slots > 0
  {
    var p, s := a / g.slots, a % g.slots;
    || (b == Id(g, p, (s + 1) % g.slots) && g.Near(a, b))
    || (b == a + g.slots && p + 1 < g.planes && CrossUp(g, p, s))
  }

  /** Satellite a has a link to the next plane. */
  predicate Crosses(g: Shape, a: nat)
    requires g.slots > 0
  {
    a / g.slots + 1 < g.planes && CrossUp(g, a / g.slots, a % g.slots)
  }

  /** The numbers of the optical links to the next plane from the first c satellites. */
  function CrossLinks(g: Shape, c: nat): set<nat>
    requires g.slots > 0
  {
    if g.optical then set a | 0 <= a < c && Crosses(g, a) :: PairCode(a, a + g.slots) else {}
  }

  lemma CrossLinksNext(g: Shape, c: nat)
    requires g.slots > 0
    ensures CrossLinks(g, c + 1) == CrossLinks(g, c) + if g.optical && Crosses(g, c) then {PairCode(c, c + g.slots)} else {}
  {
    hide PairCode, Crosses;
    if g.optical {
      forall x | x in CrossLinks(g, c + 1) ensures x in CrossLinks(g, c) || (Crosses(g, c) && x == PairCode(c, c + g.slots)) {
        var a :| 0 <= a < c + 1 && Crosses(g, a) && PairCode(a, a + g.slots) == x;
      }
    }
  }

  /** Among up to 65,536 satellites a number stands for one pair: it is in the set exactly when the two
      are linked across planes. */
  lemma CrossLinksAreCrossings(g: Shape, a: nat, b: nat)
    requires g.slots > 0 && g.optical && a < b < g.planes * g.slots <= 0x1_0000
    ensures PairCode(a, b) in CrossLinks(g, g.planes * g.slots) <==> b == a + g.slots && Crosses(g, a)
  {
    hide Crosses;
    var n := g.planes * g.slots;
    if PairCode(a, b) in CrossLinks(g, n) {
      var c :| 0 <= c < n && Crosses(g, c) && PairCode(c, c + g.slots) == PairCode(a, b);
      CrossesWithin(g, c);
    }
  }

  lemma CrossesWithin(g: Shape, a: nat)
    requires g.slots > 0 && Crosses(g, a)
    ensures a + g.slots < g.planes * g.slots
  {
    hide CrossUp;
    var p, s := a / g.slots, a % g.slots;
    assert a == Id(g, p, s);
    IdDecodes(g, p, s);
  }

  predicate CrossUp(g: Shape, p: nat, s: nat)
    requires g.slots > 0
  {
    !Polar(g, s) && !g.failed(p, s) && g.Near(Id(g, p, s), Id(g, p + 1, s))
  }

  lemma IdDecodes(g: Shape, p: nat, s: nat)
    requires p < g.planes && s < g.slots
    ensures Id(g, p, s) < g.planes * g.slots && Id(g, p, s) / g.slots == p && Id(g, p, s) % g.slots == s
    ensures Id(g, p + 1, s) == Id(g, p, s) + g.slots
    ensures p + 1 < g.planes ==> Id(g, p + 1, s) < g.planes * g.slots
  {
    Quotient(Id(g, p, s), g.slots, p, s);
    InGrid(g, p, s);
    if p + 1 < g.planes { InGrid(g, p + 1, s); }
    assert (p + 1) * g.slots == p * g.slots + g.slots;
  }

  lemma InGrid(g: Shape, p: nat, s: nat)
    requires p < g.planes && s < g.slots
    ensures Id(g, p, s) < g.planes * g.slots
  {
    AtLeastOnce(g.planes - p, g.slots);
    assert (g.planes - p) * g.slots == g.planes * g.slots - p * g.slots;
  }

  /** Links so far: both ways, all by the rule, and all of those forward from the first c satellites. */
  ghost predicate Linked(g: Shape, adj: Links, c: nat)
    requires g.slots > 0
  {
    && Sound(g, adj) && Complete(g, adj, c)
  }

  ghost predicate Sound(g: Shape, adj: Links)
    requires g.slots > 0
  {
    && |adj| == g.planes * g.slots && Symmetric(adj)
    && (forall a: nat, b: nat :: a < |adj| && b in adj[a] ==> b < |adj| && (Forward(g, a, b) || Forward(g, b, a)))
  }

  ghost predicate Complete(g: Shape, adj: Links, c: nat)
    requires g.slots > 0
  {
    forall a: nat, b: nat :: a < c && a < |adj| && Forward(g, a, b) ==> b in adj[a]
  }

  function WithLink(adj: Links, a: nat, b: nat): Links
    requires a < |adj| && b < |adj|
  {
    var one := adj[a := adj[a] + [b]];
    one[b := one[b] + [a]]
  }

  lemma WithLinkHas(adj: Links, a: nat, b: nat)
    requires a < |adj| && b < |adj|
    ensures |WithLink(adj, a, b)| == |adj|
    ensures forall x, y :: 0 <= x < |adj| ==> (y in WithLink(adj, a, b)[x] <==> y in adj[x] || (x == a && y == b) || (x == b && y == a))
  {
  }

  lemma LinkKeeps(g: Shape, adj: Links, c: nat, a: nat, b: nat)
    requires g.slots > 0 && Linked(g, adj, c) && a < |adj| && b < |adj| && Forward(g, a, b)
    ensures Linked(g, WithLink(adj, a, b), c)
  {
    hide Forward, WithLink;
    WithLinkHas(adj, a, b);
  }

  /** With both of its own links made, the c-th satellite is done. */
  lemma NextDone(g: Shape, adj: Links, p: nat, s: nat)
    requires p < g.planes && s < g.slots && Linked(g, adj, Id(g, p, s))
    requires var a, b := Id(g, p, s), Id(g, p, (s + 1) % g.slots); a < |adj| && (g.Near(a, b) ==> b in adj[a])
    requires p + 1 < g.planes && CrossUp(g, p, s) ==> Id(g, p + 1, s) in adj[Id(g, p, s)]
    ensures Linked(g, adj, Id(g, p, s) + 1)
  {
    hide CrossUp;
    IdDecodes(g, p, s);
    var a := Id(g, p, s);
    forall b: nat | Forward(g, a, b) ensures b in adj[a] {}
  }

  method Link(adj: array<seq<nat>>, a: nat, b: nat)
    requires a < adj.Length && b < adj.Length
    modifies adj
    ensures adj[..] == WithLink(old(adj[..]), a, b)
  {
    adj[a] := adj[a] + [b];
    adj[b] := adj[b] + [a];
  }

  /** The links forward from one satellite, and the set of cross-plane links with its own. */
  method LinkForward(g: Shape, adj: array<seq<nat>>, p: nat, s: nat, cross: set<nat>) returns (cross': set<nat>)
    requires p < g.planes && s < g.slots && adj.Length == g.planes * g.slots && Linked(g, adj[..], Id(g, p, s))
    requires cross == CrossLinks(g, Id(g, p, s))
    modifies adj
    ensures Linked(g, adj[..], Id(g, p, s) + 1)
    ensures cross' == CrossLinks(g, Id(g, p, s) + 1)
  {
    hide Linked, Forward, CrossUp, WithLink, CrossLinks, PairCode;
    IdDecodes(g, p, s);
    IdDecodes(g, p, (s + 1) % g.slots);
    var i, next := Id(g, p, s), Id(g, p, (s + 1) % g.slots);
    ForwardFrom(g, p, s);
    CrossUpIs(g, p, s);
    CrossLinksNext(g, i);
    ghost var done := Id(g, p, s);
    cross' := cross;
    if g.Near(i, next) {
      LinkKeeps(g, adj[..], done, i, next);
      WithLinkHas(adj[..], i, next);
      Link(adj, i, next);
    }
    assert g.Near(i, next) ==> next in adj[..][i];
    if p + 1 < g.planes {
      var across := Id(g, p + 1, s);
      if !(Polar(g, s) || g.failed(p, s)) && g.Near(i, across) {
        LinkKeeps(g, adj[..], done, i, across);
        WithLinkHas(adj[..], i, across);
        Link(adj, i, across);
        if g.optical { cross' := cross + {PairCode(i, across)}; }
      }
    }
    NextDone(g, adj[..], p, s);
  }

  /** The links of one epoch: exactly those of the rule, each held by both its ends; and the numbers of
      those between planes. */
  method Adjacency(g: Shape) returns (adj: array<seq<nat>>, cross: set<nat>)
    requires g.slots > 0
    ensures fresh(adj) && Linked(g, adj[..], g.planes * g.slots)
    ensures cross == CrossLinks(g, g.planes * g.slots)
  {
    hide Linked, CrossLinks;
    adj, cross := new seq<nat>[g.planes * g.slots](_ => []), {};
    assert Linked(g, adj[..], 0) && CrossLinks(g, 0) == {} by { NothingLinked(g, adj[..]); }
    for p := 0 to g.planes
      invariant adj.Length == g.planes * g.slots && Linked(g, adj[..], Id(g, p, 0)) && cross == CrossLinks(g, Id(g, p, 0))
    {
      for s := 0 to g.slots
        invariant adj.Length == g.planes * g.slots && Linked(g, adj[..], Id(g, p, s)) && cross == CrossLinks(g, Id(g, p, s))
      {
        cross := LinkForward(g, adj, p, s, cross);
      }
      assert Id(g, p, g.slots) == Id(g, p + 1, 0) by { assert (p + 1) * g.slots == p * g.slots + g.slots; }
    }
  }

  lemma NothingLinked(g: Shape, adj: Links)
    requires g.slots > 0 && |adj| == g.planes * g.slots && forall a :: 0 <= a < |adj| ==> adj[a] == []
    ensures Linked(g, adj, 0) && CrossLinks(g, 0) == {}
  {
  }

  lemma CrossUpIs(g: Shape, p: nat, s: nat)
    requires g.slots > 0
    ensures CrossUp(g, p, s) <==> !Polar(g, s) && !g.failed(p, s) && g.Near(Id(g, p, s), Id(g, p + 1, s))
  {
  }

  lemma ForwardFrom(g: Shape, p: nat, s: nat)
    requires p < g.planes && s < g.slots
    ensures var a := Id(g, p, s);
            && (g.Near(a, Id(g, p, (s + 1) % g.slots)) ==> Forward(g, a, Id(g, p, (s + 1) % g.slots)))
            && (p + 1 < g.planes && CrossUp(g, p, s) ==> Forward(g, a, Id(g, p + 1, s)))
  {
    hide CrossUp;
    IdDecodes(g, p, s);
  }

  // ---- Who is linked to whom --------------------------------------------------------------------------

  /** Next to each other around their plane. */
  predicate NextTo(g: Shape, s: nat, t: nat) {
    t == s + 1 || s == t + 1 || (s == 0 && t == g.slots - 1) || (t == 0 && s == g.slots - 1)
  }

  /** Which of two slots of a plane is behind the other. */
  predicate Behind(g: Shape, s: nat, t: nat) {
    t == s + 1 || (t == 0 && s == g.slots - 1)
  }

  lemma ForwardIs(g: Shape, p: nat, s: nat, q: nat, t: nat)
    requires p < g.planes && q < g.planes && s < g.slots && t < g.slots
    ensures Forward(g, Id(g, p, s), Id(g, q, t)) <==>
              || (p == q && Behind(g, s, t) && g.Near(Id(g, p, s), Id(g, q, t)))
              || (q == p + 1 && s == t && CrossUp(g, p, s))
  {
    hide CrossUp;
    IdDecodes(g, p, s);
    IdDecodes(g, q, t);
    IdDecodes(g, p, (s + 1) % g.slots);
    if q == p + 1 { IdDecodes(g, p + 1, s); }
    var a, b := Id(g, p, s), Id(g, q, t);
    assert b == Id(g, p, (s + 1) % g.slots) <==> p == q && t == (s + 1) % g.slots;
    assert t == (s + 1) % g.slots <==> Behind(g, s, t) by { Wraps(s, g.slots); }
    assert p + 1 < g.planes ==> (b == a + g.slots <==> q == p + 1 && t == s) by {
      if p + 1 < g.planes { IdDecodes(g, p + 1, s); }
    }
  }

  lemma Wraps(s: nat, slots: nat)
    requires s < slots
    ensures (s + 1) % slots == if s + 1 == slots then 0 else s + 1
  {
  }

  /** Main result: two satellites of the grid are linked exactly when they are next to each other around one plane,
      or in the same slot of neighbouring planes whose link there is up; optical ones only within range. */
  lemma LinkedIff(g: Shape, adj: Links, p: nat, s: nat, q: nat, t: nat)
    requires g.slots > 0 && Linked(g, adj, g.planes * g.slots)
    requires p < g.planes && q < g.planes && s < g.slots && t < g.slots
    ensures var a, b := Id(g, p, s), Id(g, q, t);
            && a < |adj| && b < |adj|
            && (b in adj[a] <==>
                  || (p == q && NextTo(g, s, t) && ((Behind(g, s, t) && g.Near(a, b)) || (Behind(g, t, s) && g.Near(b, a))))
                  || (s == t && q == p + 1 && !Polar(g, s) && !g.failed(p, s) && g.Near(a, b))
                  || (s == t && p == q + 1 && !Polar(g, s) && !g.failed(q, s) && g.Near(b, a)))
  {
    hide Forward, Id, Polar;
    IdDecodes(g, p, s);
    IdDecodes(g, q, t);
    ForwardIs(g, p, s, q, t);
    ForwardIs(g, q, t, p, s);
  }

  /** The bands move with the satellites: in the next epoch a slot is where the one after it was. */
  lemma BandsMove(g: Shape, s: nat)
    requires g.slots > 0
    ensures Polar(g.(epoch := g.epoch + 1), s) == Polar(g, s + 1)
  {
    assert (s + (g.epoch + 1)) % g.slots == ((s + 1) + g.epoch) % g.slots;
  }

  function PolarSlots(g: Shape): set<nat>
    requires g.slots > 0
  {
    set s | 0 <= s < g.slots && Polar(g, s)
  }

  /** Of twelve slots or more the bands take three and, around the far side, five or, of an odd number, six. */
  lemma BandsAre(g: Shape)
    requires g.slots >= 12 && g.epoch == 0
    ensures var h := g.slots / 2;
            PolarSlots(g) == {0, 1, 2} + {h - 2, h - 1, h, h + 1, h + 2} + if g.slots % 2 == 1 then {h + 3} else {}
  {
    var h := g.slots / 2;
    forall s | 0 <= s < g.slots
      ensures Polar(g, s) <==> s < 3 || h - 2 <= s <= h + 2 || (g.slots % 2 == 1 && s == h + 3)
    {
      assert (s + 0) % g.slots == s;
    }
  }

  // ---- Stations ------------------------------------------------------------------------------------

  /** Station k is up and passes under satellite i: one in its own plane, one in the next. */
  predicate Passes(g: Shape, sites: seq<Site>, online: nat -> bool, k: nat, i: nat)
    requires g.slots > 0 && k < |sites|
  {
    var site, slot := sites[k], (sites[k].s0 + g.epoch) % g.slots;
    online(k) && ((site.p < g.planes && i == Id(g, site.p, slot)) || (site.p + 1 < g.planes && i == Id(g, site.p + 1, slot)))
  }

  /** A station that is up passes under one slot, a slot further each epoch, of its own plane and of the next. */
  lemma PassesIff(g: Shape, sites: seq<Site>, online: nat -> bool, k: nat, p: nat, s: nat)
    requires k < |sites| && p < g.planes && s < g.slots
    ensures Passes(g, sites, online, k, Id(g, p, s)) <==>
              online(k) && (p == sites[k].p || p == sites[k].p + 1) && s == (sites[k].s0 + g.epoch) % g.slots
  {
    var site, slot := sites[k], (sites[k].s0 + g.epoch) % g.slots;
    IdDecodes(g, p, s);
    if site.p < g.planes { IdDecodes(g, site.p, slot); }
    if site.p + 1 < g.planes { IdDecodes(g, site.p + 1, slot); }
  }

  /** Each satellite sees the last of the first c stations that pass under it. */
  ghost predicate SeesLast(g: Shape, sites: seq<Site>, online: nat -> bool, c: nat, sees: map<nat, nat>)
    requires g.slots > 0 && c <= |sites|
  {
    && (forall i :: i in sees ==>
          && sees[i] < c && Passes(g, sites, online, sees[i], i) && i < g.planes * g.slots
          && forall k :: sees[i] < k < c ==> !Passes(g, sites, online, k, i))
    && (forall k: nat, i: nat :: k < c && Passes(g, sites, online, k, i) ==> i in sees)
  }

  function Keyed(order: seq<nat>, sees: map<nat, nat>, i: nat): seq<nat> {
    if i in sees then order else order + [i]
  }

  lemma SeesNext(g: Shape, sites: seq<Site>, online: nat -> bool, c: nat, sees: map<nat, nat>, sees': map<nat, nat>)
    requires g.slots > 0 && c < |sites| && SeesLast(g, sites, online, c, sees)
    requires forall i: nat :: i in sees' <==> i in sees || Passes(g, sites, online, c, i)
    requires forall i :: i in sees' ==> sees'[i] == if Passes(g, sites, online, c, i) then c else sees[i]
    ensures SeesLast(g, sites, online, c + 1, sees')
  {
    hide Passes;
    forall i | i in sees' ensures i < g.planes * g.slots {
      if Passes(g, sites, online, c, i) { PassesInGrid(g, sites, online, c, i); }
    }
  }

  lemma PassesInGrid(g: Shape, sites: seq<Site>, online: nat -> bool, k: nat, i: nat)
    requires g.slots > 0 && k < |sites| && Passes(g, sites, online, k, i)
    ensures i < g.planes * g.slots
  {
    var slot := (sites[k].s0 + g.epoch) % g.slots;
    if sites[k].p < g.planes { InGrid(g, sites[k].p, slot); }
    if sites[k].p + 1 < g.planes { InGrid(g, sites[k].p + 1, slot); }
  }

  method Stations(g: Shape, sites: seq<Site>, online: nat -> bool) returns (order: seq<nat>, sees: map<nat, nat>)
    requires g.slots > 0
    ensures SeesLast(g, sites, online, |sites|, sees)
    ensures forall i :: i in order <==> i in sees
  {
    hide SeesLast, Id;
    order, sees := [], map[];
    assert SeesLast(g, sites, online, 0, sees) by { NoneSeen(g, sites, online); }
    for c := 0 to |sites|
      invariant SeesLast(g, sites, online, c, sees)
      invariant forall i :: i in order <==> i in sees
    {
      ghost var before := sees;
      if online(c) {
        var site, slot := sites[c], (sites[c].s0 + g.epoch) % g.slots;
        if site.p < g.planes {
          order := Keyed(order, sees, Id(g, site.p, slot));
          sees := sees[Id(g, site.p, slot) := c];
        }
        if site.p + 1 < g.planes {
          order := Keyed(order, sees, Id(g, site.p + 1, slot));
          sees := sees[Id(g, site.p + 1, slot) := c];
        }
      }
      SeesNext(g, sites, online, c, before, sees);
    }
  }

  lemma NoneSeen(g: Shape, sites: seq<Site>, online: nat -> bool)
    requires g.slots > 0
    ensures SeesLast(g, sites, online, 0, map[])
  {
  }

  /** The grid's topology is one the simulator can run on. */
  method Topology(g: Shape, sites: seq<Site>, online: nat -> bool) returns (topo: Topology)
    requires g.slots > 0
    ensures WellFormed(topo, g.planes * g.slots)
    ensures Linked(g, topo.adj, g.planes * g.slots) && SeesLast(g, sites, online, |sites|, topo.sees)
    ensures topo.cross == CrossLinks(g, g.planes * g.slots)
  {
    hide CrossLinks;
    var adj, cross := Adjacency(g);
    var order, sees := Stations(g, sites, online);
    topo := Routing.Topology(adj[..], order, sees, cross);
  }
}
