/**
 One epoch's routes in constellation/sim.mjs, and what a hop, a wait and an injection do to the bundles
 and the custody records.
 */
module Routing {
  import opened Wrappers
  import opened CustodyBook
  import opened Distances

  /** The simulator's number for the directed link from i to m. */
  function Code(i: nat, m: nat): nat { i * 65536 + m }

  /** Its number for the cross-plane link between them. */
  function PairCode(i: nat, m: nat): nat { if i < m then Code(i, m) else Code(m, i) }

  /** The links of an epoch, which station each satellite in `order` sees, and the numbers of the
      optical links between planes. */
  datatype Topology = Topology(adj: Links, order: seq<nat>, sees: map<nat, nat>, cross: set<nat>)

  ghost predicate WellFormed(topo: Topology, n: nat) {
    && |topo.adj| == n && InRange(topo.adj, topo.order) && Symmetric(topo.adj)
    && forall i :: i in topo.order <==> i in topo.sees
  }

  /** The epoch's route table. */
  ghost predicate Routed(topo: Topology, d: seq<int>, n: nat) {
    WellFormed(topo, n) && |d| == n && AreDistances(topo.adj, topo.order, d)
  }

  /** Hops left to operations, or -1 where there is no route. */
  function Rank(topo: Topology, d: seq<int>, at: Node): int {
    match at
    case Sat(i) => if i < |d| && d[i] >= 0 then d[i] + 2 else -1
    case Station(_) => 1
    case Operations => 0
  }

  /** A hop the simulator may take. */
  ghost predicate Moves(topo: Topology, d: seq<int>, at: Node, next: Node) {
    match at
    case Operations => false
    case Station(_) => next == Operations
    case Sat(i) =>
      && i < |topo.adj| == |d|
      && if i in topo.sees then next == Station(topo.sees[i])
         else next.Sat? && next.i in topo.adj[i] && next.i < |d| && d[i] > 0 && d[next.i] == d[i] - 1
  }

  lemma MoveLowersRank(topo: Topology, d: seq<int>, n: nat, at: Node, next: Node)
    requires Routed(topo, d, n) && Moves(topo, d, at, next)
    ensures Rank(topo, d, next) == Rank(topo, d, at) - 1 && Rank(topo, d, at) >= 1
    ensures next.Sat? ==> next.i < n
  {
    hide AreDistances;
    if at.Sat? { ZeroAtSources(topo.adj, topo.order, d, at.i); }
  }

  /** A satellite without a hop to take is one without a route. */
  lemma OnlyStuckWithoutRoute(topo: Topology, d: seq<int>, n: nat, i: nat)
    requires Routed(topo, d, n) && i < n && forall next :: !Moves(topo, d, Sat(i), next)
    ensures Rank(topo, d, Sat(i)) == -1
  {
    ZeroAtSources(topo.adj, topo.order, d, i);
    if i in topo.sees {
      assert Moves(topo, d, Sat(i), Station(topo.sees[i]));
    } else if d[i] > 0 {
      var m := CloserNeighbour(topo.adj, topo.order, d, i);
      assert Moves(topo, d, Sat(i), Sat(m));
    }
  }

  /** Whether the link a record is for is up. */
  predicate Up(topo: Topology, r: Record) {
    || r.prev.App? || r.node == Operations
    || (r.prev.node.Sat? &&
        var a := r.prev.node.i;
        if r.node.Sat? then a < |topo.adj| && r.node.i in topo.adj[a] else a in topo.sees && Station(topo.sees[a]) == r.node)
  }

  /** A contact between satellites lasts while they are linked, one with a station while the satellite sees that
      station, and one with the application aboard, or of operations, for ever. */
  lemma UpIff(topo: Topology, r: Record)
    ensures r.prev.App? || r.node == Operations ==> Up(topo, r)
    ensures forall a: nat, b: nat :: r.prev == From(Sat(a)) && r.node == Sat(b) ==> (Up(topo, r) <==> a < |topo.adj| && b in topo.adj[a])
    ensures forall a: nat, g: nat :: r.prev == From(Sat(a)) && r.node == Station(g) ==> (Up(topo, r) <==> a in topo.sees && topo.sees[a] == g)
    ensures r.prev.From? && !r.prev.node.Sat? && r.node != Operations ==> !Up(topo, r)
  {
  }

  // ---- Bundles ---------------------------------------------------------------------------------------

  datatype Bundle = Bundle(
    id: nat, src: nat, at: Node, path: seq<Node>, born: nat, waited: nat, minHops: Option<nat>, arrived: Option<nat>)

  datatype State = State(
    inflight: seq<Bundle>, done: seq<Bundle>, open: seq<Record>, batches: seq<Record>, log: seq<Event>)

  /** What is known of a bundle: its path starts aboard a satellite, ends where it is, and is its trace in the log. */
  ghost predicate OnRoute(b: Bundle, log: seq<Event>, total: nat, n: nat) {
    && b.id < total && b.src < n
    && b.path != [] && b.path[0] == Sat(b.src) && b.at == b.path[|b.path| - 1]
    && (b.at.Sat? ==> b.at.i < n)
    && Trace(log, b.id) == Steps(b.src, b.path)
  }

  ghost predicate DistinctIds(bs: seq<Bundle>) {
    forall i, j :: 0 <= i < j < |bs| ==> bs[i].id != bs[j].id
  }

  /** Every bundle injected is in flight or done, under its own number. */
  ghost predicate Fleet(s: State, n: nat) {
    && DistinctIds(s.inflight) && DistinctIds(s.done)
    && (forall i, j :: 0 <= i < |s.inflight| && 0 <= j < |s.done| ==> s.inflight[i].id != s.done[j].id)
    && (forall i :: 0 <= i < |s.inflight| ==> OnRoute(s.inflight[i], s.log, Injected(s), n) && s.inflight[i].at != Operations)
    && (forall i :: 0 <= i < |s.done| ==> OnRoute(s.done[i], s.log, Injected(s), n) && s.done[i].at == Operations)
    && (forall i :: 0 <= i < |s.log| ==> s.log[i].id < Injected(s))
  }

  function Injected(s: State): nat {
    |s.inflight| + |s.done|
  }

  /** Delivered in its birth epoch means by a shortest route. */
  ghost predicate Direct(b: Bundle) {
    b.arrived.Some? && b.arrived.value >= b.born && (b.arrived.value == b.born ==> b.minHops == Some(|b.path| - 1))
  }

  ghost predicate BornBy(b: Bundle, topo: Topology, d: seq<int>, e: nat) {
    && b.born <= e && b.arrived.None?
    && (b.born == e ==>
          && b.src < |d|
          && if d[b.src] < 0 then b.minHops.None? && b.at == Sat(b.src)
             else b.minHops == Some(d[b.src] + 2) && |b.path| - 1 + Rank(topo, d, b.at) == d[b.src] + 2)
  }

  ghost predicate Births(s: State, topo: Topology, d: seq<int>, e: nat) {
    && (forall i :: 0 <= i < |s.inflight| ==> BornBy(s.inflight[i], topo, d, e))
    && (forall i :: 0 <= i < |s.done| ==> Direct(s.done[i]))
  }

  /** No open record is for a node its bundles have still to reach. */
  ghost predicate NoneAhead(s: State, topo: Topology, d: seq<int>) {
    forall i, r :: 0 <= i < |s.inflight| && r in s.open && s.inflight[i].id in r.seen
      ==> Rank(topo, d, s.inflight[i].at) <= Rank(topo, d, r.node)
  }

  ghost predicate KnownIds(s: State) {
    forall r, x :: r in s.open && x in r.seen ==> x < Injected(s)
  }

  ghost predicate AllUp(open: seq<Record>, topo: Topology) {
    forall r :: r in open ==> Up(topo, r)
  }

  /** What holds all through an epoch. */
  ghost predicate Going(s: State, n: nat, optical: bool, topo: Topology, d: seq<int>, e: nat) {
    && Routed(topo, d, n)
    && Books(s.open, s.batches, s.log) && Fleet(s, n) && Births(s, topo, d, e) && KnownIds(s)
    && (optical ==> AllUp(s.open, topo))
    && (!optical ==> NoneAhead(s, topo, d))
  }

  // ---- A hop -----------------------------------------------------------------------------------------------

  function Hopped(b: Bundle, next: Node): Bundle {
    b.(path := b.path + [next], at := next)
  }

  function HopEvent(b: Bundle, next: Node, t: int): Event {
    Event(b.id, From(b.at), next, t)
  }

  function Removed(bs: seq<Bundle>, j: nat): seq<Bundle>
    requires j < |bs|
  {
    bs[..j] + bs[j + 1..]
  }

  function AfterHop(s: State, j: nat, next: Node, t: int, e: nat): State
    requires j < |s.inflight|
  {
    var b := s.inflight[j];
    var ev := HopEvent(b, next, t);
    State(
      if next == Operations then Removed(s.inflight, j) else s.inflight[j := Hopped(b, next)],
      if next == Operations then s.done + [Hopped(b, next).(arrived := Some(e))] else s.done,
      OpenAfter(s.open, ev, e), BatchesAfter(s.open, s.batches, ev), s.log + [ev])
  }

  lemma OthersStayOnRoute(b: Bundle, log: seq<Event>, total: nat, n: nat, ev: Event)
    requires OnRoute(b, log, total, n) && ev.id != b.id
    ensures OnRoute(b, log + [ev], total, n)
  {
    TraceAppend(log, ev, b.id);
  }

  lemma HoppedIsOnRoute(b: Bundle, log: seq<Event>, total: nat, n: nat, next: Node, t: int)
    requires OnRoute(b, log, total, n) && (next.Sat? ==> next.i < n)
    ensures OnRoute(Hopped(b, next), log + [HopEvent(b, next, t)], total, n)
  {
    TraceAppend(log, HopEvent(b, next, t), b.id);
    StepsAppend(b.src, b.path, next);
  }

  lemma HopKeepsFleet(s: State, n: nat, j: nat, next: Node, t: int, e: nat)
    requires Fleet(s, n) && j < |s.inflight| && (next.Sat? ==> next.i < n)
    ensures Fleet(AfterHop(s, j, next, t, e), n)
  {
    hide Trace, Steps, OpenAfter, BatchesAfter;
    var b, s' := s.inflight[j], AfterHop(s, j, next, t, e);
    var ev := HopEvent(b, next, t);
    var total := Injected(s);
    HoppedIsOnRoute(b, s.log, total, n, next, t);
    forall i | 0 <= i < |s.inflight| && i != j ensures OnRoute(s.inflight[i], s'.log, total, n) {
      OthersStayOnRoute(s.inflight[i], s.log, total, n, ev);
    }
    forall i | 0 <= i < |s.done| ensures OnRoute(s.done[i], s'.log, total, n) {
      OthersStayOnRoute(s.done[i], s.log, total, n, ev);
    }
    FleetLists(s, s', n, j, b.id);
  }

  /** Changing or moving the j-th bundle in flight, under its own number, leaves every number used once. */
  lemma FleetLists(s: State, s': State, n: nat, j: nat, id: nat)
    requires Fleet(s, n) && j < |s.inflight| && s.inflight[j].id == id
    requires || (|s'.inflight| == |s.inflight| && s'.inflight[j].id == id && s'.inflight == s.inflight[j := s'.inflight[j]] && s'.done == s.done)
             || (s'.inflight == Removed(s.inflight, j) && |s'.done| == |s.done| + 1 && s.done <= s'.done && s'.done[|s.done|].id == id)
    ensures DistinctIds(s'.inflight) && DistinctIds(s'.done) && Injected(s') == Injected(s)
    ensures forall i, k :: 0 <= i < |s'.inflight| && 0 <= k < |s'.done| ==> s'.inflight[i].id != s'.done[k].id
  {
    hide OnRoute;
  }

  /** The hops made and those left still add up; at operations none are left. */
  lemma HopKeepsBirth(b: Bundle, n: nat, topo: Topology, d: seq<int>, e: nat, next: Node)
    requires Routed(topo, d, n) && BornBy(b, topo, d, e) && Moves(topo, d, b.at, next) && (b.at.Sat? ==> b.at.i < n)
    ensures if next == Operations then Direct(Hopped(b, next).(arrived := Some(e))) else BornBy(Hopped(b, next), topo, d, e)
  {
    hide Routed, Moves;
    MoveLowersRank(topo, d, n, b.at, next);
  }

  lemma HopKeepsBirths(s: State, n: nat, topo: Topology, d: seq<int>, e: nat, j: nat, next: Node, t: int)
    requires Routed(topo, d, n) && Fleet(s, n) && Births(s, topo, d, e) && j < |s.inflight| && Moves(topo, d, s.inflight[j].at, next)
    ensures Births(AfterHop(s, j, next, t, e), topo, d, e)
  {
    hide Routed, Moves, OpenAfter, BatchesAfter, Steps, Trace, BornBy, Direct, DistinctIds;
    assert OnRoute(s.inflight[j], s.log, Injected(s), n);
    HopKeepsBirth(s.inflight[j], n, topo, d, e, next);
  }

  lemma HopKeepsRecords(s: State, n: nat, optical: bool, topo: Topology, d: seq<int>, e: nat, j: nat, next: Node, t: int)
    requires Going(s, n, optical, topo, d, e) && j < |s.inflight| && Moves(topo, d, s.inflight[j].at, next)
    ensures var s' := AfterHop(s, j, next, t, e);
            && KnownIds(s') && (optical ==> AllUp(s'.open, topo)) && (!optical ==> NoneAhead(s', topo, d))
            && (!optical ==> s'.batches == s.batches)
  {
    hide Births, AreDistances, Books, Rank, OpenAfter, BatchesAfter, DistinctIds;
    var b, s' := s.inflight[j], AfterHop(s, j, next, t, e);
    var ev := HopEvent(b, next, t);
    assert OnRoute(b, s.log, Injected(s), n);
    MoveLowersRank(topo, d, n, b.at, next);
    forall r | r in s'.open && r !in s.open
      ensures Up(topo, r) && r.node == next
      ensures forall x :: x in r.seen ==> x == b.id || exists o :: o in s.open && o.node == next && x in o.seen
    {
      OnlyThatRecord(s.open, ev, e, r);
    }
    if !optical {
      forall o | o in s.open && o.node == next && o.prev == ev.prev ensures b.id !in o.seen {
        assert b.id in o.seen ==> Rank(topo, d, b.at) <= Rank(topo, d, next);
      }
      NoLoopNoSplit(s.open, s.batches, ev);
      HopKeepsNoneAhead(s, s', n, topo, d, j, next);
    }
  }

  lemma HopKeepsNoneAhead(s: State, s': State, n: nat, topo: Topology, d: seq<int>, j: nat, next: Node)
    requires Fleet(s, n) && NoneAhead(s, topo, d) && j < |s.inflight|
    requires Rank(topo, d, next) < Rank(topo, d, s.inflight[j].at)
    requires s'.inflight == if next == Operations then Removed(s.inflight, j) else s.inflight[j := Hopped(s.inflight[j], next)]
    requires forall r :: r in s'.open && r !in s.open ==>
               r.node == next && forall x :: x in r.seen ==> x == s.inflight[j].id || exists o :: o in s.open && o.node == next && x in o.seen
    ensures NoneAhead(s', topo, d)
  {
    hide Rank, OnRoute;
    forall i, r | 0 <= i < |s'.inflight| && r in s'.open && s'.inflight[i].id in r.seen
      ensures Rank(topo, d, s'.inflight[i].at) <= Rank(topo, d, r.node)
    {
      var k := if next == Operations && i >= j then i + 1 else i;
      assert s'.inflight[i].id == s.inflight[k].id;
      assert k != j ==> s'.inflight[i] == s.inflight[k];
      if r !in s.open && k != j {
        var o :| o in s.open && o.node == next && s.inflight[k].id in o.seen;
      }
    }
  }

  /** Every hop keeps everything said of an epoch; without optical contacts none closes a record. */
  lemma HopKeeps(s: State, n: nat, optical: bool, topo: Topology, d: seq<int>, e: nat, j: nat, next: Node, t: int)
    requires Going(s, n, optical, topo, d, e) && j < |s.inflight| && Moves(topo, d, s.inflight[j].at, next)
    ensures Going(AfterHop(s, j, next, t, e), n, optical, topo, d, e)
    ensures !optical ==> AfterHop(s, j, next, t, e).batches == s.batches
  {
    hide Books, Fleet, Births, KnownIds, AllUp, NoneAhead, OpenAfter, BatchesAfter, Moves, Routed;
    MoveLowersRank(topo, d, n, s.inflight[j].at, next);
    TakeKeepsBooks(s.open, s.batches, s.log, HopEvent(s.inflight[j], next, t), e);
    HopKeepsFleet(s, n, j, next, t, e);
    HopKeepsBirths(s, n, topo, d, e, j, next, t);
    HopKeepsRecords(s, n, optical, topo, d, e, j, next, t);
  }

  // ---- A wait ------------------------------------------------------------------------------------------------

  function AfterWait(s: State, j: nat): State
    requires j < |s.inflight|
  {
    s.(inflight := s.inflight[j := s.inflight[j].(waited := s.inflight[j].waited + 1)])
  }

  lemma WaitKeeps(s: State, n: nat, optical: bool, topo: Topology, d: seq<int>, e: nat, j: nat)
    requires Going(s, n, optical, topo, d, e) && j < |s.inflight|
    ensures Going(AfterWait(s, j), n, optical, topo, d, e)
  {
    hide Books, AllUp, Routed, Rank, Trace, Steps;
    assert BornBy(s.inflight[j], topo, d, e);
    assert BornBy(AfterWait(s, j).inflight[j], topo, d, e);
    assert OnRoute(s.inflight[j], s.log, Injected(s), n);
  }

  // ---- Time in storage -----------------------------------------------------------------------------------

  /** All the ticks the bundles have waited. */
  ghost function Waited(bs: seq<Bundle>): nat {
    if bs == [] then 0 else Waited(bs[..|bs| - 1]) + bs[|bs| - 1].waited
  }

  ghost function Stored(s: State): nat {
    Waited(s.inflight) + Waited(s.done)
  }

  lemma WaitedAppend(bs: seq<Bundle>, b: Bundle)
    ensures Waited(bs + [b]) == Waited(bs) + b.waited
  {
    assert (bs + [b])[..|bs|] == bs;
  }

  lemma {:induction false} WaitedWithout(bs: seq<Bundle>, j: nat, b: Bundle)
    requires j < |bs|
    ensures Waited(Removed(bs, j)) + bs[j].waited == Waited(bs)
    ensures Waited(bs[j := b]) + bs[j].waited == Waited(bs) + b.waited
    decreases |bs|
  {
    var last := |bs| - 1;
    if j == last {
      assert Removed(bs, j) == bs[..last] && bs[j := b][..last] == bs[..last];
    } else {
      WaitedWithout(bs[..last], j, b);
      assert Removed(bs, j)[..last - 1] == Removed(bs[..last], j) && Removed(bs, j)[last - 1] == bs[last];
      assert bs[j := b][..last] == bs[..last][j := b];
    }
  }

  lemma HopStoresNothing(s: State, j: nat, next: Node, t: int, e: nat)
    requires j < |s.inflight|
    ensures Stored(AfterHop(s, j, next, t, e)) == Stored(s)
  {
    hide OpenAfter, BatchesAfter, Waited, Removed;
    var b := Hopped(s.inflight[j], next);
    WaitedWithout(s.inflight, j, b);
    WaitedAppend(s.done, b.(arrived := Some(e)));
  }

  lemma WaitStoresOne(s: State, j: nat)
    requires j < |s.inflight|
    ensures Stored(AfterWait(s, j)) == Stored(s) + 1
  {
    hide Waited, Removed;
    WaitedWithout(s.inflight, j, s.inflight[j].(waited := s.inflight[j].waited + 1));
  }

  // ---- An injection ---------------------------------------------------------------------------------------------

  /** A new bundle aboard satellite src, numbered by how many there have been. */
  function NewBundle(s: State, d: seq<int>, src: nat, e: nat): Bundle
    requires src < |d|
  {
    Bundle(Injected(s), src, Sat(src), [Sat(src)], e, 0, if d[src] < 0 then None else Some(d[src] + 2), None)
  }

  function AfterInject(s: State, d: seq<int>, src: nat, t: int, e: nat): State
    requires src < |d|
  {
    var b := NewBundle(s, d, src, e);
    var ev := Event(b.id, App(src), Sat(src), t);
    State(s.inflight + [b], s.done, OpenAfter(s.open, ev, e), BatchesAfter(s.open, s.batches, ev), s.log + [ev])
  }

  lemma LargerTotal(b: Bundle, log: seq<Event>, total: nat, n: nat, ev: Event)
    requires OnRoute(b, log, total, n) && ev.id == total
    ensures OnRoute(b, log + [ev], total + 1, n)
  {
    TraceAppend(log, ev, b.id);
  }

  lemma InjectKeepsFleet(s: State, n: nat, d: seq<int>, src: nat, t: int, e: nat)
    requires Fleet(s, n) && src < |d| == n
    ensures Fleet(AfterInject(s, d, src, t, e), n)
  {
    hide Trace, Steps, OpenAfter, BatchesAfter;
    var b, s' := NewBundle(s, d, src, e), AfterInject(s, d, src, t, e);
    var ev := Event(b.id, App(src), Sat(src), t);
    var total := Injected(s);
    UnknownHasNoTrace(s.log, b.id);
    TraceAppend(s.log, ev, b.id);
    FirstStep(src);
    assert OnRoute(b, s'.log, total + 1, n);
    forall i | 0 <= i < |s.inflight| ensures OnRoute(s.inflight[i], s'.log, total + 1, n) {
      LargerTotal(s.inflight[i], s.log, total, n, ev);
    }
    forall i | 0 <= i < |s.done| ensures OnRoute(s.done[i], s'.log, total + 1, n) {
      LargerTotal(s.done[i], s.log, total, n, ev);
    }
  }

  lemma FirstStep(src: nat)
    ensures Steps(src, [Sat(src)]) == [(App(src), Sat(src))]
  {
  }

  lemma InjectKeepsRecords(s: State, n: nat, optical: bool, topo: Topology, d: seq<int>, e: nat, src: nat, t: int)
    requires Going(s, n, optical, topo, d, e) && src < |d| == n
    ensures var s' := AfterInject(s, d, src, t, e);
            && Births(s', topo, d, e) && KnownIds(s') && (optical ==> AllUp(s'.open, topo)) && (!optical ==> NoneAhead(s', topo, d))
            && s'.batches == s.batches
  {
    hide AreDistances, Books, OpenAfter, BatchesAfter, DistinctIds;
    var b, s' := NewBundle(s, d, src, e), AfterInject(s, d, src, t, e);
    var ev := Event(b.id, App(src), Sat(src), t);
    NoLoopNoSplit(s.open, s.batches, ev);
    assert BornBy(b, topo, d, e);
    forall r | r in s'.open && r !in s.open
      ensures Up(topo, r) && r.node == Sat(src)
      ensures forall x :: x in r.seen ==> x == b.id || exists o :: o in s.open && o.node == Sat(src) && x in o.seen
    {
      OnlyThatRecord(s.open, ev, e, r);
    }
    if !optical {
      forall i, r | 0 <= i < |s'.inflight| && r in s'.open && s'.inflight[i].id in r.seen
        ensures Rank(topo, d, s'.inflight[i].at) <= Rank(topo, d, r.node)
      {
        if i < |s.inflight| {
          assert OnRoute(s.inflight[i], s.log, Injected(s), n);
          if r !in s.open { var o :| o in s.open && o.node == Sat(src) && s.inflight[i].id in o.seen; }
        }
      }
    }
  }

  lemma InjectKeeps(s: State, n: nat, optical: bool, topo: Topology, d: seq<int>, e: nat, src: nat, t: int)
    requires Going(s, n, optical, topo, d, e) && src < |d| == n
    ensures Going(AfterInject(s, d, src, t, e), n, optical, topo, d, e)
    ensures AfterInject(s, d, src, t, e).batches == s.batches
  {
    hide Books, Fleet, Births, KnownIds, AllUp, NoneAhead, OpenAfter, BatchesAfter, Routed;
    TakeKeepsBooks(s.open, s.batches, s.log, Event(Injected(s), App(src), Sat(src), t), e);
    InjectKeepsFleet(s, n, d, src, t, e);
    InjectKeepsRecords(s, n, optical, topo, d, e, src, t);
  }

  lemma InjectStoresNothing(s: State, d: seq<int>, src: nat, t: int, e: nat)
    requires src < |d|
    ensures Stored(AfterInject(s, d, src, t, e)) == Stored(s)
    ensures Injected(AfterInject(s, d, src, t, e)) == Injected(s) + 1
  {
    hide OpenAfter, BatchesAfter, Waited;
    WaitedAppend(s.inflight, NewBundle(s, d, src, e));
  }
}
