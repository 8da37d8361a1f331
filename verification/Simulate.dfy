/**
 The simulator of constellation/sim.mjs: bundles injected at satellites, moved hop by hop towards a
 ground station each tick, taken over into custody records, which are signed when their epoch ends (RF)
 or when their link drops (optical). Topologies, random draws and signing keys are inputs.
 */
module Simulate {
  import opened Wrappers
  import opened CustodyBook
  import opened Distances
  import opened Routing

  const START := 1_790_812_800_000
  const TICK_MS := 6000

  function Filter(s: seq<nat>, p: nat -> bool): (r: seq<nat>)
    ensures forall x :: x in r <==> x in s && p(x)
  {
    if s == [] then []
    else
      assert s == [s[0]] + s[1..];
      (if p(s[0]) then [s[0]] else []) + Filter(s[1..], p)
  }

  function LoadOf(load: map<nat, nat>, x: nat): nat {
    if x in load then load[x] else 0
  }

  ghost predicate Crosses(ev: Event, i: nat, m: nat) {
    ev.prev == From(Sat(i)) && ev.node == Sat(m)
  }

  /** How many of the hops went from satellite i to satellite m. */
  ghost function Carried(hops: seq<Event>, i: nat, m: nat): nat {
    if hops == [] then 0
    else Carried(hops[..|hops| - 1], i, m) + if Crosses(hops[|hops| - 1], i, m) then 1 else 0
  }

  /** The hops of a tick are within the load counted, the load within capacity, and none is over a link
      still being acquired. */
  ghost predicate LinkRules(hops: seq<Event>, load: map<nat, nat>, perTick: nat, closed: set<nat>) {
    && (forall i: nat, m: nat :: Carried(hops, i, m) <= LoadOf(load, Code(i, m)))
    && (forall x :: x in load ==> load[x] <= perTick)
    && (forall h, i: nat, m: nat :: 0 <= h < |hops| && Crosses(hops[h], i, m) ==> PairCode(i, m) !in closed)
  }

  /** No directed link carries more than its capacity in a tick, nor anything while being acquired. */
  ghost predicate WithinCapacity(hops: seq<Event>, perTick: nat, closed: set<nat>) {
    && (forall i: nat, m: nat :: Carried(hops, i, m) <= perTick)
    && (forall h, i: nat, m: nat :: 0 <= h < |hops| && Crosses(hops[h], i, m) ==> PairCode(i, m) !in closed)
  }

  lemma LinkRulesAfter(hops: seq<Event>, load: map<nat, nat>, perTick: nat, closed: set<nat>, ev: Event, load': map<nat, nat>)
    requires LinkRules(hops, load, perTick, closed)
    requires if ev.node.Sat? && ev.prev.From? && ev.prev.node.Sat?
             then var x := Code(ev.prev.node.i, ev.node.i);
               && LoadOf(load, x) < perTick && PairCode(ev.prev.node.i, ev.node.i) !in closed
               && load' == load[x := LoadOf(load, x) + 1]
             else load' == load
    ensures LinkRules(hops + [ev], load', perTick, closed)
  {
    hide Code, PairCode;
    assert (hops + [ev])[..|hops|] == hops;
    assert forall h :: 0 <= h < |hops| ==> (hops + [ev])[h] == hops[h];
    assert forall i: nat, m: nat :: Carried(hops + [ev], i, m) == Carried(hops, i, m) + if Crosses(ev, i, m) then 1 else 0;
  }

  // ---- Delivery within an epoch -----------------------------------------------------------------------

  /** The bundle is at most r hops from operations, or was delivered in epoch e. */
  ghost predicate Reached(inflight: seq<Bundle>, done: seq<Bundle>, topo: Topology, d: seq<int>, id: nat, r: int, e: nat) {
    || (exists i :: 0 <= i < |inflight| && inflight[i].id == id && 0 <= Rank(topo, d, inflight[i].at) <= r)
    || Arrived(done, id, e)
  }

  /** Every bundle with a route of at most r hops was delivered in epoch e. */
  ghost predicate InReachArrive(inflight: seq<Bundle>, r: int, done: seq<Bundle>, topo: Topology, d: seq<int>, e: nat) {
    forall i :: 0 <= i < |inflight| && 0 <= Rank(topo, d, inflight[i].at) <= r ==> Arrived(done, inflight[i].id, e)
  }

  ghost predicate Arrived(done: seq<Bundle>, id: nat, e: nat) {
    exists i :: 0 <= i < |done| && done[i].id == id && done[i].arrived == Some(e)
  }

  /** Every bundle with a route came a hop closer. */
  ghost predicate Progress(before: seq<Bundle>, from: nat, inflight: seq<Bundle>, done: seq<Bundle>, topo: Topology, d: seq<int>, e: nat) {
    forall i :: from <= i < |before| && Rank(topo, d, before[i].at) >= 1
      ==> Reached(inflight, done, topo, d, before[i].id, Rank(topo, d, before[i].at) - 1, e)
  }

  /** The j-th bundle done with for this tick, where it is now in flight. */
  lemma ProgressAfter(before: seq<Bundle>, j: nat, rest: seq<Bundle>, done: seq<Bundle>, rest': seq<Bundle>, done': seq<Bundle>,
                      topo: Topology, d: seq<int>, e: nat)
    requires j < |before| && Progress(before, j + 1, rest, done, topo, d, e) && done <= done'
    requires |rest'| >= |rest| && rest'[|rest'| - |rest|..] == rest
    requires Rank(topo, d, before[j].at) >= 1 ==> Reached(rest', done', topo, d, before[j].id, Rank(topo, d, before[j].at) - 1, e)
    ensures Progress(before, j, rest', done', topo, d, e)
  {
    hide Rank;
    forall i | j + 1 <= i < |before| && Rank(topo, d, before[i].at) >= 1
      ensures Reached(rest', done', topo, d, before[i].id, Rank(topo, d, before[i].at) - 1, e)
    {
      var r := Rank(topo, d, before[i].at) - 1;
      if Arrived(done, before[i].id, e) {
        var k :| 0 <= k < |done| && done[k].id == before[i].id && done[k].arrived == Some(e);
        assert done'[k] == done[k];
      } else {
        var k :| 0 <= k < |rest| && rest[k].id == before[i].id && 0 <= Rank(topo, d, rest[k].at) <= r;
        assert rest'[k + |rest'| - |rest|] == rest[k];
      }
    }
  }

  /** A tick takes a bundle in reach one hop nearer. */
  lemma ReachedAfterTick(before: seq<Bundle>, doneBefore: seq<Bundle>, inflight: seq<Bundle>, done: seq<Bundle>,
                         topo: Topology, d: seq<int>, id: nat, r: int, e: nat)
    requires Reached(before, doneBefore, topo, d, id, r, e) && Progress(before, 0, inflight, done, topo, d, e) && doneBefore <= done
    requires forall i :: 0 <= i < |before| ==> before[i].at != Operations
    ensures Reached(inflight, done, topo, d, id, r - 1, e)
  {
    if Arrived(doneBefore, id, e) {
      var k :| 0 <= k < |doneBefore| && doneBefore[k].id == id && doneBefore[k].arrived == Some(e);
      assert done[k] == doneBefore[k];
    }
  }

  // ---- Waiting for an optical link ---------------------------------------------------------------------

  /** Satellite m is a link away from i and a hop closer to a station. */
  predicate Closer(topo: Topology, d: seq<int>, i: nat, m: nat) {
    i < |topo.adj| && i < |d| && m in topo.adj[i] && m < |d| && d[i] > 0 && d[m] == d[i] - 1
  }

  /** Every link to a satellite a hop closer is being acquired or loaded to capacity. */
  ghost predicate Stuck(topo: Topology, d: seq<int>, at: Node, load: map<nat, nat>, perTick: nat, closed: set<nat>) {
    at.Sat? && forall m: nat :: Closer(topo, d, at.i, m) ==> PairCode(at.i, m) in closed || LoadOf(load, Code(at.i, m)) >= perTick
  }

  /** The same, of what the links have carried. */
  ghost predicate Held(topo: Topology, d: seq<int>, at: Node, hops: seq<Event>, perTick: nat, closed: set<nat>) {
    at.Sat? && forall m: nat :: Closer(topo, d, at.i, m) ==> PairCode(at.i, m) in closed || Carried(hops, at.i, m) >= perTick
  }

  /** Among so few satellites the load of a link is what it has carried: no two links share a number. */
  ghost predicate LoadExact(hops: seq<Event>, load: map<nat, nat>) {
    forall i: nat, m: nat :: i < MANY && m < MANY ==> Carried(hops, i, m) == LoadOf(load, Code(i, m))
  }

  const MANY := 0x1_0000

  lemma CodesDiffer(i: nat, m: nat, i': nat, m': nat)
    requires m < MANY && m' < MANY && Code(i, m) == Code(i', m')
    ensures i == i' && m == m'
  {
  }

  lemma LoadExactAfter(hops: seq<Event>, load: map<nat, nat>, ev: Event, load': map<nat, nat>)
    requires LoadExact(hops, load)
    requires if ev.node.Sat? && ev.prev.From? && ev.prev.node.Sat?
             then ev.node.i < MANY && ev.prev.node.i < MANY
                  && var x := Code(ev.prev.node.i, ev.node.i); load' == load[x := LoadOf(load, x) + 1]
             else load' == load
    ensures LoadExact(hops + [ev], load')
  {
    hide Code;
    assert (hops + [ev])[..|hops|] == hops;
    forall i: nat, m: nat | i < MANY && m < MANY ensures Carried(hops + [ev], i, m) == LoadOf(load', Code(i, m)) {
      if load' != load && Code(i, m) == Code(ev.prev.node.i, ev.node.i) { CodesDiffer(i, m, ev.prev.node.i, ev.node.i); }
    }
  }

  lemma StuckIsHeld(topo: Topology, d: seq<int>, n: nat, at: Node, hops: seq<Event>, load: map<nat, nat>, perTick: nat, closed: set<nat>)
    requires Routed(topo, d, n) && n <= MANY && LoadExact(hops, load) && Stuck(topo, d, at, load, perTick, closed)
    ensures Held(topo, d, at, hops, perTick, closed)
  {
    hide Code, PairCode, AreDistances, Carried;
    forall m: nat | Closer(topo, d, at.i, m) && PairCode(at.i, m) !in closed ensures Carried(hops, at.i, m) >= perTick {
      assert at.i < MANY && m < MANY;
    }
  }

  lemma {:induction false} CarriedGrows(hops: seq<Event>, hops': seq<Event>, i: nat, m: nat)
    requires hops <= hops'
    ensures Carried(hops, i, m) <= Carried(hops', i, m)
    decreases |hops'|
  {
    if hops != hops' { CarriedGrows(hops, hops'[..|hops'| - 1], i, m); }
  }

  /** Every bundle with a route came a hop closer, or waits because it must. */
  ghost predicate MovedOrHeld(before: seq<Bundle>, from: nat, inflight: seq<Bundle>, done: seq<Bundle>, hops: seq<Event>,
                              topo: Topology, d: seq<int>, e: nat, perTick: nat, closed: set<nat>) {
    forall i :: from <= i < |before| && Rank(topo, d, before[i].at) >= 1
      ==> Reached(inflight, done, topo, d, before[i].id, Rank(topo, d, before[i].at) - 1, e)
          || Held(topo, d, before[i].at, hops, perTick, closed)
  }

  lemma ReachedStays(rest: seq<Bundle>, done: seq<Bundle>, rest': seq<Bundle>, done': seq<Bundle>, topo: Topology, d: seq<int>, id: nat, r: int, e: nat)
    requires Reached(rest, done, topo, d, id, r, e) && done <= done'
    requires |rest'| >= |rest| && rest'[|rest'| - |rest|..] == rest
    ensures Reached(rest', done', topo, d, id, r, e)
  {
    hide Rank;
    if Arrived(done, id, e) {
      var k :| 0 <= k < |done| && done[k].id == id && done[k].arrived == Some(e);
      assert done'[k] == done[k];
    } else {
      var k :| 0 <= k < |rest| && rest[k].id == id && 0 <= Rank(topo, d, rest[k].at) <= r;
      assert rest'[k + |rest'| - |rest|] == rest[k];
    }
  }

  lemma HeldStays(topo: Topology, d: seq<int>, at: Node, hops: seq<Event>, hops': seq<Event>, perTick: nat, closed: set<nat>)
    requires Held(topo, d, at, hops, perTick, closed) && hops <= hops'
    ensures Held(topo, d, at, hops', perTick, closed)
  {
    hide Closer, PairCode, Carried;
    forall m: nat | Closer(topo, d, at.i, m) ensures Carried(hops', at.i, m) >= Carried(hops, at.i, m) { CarriedGrows(hops, hops', at.i, m); }
  }

  lemma MovedOrHeldAfter(before: seq<Bundle>, j: nat, rest: seq<Bundle>, done: seq<Bundle>, hops: seq<Event>,
                         rest': seq<Bundle>, done': seq<Bundle>, hops': seq<Event>,
                         topo: Topology, d: seq<int>, e: nat, perTick: nat, closed: set<nat>)
    requires j < |before| && MovedOrHeld(before, j + 1, rest, done, hops, topo, d, e, perTick, closed)
    requires done <= done' && hops <= hops' && |rest'| >= |rest| && rest'[|rest'| - |rest|..] == rest
    requires Rank(topo, d, before[j].at) >= 1 ==>
               Reached(rest', done', topo, d, before[j].id, Rank(topo, d, before[j].at) - 1, e)
               || Held(topo, d, before[j].at, hops', perTick, closed)
    ensures MovedOrHeld(before, j, rest', done', hops', topo, d, e, perTick, closed)
  {
    hide Rank, Reached, Held;
    forall i | j + 1 <= i < |before| && Rank(topo, d, before[i].at) >= 1
      ensures Reached(rest', done', topo, d, before[i].id, Rank(topo, d, before[i].at) - 1, e) || Held(topo, d, before[i].at, hops', perTick, closed)
    {
      if Reached(rest, done, topo, d, before[i].id, Rank(topo, d, before[i].at) - 1, e) {
        ReachedStays(rest, done, rest', done', topo, d, before[i].id, Rank(topo, d, before[i].at) - 1, e);
      } else {
        HeldStays(topo, d, before[i].at, hops, hops', perTick, closed);
      }
    }
  }

  /** The records whose link is up, or down, in order. */
  ghost function Those(rs: seq<Record>, topo: Topology, up: bool): seq<Record> {
    if rs == [] then []
    else Those(rs[..|rs| - 1], topo, up) + if Up(topo, rs[|rs| - 1]) == up then [rs[|rs| - 1]] else []
  }

  lemma ThoseNext(rs: seq<Record>, topo: Topology, i: nat)
    requires i < |rs|
    ensures forall up :: Those(rs[..i + 1], topo, up) == Those(rs[..i], topo, up) + if Up(topo, rs[i]) == up then [rs[i]] else []
    ensures rs[i..] == [rs[i]] + rs[i + 1..] && rs[i..][1..] == rs[i + 1..]
  {
    assert rs[..i + 1][..i] == rs[..i];
  }

  lemma NoneOfNone(topo: Topology)
    ensures forall up :: Those([], topo, up) == []
  {
  }

  lemma {:induction false} ThoseAre(rs: seq<Record>, topo: Topology, up: bool)
    ensures forall r :: r in Those(rs, topo, up) <==> r in rs && Up(topo, r) == up
    decreases |rs|
  {
    hide Up;
    if rs != [] {
      var last := |rs| - 1;
      ThoseAre(rs[..last], topo, up);
      assert rs == rs[..last] + [rs[last]];
    }
  }

  /** How a tick that began in `start` has gone, with the bundles before the c-th still to come. */
  ghost predicate TickSoFar(start: State, s: State, c: nat, optical: bool, topo: Topology, d: seq<int>, e: nat,
                            load: map<nat, nat>, perTick: nat, closed: set<nat>) {
    && c <= |s.inflight| && c <= |start.inflight| && s.inflight[..c] == start.inflight[..c]
    && Injected(s) == Injected(start)
    && start.log <= s.log && start.done <= s.done && start.batches <= s.batches
    && (optical ==> LinkRules(s.log[|start.log|..], load, perTick, closed))
    && (optical && |topo.adj| <= MANY ==>
          && LoadExact(s.log[|start.log|..], load)
          && MovedOrHeld(start.inflight, c, s.inflight[c..], s.done, s.log[|start.log|..], topo, d, e, perTick, closed))
    && (!optical ==> s.batches == start.batches && Progress(start.inflight, c, s.inflight[c..], s.done, topo, d, e))
  }

  lemma TickStarts(s: State, optical: bool, topo: Topology, d: seq<int>, e: nat, perTick: nat, closed: set<nat>)
    ensures TickSoFar(s, s, |s.inflight|, optical, topo, d, e, map[], perTick, closed)
  {
    assert s.log[|s.log|..] == [] && s.inflight[|s.inflight|..] == [];
  }

  /** What a tick does: no bundle is lost or delivered twice; optical links stay within their rules, and every
      bundle with a route comes a hop closer unless every link that would bring it closer is being acquired or has
      carried all it can; without them every one does, and no record is closed. */
  ghost predicate Ticked(start: State, s: State, optical: bool, topo: Topology, d: seq<int>, e: nat, perTick: nat, closed: set<nat>) {
    && Injected(s) == Injected(start)
    && start.log <= s.log && start.done <= s.done && start.batches <= s.batches
    && (optical ==> WithinCapacity(s.log[|start.log|..], perTick, closed))
    && (optical && |topo.adj| <= MANY ==>
          MovedOrHeld(start.inflight, 0, s.inflight, s.done, s.log[|start.log|..], topo, d, e, perTick, closed))
    && (!optical ==> s.batches == start.batches && Progress(start.inflight, 0, s.inflight, s.done, topo, d, e))
  }

  lemma TickEnds(start: State, s: State, optical: bool, topo: Topology, d: seq<int>, e: nat, load: map<nat, nat>, perTick: nat, closed: set<nat>)
    requires TickSoFar(start, s, 0, optical, topo, d, e, load, perTick, closed)
    ensures Ticked(start, s, optical, topo, d, e, perTick, closed)
  {
    hide LinkRules, WithinCapacity, Progress, MovedOrHeld, LoadExact;
    assert s.inflight[0..] == s.inflight;
    if optical { CapacityKept(s.log[|start.log|..], load, perTick, closed); }
  }

  /** What a step's contract says of the state before and after. */
  ghost predicate Stepped(s: State, s': State, j: nat, topo: Topology, d: seq<int>, optical: bool, next: Option<Node>, t: int, e: nat,
                          load: map<nat, nat>, load': map<nat, nat>, perTick: nat, closed: set<nat>) {
    && j < |s.inflight|
    && match next
       case None =>
         && s' == AfterWait(s, j) && load' == load
         && (Rank(topo, d, s.inflight[j].at) == -1 || (optical && Stuck(topo, d, s.inflight[j].at, load, perTick, closed)))
       case Some(to) =>
         && Moves(topo, d, s.inflight[j].at, to) && s' == AfterHop(s, j, to, t, e)
         && (if optical then Counted(s.inflight[j].at, to, load, load', perTick, closed) else s'.batches == s.batches)
  }

  /** A hop between satellites was over a usable link and is in the new load; other hops are not. */
  ghost predicate Counted(at: Node, next: Node, load: map<nat, nat>, load': map<nat, nat>, perTick: nat, closed: set<nat>) {
    if at.Sat? && next.Sat? then
      && PairCode(at.i, next.i) !in closed && LoadOf(load, Code(at.i, next.i)) < perTick
      && load' == load[Code(at.i, next.i) := LoadOf(load, Code(at.i, next.i)) + 1]
    else load' == load
  }

  lemma StepAdvancesTick(start: State, s: State, s': State, n: nat, j: nat, optical: bool, topo: Topology, d: seq<int>, e: nat,
                         next: Option<Node>, t: int, load: map<nat, nat>, load': map<nat, nat>, perTick: nat, closed: set<nat>)
    requires TickSoFar(start, s, j + 1, optical, topo, d, e, load, perTick, closed)
    requires Routed(topo, d, n) && Stepped(s, s', j, topo, d, optical, next, t, e, load, load', perTick, closed)
    ensures TickSoFar(start, s', j, optical, topo, d, e, load', perTick, closed) && j <= |s'.inflight|
  {
    hide Moves, Rank, LinkRules, LoadExact, Progress, MovedOrHeld, Reached, Code, PairCode, Routed, AfterHop, AfterWait, Stuck, Held;
    var b := s.inflight[j];
    var hops := s.log[|start.log|..];
    assert s.inflight[..j + 1][j] == start.inflight[..j + 1][j];
    assert s.inflight[..j] == s.inflight[..j + 1][..j] && start.inflight[..j] == start.inflight[..j + 1][..j];
    if next.None? {
      WaitFrame(s, j);
      if !optical { ProgressAfter(start.inflight, j, s.inflight[j + 1..], s.done, s'.inflight[j..], s'.done, topo, d, e); }
      else if |topo.adj| <= MANY {
        if Rank(topo, d, b.at) >= 1 { WaitsHeld(topo, d, n, b.at, hops, load, perTick, closed); }
        MovedOrHeldAfter(start.inflight, j, s.inflight[j + 1..], s.done, hops, s'.inflight[j..], s'.done, hops, topo, d, e, perTick, closed);
      }
    } else {
      MoveLowersRank(topo, d, n, b.at, next.value);
      HopFrame(s, j, next.value, t, e);
      HopProgress(s, j, next.value, t, topo, d, e);
      if optical {
        var ev := HopEvent(b, next.value, t);
        LinkRulesAfter(hops, load, perTick, closed, ev, load');
        assert s'.log[|start.log|..] == hops + [ev];
        if |topo.adj| <= MANY {
          HopWithin(topo, d, n, b.at, next.value);
          LoadExactAfter(hops, load, ev, load');
          MovedOrHeldAfter(start.inflight, j, s.inflight[j + 1..], s.done, hops, s'.inflight[j..], s'.done, hops + [ev], topo, d, e, perTick, closed);
        }
      } else {
        ProgressAfter(start.inflight, j, s.inflight[j + 1..], s.done, s'.inflight[j..], s'.done, topo, d, e);
      }
    }
  }

  lemma WaitsHeld(topo: Topology, d: seq<int>, n: nat, at: Node, hops: seq<Event>, load: map<nat, nat>, perTick: nat, closed: set<nat>)
    requires Routed(topo, d, n) && |topo.adj| <= MANY && LoadExact(hops, load) && Stuck(topo, d, at, load, perTick, closed)
    ensures Held(topo, d, at, hops, perTick, closed)
  {
    hide AreDistances, LoadExact, Stuck, Held;
    StuckIsHeld(topo, d, n, at, hops, load, perTick, closed);
  }

  lemma HopWithin(topo: Topology, d: seq<int>, n: nat, at: Node, next: Node)
    requires Routed(topo, d, n) && |topo.adj| <= MANY && Moves(topo, d, at, next)
    ensures at.Sat? ==> at.i < MANY
    ensures next.Sat? ==> next.i < MANY
  {
    hide AreDistances;
  }

  /** Every bundle that had at most `bound` hops to go now has at most r, or was delivered in epoch e. */
  ghost predicate AllReached(before: seq<Bundle>, bound: nat, s: State, topo: Topology, d: seq<int>, r: int, e: nat) {
    forall i :: 0 <= i < |before| && 0 <= Rank(topo, d, before[i].at) <= bound
      ==> Reached(s.inflight, s.done, topo, d, before[i].id, r, e)
  }

  ghost predicate TicksSoFar(start: State, s: State, optical: bool) {
    && Injected(s) == Injected(start) && start.log <= s.log && start.done <= s.done && start.batches <= s.batches
    && (!optical ==> s.batches == start.batches)
  }

  lemma AllReachedAtStart(s: State, topo: Topology, d: seq<int>, r: nat, e: nat)
    ensures AllReached(s.inflight, r, s, topo, d, r, e)
  {
    hide Rank;
  }

  lemma TickKeepsReach(start: State, s: State, s': State, optical: bool, topo: Topology, d: seq<int>, bound: nat, r: int, e: nat,
                       perTick: nat, closed: set<nat>)
    requires TicksSoFar(start, s, optical) && Ticked(s, s', optical, topo, d, e, perTick, closed)
    requires !optical ==> AllReached(start.inflight, bound, s, topo, d, r, e)
    requires forall i :: 0 <= i < |s.inflight| ==> s.inflight[i].at != Operations
    ensures TicksSoFar(start, s', optical)
    ensures !optical ==> AllReached(start.inflight, bound, s', topo, d, r - 1, e)
  {
    hide Rank, Progress, Reached, WithinCapacity, MovedOrHeld;
    if !optical {
      forall i | 0 <= i < |start.inflight| && 0 <= Rank(topo, d, start.inflight[i].at) <= bound
        ensures Reached(s'.inflight, s'.done, topo, d, start.inflight[i].id, r - 1, e)
      {
        ReachedAfterTick(s.inflight, s.done, s'.inflight, s'.done, topo, d, start.inflight[i].id, r, e);
      }
    }
  }

  lemma AllReachedArrive(before: seq<Bundle>, bound: nat, s: State, topo: Topology, d: seq<int>, e: nat)
    requires AllReached(before, bound, s, topo, d, 0, e)
    requires forall i :: 0 <= i < |s.inflight| ==> s.inflight[i].at != Operations
    ensures InReachArrive(before, bound, s.done, topo, d, e)
  {
  }

  // ---- Time -----------------------------------------------------------------------------------------------

  /** The hops from the k-th on were all made at this time. */
  ghost predicate MadeAt(log: seq<Event>, k: nat, t: int) {
    forall i :: k <= i < |log| ==> log[i].t == t
  }

  /** The hops were made in the order of their times, the last no later than t. */
  ghost predicate InTime(log: seq<Event>, t: int) {
    && (forall i, j :: 0 <= i < j < |log| ==> log[i].t <= log[j].t)
    && (forall i :: 0 <= i < |log| ==> log[i].t <= t)
  }

  lemma LaterStillInTime(log: seq<Event>, t: int, log': seq<Event>, t': int)
    requires InTime(log, t) && log <= log' && t <= t' && MadeAt(log', |log|, t')
    ensures InTime(log', t')
  {
  }

  /** A tick, after which the next is due. */
  lemma TickStaysInTime(log: seq<Event>, log': seq<Event>, t: int)
    requires InTime(log, t) && log <= log' && MadeAt(log', |log|, t)
    ensures InTime(log', t) && InTime(log', t + TICK_MS)
  {
  }

  /** From the k-th hop on none made before t was over one of these links. */
  ghost predicate NotBefore(log: seq<Event>, k: nat, t: int, closed: set<nat>) {
    forall h, i: nat, m: nat :: k <= h < |log| && log[h].t < t && Crosses(log[h], i, m) ==> PairCode(i, m) !in closed
  }

  lemma NoneBefore(log: seq<Event>, t: int, closed: set<nat>)
    ensures NotBefore(log, |log|, t, closed)
  {
  }

  /** A tick in which those links are closed, or made no earlier. */
  lemma TickKeepsClosed(k: nat, log: seq<Event>, log': seq<Event>, now: int, perTick: nat, shut: set<nat>, t: int, closed: set<nat>)
    requires k <= |log| && log <= log' && NotBefore(log, k, t, closed) && MadeAt(log', |log|, now)
    requires WithinCapacity(log'[|log|..], perTick, shut) && (shut == closed || t <= now)
    ensures NotBefore(log', k, t, closed)
  {
    hide PairCode, Carried;
    forall h, i: nat, m: nat | k <= h < |log'| && log'[h].t < t && Crosses(log'[h], i, m) ensures PairCode(i, m) !in closed {
      if h < |log| { assert log'[h] == log[h]; } else { assert log'[h] == log'[|log|..][h - |log|]; }
    }
  }

  lemma TickedWithin(s: State, s': State, topo: Topology, d: seq<int>, e: nat, perTick: nat, closed: set<nat>)
    requires Ticked(s, s', true, topo, d, e, perTick, closed)
    ensures s.log <= s'.log && WithinCapacity(s'.log[|s.log|..], perTick, closed)
  {
    hide WithinCapacity, MovedOrHeld;
  }

  /** Bundles injected cross no link. */
  lemma InjectionsCrossNone(log: seq<Event>, log': seq<Event>, t: int, closed: set<nat>)
    requires log <= log' && forall h :: |log| <= h < |log'| ==> log'[h].prev.App?
    ensures NotBefore(log', |log|, t, closed)
  {
  }

  lemma NotBeforeFrom(log: seq<Event>, j: nat, k: nat, t: int, closed: set<nat>, log': seq<Event>)
    requires j <= k <= |log| && log <= log' && k == |log| && NotBefore(log, j, t, closed) && NotBefore(log', k, t, closed)
    ensures NotBefore(log', j, t, closed)
  {
    forall h, i: nat, m: nat | j <= h < |log'| && log'[h].t < t && Crosses(log'[h], i, m) ensures PairCode(i, m) !in closed {
      if h < |log| { assert log'[h] == log[h]; }
    }
  }

  lemma NoneMade(log: seq<Event>, t: int)
    ensures MadeAt(log, |log|, t)
  {
  }

  lemma TickGrowsLog(start: State, s: State, optical: bool, topo: Topology, d: seq<int>, e: nat, perTick: nat, closed: set<nat>)
    requires Ticked(start, s, optical, topo, d, e, perTick, closed)
    ensures start.log <= s.log
  {
    hide WithinCapacity, Progress, MovedOrHeld;
  }

  lemma StepMadeAt(s: State, s': State, k: nat, j: nat, topo: Topology, d: seq<int>, optical: bool, next: Option<Node>, t: int, e: nat,
                   load: map<nat, nat>, load': map<nat, nat>, perTick: nat, closed: set<nat>)
    requires MadeAt(s.log, k, t) && Stepped(s, s', j, topo, d, optical, next, t, e, load, load', perTick, closed)
    ensures MadeAt(s'.log, k, t)
  {
    hide Moves, Rank, Counted, OpenAfter, BatchesAfter;
  }

  /** 1 October 2026 in milliseconds: 56 years, 14 of them leap, and the days from January to September. */
  lemma StartIsThatDay()
    ensures START == (56 * 365 + 14 + (31 + 28 + 31 + 30 + 31 + 30 + 31 + 31 + 30)) * 24 * 60 * 60 * 1000
  {
  }

  // ---- The simulator ------------------------------------------------------------------------------------

  class Simulation {
    const n: nat
    const optical: bool
    const acqTicks: nat
    const perTick: nat
    const ticksPerEpoch: nat
    const bundles: nat
    const injectEpochs: nat
    const perEpoch: nat
    /** The random draws, as indices to be cut to size. */
    const choice: nat -> nat

    var inflight: seq<Bundle>
    var done: seq<Bundle>
    var open: seq<Record>
    var batches: seq<Record>
    var prevCross: Option<set<nat>>
    var hopEvents: nat
    var storedTicks: nat
    var acquireWaits: nat
    var capacityWaits: nat
    var draws: nat
    /** Every hop ever made. */
    ghost var log: seq<Event>

    ghost function View(): State
      reads this`inflight, this`done, this`open, this`batches, this`log
    {
      State(inflight, done, open, batches, log)
    }

    constructor (n: nat, optical: bool, acqTicks: nat, perTick: nat, ticksPerEpoch: nat, bundles: nat, injectEpochs: nat, choice: nat -> nat)
      requires n > 0 && injectEpochs > 0
      ensures Between(0) && log == []
      ensures this.n == n && this.optical == optical && this.bundles == bundles && this.injectEpochs == injectEpochs
      ensures this.ticksPerEpoch == ticksPerEpoch && this.perTick == perTick && this.acqTicks == acqTicks
    {
      this.n, this.optical, this.acqTicks, this.perTick := n, optical, acqTicks, perTick;
      this.ticksPerEpoch, this.bundles, this.injectEpochs, this.choice := ticksPerEpoch, bundles, injectEpochs, choice;
      perEpoch := (bundles + injectEpochs - 1) / injectEpochs;
      inflight, done, open, batches, prevCross := [], [], [], [], None;
      hopEvents, storedTicks, acquireWaits, capacityWaits, draws := 0, 0, 0, 0, 0;
      log := [];
      new;
      InjectsAll(bundles, injectEpochs);
    }

    /** What holds between epochs; e is the next. */
    ghost predicate Between(e: nat)
      reads this`inflight, this`done, this`open, this`batches, this`log, this`hopEvents, this`storedTicks
    {
      && n > 0 && injectEpochs > 0 && perEpoch == (bundles + injectEpochs - 1) / injectEpochs
      && Settled(View(), n, e) && hopEvents == |log| && storedTicks == Stored(View()) && (!optical ==> open == [])
      && Injected(View()) == Due(bundles, perEpoch, if e < injectEpochs then e else injectEpochs)
    }

    ghost predicate During(topo: Topology, d: seq<int>, e: nat)
      reads this`inflight, this`done, this`open, this`batches, this`log, this`hopEvents, this`storedTicks
    {
      n > 0 && Going(View(), n, optical, topo, d, e) && hopEvents == |log| && storedTicks == Stored(View())
    }

    method Draw(size: nat) returns (i: nat)
      requires size > 0
      modifies this`draws
      ensures i < size
    {
      i := choice(draws) % size;
      draws := draws + 1;
    }

    method Sign(r: Record)
      modifies this`batches
      ensures batches == old(batches) + [r]
    {
      batches := batches + [r];
    }

    /** The node takes the bundle over. */
    method Take(node: Node, prev: Prev, id: nat, t: int, e: nat)
      modifies this`open, this`batches, this`hopEvents, this`log
      ensures var ev := Event(id, prev, node, t);
              && open == OpenAfter(old(open), ev, e) && batches == BatchesAfter(old(open), old(batches), ev)
              && log == old(log) + [ev] && hopEvents == old(hopEvents) + 1
    {
      var k := Find(open, node, prev);
      var record := Record(node, prev, [id], [t], {id}, t, t, e);
      if k == |open| {
        open := open + [record];
      } else if id in open[k].seen {
        Sign(open[k]);
        open := open[k := record];
      } else {
        var r := open[k];
        open := open[k := r.(ids := r.ids + [id], times := r.times + [t], seen := r.seen + {id},
                             to := if r.to < t then t else r.to, from := if t < r.from then t else r.from)];
      }
      hopEvents := hopEvents + 1;
      log := log + [Event(id, prev, node, t)];
    }

    predicate Acquired(i: nat, m: nat, k: nat, acquiring: set<nat>) {
      k >= acqTicks || PairCode(i, m) !in acquiring
    }

    /** A link usable at tick k: acquired, and with capacity left. */
    predicate Usable(i: nat, m: nat, k: nat, acquiring: set<nat>, load: map<nat, nat>) {
      Acquired(i, m, k, acquiring) && LoadOf(load, Code(i, m)) < perTick
    }

    /** A usable link from satellite i to one a hop closer, at random. Without optical links there always is
        one; with them, what there is to wait for is counted. */
    method PickLink(i: nat, k: nat, topo: Topology, d: seq<int>, acquiring: set<nat>, load: map<nat, nat>) returns (next: Option<nat>)
      requires Routed(topo, d, n) && i < n && d[i] > 0
      modifies this`draws, this`acquireWaits, this`capacityWaits
      ensures next.Some? ==> Closer(topo, d, i, next.value) && (optical ==> Usable(i, next.value, k, acquiring, load))
      ensures next.None? ==> optical && forall m :: Closer(topo, d, i, m) ==> !Usable(i, m, k, acquiring, load)
      ensures var unacquired := optical && forall m :: Closer(topo, d, i, m) ==> !Acquired(i, m, k, acquiring);
              && acquireWaits == old(acquireWaits) + (if unacquired then 1 else 0)
              && capacityWaits == old(capacityWaits) + (if next.None? && !unacquired then 1 else 0)
      ensures acquireWaits + capacityWaits == old(acquireWaits + capacityWaits) + if next.None? then 1 else 0
    {
      hide AreDistances, Code, PairCode, Filter, LoadOf, Acquired;
      ghost var m := CloserNeighbour(topo.adj, topo.order, d, i);
      var cand := Filter(topo.adj[i], (m: nat) => m < |d| && d[m] == d[i] - 1);
      assert forall m :: m in cand <==> Closer(topo, d, i, m);
      assert Closer(topo, d, i, m);
      if optical {
        var acquired := Filter(cand, (m: nat) => Acquired(i, m, k, acquiring));
        var free := Filter(acquired, (m: nat) => LoadOf(load, Code(i, m)) < perTick);
        NoneLeft(acquired);
        if acquired == [] { acquireWaits := acquireWaits + 1; } else if free == [] { capacityWaits := capacityWaits + 1; }
        cand := free;
      }
      if cand == [] { return None; }
      var x := Draw(|cand|);
      assert cand[x] in cand;
      next := Some(cand[x]);
    }

    /** Where a bundle at `at` goes in tick k; None when it waits in storage. */
    method Route(at: Node, k: nat, topo: Topology, d: seq<int>, acquiring: set<nat>, load: map<nat, nat>) returns (next: Option<Node>)
      requires Routed(topo, d, n) && at != Operations && (at.Sat? ==> at.i < n)
      modifies this`draws, this`acquireWaits, this`capacityWaits
      ensures next.Some? ==> Moves(topo, d, at, next.value)
      ensures next.Some? && optical && at.Sat? && next.value.Sat? ==> Usable(at.i, next.value.i, k, acquiring, load)
      ensures next.None? ==> at.Sat? && at.i !in topo.sees
      ensures next.None? && Rank(topo, d, at) != -1 ==>
                optical && forall m :: Closer(topo, d, at.i, m) ==> !Usable(at.i, m, k, acquiring, load)
      ensures acquireWaits + capacityWaits
              == old(acquireWaits + capacityWaits) + if next.None? && Rank(topo, d, at) != -1 then 1 else 0
    {
      hide AreDistances, Acquired, Usable;
      if !at.Sat? { return Some(Operations); }
      var i := at.i;
      ZeroAtSources(topo.adj, topo.order, d, i);
      if i in topo.sees { return Some(Station(topo.sees[i])); }
      if d[i] <= 0 { return None; }
      var link := PickLink(i, k, topo, d, acquiring, load);
      next := if link.None? then None else Some(Sat(link.value));
    }

    /** When tick k of epoch e is. */
    function Clock(e: nat, k: nat): int {
      START + (e * ticksPerEpoch + k) * TICK_MS
    }

    /** Ticks follow each other at equal intervals from the start on, across epochs. */
    lemma ClockTicks(e: nat, k: nat)
      ensures Clock(0, 0) == START && Clock(e, k + 1) == Clock(e, k) + TICK_MS && Clock(e + 1, 0) == Clock(e, ticksPerEpoch)
    {
      assert (e + 1) * ticksPerEpoch == e * ticksPerEpoch + ticksPerEpoch;
    }

    lemma ClockFrom(e: nat, j: nat, k: nat)
      requires j <= k
      ensures Clock(e, j) <= Clock(e, k)
    {
    }

    /** So time never stands still: tick by tick, and from epoch to epoch. */
    lemma {:induction false} ClockAdvances(e: nat, k: nat, e': nat, k': nat)
      requires k < ticksPerEpoch && (e < e' || (e == e' && k < k'))
      ensures Clock(e, k) < Clock(e', k')
      decreases e' - e
    {
      if e < e' {
        ClockTicks(e, k);
        assert Clock(e, k) < Clock(e + 1, 0);
        if e + 1 < e' { ClockAdvances(e + 1, 0, e', k'); }
      }
    }

    /** The next node takes the j-th bundle over; at operations it is done. */
    method Move(j: nat, next: Node, t: int, e: nat)
      requires j < |inflight|
      modifies this`inflight, this`done, this`open, this`batches, this`hopEvents, this`log
      ensures View() == AfterHop(old(View()), j, next, t, e) && hopEvents == old(hopEvents) + 1
    {
      hide OpenAfter, BatchesAfter;
      var b := inflight[j];
      Take(next, From(b.at), b.id, t, e);
      var moved := b.(path := b.path + [next], at := next);
      if next == Operations {
        done := done + [moved.(arrived := Some(e))];
        inflight := inflight[..j] + inflight[j + 1..];
      } else {
        inflight := inflight[j := moved];
      }
    }

    /** The j-th bundle in flight stays where it is for a tick. */
    method Wait(j: nat, topo: Topology, d: seq<int>, e: nat)
      requires During(topo, d, e) && j < |inflight|
      modifies this`inflight, this`storedTicks
      ensures During(topo, d, e) && View() == AfterWait(old(View()), j)
    {
      hide Going, Stored;
      ghost var s := View();
      WaitKeeps(s, n, optical, topo, d, e, j);
      WaitStoresOne(s, j);
      storedTicks := storedTicks + 1;
      inflight := inflight[j := inflight[j].(waited := inflight[j].waited + 1)];
    }

    /** It takes a permitted hop. */
    method Hop(j: nat, next: Node, t: int, topo: Topology, d: seq<int>, e: nat)
      requires During(topo, d, e) && j < |inflight| && Moves(topo, d, inflight[j].at, next)
      modifies this`inflight, this`done, this`open, this`batches, this`hopEvents, this`log
      ensures During(topo, d, e) && View() == AfterHop(old(View()), j, next, t, e)
      ensures !optical ==> batches == old(batches)
    {
      hide Going, Moves, Stored, AfterHop;
      ghost var s := View();
      HopKeeps(s, n, optical, topo, d, e, j, next, t);
      HopFrame(s, j, next, t, e);
      HopStoresNothing(s, j, next, t, e);
      Move(j, next, t, e);
    }

    /** The j-th bundle in flight takes a hop or waits. */
    method Step(j: nat, k: nat, topo: Topology, d: seq<int>, acquiring: set<nat>, load: map<nat, nat>, e: nat)
      returns (next: Option<Node>, load': map<nat, nat>)
      requires During(topo, d, e) && j < |inflight|
      modifies this`inflight, this`done, this`open, this`batches, this`hopEvents, this`log
      modifies this`storedTicks, this`draws, this`acquireWaits, this`capacityWaits
      ensures During(topo, d, e)
      ensures Stepped(old(View()), View(), j, topo, d, optical, next, Clock(e, k), e, load, load', perTick, if k < acqTicks then acquiring else {})
    {
      hide During, Moves, Rank, Code, PairCode, Routed, Closer, AfterHop, AfterWait, Clock;
      var at := inflight[j].at;
      DuringParts(topo, d, e);
      load' := load;
      next := Route(at, k, topo, d, acquiring, load);
      if next.None? {
        Wait(j, topo, d, e);
      } else {
        Hop(j, next.value, Clock(e, k), topo, d, e);
        if optical && at.Sat? && next.value.Sat? {
          var x := Code(at.i, next.value.i);
          load' := load[x := LoadOf(load, x) + 1];
        }
      }
    }

    lemma DuringParts(topo: Topology, d: seq<int>, e: nat)
      requires During(topo, d, e)
      ensures Routed(topo, d, n)
      ensures forall i :: 0 <= i < |inflight| ==> inflight[i].at != Operations && (inflight[i].at.Sat? ==> inflight[i].at.i < n)
    {
      hide Routed, Births, NoneAhead, AllUp, Books, Stored;
    }

    /** One tick: every bundle in flight takes a hop or waits, the newest first. */
    method Tick(k: nat, topo: Topology, d: seq<int>, acquiring: set<nat>, e: nat)
      requires During(topo, d, e)
      modifies this`inflight, this`done, this`open, this`batches, this`hopEvents, this`log
      modifies this`storedTicks, this`draws, this`acquireWaits, this`capacityWaits
      ensures During(topo, d, e)
      ensures Ticked(old(View()), View(), optical, topo, d, e, perTick, if k < acqTicks then acquiring else {})
      ensures old(log) <= log && MadeAt(log, |old(log)|, Clock(e, k))
    {
      hide During, TickSoFar, Stepped, Routed, Ticked, MadeAt, Clock;
      NoneMade(log, Clock(e, k));
      var load: map<nat, nat> := map[];
      ghost var start := View();
      ghost var closed := if k < acqTicks then acquiring else {};
      TickStarts(start, optical, topo, d, e, perTick, closed);
      var j := |inflight| - 1;
      while j >= 0
        invariant During(topo, d, e) && -1 <= j < |inflight|
        invariant TickSoFar(start, View(), j + 1, optical, topo, d, e, load, perTick, closed)
        invariant MadeAt(log, |start.log|, Clock(e, k))
      {
        ghost var s, was := View(), load;
        DuringParts(topo, d, e);
        var next;
        next, load := Step(j, k, topo, d, acquiring, load, e);
        StepAdvancesTick(start, s, View(), n, j, optical, topo, d, e, next, Clock(e, k), was, load, perTick, closed);
        StepMadeAt(s, View(), |start.log|, j, topo, d, optical, next, Clock(e, k), e, was, load, perTick, closed);
        j := j - 1;
      }
      TickEnds(start, View(), optical, topo, d, e, load, perTick, closed);
      TickGrowsLog(start, View(), optical, topo, d, e, perTick, closed);
    }

    /** The ticks of an epoch from the k-th on. Without optical contacts, a bundle with at most as many
        hops to go as there are ticks left is delivered. */
    method Ticks(k0: nat, topo: Topology, d: seq<int>, acquiring: set<nat>, e: nat)
      requires During(topo, d, e) && k0 <= ticksPerEpoch
      modifies this`inflight, this`done, this`open, this`batches, this`hopEvents, this`log
      modifies this`storedTicks, this`draws, this`acquireWaits, this`capacityWaits
      ensures During(topo, d, e) && Injected(View()) == old(Injected(View()))
      ensures old(log) <= log && old(done) <= done && old(batches) <= batches
      ensures !optical ==> batches == old(batches)
      ensures !optical ==> InReachArrive(old(inflight), ticksPerEpoch - k0, done, topo, d, e)
      ensures old(InTime(log, Clock(e, k0))) ==> InTime(log, Clock(e, ticksPerEpoch))
      ensures optical ==> NotBefore(log, |old(log)|, Clock(e, acqTicks), acquiring)
    {
      hide During, AllReached, Ticked, InReachArrive, InTime, MadeAt, Clock, NotBefore;
      NoneBefore(log, Clock(e, acqTicks), acquiring);
      ghost var start := View();
      ghost var r: nat := ticksPerEpoch - k0;
      AllReachedAtStart(start, topo, d, r, e);
      for k := k0 to ticksPerEpoch
        invariant During(topo, d, e) && TicksSoFar(start, View(), optical)
        invariant !optical ==> AllReached(start.inflight, r, View(), topo, d, ticksPerEpoch - k, e)
        invariant InTime(start.log, Clock(e, k0)) ==> InTime(log, Clock(e, k))
        invariant optical ==> NotBefore(log, |start.log|, Clock(e, acqTicks), acquiring)
      {
        ghost var s := View();
        DuringParts(topo, d, e);
        Tick(k, topo, d, acquiring, e);
        ClockTicks(e, k);
        if optical {
          ghost var shut := if k < acqTicks then acquiring else {};
          TickedWithin(s, View(), topo, d, e, perTick, shut);
          if k >= acqTicks { ClockFrom(e, acqTicks, k); }
          TickKeepsClosed(|start.log|, s.log, log, Clock(e, k), perTick, shut, Clock(e, acqTicks), acquiring);
        }
        if InTime(start.log, Clock(e, k0)) { TickStaysInTime(s.log, log, Clock(e, k)); }
        TickKeepsReach(start, s, View(), optical, topo, d, r, ticksPerEpoch - k, e, perTick, if k < acqTicks then acquiring else {});
      }
      DuringParts(topo, d, e);
      if !optical { AllReachedArrive(start.inflight, r, View(), topo, d, e); }
    }

    /** New bundles aboard satellites drawn at random, `perEpoch` of them or as many as are still to come. */
    method Inject(topo: Topology, d: seq<int>, e: nat)
      requires During(topo, d, e) && Injected(View()) <= bundles
      modifies this`inflight, this`open, this`batches, this`hopEvents, this`log, this`draws
      ensures During(topo, d, e) && old(inflight) <= inflight && old(log) <= log && batches == old(batches)
      ensures Injected(View()) == if bundles <= old(Injected(View())) + perEpoch then bundles else old(Injected(View())) + perEpoch
      ensures MadeAt(log, |old(log)|, Clock(e, 0)) && forall h :: |old(log)| <= h < |log| ==> log[h].prev.App?
    {
      hide Going, OpenAfter, BatchesAfter, Stored;
      var i := 0;
      while i < perEpoch && |inflight| + |done| < bundles
        invariant During(topo, d, e) && old(inflight) <= inflight && old(log) <= log && batches == old(batches)
        invariant 0 <= i <= perEpoch && Injected(View()) == old(Injected(View())) + i <= bundles
        invariant MadeAt(log, |old(log)|, Clock(e, 0)) && forall h :: |old(log)| <= h < |log| ==> log[h].prev.App?
      {
        ghost var s := View();
        assert |d| == n by { GoingParts(s, n, optical, topo, d, e); }
        var src := Draw(n);
        InjectKeeps(s, n, optical, topo, d, e, src, Clock(e, 0));
        InjectStoresNothing(s, d, src, Clock(e, 0), e);
        var id := |inflight| + |done|;
        var b := Bundle(id, src, Sat(src), [Sat(src)], e, 0, if d[src] < 0 then None else Some(d[src] + 2), None);
        Take(Sat(src), App(src), id, Clock(e, 0), e);
        inflight := inflight + [b];
        assert View() == AfterInject(s, d, src, Clock(e, 0), e);
        i := i + 1;
      }
    }

    /** Optical: sign the contacts whose link is down. */
    method CloseContacts(topo: Topology)
      requires Books(open, batches, log)
      modifies this`open, this`batches
      ensures Books(open, batches, log)
      ensures open == Those(old(open), topo, true) && batches == old(batches) + Those(old(open), topo, false)
    {
      hide Books, Up, Those;
      var all := open;
      open := [];
      NoneOfNone(topo);
      assert open + all[0..] == all && all[..0] == [];
      for i := 0 to |all|
        invariant batches == old(batches) + Those(all[..i], topo, false) && open == Those(all[..i], topo, true)
        invariant Books(open + all[i..], batches, log)
      {
        var r := all[i];
        ThoseNext(all, topo, i);
        if Up(topo, r) {
          KeepKeepsBooks(open, all[i..], batches, log);
          open := open + [r];
        } else {
          SignKeepsBooks(open, all[i..], batches, log);
          Sign(r);
        }
      }
      assert open + all[|all|..] == open && all[..|all|] == all;
    }

    /** Sign every open record. */
    method SignAll()
      requires Books(open, batches, log)
      modifies this`open, this`batches
      ensures open == [] && batches == old(batches) + old(open) && Books(open, batches, log)
    {
      hide Books;
      var all := open;
      assert all[0..] == all && all[..0] == [];
      for i := 0 to |all|
        invariant batches == old(batches) + all[..i] && Books(all[i..], batches, log)
      {
        FirstSigned(all[i..], batches, log);
        Sign(all[i]);
        assert all[..i + 1] == all[..i] + [all[i]] && all[i..][1..] == all[i + 1..];
      }
      assert all[..|all|] == all && all[|all|..] == [];
      open := [];
    }

    /** The start of an epoch: contacts whose link went down are signed, the links to acquire noted, and
        the epoch's bundles injected. */
    method BeginEpoch(e: nat, topo: Topology, d: seq<int>) returns (acquiring: set<nat>)
      requires Between(e) && Routed(topo, d, n)
      modifies this
      ensures During(topo, d, e) && Injected(View()) == Due(bundles, perEpoch, if e < injectEpochs then e + 1 else injectEpochs)
      ensures old(log) <= log && old(done) <= done && old(inflight) <= inflight
      ensures batches == if optical then old(batches) + Those(old(open), topo, false) else old(batches)
      ensures acquiring == if optical && old(prevCross).Some? then topo.cross - old(prevCross).value else {}
      ensures MadeAt(log, |old(log)|, Clock(e, 0)) && forall h :: |old(log)| <= h < |log| ==> log[h].prev.App?
      ensures prevCross == if optical then Some(topo.cross) else old(prevCross)
    {
      hide Clock, Going, Settled, Routed, Books, Up, Due, Those;
      acquiring := {};
      ghost var s := View();
      SettledParts(s, n, e);
      DueNext(bundles, perEpoch, e);
      InjectsAll(bundles, injectEpochs);
      if optical {
        if prevCross.Some? { acquiring := topo.cross - prevCross.value; }
        prevCross := Some(topo.cross);
        ThoseAre(open, topo, true);
        CloseContacts(topo);
      }
      EpochStarts(s, View(), n, optical, topo, d, e);
      if e < injectEpochs { Inject(topo, d, e); }
    }

    /** One epoch. */
    method Epoch(e: nat, topo: Topology)
      requires Between(e) && WellFormed(topo, n)
      modifies this
      ensures Between(e + 1)
      ensures EpochDone(old(View()), View(), n, optical, topo, ticksPerEpoch, e)
      ensures old(InTime(log, Clock(e, 0))) ==> InTime(log, Clock(e + 1, 0))
      ensures optical ==> prevCross == Some(topo.cross)
      ensures optical && old(prevCross).Some? ==>
                NotBefore(log, |old(log)|, Clock(e, acqTicks), topo.cross - old(prevCross).value)
    {
      hide NotBefore, InTime, MadeAt, Clock, Going, Settled, AreDistances, WellFormed, Books, EpochDone, Due, Rank, Those;
      WellFormedRange(topo, n);
      var table := Distances.Distances(topo.adj, topo.order);
      var d := table[..];
      ghost var s := View();
      var acquiring := BeginEpoch(e, topo, d);
      ghost var s1 := View();
      if InTime(s.log, Clock(e, 0)) { LaterStillInTime(s.log, Clock(e, 0), log, Clock(e, 0)); }
      ClockTicks(e, 0);
      Ticks(0, topo, d, acquiring, e);
      ghost var s2 := View();
      InjectionsCrossNone(s.log, s1.log, Clock(e, acqTicks), acquiring);
      if optical { NotBeforeFrom(s1.log, |s.log|, |s1.log|, Clock(e, acqTicks), acquiring, s2.log); }
      GoingParts(s2, n, optical, topo, d, e);
      if !optical { SignAll(); }
      EpochEnds(s2, View(), n, optical, topo, d, e);
      EpochIsDone(s, s1, s2, View(), n, optical, topo, d, ticksPerEpoch, e);
    }

    /** A whole run. Afterwards every record is signed. */
    method Run(epochs: nat, topology: nat -> Topology)
      requires Between(0) && log == [] && forall e :: 0 <= e < epochs ==> WellFormed(topology(e), n)
      modifies this
      ensures open == [] && hopEvents == |log| && storedTicks == Stored(View()) && Accounted(View(), n)
      ensures epochs >= injectEpochs ==> |inflight| + |done| == bundles
      ensures InTime(log, Clock(epochs, 0))
    {
      hide Settled, Books, Accounted, Clock;
      for e := 0 to epochs
        invariant Between(e) && InTime(log, Clock(e, 0))
      {
        Epoch(e, topology(e));
      }
      if epochs >= injectEpochs { InjectsAll(bundles, injectEpochs); }
      SettledParts(View(), n, epochs);
      ghost var s := View();
      if optical { SignAll(); }
      RunEnds(s, View(), n, epochs);
    }

    /** The route change evidence: how many delivered bundles were still in flight when the topology
        changed, how many waited, and how many took longer than the shortest route when they started.
        The last kind is among the first. */
    method Evidence() returns (crossedEpoch: nat, waited: nat, detoured: nat)
      requires Accounted(View(), n)
      ensures crossedEpoch == HowMany(done, CrossedEpoch)
      ensures waited == HowMany(done, Delayed)
      ensures detoured == HowMany(done, Detoured)
      ensures detoured <= crossedEpoch <= |done|
    {
      hide Books, Fleet;
      crossedEpoch, waited, detoured := 0, 0, 0;
      for i := 0 to |done|
        invariant crossedEpoch == HowMany(done[..i], CrossedEpoch)
        invariant waited == HowMany(done[..i], Delayed)
        invariant detoured == HowMany(done[..i], Detoured)
        invariant detoured <= crossedEpoch <= i
      {
        var b := done[i];
        assert Direct(b);
        assert done[..i + 1][..i] == done[..i];
        if b.arrived.value > b.born { crossedEpoch := crossedEpoch + 1; }
        if b.waited > 0 { waited := waited + 1; }
        if b.minHops.Some? && |b.path| - 1 > b.minHops.value { detoured := detoured + 1; }
      }
      assert done[..|done|] == done;
    }
  }

  predicate CrossedEpoch(b: Bundle) {
    b.arrived.Some? && b.arrived.value > b.born
  }

  predicate Delayed(b: Bundle) {
    b.waited > 0
  }

  predicate Detoured(b: Bundle) {
    b.minHops.Some? && |b.path| - 1 > b.minHops.value
  }

  /** The number of bundles of a kind. */
  function HowMany(bs: seq<Bundle>, kind: Bundle -> bool): nat {
    if bs == [] then 0 else HowMany(bs[..|bs| - 1], kind) + if kind(bs[|bs| - 1]) then 1 else 0
  }

  /** What a finished run's records and counters are worth. */
  ghost predicate Accounted(s: State, n: nat) {
    && Fleet(s, n) && Books([], s.batches, s.log)
    && |s.log| == CountIds(s.batches)
    && (forall i, link :: 0 <= i < |s.inflight| ==> EveryHopSigned(s.batches, s.inflight[i], link))
    && (forall i, link :: 0 <= i < |s.done| ==> EveryHopSigned(s.batches, s.done[i], link))
    && (forall i :: 0 <= i < |s.done| ==> Direct(s.done[i]))
  }

  /** The bundle is in exactly as many signed records for the link as it has crossed it. */
  ghost predicate EveryHopSigned(batches: seq<Record>, b: Bundle, link: (Prev, Node)) {
    Holding(batches, b.id, link) == CountIn(Steps(b.src, b.path), link)
  }

  lemma RunEnds(s: State, s': State, n: nat, epochs: nat)
    requires Settled(s, n, epochs) && s' == s.(open := [], batches := s'.batches) && Books([], s'.batches, s'.log)
    ensures Accounted(s', n)
  {
    hide Books, Trace, Steps, CountIds, Holding, CountIn;
    HopsAreIds(s'.batches, s'.log);
    forall i, link | 0 <= i < |s.inflight| ensures EveryHopSigned(s'.batches, s.inflight[i], link) {
      assert OnRoute(s.inflight[i], s.log, Injected(s), n);
      EveryHopInOneRecord(s'.batches, s.log, s.inflight[i].id, s.inflight[i].src, s.inflight[i].path, link);
    }
    forall i, link | 0 <= i < |s.done| ensures EveryHopSigned(s'.batches, s.done[i], link) {
      assert OnRoute(s.done[i], s.log, Injected(s), n);
      EveryHopInOneRecord(s'.batches, s.log, s.done[i].id, s.done[i].src, s.done[i].path, link);
    }
  }

  lemma NoneLeft(s: seq<nat>)
    ensures s == [] <==> forall m :: m !in s
  {
    if s != [] { assert s[0] in s; }
  }

  lemma WellFormedRange(topo: Topology, n: nat)
    requires WellFormed(topo, n)
    ensures InRange(topo.adj, topo.order) && |topo.adj| == n
  {
  }

  /** What an epoch does. Optical: first of all the contacts whose link is down are signed, and those open
      at the end are up. RF: each link's record is signed once, and every bundle that began the epoch
      with a route short enough for its ticks was delivered in it. */
  ghost predicate EpochDone(s: State, s': State, n: nat, optical: bool, topo: Topology, ticks: nat, e: nat) {
    && s.log <= s'.log && s.done <= s'.done && s.batches <= s'.batches
    && (optical ==> AllUp(s'.open, topo) && s.batches + Those(s.open, topo, false) <= s'.batches)
    && (!optical ==> DistinctLinks(s'.batches[|s.batches|..]))
    && (!optical ==> forall d :: Routed(topo, d, n) ==> InReachArrive(s.inflight, ticks, s'.done, topo, d, e))
  }

  lemma EpochIsDone(s: State, s1: State, s2: State, s': State, n: nat, optical: bool, topo: Topology, d: seq<int>, ticks: nat, e: nat)
    requires Routed(topo, d, n) && s' == s2.(open := s'.open, batches := s'.batches)
    requires s.log <= s1.log <= s2.log && s.done <= s1.done <= s2.done && s.inflight <= s1.inflight
    requires s1.batches <= s2.batches
    requires if optical then s1.batches == s.batches + Those(s.open, topo, false) && s'.open == s2.open && AllUp(s2.open, topo) && s'.batches == s2.batches
             else s1.batches == s.batches == s2.batches && s'.batches == s2.batches + s2.open && DistinctLinks(s2.open)
    requires !optical ==> InReachArrive(s1.inflight, ticks, s2.done, topo, d, e)
    ensures EpochDone(s, s', n, optical, topo, ticks, e)
  {
    hide AreDistances, Up, Those, InReachArrive;
    if !optical {
      assert s'.batches[|s.batches|..] == s2.open;
      EarlierArriveToo(s.inflight, s1.inflight, ticks, s2.done, topo, d, e);
      forall d' | Routed(topo, d', n) ensures InReachArrive(s.inflight, ticks, s'.done, topo, d', e) {
        DistancesAreUnique(topo.adj, topo.order, d, d');
      }
    }
  }

  lemma EarlierArriveToo(before: seq<Bundle>, after: seq<Bundle>, r: int, done: seq<Bundle>, topo: Topology, d: seq<int>, e: nat)
    requires before <= after && InReachArrive(after, r, done, topo, d, e)
    ensures InReachArrive(before, r, done, topo, d, e)
  {
    forall i | 0 <= i < |before| && 0 <= Rank(topo, d, before[i].at) <= r ensures Arrived(done, before[i].id, e) {
      assert after[i] == before[i];
    }
  }

  lemma DueNext(bundles: nat, perEpoch: nat, e: nat)
    ensures Due(bundles, perEpoch, e) <= bundles
    ensures Due(bundles, perEpoch, e + 1) == if bundles <= Due(bundles, perEpoch, e) + perEpoch then bundles else Due(bundles, perEpoch, e) + perEpoch
  {
    assert perEpoch * (e + 1) == perEpoch * e + perEpoch;
  }

  /** Signing the first of the records still to be looked at. */
  lemma SignKeepsBooks(kept: seq<Record>, rest: seq<Record>, batches: seq<Record>, log: seq<Event>)
    requires rest != [] && Books(kept + rest, batches, log)
    ensures Books(kept + rest[1..], batches + [rest[0]], log)
  {
    hide Sound, Total;
    var r := rest[0];
    assert rest == [r] + rest[1..];
    assert kept + rest == kept + [r] + rest[1..];
    TotalConcat(kept, rest);
    TotalConcat([r], rest[1..]);
    TotalConcat(kept, rest[1..]);
    TotalConcat(batches, [r]);
    assert AllSound(batches + [r]) by { assert (kept + rest)[|kept|] == r; }
    assert AllSound(kept + rest[1..]) && DistinctLinks(kept + rest[1..]) by { WithoutOne(kept + rest, kept, rest[1..], r); }
  }

  lemma KeepKeepsBooks(kept: seq<Record>, rest: seq<Record>, batches: seq<Record>, log: seq<Event>)
    requires rest != [] && Books(kept + rest, batches, log)
    ensures Books(kept + [rest[0]] + rest[1..], batches, log)
  {
    assert kept + [rest[0]] + rest[1..] == kept + rest;
  }

  lemma FirstSigned(rest: seq<Record>, batches: seq<Record>, log: seq<Event>)
    requires rest != [] && Books(rest, batches, log)
    ensures Books(rest[1..], batches + [rest[0]], log)
  {
    hide Books;
    assert [] + rest == rest && [] + rest[1..] == rest[1..];
    SignKeepsBooks([], rest, batches, log);
  }

  lemma WithoutOne(all: seq<Record>, kept: seq<Record>, rest: seq<Record>, r: Record)
    requires all == kept + [r] + rest && AllSound(all) && DistinctLinks(all)
    ensures AllSound(kept + rest) && DistinctLinks(kept + rest)
  {
    hide Sound;
    assert forall i :: 0 <= i < |kept + rest| ==> (kept + rest)[i] == all[if i < |kept| then i else i + 1];
  }

  lemma Associates(a: multiset<Event>, b: multiset<Event>, c: multiset<Event>)
    ensures (a + b) + c == a + (b + c)
  {
  }

  lemma {:induction false} TotalConcat(a: seq<Record>, b: seq<Record>)
    ensures Total(a + b) == Total(a) + Total(b)
    decreases |b|
  {
    hide Events;
    if b == [] {
      assert a + b == a;
    } else {
      var last := |b| - 1;
      TotalConcat(a, b[..last]);
      assert (a + b)[..|a| + last] == a + b[..last] && (a + b)[|a| + last] == b[last];
      Associates(Total(a), Total(b[..last]), multiset(Events(b[last])));
    }
  }

  lemma CapacityKept(hops: seq<Event>, load: map<nat, nat>, perTick: nat, closed: set<nat>)
    requires LinkRules(hops, load, perTick, closed)
    ensures WithinCapacity(hops, perTick, closed)
  {
    hide Code, PairCode, Carried;
    forall i: nat, m: nat ensures Carried(hops, i, m) <= perTick {
      assert Carried(hops, i, m) <= LoadOf(load, Code(i, m));
    }
  }

  /** A hop and a wait touch nothing in flight before the bundle. */
  lemma HopFrame(s: State, j: nat, next: Node, t: int, e: nat)
    requires j < |s.inflight|
    ensures var s' := AfterHop(s, j, next, t, e);
            && Injected(s') == Injected(s) && s'.log == s.log + [HopEvent(s.inflight[j], next, t)] && s.done <= s'.done
            && s.batches <= s'.batches && |s'.inflight| >= j && s'.inflight[..j] == s.inflight[..j]
  {
    hide OpenAfter;
  }

  lemma WaitFrame(s: State, j: nat)
    requires j < |s.inflight|
    ensures var s' := AfterWait(s, j);
            && Injected(s') == Injected(s) && s'.log == s.log && s'.done == s.done && s'.batches == s.batches
            && |s'.inflight| == |s.inflight| && s'.inflight[..j] == s.inflight[..j] && s'.inflight[j..][1..] == s.inflight[j + 1..]
  {
  }

  /** The bundle that hopped is a hop closer, or there. */
  lemma HopProgress(s: State, j: nat, next: Node, t: int, topo: Topology, d: seq<int>, e: nat)
    requires j < |s.inflight| && Rank(topo, d, next) == Rank(topo, d, s.inflight[j].at) - 1 >= 0
    ensures var s' := AfterHop(s, j, next, t, e);
            && s.done <= s'.done
            && Reached(s'.inflight[j..], s'.done, topo, d, s.inflight[j].id, Rank(topo, d, next), e)
            && s'.inflight[j..] == (if next == Operations then [] else [Hopped(s.inflight[j], next)]) + s.inflight[j + 1..]
  {
    hide OpenAfter, BatchesAfter, Rank;
    var s' := AfterHop(s, j, next, t, e);
    if next == Operations {
      assert s'.done[|s.done|].id == s.inflight[j].id;
    } else {
      assert s'.inflight[j..][0] == Hopped(s.inflight[j], next);
    }
  }

  // ---- Between epochs -------------------------------------------------------------------------------------

  ghost predicate Settled(s: State, n: nat, e: nat) {
    && Books(s.open, s.batches, s.log) && Fleet(s, n) && KnownIds(s)
    && (forall i :: 0 <= i < |s.inflight| ==> s.inflight[i].born < e && s.inflight[i].arrived.None?)
    && (forall i :: 0 <= i < |s.done| ==> Direct(s.done[i]))
  }

  lemma SettledParts(s: State, n: nat, e: nat)
    requires Settled(s, n, e)
    ensures Books(s.open, s.batches, s.log)
  {
  }

  lemma GoingParts(s: State, n: nat, optical: bool, topo: Topology, d: seq<int>, e: nat)
    requires Going(s, n, optical, topo, d, e)
    ensures Routed(topo, d, n) && |d| == n && Books(s.open, s.batches, s.log) && DistinctLinks(s.open)
    ensures forall i :: 0 <= i < |s.inflight| ==>
              s.inflight[i].at != Operations && (s.inflight[i].at.Sat? ==> s.inflight[i].at.i < n)
    ensures optical ==> AllUp(s.open, topo)
  {
  }

  lemma EpochStarts(s: State, s': State, n: nat, optical: bool, topo: Topology, d: seq<int>, e: nat)
    requires Settled(s, n, e) && Routed(topo, d, n)
    requires s' == s.(open := s'.open, batches := s'.batches) && Books(s'.open, s'.batches, s'.log)
    requires forall r :: r in s'.open ==> r in s.open
    requires if optical then AllUp(s'.open, topo) else s'.open == []
    ensures Going(s', n, optical, topo, d, e)
  {
    hide Books, AreDistances, Up, Rank, Trace, Steps, DistinctIds;
  }

  lemma EpochEnds(s: State, s': State, n: nat, optical: bool, topo: Topology, d: seq<int>, e: nat)
    requires Going(s, n, optical, topo, d, e)
    requires s' == s.(open := s'.open, batches := s'.batches) && Books(s'.open, s'.batches, s'.log)
    requires s'.open == s.open || s'.open == []
    ensures Settled(s', n, e + 1)
  {
    hide Books, AreDistances, Up, Rank, Trace, Steps, DistinctIds;
    forall i | 0 <= i < |s.inflight| ensures s.inflight[i].born < e + 1 { assert BornBy(s.inflight[i], topo, d, e); }
  }

  function Due(bundles: nat, perEpoch: nat, epochs: nat): nat {
    if bundles <= perEpoch * epochs then bundles else perEpoch * epochs
  }

  /** By the last injecting epoch all bundles have been injected. */
  lemma InjectsAll(bundles: nat, injectEpochs: nat)
    requires injectEpochs > 0
    ensures var perEpoch := (bundles + injectEpochs - 1) / injectEpochs;
            perEpoch * injectEpochs >= bundles && Due(bundles, perEpoch, injectEpochs) == bundles && Due(bundles, perEpoch, 0) == 0
  {
    var perEpoch := (bundles + injectEpochs - 1) / injectEpochs;
    assert perEpoch * injectEpochs + (bundles + injectEpochs - 1) % injectEpochs == bundles + injectEpochs - 1;
  }
}
