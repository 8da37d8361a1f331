/**
 The custody records of constellation/sim.mjs: who took which bundles over from whom, and when. A hop
 goes into the record open for its link; a bundle coming back over that link closes the record first.
 */
module CustodyBook {
  import opened Wrappers

  datatype Node = Sat(i: nat) | Station(g: nat) | Operations

  /** What a node took a bundle over from: the application aboard a satellite, or another node. */
  datatype Prev = App(src: nat) | From(node: Node)

  datatype Event = Event(id: nat, prev: Prev, node: Node, t: int)

  datatype Record = Record(
    node: Node, prev: Prev, ids: seq<nat>, times: seq<int>, seen: set<nat>, from: int, to: int, epoch: nat)

  // ---- One record ------------------------------------------------------------------------------------

  /** No bundle twice, and an interval that is exactly the span of its times. */
  ghost predicate Sound(r: Record) {
    && |r.ids| == |r.times| > 0
    && (forall x :: x in r.seen <==> x in r.ids)
    && (forall i, j :: 0 <= i < j < |r.ids| ==> r.ids[i] != r.ids[j])
    && (forall i :: 0 <= i < |r.times| ==> r.from <= r.times[i] <= r.to)
    && r.from in r.times && r.to in r.times
  }

  function Opened(ev: Event, e: nat): Record {
    Record(ev.node, ev.prev, [ev.id], [ev.t], {ev.id}, ev.t, ev.t, e)
  }

  function Extended(r: Record, id: nat, t: int): Record {
    r.(ids := r.ids + [id], times := r.times + [t], seen := r.seen + {id},
       to := if r.to < t then t else r.to, from := if t < r.from then t else r.from)
  }

  ghost function EventsOf(ids: seq<nat>, times: seq<int>, prev: Prev, node: Node): seq<Event>
    requires |ids| == |times|
  {
    seq(|ids|, i requires 0 <= i < |ids| => Event(ids[i], prev, node, times[i]))
  }

  ghost function Events(r: Record): seq<Event> {
    if |r.ids| == |r.times| then EventsOf(r.ids, r.times, r.prev, r.node) else []
  }

  lemma OpenedIsSound(ev: Event, e: nat)
    ensures Sound(Opened(ev, e)) && Events(Opened(ev, e)) == [ev]
  {
    var r := Opened(ev, e);
    assert r.times[0] in r.times;
  }

  lemma ExtendedIsSound(r: Record, ev: Event)
    requires Sound(r) && ev.id !in r.seen && ev.node == r.node && ev.prev == r.prev
    ensures Sound(Extended(r, ev.id, ev.t)) && Events(Extended(r, ev.id, ev.t)) == Events(r) + [ev]
  {
    var x := Extended(r, ev.id, ev.t);
    assert forall i :: 0 <= i < |r.times| ==> x.times[i] == r.times[i];
    assert x.times[|r.times|] == ev.t;
    assert forall t :: t in r.times || t == ev.t ==> t in x.times;
    assert forall y :: y in x.ids <==> y in r.ids || y == ev.id;
  }

  // ---- Lists of records ---------------------------------------------------------------------------------

  /** Everything the records hold. */
  ghost function Total(rs: seq<Record>): multiset<Event> {
    if rs == [] then multiset{} else Total(rs[..|rs| - 1]) + multiset(Events(rs[|rs| - 1]))
  }

  lemma TotalAppend(rs: seq<Record>, r: Record)
    ensures Total(rs + [r]) == Total(rs) + multiset(Events(r))
  {
    assert (rs + [r])[..|rs|] == rs;
  }

  /** If a + o is b + n, they stay equal with z added to each, however that is arranged. */
  lemma Rearranged(a: multiset<Event>, o: multiset<Event>, b: multiset<Event>, n: multiset<Event>, z: multiset<Event>)
    requires a + o == b + n
    ensures (a + z) + o == (b + z) + n
    ensures (z + o) + a == (z + b) + n
  {
    forall x ensures a[x] + o[x] == b[x] + n[x] { assert (a + o)[x] == (b + n)[x]; }
  }

  /** What was there on both sides can be left out. */
  lemma Cancelled(a: multiset<Event>, o: multiset<Event>, b: multiset<Event>, n: multiset<Event>, z: multiset<Event>)
    requires a + o == b + (o + n)
    ensures z + a == (z + b) + n
  {
    forall x ensures a[x] == b[x] + n[x] { assert (a + o)[x] == (b + (o + n))[x]; }
  }

  lemma {:induction false} TotalUpdate(rs: seq<Record>, i: nat, r: Record)
    requires i < |rs|
    ensures Total(rs[i := r]) + multiset(Events(rs[i])) == Total(rs) + multiset(Events(r))
    decreases |rs|
  {
    hide Events;
    var last := |rs| - 1;
    if i == last {
      assert rs[i := r][..last] == rs[..last];
    } else {
      TotalUpdate(rs[..last], i, r);
      assert rs[i := r][..last] == rs[..last][i := r] && rs[i := r][last] == rs[last];
      assert Total(rs[i := r]) == Total(rs[..last][i := r]) + multiset(Events(rs[last]));
      Rearranged(Total(rs[..last][i := r]), multiset(Events(rs[i])), Total(rs[..last]), multiset(Events(r)), multiset(Events(rs[last])));
    }
  }

  ghost predicate DistinctLinks(rs: seq<Record>) {
    forall i, j :: 0 <= i < j < |rs| ==> rs[i].node != rs[j].node || rs[i].prev != rs[j].prev
  }

  ghost predicate AllSound(rs: seq<Record>) {
    forall i :: 0 <= i < |rs| ==> Sound(rs[i])
  }

  /** The books balance: open and signed records are sound, one is open per link, and together they
      hold every hop logged, once. */
  ghost predicate Books(open: seq<Record>, batches: seq<Record>, log: seq<Event>) {
    && AllSound(open) && AllSound(batches) && DistinctLinks(open)
    && Total(batches) + Total(open) == multiset(log)
  }

  // ---- Taking a bundle over --------------------------------------------------------------------------------

  /** Which open record is for this link. */
  function Find(open: seq<Record>, node: Node, prev: Prev): (k: nat)
    ensures k <= |open|
    ensures k < |open| ==> open[k].node == node && open[k].prev == prev
    ensures forall i :: 0 <= i < k ==> open[i].node != node || open[i].prev != prev
  {
    if open == [] then 0
    else if open[0].node == node && open[0].prev == prev then 0
    else 1 + Find(open[1..], node, prev)
  }

  /** The open record that already holds the bundle for this link must be closed first. */
  predicate Loops(open: seq<Record>, ev: Event) {
    var k := Find(open, ev.node, ev.prev);
    k < |open| && ev.id in open[k].seen
  }

  function OpenAfter(open: seq<Record>, ev: Event, e: nat): seq<Record> {
    var k := Find(open, ev.node, ev.prev);
    if k == |open| then open + [Opened(ev, e)]
    else if Loops(open, ev) then open[k := Opened(ev, e)]
    else open[k := Extended(open[k], ev.id, ev.t)]
  }

  function BatchesAfter(open: seq<Record>, batches: seq<Record>, ev: Event): seq<Record> {
    if Loops(open, ev) then batches + [open[Find(open, ev.node, ev.prev)]] else batches
  }

  lemma TakeKeepsBooks(open: seq<Record>, batches: seq<Record>, log: seq<Event>, ev: Event, e: nat)
    requires Books(open, batches, log)
    ensures Books(OpenAfter(open, ev, e), BatchesAfter(open, batches, ev), log + [ev])
  {
    hide Sound, Events, Opened, Extended, Find, Total;
    var k := Find(open, ev.node, ev.prev);
    LinkKept(open, ev, e);
    OpenedIsSound(ev, e);
    if k == |open| {
      TotalAppend(open, Opened(ev, e));
    } else if Loops(open, ev) {
      TotalUpdate(open, k, Opened(ev, e));
      TotalAppend(batches, open[k]);
      Rearranged(Total(open[k := Opened(ev, e)]), multiset(Events(open[k])), Total(open), multiset{ev}, Total(batches));
    } else {
      ExtendedIsSound(open[k], ev);
      var more := Extended(open[k], ev.id, ev.t);
      TotalUpdate(open, k, more);
      Cancelled(Total(open[k := more]), multiset(Events(open[k])), Total(open), multiset{ev}, Total(batches));
    }
  }

  lemma LinkKept(open: seq<Record>, ev: Event, e: nat)
    requires DistinctLinks(open)
    ensures DistinctLinks(OpenAfter(open, ev, e))
  {
  }

  /** Only the record of the link taken over changes, and all it gains is the bundle. */
  lemma OnlyThatRecord(open: seq<Record>, ev: Event, e: nat, r: Record)
    requires r in OpenAfter(open, ev, e)
    ensures || r in open
            || (r.node == ev.node && r.prev == ev.prev
                && forall x :: x in r.seen ==> x == ev.id || exists o :: o in open && o.node == r.node && o.prev == r.prev && x in o.seen)
  {
    var k := Find(open, ev.node, ev.prev);
    if r !in open && k < |open| && !Loops(open, ev) {
      assert r == Extended(open[k], ev.id, ev.t);
      assert open[k] in open;
    }
  }

  /** A record is closed early only for a bundle it already holds. */
  lemma NoLoopNoSplit(open: seq<Record>, batches: seq<Record>, ev: Event)
    requires forall o :: o in open && o.node == ev.node && o.prev == ev.prev ==> ev.id !in o.seen
    ensures BatchesAfter(open, batches, ev) == batches
  {
    var k := Find(open, ev.node, ev.prev);
    if k < |open| { assert open[k] in open; }
  }

  // ---- Reading a bundle's path off the log ----------------------------------------------------------------------

  /** A bundle's hops in the order logged. */
  ghost function Trace(log: seq<Event>, id: nat): seq<(Prev, Node)> {
    if log == [] then []
    else
      var last := log[|log| - 1];
      Trace(log[..|log| - 1], id) + if last.id == id then [(last.prev, last.node)] else []
  }

  /** The hops of a path: from the application to the first satellite, then node to node. */
  ghost function Steps(src: nat, path: seq<Node>): seq<(Prev, Node)> {
    if path == [] then []
    else if |path| == 1 then [(App(src), path[0])]
    else Steps(src, path[..|path| - 1]) + [(From(path[|path| - 2]), path[|path| - 1])]
  }

  lemma TraceAppend(log: seq<Event>, ev: Event, id: nat)
    ensures Trace(log + [ev], id) == Trace(log, id) + if ev.id == id then [(ev.prev, ev.node)] else []
  {
    assert (log + [ev])[..|log|] == log;
  }

  lemma StepsAppend(src: nat, path: seq<Node>, next: Node)
    requires path != []
    ensures Steps(src, path + [next]) == Steps(src, path) + [(From(path[|path| - 1]), next)]
  {
    assert (path + [next])[..|path|] == path;
  }

  lemma {:induction false} UnknownHasNoTrace(log: seq<Event>, id: nat)
    requires forall i :: 0 <= i < |log| ==> log[i].id != id
    ensures Trace(log, id) == []
    decreases |log|
  {
    if log != [] { UnknownHasNoTrace(log[..|log| - 1], id); }
  }

  // ---- Every hop is in exactly one record -------------------------------------------------------------------------

  ghost predicate Hop(ev: Event, id: nat, link: (Prev, Node)) {
    ev.id == id && ev.prev == link.0 && ev.node == link.1
  }

  ghost function CountHops(log: seq<Event>, id: nat, link: (Prev, Node)): nat {
    if log == [] then 0
    else CountHops(log[..|log| - 1], id, link) + if Hop(log[|log| - 1], id, link) then 1 else 0
  }

  ghost function CountIn(s: seq<(Prev, Node)>, link: (Prev, Node)): nat {
    multiset(s)[link]
  }

  /** How many of the records are for this link and hold the bundle. */
  ghost function Holding(rs: seq<Record>, id: nat, link: (Prev, Node)): nat {
    if rs == [] then 0
    else
      var r := rs[|rs| - 1];
      Holding(rs[..|rs| - 1], id, link) + if r.prev == link.0 && r.node == link.1 && id in r.seen then 1 else 0
  }

  lemma {:induction false} TraceCounts(log: seq<Event>, id: nat, link: (Prev, Node))
    ensures CountIn(Trace(log, id), link) == CountHops(log, id, link)
    decreases |log|
  {
    if log != [] { TraceCounts(log[..|log| - 1], id, link); }
  }

  lemma CountRemove(log: seq<Event>, k: nat, id: nat, link: (Prev, Node))
    requires k < |log|
    ensures CountHops(log, id, link) == CountHops(log[..k] + log[k + 1..], id, link) + if Hop(log[k], id, link) then 1 else 0
  {
    hide Hop;
    CountConcat(log[..k], [log[k]], id, link);
    CountConcat(log[..k] + [log[k]], log[k + 1..], id, link);
    CountConcat(log[..k], log[k + 1..], id, link);
    assert log == log[..k] + [log[k]] + log[k + 1..];
    assert [log[k]][..0] == [];
  }

  lemma TakenOut(s: seq<Event>, k: nat)
    requires k < |s|
    ensures multiset(s[..k] + s[k + 1..]) == multiset(s) - multiset{s[k]}
  {
    assert s == s[..k] + [s[k]] + s[k + 1..];
  }

  lemma {:induction false} CountIsOfMultiset(a: seq<Event>, b: seq<Event>, id: nat, link: (Prev, Node))
    requires multiset(a) == multiset(b)
    ensures CountHops(a, id, link) == CountHops(b, id, link)
    decreases |a|
  {
    hide Hop;
    if a == [] {
      assert |multiset(b)| == 0;
    } else {
      var last := |a| - 1;
      assert a[last] in multiset(b);
      var k :| 0 <= k < |b| && b[k] == a[last];
      assert multiset(a[..last]) == multiset(b[..k] + b[k + 1..]) by {
        TakenOut(a, last);
        TakenOut(b, k);
        assert a[..last] + a[last + 1..] == a[..last];
      }
      CountIsOfMultiset(a[..last], b[..k] + b[k + 1..], id, link);
      CountRemove(b, k, id, link);
    }
  }

  /** The events of all records, in one list. */
  ghost function Flat(rs: seq<Record>): seq<Event> {
    if rs == [] then [] else Flat(rs[..|rs| - 1]) + Events(rs[|rs| - 1])
  }

  lemma {:induction false} FlatIsTotal(rs: seq<Record>)
    ensures multiset(Flat(rs)) == Total(rs)
    decreases |rs|
  {
    if rs != [] { FlatIsTotal(rs[..|rs| - 1]); }
  }

  lemma {:induction false} CountConcat(a: seq<Event>, b: seq<Event>, id: nat, link: (Prev, Node))
    ensures CountHops(a + b, id, link) == CountHops(a, id, link) + CountHops(b, id, link)
    decreases |b|
  {
    hide Hop;
    if b == [] {
      assert a + b == a;
    } else {
      var last := |b| - 1;
      CountConcat(a, b[..last], id, link);
      assert (a + b)[..|a| + last] == a + b[..last];
    }
  }

  /** A sound record holds a bundle once or not at all. */
  lemma {:induction false} CountInRecord(ids: seq<nat>, times: seq<int>, prev: Prev, node: Node, id: nat, link: (Prev, Node))
    requires |ids| == |times| && forall i, j :: 0 <= i < j < |ids| ==> ids[i] != ids[j]
    ensures CountHops(EventsOf(ids, times, prev, node), id, link) == if prev == link.0 && node == link.1 && id in ids then 1 else 0
    decreases |ids|
  {
    if ids != [] {
      var last := |ids| - 1;
      CountInRecord(ids[..last], times[..last], prev, node, id, link);
      assert EventsOf(ids, times, prev, node)[..last] == EventsOf(ids[..last], times[..last], prev, node);
      assert id in ids <==> id in ids[..last] || id == ids[last];
    }
  }

  lemma {:induction false} FlatCounts(rs: seq<Record>, id: nat, link: (Prev, Node))
    requires AllSound(rs)
    ensures CountHops(Flat(rs), id, link) == Holding(rs, id, link)
    decreases |rs|
  {
    if rs != [] {
      var r := rs[|rs| - 1];
      assert Sound(r);
      FlatCounts(rs[..|rs| - 1], id, link);
      CountConcat(Flat(rs[..|rs| - 1]), Events(r), id, link);
      CountInRecord(r.ids, r.times, r.prev, r.node, id, link);
    }
  }

  /** Main result: with every record signed, a bundle that crossed a link so many times is in exactly
      that many signed records for the link. */
  lemma EveryHopInOneRecord(batches: seq<Record>, log: seq<Event>, id: nat, src: nat, path: seq<Node>, link: (Prev, Node))
    requires Books([], batches, log) && Trace(log, id) == Steps(src, path)
    ensures Holding(batches, id, link) == CountIn(Steps(src, path), link)
  {
    hide Sound, Hop;
    TraceCounts(log, id, link);
    FlatIsTotal(batches);
    CountIsOfMultiset(Flat(batches), log, id, link);
    FlatCounts(batches, id, link);
  }

  /** How many ids the records list. */
  ghost function CountIds(rs: seq<Record>): nat {
    if rs == [] then 0 else CountIds(rs[..|rs| - 1]) + |rs[|rs| - 1].ids|
  }

  lemma {:induction false} TotalSize(rs: seq<Record>)
    requires AllSound(rs)
    ensures |Total(rs)| == CountIds(rs)
    decreases |rs|
  {
    if rs != [] {
      assert Sound(rs[|rs| - 1]);
      TotalSize(rs[..|rs| - 1]);
    }
  }

  /** The hop counter is the number of ids in the records. */
  lemma HopsAreIds(batches: seq<Record>, log: seq<Event>)
    requires Books([], batches, log)
    ensures |log| == CountIds(batches)
  {
    TotalSize(batches);
    assert |Total(batches)| == |multiset(log)|;
  }
}
