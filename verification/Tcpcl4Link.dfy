/**
 Two TCPCLv4 sessions joined by a connection, and every run of the pair: sends from either side,
 messages delivered in order, timeouts, the connection cut at any point, either side closing.

 Here the connection carries whole messages, in order, up to where it is cut (section 3 of RFC 9174
 runs over TCP). Tcpcl4Octets has the octets, and maps every run over octets to one of these.
 */
module Tcpcl4Link {
  import opened Wrappers
  import opened Bytes
  import opened Framing
  import opened Tcpcl4Wire
  import opened Tcpcl4Session

  /** One end: its session and segment limit; what it was asked to send, in order of transfer id;
      which of those sends have resolved; the bundles it has emitted; and the messages on their way
      to it, with whether the connection towards it has been cut. */
  datatype End = End(
    s: State, segmentMru: nat,
    sent: seq<seq<byte>>, resolved: set<nat>, emitted: seq<seq<byte>>,
    inbox: seq<Msg>, cut: bool)

  datatype Link = Link(a: End, b: End)

  function NewState(transferMru: nat, peerSegmentMru: nat, peerTransferMru: nat): State {
    State(Established, transferMru, peerSegmentMru, peerTransferMru, 0, map[], map[], map[])
  }

  function NewEnd(segmentMru: nat, transferMru: nat, peerSegmentMru: nat, peerTransferMru: nat): End {
    End(NewState(transferMru, peerSegmentMru, peerTransferMru), segmentMru, [], {}, [], [], false)
  }

  /** Both sessions established, each with the limits the other announced. */
  function NewLink(segA: nat, xferA: nat, segB: nat, xferB: nat): Link {
    Link(NewEnd(segA, xferA, segB, xferB), NewEnd(segB, xferB, segA, xferA))
  }

  // ---- Steps -----------------------------------------------------------------------------------------

  /** Bytes written by one end, after which they are on their way to the other unless it is cut off. */
  function Carry(to: End, out: seq<Msg>): End {
    if to.cut then to else to.(inbox := to.inbox + out)
  }

  function After(e: End, x: Effect): End {
    e.(s := x.s, emitted := e.emitted + x.emitted, resolved := e.resolved + x.resolved)
  }

  datatype Step =
    | Send(bundle: seq<byte>)     // the application calls send
    | Deliver                     // the next message arrives and is handled
    | Timeout(id: nat)            // a send gives up waiting
    | Close                       // teardown
    | Say(m: Msg)                 // a keepalive, or the SESS_TERM that begins a close
    | Cut(kept: nat)              // the connection towards this end dies, `kept` messages still in it

  /** A step at end `me`, with `peer` at the other side; both as they are afterwards. */
  function StepAt(me: End, peer: End, step: Step): (End, End) {
    match step
    case Send(bundle) =>
      var x := SendBundle(me.s, bundle);
      (After(me, x).(sent := if MaySend(me.s, bundle) then me.sent + [bundle] else me.sent), Carry(peer, x.out))
    case Deliver =>
      if me.inbox == [] || me.s.phase.Closed? then (me, peer)
      else
        var m := Heard(me.inbox[..1], me.segmentMru)[0];
        if !AfterHeader(m) then (me, peer)
        else
          var x := Handle(me.s, m);
          (After(me, x).(inbox := me.inbox[1..]), Carry(peer, x.out))
    case Timeout(id) => (me.(s := me.s.(pending := me.s.pending - {id})), peer)
    case Close => (me.(s := Teardown(me.s)), peer)
    case Say(m) => (me, if me.s.phase.Closed? || !(m.Keepalive? || m.SessTerm?) then peer else Carry(peer, [m]))
    case Cut(kept) => (if kept <= |me.inbox| then me.(inbox := me.inbox[..kept], cut := true) else me, peer)
  }

  datatype Event = AtA(step: Step) | AtB(step: Step)

  function Next(l: Link, e: Event): Link {
    match e
    case AtA(step) => var (a, b) := StepAt(l.a, l.b, step); Link(a, b)
    case AtB(step) => var (b, a) := StepAt(l.b, l.a, step); Link(a, b)
  }

  function Run(l: Link, es: seq<Event>): Link {
    if es == [] then l else Next(Run(l, es[..|es| - 1]), es[|es| - 1])
  }

  // ---- What holds of one direction -------------------------------------------------------------------

  function Segments(ms: seq<Msg>): seq<Msg> {
    if ms == [] then [] else (if ms[0].Segment? then [ms[0]] else []) + Segments(ms[1..])
  }

  /** All segments of the transfers from number `from` on. */
  function SegmentsOfAll(sent: seq<seq<byte>>, from: nat, size: nat): seq<Msg>
    requires size > 0 && from <= |sent|
    decreases |sent| - from
  {
    if from == |sent| then [] else SegmentsFrom(from, sent[from], size, 0) + SegmentsOfAll(sent, from + 1, size)
  }

  /** How much of the transfer now being received has arrived. */
  function Received(t: End): nat {
    if |t.emitted| in t.s.rxBytes then t.s.rxBytes[|t.emitted|] else 0
  }

  /** Segments that complete what is being received and bring every later transfer. */
  function Remainder(f: End, t: End): seq<Msg>
    requires |t.emitted| <= |f.sent|
    requires |t.emitted| == |f.sent| ==> Received(t) == 0
    requires |t.emitted| < |f.sent| ==> Received(t) <= |f.sent[|t.emitted|]|
  {
    var d, size := |t.emitted|, SegmentSize(f.s.peerSegmentMru);
    if d == |f.sent| then []
    else SegmentsFrom(d, f.sent[d], size, Received(t)) + SegmentsOfAll(f.sent, d + 1, size)
  }

  /** The receiver holds the beginning of the first transfer it has not emitted, and nothing else. */
  ghost predicate Holding(f: End, t: End) {
    var d := |t.emitted|;
    && t.s.rx.Keys == t.s.rxBytes.Keys <= {d}
    && (d in t.s.rx ==>
          && d < |f.sent| && 0 < t.s.rxBytes[d] < |f.sent[d]|
          && Concat(t.s.rx[d]) == f.sent[d][..t.s.rxBytes[d]])
  }

  /** From `f` to `t`: what has been emitted is what was sent, in order and once each; the segments on
      their way are what is still missing (up to a cut); and every final acknowledgement on its way
      back, like every resolved send, is of a bundle already emitted. */
  ghost predicate Direction(f: End, t: End) {
    && f.s.peerTransferMru == t.s.transferMru
    && f.s.nextId == |f.sent|
    && (forall i :: 0 <= i < |f.sent| ==> |f.sent[i]| <= t.s.transferMru)
    && |t.emitted| <= |f.sent| && t.emitted == f.sent[..|t.emitted|]
    && (t.s.phase.Established? ==> Holding(f, t) && Incoming(f, t))
    && (forall m :: m in f.inbox && m.Ack? && IsEnd(m.flags) ==> m.transferId < |t.emitted|)
    && (forall id :: id in f.resolved ==> id < |t.emitted|)
    && (forall id :: id in f.s.pending ==> id < |f.sent| && f.s.pending[id] == |f.sent[id]|)
  }

  ghost predicate Incoming(f: End, t: End) {
    && |t.emitted| <= |f.sent|
    && (|t.emitted| == |f.sent| ==> Received(t) == 0)
    && (|t.emitted| < |f.sent| ==> Received(t) <= |f.sent[|t.emitted|]|)
    && Segments(t.inbox) <= Remainder(f, t)
    && (!t.cut ==> Segments(t.inbox) == Remainder(f, t))
  }

  ghost predicate Inv(l: Link) {
    && Direction(l.a, l.b) && Direction(l.b, l.a)
    && (forall m :: m in l.a.inbox ==> AfterHeader(m) && !m.TooBig?)
    && (forall m :: m in l.b.inbox ==> AfterHeader(m) && !m.TooBig?)
  }

  // ---- Lists of segments --------------------------------------------------------------------------------

  lemma {:induction false} SegmentsAppend(x: seq<Msg>, y: seq<Msg>)
    ensures Segments(x + y) == Segments(x) + Segments(y)
  {
    if x == [] {
      assert x + y == y;
    } else {
      SegmentsAppend(x[1..], y);
      assert (x + y)[1..] == x[1..] + y;
    }
  }

  lemma {:induction false} SegmentsOfSegments(x: seq<Msg>)
    requires forall i :: 0 <= i < |x| ==> x[i].Segment?
    ensures Segments(x) == x
  {
    if x != [] {
      SegmentsOfSegments(x[1..]);
      assert [x[0]] + x[1..] == x;
    }
  }

  lemma {:induction false} NoSegments(x: seq<Msg>)
    requires forall i :: 0 <= i < |x| ==> !x[i].Segment?
    ensures Segments(x) == []
  {
    if x != [] { NoSegments(x[1..]); }
  }

  lemma {:induction false} TransferIsSegments(id: nat, bundle: seq<byte>, size: nat, off: nat)
    requires size > 0 && off <= |bundle|
    ensures forall m :: m in SegmentsFrom(id, bundle, size, off) ==> m.Segment?
    decreases |bundle| - off
  {
    hide SegmentsFrom;
    FirstSegment(id, bundle, size, off);
    var end := Min(off + size, |bundle|);
    if end < |bundle| { TransferIsSegments(id, bundle, size, end); }
  }

  /** A new transfer comes after all others. */
  lemma {:induction false} SegmentsOfMore(sent: seq<seq<byte>>, bundle: seq<byte>, from: nat, size: nat)
    requires size > 0 && from <= |sent|
    ensures SegmentsOfAll(sent + [bundle], from, size) == SegmentsOfAll(sent, from, size) + SegmentsFrom(|sent|, bundle, size, 0)
    decreases |sent| - from
  {
    hide SegmentsFrom;
    if from < |sent| {
      SegmentsOfMore(sent, bundle, from + 1, size);
      assert (sent + [bundle])[from] == sent[from];
    } else {
      assert SegmentsOfAll(sent + [bundle], from + 1, size) == [];
    }
  }

  // ---- A step at the sender keeps the direction ----------------------------------------------------------

  lemma SendKeepsDirection(f: End, t: End, bundle: seq<byte>)
    requires Direction(f, t)
    ensures var (f', t') := StepAt(f, t, Send(bundle)); Direction(f', t')
  {
    hide SegmentsFrom, Concat, Segments, SegmentSize, Incoming;
    assert t.inbox + [] == t.inbox;
    if MaySend(f.s, bundle) {
      var (f', t') := StepAt(f, t, Send(bundle));
      assert f'.sent == f.sent + [bundle];
      assert f'.sent[..|t.emitted|] == f.sent[..|t.emitted|];
      if t.s.phase.Established? { SendKeepsIncoming(f, t, bundle, f', t'); }
    } else {
      assert f.emitted + [] == f.emitted && f.resolved + {} == f.resolved;
      assert StepAt(f, t, Send(bundle)) == (f, t);
    }
  }

  lemma SendKeepsIncoming(f: End, t: End, bundle: seq<byte>, f': End, t': End)
    requires Incoming(f, t)
    requires f'.sent == f.sent + [bundle] && f'.s.peerSegmentMru == f.s.peerSegmentMru
    requires t' == Carry(t, SegmentsFrom(|f.sent|, bundle, SegmentSize(f.s.peerSegmentMru), 0))
    ensures Incoming(f', t')
  {
    hide SegmentsFrom, SegmentsOfAll, Segments, SegmentSize;
    var size := SegmentSize(f.s.peerSegmentMru);
    var more := SegmentsFrom(|f.sent|, bundle, size, 0);
    RemainderOfMore(f, t, bundle, f', t');
    SegmentsAppend(t.inbox, more);
    TransferIsSegments(|f.sent|, bundle, size, 0);
    SegmentsOfSegments(more);
  }

  lemma RemainderOfMore(f: End, t: End, bundle: seq<byte>, f': End, t': End)
    requires Incoming(f, t)
    requires f'.sent == f.sent + [bundle] && f'.s.peerSegmentMru == f.s.peerSegmentMru
    requires t'.emitted == t.emitted && t'.s == t.s
    ensures Remainder(f', t') == Remainder(f, t) + SegmentsFrom(|f.sent|, bundle, SegmentSize(f.s.peerSegmentMru), 0)
  {
    hide SegmentsFrom, Segments;
    var d, size := |t.emitted|, SegmentSize(f.s.peerSegmentMru);
    if d < |f.sent| {
      SegmentsOfMore(f.sent, bundle, d + 1, size);
    } else {
      assert SegmentsOfAll(f'.sent, d + 1, size) == [];
    }
  }

  /** Handling a message writes no segment and acknowledges only a segment. */
  lemma HandleOutput(s: State, m: Msg)
    requires AfterHeader(m)
    ensures forall x :: x in Handle(s, m).out ==> AfterHeader(x) && !x.TooBig? && !x.Segment?
    ensures !m.Segment? ==> forall x :: x in Handle(s, m).out ==> !x.Ack?
    ensures !m.Segment? ==> Handle(s, m).emitted == [] && Handle(s, m).s.rx == s.rx && Handle(s, m).s.rxBytes == s.rxBytes
    ensures Handle(s, m).s.phase.Established? ==> s.phase.Established?
    ensures Handle(s, m).s.nextId == s.nextId && Handle(s, m).s.transferMru == s.transferMru
    ensures Handle(s, m).s.peerTransferMru == s.peerTransferMru && Handle(s, m).s.peerSegmentMru == s.peerSegmentMru
    ensures forall id :: id in Handle(s, m).s.pending ==> id in s.pending && Handle(s, m).s.pending[id] == s.pending[id]
    ensures forall id :: id in Handle(s, m).resolved ==> m.Ack? && IsEnd(m.flags) && m.transferId == id
  {
    hide Concat;
  }

  /** What `f` hears when the first message of its inbox is m. */
  function Arriving(e: End): Msg
    requires e.inbox != []
  {
    Heard(e.inbox[..1], e.segmentMru)[0]
  }

  lemma ArrivingIs(e: End)
    requires e.inbox != []
    ensures Arriving(e) == if e.inbox[0].Segment? && |e.inbox[0].data| > e.segmentMru then TooBig(|e.inbox[0].data|) else e.inbox[0]
  {
  }

  lemma SenderHearsKeepsDirection(f: End, t: End)
    requires Direction(f, t) && f.inbox != [] && AfterHeader(f.inbox[0])
    ensures var (f', t') := StepAt(f, t, Deliver); Direction(f', t')
  {
    hide SegmentsFrom, Concat, Segments, Handle, Remainder;
    if !f.s.phase.Closed? {
      ArrivingIs(f);
      var m := Arriving(f);
      assert AfterHeader(m);
      HandleOutput(f.s, m);
      var (f', t') := StepAt(f, t, Deliver);
      var out := Handle(f.s, m).out;
      NoSegments(out);
      SegmentsAppend(t.inbox, out);
      assert Segments(t.inbox) + [] == Segments(t.inbox);
      assert m.Ack? ==> m in f.inbox;
      if t.s.phase.Established? {
        assert Remainder(f', t') == Remainder(f, t) by { SameRemainder(f, t, f', t'); }
      }
    }
  }

  lemma SameRemainder(f: End, t: End, f': End, t': End)
    requires Incoming(f, t)
    requires f'.sent == f.sent && f'.s.peerSegmentMru == f.s.peerSegmentMru
    requires t'.emitted == t.emitted && t'.s.rxBytes == t.s.rxBytes
    ensures Incoming(f', t'.(inbox := t.inbox, cut := t.cut))
    ensures Remainder(f', t') == Remainder(f, t)
  {
    hide SegmentsFrom, Segments;
  }

  lemma SenderOtherKeepsDirection(f: End, t: End, step: Step)
    requires Direction(f, t) && (step.Timeout? || step.Close? || step.Say? || step.Cut?)
    ensures var (f', t') := StepAt(f, t, step); Direction(f', t')
  {
    hide SegmentsFrom, Concat, Segments, Remainder;
    var (f', t') := StepAt(f, t, step);
    if t.s.phase.Established? {
      if step.Say? && !step.m.Segment? {
        NoSegments([step.m]);
        SegmentsAppend(t.inbox, [step.m]);
        assert Segments(t.inbox) + [] == Segments(t.inbox);
      }
      SameRemainder(f, t, f', t');
    }
  }

  // ---- A step at the receiver keeps the direction ---------------------------------------------------------

  lemma FirstOfSegments(ms: seq<Msg>)
    requires ms != [] && ms[0].Segment?
    ensures Segments(ms) == [ms[0]] + Segments(ms[1..])
  {
  }

  /** What is missing begins with the next segment of the transfer being received. */
  lemma FirstOfRemainder(f: End, t: End)
    requires Incoming(f, t) && |t.emitted| < |f.sent|
    ensures var d, size := |t.emitted|, SegmentSize(f.s.peerSegmentMru);
            var end := Min(Received(t) + size, |f.sent[d]|);
            Remainder(f, t) == [Segment(SegmentFlags(Received(t) == 0, end == |f.sent[d]|), d, f.sent[d][Received(t)..end])]
                               + ((if end == |f.sent[d]| then [] else SegmentsFrom(d, f.sent[d], size, end)) + SegmentsOfAll(f.sent, d + 1, size))
  {
    hide SegmentsFrom, SegmentsOfAll, Segments, SegmentFlags, SegmentSize, Received;
    FirstSegment(|t.emitted|, f.sent[|t.emitted|], SegmentSize(f.s.peerSegmentMru), Received(t));
  }

  lemma NothingRemains(f: End, t: End)
    requires Incoming(f, t) && |t.emitted| == |f.sent|
    ensures Remainder(f, t) == []
  {
    hide Segments;
  }

  /** The next segment on its way is the next one of the transfer being received. */
  lemma NextSegment(f: End, t: End)
    requires Direction(f, t) && t.s.phase.Established? && t.inbox != [] && t.inbox[0].Segment?
    ensures var d, size := |t.emitted|, SegmentSize(f.s.peerSegmentMru);
            && d < |f.sent| && Received(t) <= |f.sent[d]| && Remainder(f, t) != []
            && var end := Min(Received(t) + size, |f.sent[d]|);
               && t.inbox[0] == Segment(SegmentFlags(Received(t) == 0, end == |f.sent[d]|), d, f.sent[d][Received(t)..end])
               && Remainder(f, t)[1..] == (if end == |f.sent[d]| then [] else SegmentsFrom(d, f.sent[d], size, end)) + SegmentsOfAll(f.sent, d + 1, size)
               && Segments(t.inbox) != [] && Segments(t.inbox[1..]) == Segments(t.inbox)[1..]
  {
    hide SegmentsFrom, SegmentsOfAll, Segments, Concat, Holding, Remainder, SegmentFlags, SegmentSize, Received;
    FirstOfSegments(t.inbox);
    assert Segments(t.inbox)[0] == t.inbox[0];
    if |t.emitted| == |f.sent| { NothingRemains(f, t); }
    FirstOfRemainder(f, t);
    assert Remainder(f, t)[0] == Segments(t.inbox)[0];
  }

  /** Received in the middle of a transfer, a segment is kept and acknowledged. */
  lemma MiddleSegment(f: End, t: End, off: nat, end: nat)
    requires Direction(f, t) && t.s.phase.Established? && |t.emitted| < |f.sent|
    requires off == Received(t) < end < |f.sent[|t.emitted|]|
    ensures var d := |t.emitted|;
            var flags := SegmentFlags(off == 0, false);
            var x := OnSegment(t.s, flags, d, f.sent[d][off..end]);
            && x.out == [Ack(flags, d, end)] && x.emitted == [] && x.resolved == {}
            && x.s.rx.Keys == x.s.rxBytes.Keys == {d} && x.s.rxBytes[d] == end && Concat(x.s.rx[d]) == f.sent[d][..end]
            && x.s == t.s.(rx := x.s.rx, rxBytes := x.s.rxBytes)
  {
    hide SegmentsFrom, SegmentsOfAll, Concat, Segments;
    var d := |t.emitted|;
    var parts := if off == 0 then [] else t.s.rx[d];
    ConcatLast(parts, f.sent[d][off..end]);
    assert f.sent[d][..off] + f.sent[d][off..end] == f.sent[d][..end];
  }

  /** The last segment completes the bundle, which is handed up as it was sent. */
  lemma LastSegment(f: End, t: End, off: nat)
    requires Direction(f, t) && t.s.phase.Established? && |t.emitted| < |f.sent|
    requires off == Received(t) <= |f.sent[|t.emitted|]|
    ensures var d := |t.emitted|;
            var flags := SegmentFlags(off == 0, true);
            var x := OnSegment(t.s, flags, d, f.sent[d][off..]);
            && x.out == [Ack(flags, d, |f.sent[d]|)] && x.emitted == [f.sent[d]] && x.resolved == {}
            && x.s == t.s.(rx := map[], rxBytes := map[])
  {
    hide SegmentsFrom, SegmentsOfAll, Concat, Segments;
    var d := |t.emitted|;
    var parts := if off == 0 then [] else t.s.rx[d];
    ConcatLast(parts, f.sent[d][off..]);
    assert f.sent[d][..off] + f.sent[d][off..] == f.sent[d];
    assert (if off == 0 then t.s.rx[d := []] else t.s.rx) - {d} == map[];
    assert (if off == 0 then t.s.rxBytes[d := 0] else t.s.rxBytes) - {d} == map[];
  }

  lemma SegmentArrivalKeepsDirection(f: End, t: End)
    requires Direction(f, t) && t.s.phase.Established?
    requires t.inbox != [] && t.inbox[0].Segment? && |t.inbox[0].data| <= t.segmentMru
    ensures var (t', f') := StepAt(t, f, Deliver); Direction(f', t')
  {
    hide SegmentsFrom, Concat, Segments, OnSegment, Incoming, Holding, SegmentsOfAll, SegmentFlags, SegmentSize;
    ArrivingIs(t);
    NextSegment(f, t);
    var d, off, size := |t.emitted|, Received(t), SegmentSize(f.s.peerSegmentMru);
    var end := Min(off + size, |f.sent[d]|);
    var (t', f') := StepAt(t, f, Deliver);
    if end == |f.sent[d]| {
      assert f.sent[d][off..end] == f.sent[d][off..];
      LastSegment(f, t, off);
      assert t'.emitted == f.sent[..d] + [f.sent[d]] == f.sent[..d + 1];
      assert Holding(f', t') by { HoldsNothing(f', t'); }
    } else {
      MiddleSegment(f, t, off, end);
      assert t'.emitted == t.emitted;
      assert Holding(f', t') by { HoldsPart(f', t'); }
    }
    OneSegmentLess(f, t, f', t');
  }

  lemma HoldsNothing(f: End, t: End)
    requires t.s.rx == map[] && t.s.rxBytes == map[]
    ensures Holding(f, t)
  {
  }

  lemma HoldsPart(f: End, t: End)
    requires var d := |t.emitted|;
             && d < |f.sent| && t.s.rx.Keys == t.s.rxBytes.Keys == {d}
             && 0 < t.s.rxBytes[d] < |f.sent[d]| && Concat(t.s.rx[d]) == f.sent[d][..t.s.rxBytes[d]]
    ensures Holding(f, t)
  {
  }

  /** After the next segment has been taken in, one less is missing and one less on its way. */
  lemma OneSegmentLess(f: End, t: End, f': End, t': End)
    requires Direction(f, t) && t.s.phase.Established? && t.inbox != [] && t.inbox[0].Segment?
    requires f'.sent == f.sent && f'.s.peerSegmentMru == f.s.peerSegmentMru
    requires t'.inbox == t.inbox[1..] && t'.cut == t.cut
    requires var d := |t.emitted|;
             d < |f.sent| &&
             var end := Min(Received(t) + SegmentSize(f.s.peerSegmentMru), |f.sent[d]|);
             if end == |f.sent[d]| then |t'.emitted| == d + 1 && t'.s.rxBytes == map[]
             else t'.emitted == t.emitted && Received(t') == end
    ensures Incoming(f', t')
  {
    hide SegmentsFrom, Concat, Segments, Holding;
    NextSegment(f, t);
    var d := |t.emitted|;
    if |t'.emitted| == d + 1 {
      assert d + 1 < |f.sent| ==> Received(t') == 0;
      if d + 1 == |f.sent| {
        assert SegmentsOfAll(f.sent, d + 1, SegmentSize(f.s.peerSegmentMru)) == [];
        assert Remainder(f', t') == [] == Remainder(f, t)[1..];
      } else {
        assert Remainder(f', t') == Remainder(f, t)[1..];
      }
    } else {
      assert Remainder(f', t') == Remainder(f, t)[1..];
    }
    PrefixTail(Segments(t.inbox), Remainder(f, t));
  }

  lemma PrefixTail<T>(x: seq<T>, y: seq<T>)
    requires x != [] && x <= y
    ensures x[1..] <= y[1..]
  {
  }

  lemma OtherArrivalKeepsDirection(f: End, t: End)
    requires Direction(f, t) && t.inbox != [] && AfterHeader(t.inbox[0])
    requires t.inbox[0].Segment? && t.s.phase.Established? ==> |t.inbox[0].data| > t.segmentMru
    ensures var (t', f') := StepAt(t, f, Deliver); Direction(f', t')
  {
    hide SegmentsFrom, Concat, Handle, Remainder;
    if !t.s.phase.Closed? {
      ArrivingIs(t);
      var m := Arriving(t);
      assert AfterHeader(m);
      HandleOutput(t.s, m);
      var (t', f') := StepAt(t, f, Deliver);
      QuietArrival(t.s, m);
      if t'.s.phase.Established? {
        assert !t.inbox[0].Segment?;
        assert Segments(t.inbox) == Segments(t.inbox[1..]);
        SameRemainder(f, t, f', t');
      }
    }
  }

  /** A message that is not a segment of an established session neither emits nor acknowledges. */
  lemma QuietArrival(s: State, m: Msg)
    requires AfterHeader(m) && (m.Segment? ==> !s.phase.Established?)
    ensures Handle(s, m).emitted == [] && forall x :: x in Handle(s, m).out ==> !x.Ack?
    ensures m.TooBig? ==> Handle(s, m).s.phase.Closed?
  {
    hide Concat;
  }

  lemma {:induction false} SegmentsOfPrefix(x: seq<Msg>, k: nat)
    requires k <= |x|
    ensures Segments(x[..k]) <= Segments(x)
  {
    SegmentsAppend(x[..k], x[k..]);
    assert x[..k] + x[k..] == x;
  }

  lemma ReceiverOtherKeepsDirection(f: End, t: End, step: Step)
    requires Direction(f, t) && !step.Deliver?
    ensures var (t', f') := StepAt(t, f, step); Direction(f', t')
  {
    hide SegmentsFrom, Concat, Segments, Remainder;
    var (t', f') := StepAt(t, f, step);
    if step.Send? && MaySend(t.s, step.bundle) {
      TransferIsSegments(t.s.nextId, step.bundle, SegmentSize(t.s.peerSegmentMru), 0);
    }
    if t'.s.phase.Established? {
      SameRemainder(f, t, f', t');
      if step.Cut? && step.kept <= |t.inbox| {
        SegmentsOfPrefix(t.inbox, step.kept);
      }
    }
  }

  // ---- Every run ------------------------------------------------------------------------------------------

  /** Everything on its way is a message the parser can deliver. */
  lemma MessagesStayProper(me: End, peer: End, step: Step)
    requires forall m :: m in me.inbox ==> AfterHeader(m) && !m.TooBig?
    requires forall m :: m in peer.inbox ==> AfterHeader(m) && !m.TooBig?
    ensures var (me', peer') := StepAt(me, peer, step);
            && (forall m :: m in me'.inbox ==> AfterHeader(m) && !m.TooBig?)
            && (forall m :: m in peer'.inbox ==> AfterHeader(m) && !m.TooBig?)
  {
    hide SegmentsFrom, Concat, Handle;
    if step.Send? {
      TransferIsSegments(me.s.nextId, step.bundle, SegmentSize(me.s.peerSegmentMru), 0);
    } else if step.Deliver? && me.inbox != [] {
      ArrivingIs(me);
      assert me.inbox[0] in me.inbox;
      if AfterHeader(Arriving(me)) { HandleOutput(me.s, Arriving(me)); }
    }
  }

  lemma StepKeepsBoth(me: End, peer: End, step: Step)
    requires Direction(me, peer) && Direction(peer, me)
    requires forall m :: m in me.inbox ==> AfterHeader(m) && !m.TooBig?
    ensures var (me', peer') := StepAt(me, peer, step); Direction(me', peer') && Direction(peer', me')
  {
    hide Direction, StepAt;
    match step
    case Send(bundle) =>
      SendKeepsDirection(me, peer, bundle);
      ReceiverOtherKeepsDirection(peer, me, step);
    case Deliver =>
      if me.inbox == [] {
        NothingToDeliver(me, peer);
      } else {
        assert me.inbox[0] in me.inbox;
        SenderHearsKeepsDirection(me, peer);
        if me.s.phase.Established? && me.inbox[0].Segment? && |me.inbox[0].data| <= me.segmentMru {
          SegmentArrivalKeepsDirection(peer, me);
        } else {
          OtherArrivalKeepsDirection(peer, me);
        }
      }
    case _ =>
      SenderOtherKeepsDirection(me, peer, step);
      ReceiverOtherKeepsDirection(peer, me, step);
  }

  lemma NothingToDeliver(me: End, peer: End)
    requires me.inbox == []
    ensures StepAt(me, peer, Deliver) == (me, peer)
  {
  }

  lemma NextKeepsInv(l: Link, e: Event)
    requires Inv(l)
    ensures Inv(Next(l, e))
  {
    hide Direction, StepAt, AfterHeader;
    match e
    case AtA(step) => StepKeepsBoth(l.a, l.b, step); MessagesStayProper(l.a, l.b, step);
    case AtB(step) => StepKeepsBoth(l.b, l.a, step); MessagesStayProper(l.b, l.a, step);
  }

  lemma {:induction false} RunKeepsInv(l: Link, es: seq<Event>)
    requires Inv(l)
    ensures Inv(Run(l, es))
  {
    hide Inv, Next;
    if es != [] {
      RunKeepsInv(l, es[..|es| - 1]);
      NextKeepsInv(Run(l, es[..|es| - 1]), es[|es| - 1]);
    }
  }

  lemma NewLinkInv(segA: nat, xferA: nat, segB: nat, xferB: nat)
    ensures Inv(NewLink(segA, xferA, segB, xferB))
  {
  }

  /** Main result. In every run, in both directions at once, an end has emitted exactly the first of
      the bundles the other was asked to send, in order and once each; and a send has resolved only
      if its bundle is among them. */
  lemma SendResolvesOnlyIfEmitted(segA: nat, xferA: nat, segB: nat, xferB: nat, es: seq<Event>)
    ensures var l := Run(NewLink(segA, xferA, segB, xferB), es);
            && l.b.emitted <= l.a.sent && l.a.emitted <= l.b.sent
            && (forall id :: id in l.a.resolved ==> id < |l.b.emitted| && l.b.emitted[id] == l.a.sent[id])
            && (forall id :: id in l.b.resolved ==> id < |l.a.emitted| && l.a.emitted[id] == l.b.sent[id])
  {
    hide Run, NewLink, Holding, Incoming;
    NewLinkInv(segA, xferA, segB, xferB);
    RunKeepsInv(NewLink(segA, xferA, segB, xferB), es);
  }

  /** Conservation: once nothing is on its way any more, and the receiver is still up and never was
      cut off, everything sent has been emitted. */
  lemma QuietLinkHasDelivered(segA: nat, xferA: nat, segB: nat, xferB: nat, es: seq<Event>)
    ensures var l := Run(NewLink(segA, xferA, segB, xferB), es);
            && (l.b.s.phase.Established? && !l.b.cut && l.b.inbox == [] ==> l.b.emitted == l.a.sent)
            && (l.a.s.phase.Established? && !l.a.cut && l.a.inbox == [] ==> l.a.emitted == l.b.sent)
  {
    hide Run, NewLink, Direction;
    NewLinkInv(segA, xferA, segB, xferB);
    RunKeepsInv(NewLink(segA, xferA, segB, xferB), es);
    var l := Run(NewLink(segA, xferA, segB, xferB), es);
    if l.b.s.phase.Established? && !l.b.cut && l.b.inbox == [] { NothingMissing(l.a, l.b); }
    if l.a.s.phase.Established? && !l.a.cut && l.a.inbox == [] { NothingMissing(l.b, l.a); }
  }

  lemma NothingMissing(f: End, t: End)
    requires Direction(f, t) && t.s.phase.Established? && !t.cut && t.inbox == []
    ensures t.emitted == f.sent
  {
    hide SegmentsFrom, Concat;
    var d := |t.emitted|;
    assert Remainder(f, t) == Segments([]) == [];
    if d < |f.sent| {
      FirstSegment(d, f.sent[d], SegmentSize(f.s.peerSegmentMru), Received(t));
    } else {
      assert f.sent[..d] == f.sent;
    }
  }

  // ---- Every send settles -------------------------------------------------------------------------------------

  predicate IsFinalAck(m: Msg, id: nat, total: nat) {
    m.Ack? && IsEnd(m.flags) && m.transferId == id && m.acked == total
  }

  ghost predicate AnswerDue(inbox: seq<Msg>, id: nat, total: nat) {
    exists m :: m in inbox && IsFinalAck(m, id, total)
  }

  ghost predicate AllAnswered(f: End, t: End) {
    forall id :: id in f.s.pending && id < |t.emitted| ==> AnswerDue(f.inbox, id, f.s.pending[id])
  }

  predicate NoRefusal(ms: seq<Msg>) {
    forall m :: m in ms ==> !m.Refuse?
  }

  /** No refusal is on its way to `f`; and unless it has closed or is cut off, the final acknowledgement of every
      bundle emitted whose send still waits is. */
  ghost predicate Owed(f: End, t: End) {
    NoRefusal(f.inbox) && (!f.cut && !f.s.phase.Closed? ==> AllAnswered(f, t))
  }

  /** Unless it has closed, each of its sends waits, has resolved, or is among those that gave up. */
  ghost predicate Settles(f: End, gaveUp: set<nat>) {
    !f.s.phase.Closed? ==> forall id :: 0 <= id < |f.sent| ==> id in f.s.pending || id in f.resolved || id in gaveUp
  }

  lemma AnswerStillDue(inbox: seq<Msg>, id: nat, total: nat)
    requires inbox != [] && AnswerDue(inbox, id, total) && !IsFinalAck(inbox[0], id, total)
    ensures AnswerDue(inbox[1..], id, total)
  {
    var m :| m in inbox && IsFinalAck(m, id, total);
    assert inbox == [inbox[0]] + inbox[1..];
  }

  lemma AnswersRemain(inbox: seq<Msg>, more: seq<Msg>, id: nat, total: nat)
    requires AnswerDue(inbox, id, total) || AnswerDue(more, id, total)
    ensures AnswerDue(inbox + more, id, total)
  {
    if AnswerDue(inbox, id, total) {
      var m :| m in inbox && IsFinalAck(m, id, total);
      assert m in inbox + more;
    } else {
      var m :| m in more && IsFinalAck(m, id, total);
      assert m in inbox + more;
    }
  }

  /** A message heard by the sender settles just what it should. */
  lemma HandledBySender(s: State, m: Msg)
    requires AfterHeader(m) && !m.Refuse?
    ensures var x := Handle(s, m);
            && (forall id :: id in s.pending && IsFinalAck(m, id, s.pending[id]) ==> id in x.resolved && id !in x.s.pending)
            && (!x.s.phase.Closed? ==> forall id :: id in s.pending && !IsFinalAck(m, id, s.pending[id]) ==>
                  id in x.s.pending && x.s.pending[id] == s.pending[id])
            && (forall id :: id in x.s.pending ==> id in s.pending && x.s.pending[id] == s.pending[id])
  {
    hide Concat;
  }

  lemma SenderHearsOwed(f: End, t: End, gaveUp: set<nat>)
    requires Owed(f, t) && Settles(f, gaveUp) && f.inbox != [] && AfterHeader(f.inbox[0])
    ensures var (f', t') := StepAt(f, t, Deliver); Owed(f', t') && Settles(f', gaveUp)
  {
    hide Handle, AnswerDue;
    if !f.s.phase.Closed? {
      ArrivingIs(f);
      var m := Arriving(f);
      assert f.inbox[0] in f.inbox;
      HandledBySender(f.s, m);
      var (f', t') := StepAt(f, t, Deliver);
      assert NoRefusal(f'.inbox) by { assert forall x :: x in f.inbox[1..] ==> x in f.inbox; }
      if !f'.cut && !f'.s.phase.Closed? {
        forall id | id in f'.s.pending && id < |t.emitted| ensures AnswerDue(f'.inbox, id, f'.s.pending[id]) {
          AnswerStillDue(f.inbox, id, f.s.pending[id]);
        }
      }
    }
  }

  lemma SenderOtherOwed(f: End, t: End, step: Step, gaveUp: set<nat>)
    requires Owed(f, t) && Settles(f, gaveUp) && f.s.nextId == |f.sent| && |t.emitted| <= |f.sent| && !step.Deliver?
    ensures var (f', t') := StepAt(f, t, step); Owed(f', t') && Settles(f', if step.Timeout? then gaveUp + {step.id} else gaveUp)
  {
    hide SegmentsFrom, AnswerDue;
    var (f', t') := StepAt(f, t, step);
    assert NoRefusal(f'.inbox) by {
      if step.Cut? && step.kept <= |f.inbox| { assert forall m :: m in f.inbox[..step.kept] ==> m in f.inbox; }
    }
  }

  /** A bundle emitted is acknowledged, and nothing is refused. */
  lemma AnswersWritten(f: End, t: End)
    requires Direction(f, t) && t.inbox != [] && AfterHeader(t.inbox[0]) && !t.s.phase.Closed?
    ensures AfterHeader(Arriving(t))
    ensures var x := Handle(t.s, Arriving(t));
            && NoRefusal(x.out)
            && (x.emitted == [] || (|t.emitted| < |f.sent| && |x.emitted| == 1 && AnswerDue(x.out, |t.emitted|, |f.sent[|t.emitted|]|)))
  {
    hide SegmentsFrom, Concat, Segments, OnSegment, Incoming, Holding, SegmentsOfAll, SegmentFlags, SegmentSize;
    ArrivingIs(t);
    var m := Arriving(t);
    if m.Segment? && t.s.phase.Established? {
      NextSegment(f, t);
      var d, off, size := |t.emitted|, Received(t), SegmentSize(f.s.peerSegmentMru);
      var end := Min(off + size, |f.sent[d]|);
      if end == |f.sent[d]| {
        assert f.sent[d][off..end] == f.sent[d][off..];
        LastSegment(f, t, off);
        assert IsFinalAck(Handle(t.s, m).out[0], d, |f.sent[d]|);
      } else {
        MiddleSegment(f, t, off, end);
      }
    } else {
      QuietArrival(t.s, m);
      NotRefused(t.s, m);
    }
  }

  lemma NotRefused(s: State, m: Msg)
    requires AfterHeader(m) && (m.Segment? ==> !s.phase.Established?)
    ensures NoRefusal(Handle(s, m).out)
  {
  }

  lemma ReceiverHearsOwed(f: End, t: End, gaveUp: set<nat>)
    requires Owed(f, t) && Settles(f, gaveUp) && Direction(f, t) && t.inbox != [] && AfterHeader(t.inbox[0])
    ensures var (t', f') := StepAt(t, f, Deliver); Owed(f', t') && Settles(f', gaveUp)
  {
    hide Handle, AnswerDue, Holding, Incoming;
    if !t.s.phase.Closed? {
      AnswersWritten(f, t);
      var x := Handle(t.s, Arriving(t));
      var (t', f') := StepAt(t, f, Deliver);
      assert f'.s == f.s && f'.resolved == f.resolved && f'.sent == f.sent;
      if !f.cut && !f.s.phase.Closed? {
        forall id | id in f.s.pending && id < |t'.emitted| ensures AnswerDue(f'.inbox, id, f.s.pending[id]) {
          AnswersRemain(f.inbox, x.out, id, f.s.pending[id]);
        }
      }
    }
  }

  lemma ReceiverOtherOwed(f: End, t: End, step: Step, gaveUp: set<nat>)
    requires Owed(f, t) && Settles(f, gaveUp) && !step.Deliver?
    ensures var (t', f') := StepAt(t, f, step); Owed(f', t') && Settles(f', gaveUp)
  {
    hide SegmentsFrom, AnswerDue;
    var (t', f') := StepAt(t, f, step);
    var more := if f'.inbox == f.inbox then [] else f'.inbox[|f.inbox|..];
    if step.Send? && MaySend(t.s, step.bundle) {
      TransferIsSegments(t.s.nextId, step.bundle, SegmentSize(t.s.peerSegmentMru), 0);
    }
    if !f.cut && !f.s.phase.Closed? {
      forall id | id in f.s.pending && id < |t.emitted| ensures AnswerDue(f'.inbox, id, f.s.pending[id]) {
        assert f.inbox <= f'.inbox;
        assert f'.inbox == f.inbox + f'.inbox[|f.inbox|..];
        AnswersRemain(f.inbox, f'.inbox[|f.inbox|..], id, f.s.pending[id]);
      }
    }
  }

  /** The sends that gave up at an end in a run. */
  function GaveUp(es: seq<Event>, atA: bool): set<nat> {
    if es == [] then {}
    else
      var e := es[|es| - 1];
      GaveUp(es[..|es| - 1], atA) + if e.AtA? == atA && e.step.Timeout? then {e.step.id} else {}
  }

  ghost predicate Settling(l: Link, es: seq<Event>) {
    && Inv(l) && Owed(l.a, l.b) && Owed(l.b, l.a)
    && Settles(l.a, GaveUp(es, true)) && Settles(l.b, GaveUp(es, false))
  }

  lemma StepSettles(me: End, peer: End, step: Step, mine: set<nat>, others: set<nat>)
    requires Direction(me, peer) && Direction(peer, me) && Owed(me, peer) && Owed(peer, me) && Settles(me, mine) && Settles(peer, others)
    requires forall m :: m in me.inbox ==> AfterHeader(m) && !m.TooBig?
    ensures var (me', peer') := StepAt(me, peer, step);
            && Owed(me', peer') && Owed(peer', me') && Settles(peer', others)
            && Settles(me', mine + if step.Timeout? then {step.id} else {})
  {
    hide StepAt, Owed, Settles, Holding, Incoming;
    assert mine + {} == mine;
    if step.Deliver? {
      if me.inbox == [] {
        NothingToDeliver(me, peer);
      } else {
        assert me.inbox[0] in me.inbox;
        SenderHearsOwed(me, peer, mine);
        ReceiverHearsOwed(peer, me, others);
      }
    } else {
      SenderOtherOwed(me, peer, step, mine);
      ReceiverOtherOwed(peer, me, step, others);
    }
  }

  lemma {:induction false} RunSettles(l: Link, es: seq<Event>)
    requires Settling(l, [])
    ensures Settling(Run(l, es), es)
    decreases |es|
  {
    hide Direction, StepAt, Owed, Settles;
    if es != [] {
      var before, e := Run(l, es[..|es| - 1]), es[|es| - 1];
      RunSettles(l, es[..|es| - 1]);
      NextKeepsInv(before, e);
      assert GaveUp(es[..|es| - 1], true) + {} == GaveUp(es[..|es| - 1], true);
      assert GaveUp(es[..|es| - 1], false) + {} == GaveUp(es[..|es| - 1], false);
      match e
      case AtA(step) => StepSettles(before.a, before.b, step, GaveUp(es[..|es| - 1], true), GaveUp(es[..|es| - 1], false));
      case AtB(step) => StepSettles(before.b, before.a, step, GaveUp(es[..|es| - 1], false), GaveUp(es[..|es| - 1], true));
    }
  }

  lemma NewLinkSettles(segA: nat, xferA: nat, segB: nat, xferB: nat)
    ensures Settling(NewLink(segA, xferA, segB, xferB), [])
  {
  }

  /** Both sessions are up, neither direction has been cut, and nothing is on its way. */
  predicate AllQuiet(f: End, t: End) {
    && t.s.phase.Established? && !t.cut && t.inbox == []
    && !f.s.phase.Closed? && !f.cut && f.inbox == []
  }

  lemma QuietHasSettled(f: End, t: End, gaveUp: set<nat>)
    requires Direction(f, t) && Owed(f, t) && Settles(f, gaveUp) && AllQuiet(f, t)
    ensures forall id :: 0 <= id < |f.sent| ==> id in f.resolved || id in gaveUp
  {
    NothingMissing(f, t);
    hide Holding, Incoming;
  }

  lemma NoneRefused(f: End, t: End)
    requires Owed(f, t)
    ensures NoRefusal(f.inbox)
  {
    hide AnswerDue;
  }

  /** Main result, the other half: no transfer is ever refused, and once nothing is on its way between two sessions
      that are up and never were cut off, every send has resolved but those that timed out. */
  lemma QuietLinkHasResolved(segA: nat, xferA: nat, segB: nat, xferB: nat, es: seq<Event>)
    ensures var l := Run(NewLink(segA, xferA, segB, xferB), es);
            && NoRefusal(l.a.inbox) && NoRefusal(l.b.inbox)
            && (AllQuiet(l.a, l.b) ==> forall id :: 0 <= id < |l.a.sent| ==> id in l.a.resolved || id in GaveUp(es, true))
            && (AllQuiet(l.b, l.a) ==> forall id :: 0 <= id < |l.b.sent| ==> id in l.b.resolved || id in GaveUp(es, false))
  {
    hide Run, NewLink, Direction, Owed, Settles, AllQuiet, GaveUp, NoRefusal;
    NewLinkSettles(segA, xferA, segB, xferB);
    RunSettles(NewLink(segA, xferA, segB, xferB), es);
    var l := Run(NewLink(segA, xferA, segB, xferB), es);
    NoneRefused(l.a, l.b);
    NoneRefused(l.b, l.a);
    if AllQuiet(l.a, l.b) { QuietHasSettled(l.a, l.b, GaveUp(es, true)); }
    if AllQuiet(l.b, l.a) { QuietHasSettled(l.b, l.a, GaveUp(es, false)); }
  }
}
