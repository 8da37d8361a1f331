/**
 Two TCPCLv4 sessions joined by a byte stream each way: octets arrive in pieces of any size, are cut
 into messages by each end's parser, and the connection may die at any octet. Every run of these is
 matched by a run of Tcpcl4Link over whole messages, so what holds there holds down to the octets.

 The contact headers and SESS_INITs have been read: both parsers are past the header.
 */
module Tcpcl4Octets {
  import opened Wrappers
  import opened Bytes
  import opened Framing
  import opened Tcpcl4Wire
  import opened Tcpcl4Session
  import L = Tcpcl4Link

  /** One end: its session and segment limit; what it was asked to send, which of those sends have
      resolved, and the bundles it has emitted; the octets on their way to it, whether the connection
      towards it has died, and what its parser holds. */
  datatype End = End(
    s: State, segmentMru: nat,
    sent: seq<seq<byte>>, resolved: set<nat>, emitted: seq<seq<byte>>,
    wire: seq<byte>, cut: bool, buf: seq<byte>)

  datatype Link = Link(a: End, b: End)

  function NewEnd(segmentMru: nat, transferMru: nat, peerSegmentMru: nat, peerTransferMru: nat): End {
    End(L.NewState(transferMru, peerSegmentMru, peerTransferMru), segmentMru, [], {}, [], [], false, [])
  }

  /** Both sessions established, each with the limits the other announced. */
  function NewLink(segA: nat, xferA: nat, segB: nat, xferB: nat): Link {
    Link(NewEnd(segA, xferA, segB, xferB), NewEnd(segB, xferB, segA, xferA))
  }

  // ---- Steps ---------------------------------------------------------------------------------------

  /** What gets written of some messages: all, up to one whose encoder throws. */
  function Written(ms: seq<Msg>): seq<byte> {
    if ms == [] || !Encodable(ms[0]) then [] else Encode(ms[0]) + Written(ms[1..])
  }

  function Carry(to: End, out: seq<Msg>): End {
    if to.cut then to else to.(wire := to.wire + Written(out))
  }

  function After(e: End, x: Effect): End {
    e.(s := x.s, emitted := e.emitted + x.emitted, resolved := e.resolved + x.resolved)
  }

  /** A send whose segments are written: its transfer id must fit 64 bits too. */
  predicate Starts(s: State, bundle: seq<byte>) {
    MaySend(s, bundle) && s.nextId < TWO_64
  }

  datatype Step =
    | Send(bundle: seq<byte>)     // the application calls send
    | Arrive(count: nat)          // so many octets reach the parser
    | Handle                      // one turn of the receiving loop: the next whole message is handled
    | Timeout(id: nat)            // a send gives up waiting
    | Close                       // teardown
    | Say(m: Msg)                 // a keepalive, or the SESS_TERM that begins a close
    | Cut(kept: nat)              // the connection towards this end dies, `kept` octets still in it

  /** The next whole message in the parser's buffer. */
  function FirstMessage(e: End): (r: Option<Parsed<Msg>>)
    ensures r.Some? ==> r.value.used <= |e.buf| && AfterHeader(r.value.msg)
  {
    ParseNext(e.buf, true, e.segmentMru)
  }

  /** A step at end `me`, with `peer` at the other side; both as they are afterwards. Between turns of
      the receiving loop any step may come: handlers send, and close. */
  function StepAt(me: End, peer: End, step: Step): (End, End) {
    match step
    case Send(bundle) =>
      var x := SendBundle(me.s, bundle);
      (After(me, x).(sent := if Starts(me.s, bundle) then me.sent + [bundle] else me.sent), Carry(peer, x.out))
    case Arrive(count) =>
      (if count <= |me.wire| then me.(wire := me.wire[count..], buf := me.buf + me.wire[..count]) else me, peer)
    case Handle =>
      if me.s.phase.Closed? then (me, peer)
      else
        (match FirstMessage(me)
         case None => (me, peer)
         case Some(p) =>
           var x := Tcpcl4Session.Handle(me.s, p.msg);
           (After(me, x).(buf := me.buf[p.used..]), Carry(peer, x.out)))
    case Timeout(id) => (me.(s := me.s.(pending := me.s.pending - {id})), peer)
    case Close => (me.(s := Teardown(me.s)), peer)
    case Say(m) => (me, if me.s.phase.Closed? || !(m.Keepalive? || m.SessTerm?) then peer else Carry(peer, [m]))
    case Cut(kept) => (if kept <= |me.wire| then me.(wire := me.wire[..kept], cut := true) else me, peer)
  }

  datatype Event = AtA(step: Step) | AtB(step: Step)

  function Next(l: Link, e: Event): Link {
    match e
    case AtA(step) => var (a, b) := StepAt(l.a, l.b, step); Link(a, b)
    case AtB(step) => var (b, a) := StepAt(l.b, l.a, step); Link(a, b)
  }

  function Run(l: Link, es: seq<Event>): Link {
    if es == [] then l else Next(Run(l, es[..|es| - 1]), es[|es| - 1])
  }

  // ---- The same end over messages --------------------------------------------------------------------

  predicate AllEncodable(ms: seq<Msg>) {
    forall m :: m in ms ==> Encodable(m)
  }

  /** The session without the sends whose ids do not fit and so never left it. */
  function Fitting(s: State): State {
    s.(nextId := Min(s.nextId, TWO_64), pending := map id | id in s.pending && id < TWO_64 :: s.pending[id])
  }

  /** What the parser holds and what is still on the wire are, together, the octets of the messages
      on their way; or the beginning of them, when the connection has died. */
  ghost predicate Mirrors(e: End, m: L.End) {
    && m == L.End(Fitting(e.s), e.segmentMru, e.sent, e.resolved, e.emitted, m.inbox, e.cut)
    && e.s.transferMru < TWO_64 && e.s.peerTransferMru < TWO_64
    && AllEncodable(m.inbox)
    && (!e.s.phase.Closed? ==> InFlight(e, m.inbox))
  }

  ghost predicate InFlight(e: End, inbox: seq<Msg>)
    requires AllEncodable(inbox)
  {
    if e.cut then e.buf + e.wire <= EncodeAll(inbox) else e.buf + e.wire == EncodeAll(inbox)
  }

  lemma {:induction false} WrittenIsAll(ms: seq<Msg>)
    requires AllEncodable(ms)
    ensures Written(ms) == EncodeAll(ms)
  {
    hide Encode, Encodable;
    if ms != [] {
      assert ms[0] in ms;
      WrittenIsAll(ms[1..]);
    }
  }

  lemma {:induction false} WrittenBoth(x: seq<Msg>, y: seq<Msg>)
    requires AllEncodable(x)
    ensures Written(x + y) == Written(x) + Written(y)
  {
    hide Encode, Encodable;
    if x == [] {
      assert x + y == y;
    } else {
      assert x[0] in x;
      WrittenBoth(x[1..], y);
      assert (x + y)[1..] == x[1..] + y && (x + y)[0] == x[0];
      assert Encode(x[0]) + (Written(x[1..]) + Written(y)) == (Encode(x[0]) + Written(x[1..])) + Written(y);
    }
  }

  lemma EncodeBoth(x: seq<Msg>, y: seq<Msg>)
    requires AllEncodable(x) && AllEncodable(y)
    ensures AllEncodable(x + y) && EncodeAll(x + y) == EncodeAll(x) + EncodeAll(y)
  {
    hide Written, EncodeAll, Encodable;
    WrittenBoth(x, y);
    WrittenIsAll(x);
    WrittenIsAll(y);
    WrittenIsAll(x + y);
  }

  /** Messages written at one end are on their way in both views. */
  lemma CarryMirrors(e: End, m: L.End, out: seq<Msg>)
    requires Mirrors(e, m) && AllEncodable(out)
    ensures Mirrors(Carry(e, out), L.Carry(m, out))
  {
    hide EncodeAll, Written, Encodable;
    if !e.cut {
      WrittenIsAll(out);
      EncodeBoth(m.inbox, out);
      assert e.buf + (e.wire + Written(out)) == (e.buf + e.wire) + Written(out);
    }
  }

  lemma CarryBoth(e: End, x: seq<Msg>, y: seq<Msg>)
    requires AllEncodable(x)
    ensures Carry(Carry(e, x), y) == Carry(e, x + y)
  {
    hide Written, Encodable;
    WrittenBoth(x, y);
    assert e.wire + (Written(x) + Written(y)) == (e.wire + Written(x)) + Written(y);
  }

  lemma CarryNothing(e: End)
    ensures Carry(e, []) == e
  {
    assert e.wire + [] == e.wire;
  }

  // ---- One message -----------------------------------------------------------------------------------

  /** What the parser finds is the first of the messages on their way, and takes just its octets. */
  lemma ParsedIsFirst(e: End, inbox: seq<Msg>)
    requires AllEncodable(inbox) && InFlight(e, inbox) && FirstMessage(e).Some?
    ensures inbox != []
    ensures FirstMessage(e).value.msg == Heard(inbox[..1], e.segmentMru)[0]
    ensures !FirstMessage(e).value.msg.TooBig? ==> InFlight(e.(buf := e.buf[FirstMessage(e).value.used..]), inbox[1..])
  {
    hide ParseMessage, Encode, Encodable;
    var p := FirstMessage(e).value;
    var all := EncodeAll(inbox);
    assert e.buf <= all;
    var more := all[|e.buf|..];
    assert all == e.buf + more;
    ParseExtend(e.buf, more, true, e.segmentMru);
    if inbox == [] {
      NothingYet(e.segmentMru);
      assert false;
    }
    var m := inbox[0];
    assert m in inbox;
    MessageReadsBack(m, EncodeAll(inbox[1..]), e.segmentMru);
    assert all == Encode(m) + EncodeAll(inbox[1..]);
    if !p.msg.TooBig? {
      assert p.used == |Encode(m)|;
      assert all[p.used..] == EncodeAll(inbox[1..]);
      assert e.buf[p.used..] + e.wire == (e.buf + e.wire)[p.used..];
    }
  }

  lemma FittingLess(s: State, id: nat)
    ensures Fitting(s.(pending := s.pending - {id})) == (var f := Fitting(s); f.(pending := f.pending - {id}))
  {
  }

  lemma SegmentFits(s: State, flags: byte, id: nat, data: seq<byte>)
    ensures OnSegment(Fitting(s), flags, id, data) == (var x := OnSegment(s, flags, id, data); x.(s := Fitting(x.s)))
  {
    hide Concat, Min;
  }

  lemma HandleFits(s: State, m: Msg)
    requires AfterHeader(m) && ((m.Ack? || m.Refuse?) ==> m.transferId < TWO_64)
    ensures Tcpcl4Session.Handle(Fitting(s), m) == (var x := Tcpcl4Session.Handle(s, m); x.(s := Fitting(x.s)))
  {
    hide OnSegment, Min;
    match m
    case Segment(flags, id, data) => SegmentFits(s, flags, id, data);
    case Ack(_, id, _) => FittingLess(s, id);
    case Refuse(_, id) => FittingLess(s, id);
    case _ =>
  }

  lemma HandleWrites(s: State, m: Msg)
    requires AfterHeader(m) && s.transferMru < TWO_64
    requires m.TooBig? || Encodable(m)
    ensures AllEncodable(Tcpcl4Session.Handle(s, m).out)
    ensures Tcpcl4Session.Handle(s, m).s.transferMru == s.transferMru
    ensures Tcpcl4Session.Handle(s, m).s.peerTransferMru == s.peerTransferMru
    ensures m.TooBig? ==> Tcpcl4Session.Handle(s, m).s.phase.Closed?
  {
    hide Concat;
  }

  // ---- Every octet step is a step over messages, or none ----------------------------------------------

  /** The step over messages that a step over octets is, if it is one. */
  function OverMessages(me: End, m: L.End, step: Step): (ls: seq<L.Step>)
    ensures |ls| <= 1
    ensures if step.Timeout? then ls == [L.Timeout(step.id)] else forall s :: s in ls ==> !s.Timeout?
  {
    match step
    case Send(bundle) => if Starts(me.s, bundle) then [L.Send(bundle)] else []
    case Arrive(_) => []
    case Handle => if me.s.phase.Closed? || FirstMessage(me).None? then [] else [L.Deliver]
    case Timeout(id) => [L.Timeout(id)]
    case Close => [L.Close]
    case Say(msg) => [L.Say(msg)]
    case Cut(kept) => if kept <= |me.wire| then [L.Cut(|m.inbox|)] else []
  }

  ghost predicate StepMirrors(me: End, peer: End, step: Step, m: L.End, n: L.End) {
    var (me', peer') := StepAt(me, peer, step);
    var ls := OverMessages(me, m, step);
    var (m', n') := if ls == [] then (m, n) else L.StepAt(m, n, ls[0]);
    Mirrors(me', m') && Mirrors(peer', n')
  }

  lemma SendMirrors(me: End, peer: End, bundle: seq<byte>, m: L.End, n: L.End)
    requires Mirrors(me, m) && Mirrors(peer, n)
    ensures StepMirrors(me, peer, Send(bundle), m, n)
  {
    hide SegmentsFrom, EncodeAll, Encode;
    CarryNothing(peer);
    if Starts(me.s, bundle) {
      var out := SegmentsFrom(me.s.nextId, bundle, SegmentSize(me.s.peerSegmentMru), 0);
      SegmentsEncodable(me.s.nextId, bundle, SegmentSize(me.s.peerSegmentMru), 0);
      hide Encodable, Carry, L.Carry;
      CarryMirrors(peer, n, out);
    } else if MaySend(me.s, bundle) {
      NothingWritten(me.s.nextId, bundle, SegmentSize(me.s.peerSegmentMru));
    }
  }

  lemma {:induction false} SegmentsEncodable(id: nat, bundle: seq<byte>, size: nat, off: nat)
    requires id < TWO_64 && |bundle| < TWO_64 && size > 0 && off <= |bundle|
    ensures AllEncodable(SegmentsFrom(id, bundle, size, off))
    decreases |bundle| - off
  {
    hide SegmentsFrom;
    FirstSegment(id, bundle, size, off);
    var end := Min(off + size, |bundle|);
    if end < |bundle| { SegmentsEncodable(id, bundle, size, end); }
  }

  lemma NothingWritten(id: nat, bundle: seq<byte>, size: nat)
    requires id >= TWO_64 && size > 0
    ensures Written(SegmentsFrom(id, bundle, size, 0)) == []
  {
    hide SegmentsFrom;
    FirstSegment(id, bundle, size, 0);
  }

  /** A turn of the loop handles what the other view delivers, and all it writes is on its way. */
  lemma TurnWrites(e: End, m: L.End)
    requires Mirrors(e, m) && !e.s.phase.Closed? && FirstMessage(e).Some?
    ensures var msg := FirstMessage(e).value.msg;
            var x := Tcpcl4Session.Handle(e.s, msg);
            && m.inbox != [] && Heard(m.inbox[..1], e.segmentMru)[0] == msg
            && AllEncodable(x.out) && x.s.transferMru == e.s.transferMru && x.s.peerTransferMru == e.s.peerTransferMru
            && Tcpcl4Session.Handle(Fitting(e.s), msg) == x.(s := Fitting(x.s))
            && (!x.s.phase.Closed? ==> InFlight(e.(buf := e.buf[FirstMessage(e).value.used..]), m.inbox[1..]))
  {
    hide Tcpcl4Session.Handle, ParseNext, EncodeAll, Encodable, InFlight;
    ParsedIsFirst(e, m.inbox);
    var msg := FirstMessage(e).value.msg;
    assert m.inbox[0] in m.inbox;
    ParsedFits(m.inbox, e.segmentMru);
    HandleFits(e.s, msg);
    HandleWrites(e.s, msg);
  }

  lemma HandleMirrors(me: End, peer: End, m: L.End, n: L.End)
    requires Mirrors(me, m) && Mirrors(peer, n)
    ensures StepMirrors(me, peer, Handle, m, n)
  {
    hide Tcpcl4Session.Handle, ParseNext, EncodeAll, Encode, Encodable, Carry, L.Carry;
    if !me.s.phase.Closed? && FirstMessage(me).Some? {
      TurnWrites(me, m);
      CarryMirrors(peer, n, Tcpcl4Session.Handle(me.s, FirstMessage(me).value.msg).out);
      assert AllEncodable(m.inbox[1..]);
    }
  }

  lemma ParsedFits(inbox: seq<Msg>, segmentMru: nat)
    requires inbox != [] && Encodable(inbox[0])
    ensures var m := Heard(inbox[..1], segmentMru)[0];
            AfterHeader(m) && (m.TooBig? || Encodable(m)) && ((m.Ack? || m.Refuse?) ==> m.transferId < TWO_64)
  {
  }

  lemma OtherMirrors(me: End, peer: End, step: Step, m: L.End, n: L.End)
    requires Mirrors(me, m) && Mirrors(peer, n) && (step.Timeout? || step.Close? || step.Say? || step.Cut?)
    ensures StepMirrors(me, peer, step, m, n)
  {
    hide EncodeAll, Encode;
    match step
    case Timeout(id) =>
    case Close =>
    case Say(msg) => if msg.Keepalive? || msg.SessTerm? { CarryMirrors(peer, n, [msg]); }
    case Cut(kept) =>
      if kept <= |me.wire| {
        assert me.buf + me.wire[..kept] <= me.buf + me.wire;
        assert m.inbox[..|m.inbox|] == m.inbox;
      }
  }

  lemma ArriveMirrors(me: End, peer: End, count: nat, m: L.End, n: L.End)
    requires Mirrors(me, m) && Mirrors(peer, n)
    ensures StepMirrors(me, peer, Arrive(count), m, n)
  {
    hide EncodeAll, Encode;
    if count <= |me.wire| {
      assert (me.buf + me.wire[..count]) + me.wire[count..] == me.buf + me.wire;
    }
  }

  lemma StepIsStep(me: End, peer: End, step: Step, m: L.End, n: L.End)
    requires Mirrors(me, m) && Mirrors(peer, n)
    ensures StepMirrors(me, peer, step, m, n)
  {
    hide StepMirrors, Mirrors;
    match step
    case Send(bundle) => SendMirrors(me, peer, bundle, m, n);
    case Handle => HandleMirrors(me, peer, m, n);
    case Arrive(count) => ArriveMirrors(me, peer, count, m, n);
    case _ => OtherMirrors(me, peer, step, m, n);
  }

  /** The sends that gave up at an end in a run. */
  function GaveUp(es: seq<Event>, atA: bool): set<nat> {
    if es == [] then {}
    else
      var e := es[|es| - 1];
      GaveUp(es[..|es| - 1], atA) + if e.AtA? == atA && e.step.Timeout? then {e.step.id} else {}
  }

  lemma OneMoreGaveUp(es: seq<Event>, ls: seq<L.Event>, e: Event, s: seq<L.Step>, atA: bool)
    requires |s| <= 1 && L.GaveUp(ls, atA) == GaveUp(es, atA)
    requires if e.step.Timeout? then s == [L.Timeout(e.step.id)] else forall x :: x in s ==> !x.Timeout?
    ensures var more := if s == [] then ls else ls + [if e.AtA? then L.AtA(s[0]) else L.AtB(s[0])];
            L.GaveUp(more, atA) == GaveUp(es + [e], atA)
  {
    assert (es + [e])[..|es|] == es;
    if s != [] {
      var last := if e.AtA? then L.AtA(s[0]) else L.AtB(s[0]);
      assert (ls + [last])[..|ls|] == ls && s[0] in s;
    }
  }

  /** Main result: every run over octets is a run over messages in which both ends are as they are
      here, with the same sends, resolutions and bundles emitted, and the same sends given up. */
  lemma {:induction false} OctetRunIsLinkRun(segA: nat, xferA: nat, segB: nat, xferB: nat, es: seq<Event>) returns (ls: seq<L.Event>)
    requires xferA < TWO_64 && xferB < TWO_64
    ensures var o, l := Run(NewLink(segA, xferA, segB, xferB), es), L.Run(L.NewLink(segA, xferA, segB, xferB), ls);
            Mirrors(o.a, l.a) && Mirrors(o.b, l.b)
    ensures L.GaveUp(ls, true) == GaveUp(es, true) && L.GaveUp(ls, false) == GaveUp(es, false)
    decreases |es|
  {
    hide Mirrors, StepAt, L.StepAt, OverMessages, GaveUp, L.GaveUp;
    if es == [] {
      ls := [];
      NoneGaveUp();
      NewMirrors(segA, xferA, segB, xferB);
      NewMirrors(segB, xferB, segA, xferA);
    } else {
      var before, e := es[..|es| - 1], es[|es| - 1];
      ls := OctetRunIsLinkRun(segA, xferA, segB, xferB, before);
      var o, l := Run(NewLink(segA, xferA, segB, xferB), before), L.Run(L.NewLink(segA, xferA, segB, xferB), ls);
      var s;
      match e {
        case AtA(step) => s := OverMessages(o.a, l.a, step); StepIsStep(o.a, o.b, step, l.a, l.b);
        case AtB(step) => s := OverMessages(o.b, l.b, step); StepIsStep(o.b, o.a, step, l.b, l.a);
      }
      OneMoreGaveUp(before, ls, e, s, true);
      OneMoreGaveUp(before, ls, e, s, false);
      assert before + [e] == es;
      if s != [] {
        var last := if e.AtA? then L.AtA(s[0]) else L.AtB(s[0]);
        assert (ls + [last])[..|ls|] == ls;
        ls := ls + [last];
      }
    }
  }

  lemma NoneGaveUp()
    ensures GaveUp([], true) == {} && GaveUp([], false) == {} && L.GaveUp([], true) == {} && L.GaveUp([], false) == {}
  {
  }

  lemma NewMirrors(seg: nat, xfer: nat, peerSeg: nat, peerXfer: nat)
    requires xfer < TWO_64 && peerXfer < TWO_64
    ensures Mirrors(NewEnd(seg, xfer, peerSeg, peerXfer), L.NewEnd(seg, xfer, peerSeg, peerXfer))
  {
  }

  // ---- The receiving loop ----------------------------------------------------------------------------

  /** All that a loop of turns did, and what it left in the buffer. */
  datatype Taken = Taken(x: Effect, rest: seq<byte>)

  function Then(x: Effect, y: Effect): Effect {
    Effect(y.s, x.out + y.out, x.emitted + y.emitted, x.resolved + y.resolved)
  }

  /** Messages handled one by one, until the session is closed or no whole one is left. */
  function TakeAll(s: State, b: seq<byte>, segmentMru: nat): Taken
    decreases |b|
  {
    if s.phase.Closed? || ParseNext(b, true, segmentMru).None? then Taken(Quiet(s), b)
    else
      var p := ParseNext(b, true, segmentMru).value;
      var x := Tcpcl4Session.Handle(s, p.msg);
      if p.last then Taken(x, b)
      else
        var t := TakeAll(x.s, b[p.used..], segmentMru);
        Taken(Then(x, t.x), t.rest)
  }

  lemma TakeNothing(s: State, b: seq<byte>, segmentMru: nat)
    requires s.phase.Closed? || ParseNext(b, true, segmentMru).None?
    ensures TakeAll(s, b, segmentMru) == Taken(Quiet(s), b)
  {
  }

  lemma TakeOne(s: State, b: seq<byte>, segmentMru: nat)
    requires !s.phase.Closed? && ParseNext(b, true, segmentMru).Some?
    ensures AfterHeader(ParseNext(b, true, segmentMru).value.msg)
    ensures var p := ParseNext(b, true, segmentMru).value;
            var x := Tcpcl4Session.Handle(s, p.msg);
            var t := TakeAll(x.s, b[p.used..], segmentMru);
            && TakeAll(s, b, segmentMru) == Taken(Then(x, t.x), t.rest)
            && (p.last ==> x.s.phase.Closed?)
  {
    hide OnSegment;
    var p := ParseNext(b, true, segmentMru).value;
    var x := Tcpcl4Session.Handle(s, p.msg);
    if p.last {
      assert b[p.used..] == b;
      assert Then(x, Quiet(x.s)) == x;
    }
  }

  /** What one turn of the loop does. */
  function TurnEffect(s: State, b: seq<byte>, segmentMru: nat): Effect {
    match ParseNext(b, true, segmentMru)
    case None => Quiet(s)
    case Some(p) => Tcpcl4Session.Handle(s, p.msg)
  }

  method Turn(session: Session, parser: Parser) returns (more: bool)
    requires session.Valid() && parser.headerDone && session.phase != Closed
    modifies session, parser
    ensures session.Valid() && parser.headerDone
    ensures session.Did(TurnEffect(old(session.View()), old(parser.buf), parser.maxSegment))
    ensures !more ==> parser.buf == old(parser.buf) && ParseNext(parser.buf, true, parser.maxSegment).None?
    ensures !more ==> session.Did(Quiet(old(session.View())))
    ensures more ==> var t := TakeAll(session.View(), parser.buf, parser.maxSegment);
              TakeAll(old(session.View()), old(parser.buf), parser.maxSegment)
              == Taken(Then(TurnEffect(old(session.View()), old(parser.buf), parser.maxSegment), t.x), t.rest)
    ensures more ==> session.phase == Closed || |parser.buf| < |old(parser.buf)|
  {
    hide Tcpcl4Session.Handle, ParseNext, TakeAll, Bounded, AfterHeader;
    ghost var s, b := session.View(), parser.buf;
    var m := parser.Parse();
    if m.None? { return false; }
    TakeOne(s, b, parser.maxSegment);
    session.OnMessage(m.value);
    more := true;
  }

  /** `_onData`: the octets go into the parser's buffer, and whatever is whole is handled. */
  method OnData(session: Session, parser: Parser, chunk: seq<byte>)
    requires session.Valid() && parser.headerDone
    modifies session, parser
    ensures session.Valid() && parser.headerDone
    ensures var t := TakeAll(old(session.View()), old(parser.buf) + chunk, parser.maxSegment);
            session.Did(t.x) && parser.buf == t.rest
  {
    hide TurnEffect, ParseNext, TakeAll, Bounded;
    parser.Push(chunk);
    ghost var whole := TakeAll(session.View(), parser.buf, parser.maxSegment);
    ghost var done := Quiet(session.View());
    while session.phase != Closed
      invariant session.Valid() && parser.headerDone
      invariant session.Did(done)
      invariant var t := TakeAll(session.View(), parser.buf, parser.maxSegment); whole == Taken(Then(done, t.x), t.rest)
      decreases session.phase != Closed, |parser.buf|
    {
      ghost var s, b := session.View(), parser.buf;
      ghost var x := TurnEffect(s, b, parser.maxSegment);
      var more := Turn(session, parser);
      if !more { break; }
      ThenThen(done, x, TakeAll(session.View(), parser.buf, parser.maxSegment).x);
      done := Then(done, x);
    }
    TakeNothing(session.View(), parser.buf, parser.maxSegment);
    assert Then(done, Quiet(done.s)) == done;
  }

  lemma ThenThen(x: Effect, y: Effect, z: Effect)
    ensures Then(x, Then(y, z)) == Then(Then(x, y), z)
  {
  }

  function Turns(me: End, peer: End, n: nat): (End, End)
    decreases n
  {
    if n == 0 then (me, peer) else var (me', peer') := StepAt(me, peer, Handle); Turns(me', peer', n - 1)
  }

  /** The loop is so many turns, after which the session is closed or nothing whole is left. */
  lemma {:induction false} LoopIsTurns(me: End, peer: End, m: L.End, n: L.End) returns (k: nat)
    requires Mirrors(me, m) && Mirrors(peer, n)
    ensures var t := TakeAll(me.s, me.buf, me.segmentMru);
            var after := After(me, t.x).(buf := t.rest);
            && Turns(me, peer, k) == (after, Carry(peer, t.x.out))
            && (after.s.phase.Closed? || FirstMessage(after).None?)
    decreases !me.s.phase.Closed?, |me.buf|
  {
    hide Tcpcl4Session.Handle, ParseNext, TakeAll, Mirrors, Carry;
    if me.s.phase.Closed? || FirstMessage(me).None? {
      k := 0;
      TakeNothing(me.s, me.buf, me.segmentMru);
      CarryNothing(peer);
      assert After(me, Quiet(me.s)) == me;
    } else {
      TakeOne(me.s, me.buf, me.segmentMru);
      HandleMirrors(me, peer, m, n);
      var (me', peer') := StepAt(me, peer, Handle);
      var (m', n') := L.StepAt(m, n, L.Deliver);
      k := LoopIsTurns(me', peer', m', n');
      var p := FirstMessage(me).value;
      var x := Tcpcl4Session.Handle(me.s, p.msg);
      var t := TakeAll(x.s, me.buf[p.used..], me.segmentMru);
      assert After(me', t.x) == After(me, Then(x, t.x)).(buf := me'.buf);
      TurnWrites(me, m);
      CarryBoth(peer, x.out, t.x.out);
      k := k + 1;
    }
  }

  // ---- What every run over octets guarantees -------------------------------------------------------------

  /** Main result. Whatever the pieces in which octets arrive, wherever the connection dies and
      whenever handlers send or close: in both directions at once, an end has emitted exactly the
      first of the bundles the other was asked to send, in order and once each; and a send has
      resolved only if its bundle is among them. */
  lemma SendResolvesOnlyIfEmitted(segA: nat, xferA: nat, segB: nat, xferB: nat, es: seq<Event>)
    requires xferA < TWO_64 && xferB < TWO_64
    ensures var l := Run(NewLink(segA, xferA, segB, xferB), es);
            && l.b.emitted <= l.a.sent && l.a.emitted <= l.b.sent
            && (forall id :: id in l.a.resolved ==> id < |l.b.emitted| && l.b.emitted[id] == l.a.sent[id])
            && (forall id :: id in l.b.resolved ==> id < |l.a.emitted| && l.a.emitted[id] == l.b.sent[id])
  {
    hide Run, NewLink, L.Run, L.NewLink, EncodeAll;
    var ls := OctetRunIsLinkRun(segA, xferA, segB, xferB, es);
    L.SendResolvesOnlyIfEmitted(segA, xferA, segB, xferB, ls);
  }

  /** No octet is on its way to an end, and its parser finds nothing whole in what it holds. */
  predicate Idle(e: End) {
    e.s.phase.Established? && !e.cut && e.wire == [] && FirstMessage(e).None?
  }

  /** Conservation: once an end is idle, up and never cut off, it has emitted everything sent to it,
      and its parser holds nothing at all. */
  lemma IdleEndHasEverything(segA: nat, xferA: nat, segB: nat, xferB: nat, es: seq<Event>)
    requires xferA < TWO_64 && xferB < TWO_64
    ensures var l := Run(NewLink(segA, xferA, segB, xferB), es);
            && (Idle(l.b) ==> l.b.emitted == l.a.sent && l.b.buf == [])
            && (Idle(l.a) ==> l.a.emitted == l.b.sent && l.a.buf == [])
  {
    hide Run, NewLink, L.Run, L.NewLink, Mirrors, FirstMessage, EncodeAll;
    var o := Run(NewLink(segA, xferA, segB, xferB), es);
    var ls := OctetRunIsLinkRun(segA, xferA, segB, xferB, es);
    var l := L.Run(L.NewLink(segA, xferA, segB, xferB), ls);
    L.QuietLinkHasDelivered(segA, xferA, segB, xferB, ls);
    MirrorsSame(o.a, l.a);
    MirrorsSame(o.b, l.b);
    if Idle(o.b) { NothingInFlight(o.b, l.b); }
    if Idle(o.a) { NothingInFlight(o.a, l.a); }
  }

  lemma MirrorsSame(e: End, m: L.End)
    requires Mirrors(e, m)
    ensures m.sent == e.sent && m.resolved == e.resolved && m.emitted == e.emitted && m.cut == e.cut && m.s.phase == e.s.phase
  {
  }

  lemma NothingInFlight(e: End, m: L.End)
    requires Mirrors(e, m) && Idle(e)
    ensures m.inbox == [] && e.buf == []
  {
    hide ParseMessage, Encode, Encodable;
    assert e.buf + e.wire == e.buf;
    if m.inbox != [] {
      assert m.inbox[0] in m.inbox;
      MessageReadsBack(m.inbox[0], EncodeAll(m.inbox[1..]), e.segmentMru);
      assert false;
    }
  }

  /** Main result, the other half: once both sessions are idle and up and never were cut off, every send has
      resolved but those that timed out. */
  lemma IdleSendsHaveResolved(segA: nat, xferA: nat, segB: nat, xferB: nat, es: seq<Event>)
    requires xferA < TWO_64 && xferB < TWO_64
    ensures var l := Run(NewLink(segA, xferA, segB, xferB), es);
            Idle(l.a) && Idle(l.b) ==>
              && (forall id :: 0 <= id < |l.a.sent| ==> id in l.a.resolved || id in GaveUp(es, true))
              && (forall id :: 0 <= id < |l.b.sent| ==> id in l.b.resolved || id in GaveUp(es, false))
  {
    hide Run, NewLink, L.Run, L.NewLink, Mirrors, FirstMessage, EncodeAll, GaveUp, L.GaveUp;
    var o := Run(NewLink(segA, xferA, segB, xferB), es);
    var ls := OctetRunIsLinkRun(segA, xferA, segB, xferB, es);
    var l := L.Run(L.NewLink(segA, xferA, segB, xferB), ls);
    L.QuietLinkHasResolved(segA, xferA, segB, xferB, ls);
    MirrorsSame(o.a, l.a);
    MirrorsSame(o.b, l.b);
    if Idle(o.a) && Idle(o.b) {
      NothingInFlight(o.b, l.b);
      NothingInFlight(o.a, l.a);
    }
  }
}
