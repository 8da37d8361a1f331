/**
 Why the steps of GatewayPump are those of a send over a session that acknowledges: the pump awaits each
 send before the next and ends the session when one fails, and used so a link of Tcpcl4Octets or
 Tcpcl3Link lets its bundle arrive at most once, and resolves the send only after that.
 */
module GatewaySends {
  import opened Wrappers
  import opened Bytes
  import opened Tcpcl4Session
  import opened GatewayPump
  import L = Tcpcl4Octets
  import V3 = Tcpcl3Link
  import T3 = Tcpcl3Transfer
  import W3 = Tcpcl3Wire

  /** How `_pump` uses its session: every send but the last has resolved. */
  ghost predicate OneAtATime(l: L.Link) {
    forall id: nat :: id + 1 < |l.a.sent| ==> id in l.a.resolved
  }

  /** The pump's state of its send, read off the link. */
  function SendingOf(l: L.Link, file: nat): Option<Sending> {
    if l.a.sent == [] || |l.a.sent| - 1 in l.a.resolved then None
    else Some(Sending(file, |l.b.emitted| == |l.a.sent|))
  }

  /** A step resolves only sends of its own end, and that end's peer emits nothing in it. */
  lemma OneEndAtATime(l: L.Link, e: L.Event)
    ensures var l' := L.Next(l, e);
            && l.a.resolved <= l'.a.resolved && l.b.emitted <= l'.b.emitted
            && (e.AtA? ==> l'.b.emitted == l.b.emitted) && (e.AtB? ==> l'.a.resolved == l.a.resolved && l'.a.sent == l.a.sent)
  {
  }

  lemma RunGoesOn(start: L.Link, es: seq<L.Event>, e: L.Event)
    ensures L.Run(start, es + [e]) == L.Next(L.Run(start, es), e)
  {
    hide L.Next;
    assert (es + [e])[..|es|] == es;
  }

  /** What `SendResolvesOnlyIfEmitted` says of a's sends. */
  ghost predicate Truthful(l: L.Link) {
    && l.b.emitted <= l.a.sent
    && (forall id :: id in l.a.resolved ==> id < |l.b.emitted|)
  }

  lemma StepOfSend(l: L.Link, l': L.Link, atA: bool, file: nat)
    requires Truthful(l) && Truthful(l') && OneAtATime(l) && l'.a.sent == l.a.sent
    requires l.a.resolved <= l'.a.resolved && l.b.emitted <= l'.b.emitted
    requires if atA then l'.b.emitted == l.b.emitted else l'.a.resolved == l.a.resolved
    ensures var before, after := SendingOf(l, file), SendingOf(l', file);
            || (after == before && l'.b.emitted == l.b.emitted)
            || (before == Some(Sending(file, false)) && after == Some(Sending(file, true))
                && l'.b.emitted == l.b.emitted + [l.a.sent[|l.a.sent| - 1]])
            || (before == Some(Sending(file, true)) && after == None && l'.b.emitted == l.b.emitted)
  {
    var k := |l.a.sent|;
    if k > 1 { assert k - 2 in l.a.resolved; }
    if k > 0 && l'.b.emitted != l.b.emitted {
      assert l'.b.emitted == l.a.sent[..k - 1] + [l.a.sent[k - 1]];
    }
  }

  lemma RunIsTruthful(segA: nat, xferA: nat, segB: nat, xferB: nat, es: seq<L.Event>)
    requires xferA < TWO_64 && xferB < TWO_64
    ensures Truthful(L.Run(L.NewLink(segA, xferA, segB, xferB), es))
  {
    hide L.Run, L.NewLink;
    L.SendResolvesOnlyIfEmitted(segA, xferA, segB, xferB, es);
  }

  /** Main result: while a send is under way, a step of the link is the arrival of its bundle, or its
      resolution after that, or nothing to the pump. */
  lemma SendIsArriveThenAck(segA: nat, xferA: nat, segB: nat, xferB: nat, es: seq<L.Event>, e: L.Event, file: nat)
    requires xferA < TWO_64 && xferB < TWO_64
    requires var l := L.Run(L.NewLink(segA, xferA, segB, xferB), es);
             OneAtATime(l) && L.Next(l, e).a.sent == l.a.sent
    ensures var l := L.Run(L.NewLink(segA, xferA, segB, xferB), es); var l' := L.Next(l, e);
            var before, after := SendingOf(l, file), SendingOf(l', file);
            || (after == before && l'.b.emitted == l.b.emitted)
            || (before == Some(Sending(file, false)) && after == Some(Sending(file, true))
                && l'.b.emitted == l.b.emitted + [l.a.sent[|l.a.sent| - 1]])
            || (before == Some(Sending(file, true)) && after == None && l'.b.emitted == l.b.emitted)
  {
    hide L.Run, L.Next, L.NewLink, Truthful, OneAtATime, SendingOf;
    var start := L.NewLink(segA, xferA, segB, xferB);
    RunGoesOn(start, es, e);
    RunIsTruthful(segA, xferA, segB, xferB, es);
    RunIsTruthful(segA, xferA, segB, xferB, es + [e]);
    var l := L.Run(start, es);
    OneEndAtATime(l, e);
    StepOfSend(l, L.Next(l, e), e.AtA?, file);
  }

  lemma SendBegins(l: L.Link, bundle: seq<byte>)
    requires L.Starts(l.a.s, bundle)
    ensures var l' := L.Next(l, L.AtA(L.Send(bundle)));
            l'.a.sent == l.a.sent + [bundle] && l'.a.resolved == l.a.resolved && l'.b.emitted == l.b.emitted
  {
  }

  /** A send begun when none is under way is the pump's only one. */
  lemma SendIsPick(segA: nat, xferA: nat, segB: nat, xferB: nat, es: seq<L.Event>, bundle: seq<byte>, file: nat)
    requires xferA < TWO_64 && xferB < TWO_64
    requires var l := L.Run(L.NewLink(segA, xferA, segB, xferB), es);
             OneAtATime(l) && SendingOf(l, file).None? && L.Starts(l.a.s, bundle)
    ensures var l := L.Run(L.NewLink(segA, xferA, segB, xferB), es); var l' := L.Next(l, L.AtA(L.Send(bundle)));
            OneAtATime(l') && SendingOf(l', file) == Some(Sending(file, false)) && l'.b.emitted == l.b.emitted
  {
    hide L.Run, L.NewLink, L.Next;
    var l := L.Run(L.NewLink(segA, xferA, segB, xferB), es);
    RunIsTruthful(segA, xferA, segB, xferB, es);
    SendBegins(l, bundle);
  }

  // ---- Version 3 ------------------------------------------------------------------------------------------

  /** The pump's state of its send over version 3. */
  function SendingOverV3(l: V3.Link, file: nat): Option<Sending> {
    if l.a.begun == [] || |l.a.begun| - 1 in l.a.resolved then None else Some(Sending(file, |l.b.emitted| == l.a.before + 1))
  }

  lemma OneBundleAtMost(r: T3.Receiving, limit: nat, flags: byte, data: seq<byte>)
    ensures |T3.OnSegment(r, limit, flags, data).emitted| <= 1
  {
    hide Concat;
  }

  /** A message resolves at most the send under way, and emits at most one bundle. */
  ghost predicate Advances(me: V3.End, me': V3.End) {
    && me.emitted <= me'.emitted && |me'.emitted| <= |me.emitted| + 1 && me'.begun == me.begun && me'.before == me.before
    && me.resolved.Keys <= me'.resolved.Keys
  }

  lemma MessageOfV3(me: V3.End, m: W3.Msg)
    ensures Advances(me, V3.OnMessage(me, m).0)
  {
    hide T3.OnSegment;
    if m.Segment? { OneBundleAtMost(me.r, me.transferMru, m.flags, m.data); }
  }

  /** A step touches the other end's octets only. */
  lemma StepOfV3(me: V3.End, peer: V3.End, step: V3.Step)
    requires V3.Sized(me) && V3.Sized(peer) && !V3.Starts(me, step)
    ensures var (me', peer') := V3.StepAt(me, peer, step); peer' == peer.(wire := peer'.wire) && Advances(me, me')
  {
    hide V3.OnMessage, V3.NextMessage, W3.EncodeAll, Advances;
    if step.Handle? && me.open && V3.NextMessage(me).Some? {
      var m := V3.NextMessage(me).value.msg;
      MessageOfV3(me, m);
      AdvancesWhatever(me, V3.OnMessage(me, m).0, V3.StepAt(me, peer, step).0);
    } else {
      AdvancesWhatever(me, me, V3.StepAt(me, peer, step).0);
    }
  }

  lemma AdvancesWhatever(me: V3.End, x: V3.End, me': V3.End)
    requires (x == me || Advances(me, x)) && me'.emitted == x.emitted && me'.begun == x.begun && me'.before == x.before && me'.resolved == x.resolved
    ensures Advances(me, me')
  {
  }

  lemma NextOfV3(l: V3.Link, e: V3.Event)
    requires V3.Fits(l) && !(e.AtA? && V3.Starts(l.a, e.step))
    ensures var l' := V3.Next(l, e);
            && l.b.emitted <= l'.b.emitted && |l'.b.emitted| <= |l.b.emitted| + 1
            && l'.a.begun == l.a.begun && l'.a.before == l.a.before && l.a.resolved.Keys <= l'.a.resolved.Keys
            && (if e.AtA? then l'.b.emitted == l.b.emitted else l'.a.resolved == l.a.resolved)
  {
    hide V3.StepAt;
    match e
    case AtA(step) => StepOfV3(l.a, l.b, step);
    case AtB(step) => if V3.Starts(l.b, step) { BeginOfV3(l.b, l.a, step.bundle); } else { StepOfV3(l.b, l.a, step); }
  }

  lemma BeginOfV3(me: V3.End, peer: V3.End, bundle: seq<byte>)
    requires V3.Sized(me) && V3.Sized(peer) && V3.Starts(me, V3.Begin(bundle))
    ensures var (me', peer') := V3.StepAt(me, peer, V3.Begin(bundle));
            && peer' == peer.(wire := peer'.wire)
            && me' == me.(current := Some(|bundle|), begun := me.begun + [bundle], before := |peer.emitted|)
  {
    hide T3.SegmentsFrom, W3.EncodeAll;
  }

  lemma StepOfSendOverV3(l: V3.Link, l': V3.Link, atA: bool, file: nat)
    requires V3.JustItsBundle(l.a, l.b) && V3.JustItsBundle(l'.a, l'.b)
    requires l.b.emitted <= l'.b.emitted && l'.a.begun == l.a.begun && l'.a.before == l.a.before && l.a.resolved.Keys <= l'.a.resolved.Keys
    requires if atA then l'.b.emitted == l.b.emitted else l'.a.resolved == l.a.resolved
    ensures var before, after := SendingOverV3(l, file), SendingOverV3(l', file);
            || (after == before && l'.b.emitted == l.b.emitted)
            || (before == Some(Sending(file, false)) && after == Some(Sending(file, true))
                && l.a.begun != [] && l'.b.emitted == l.b.emitted + [l.a.begun[|l.a.begun| - 1]])
            || (before == Some(Sending(file, true)) && after == None && l'.b.emitted == l.b.emitted)
  {
    if l.a.begun != [] {
      var k, x, y := l.a.before, l.b.emitted, l'.b.emitted;
      assert x == x[..k] + x[k..] && y == y[..k] + y[k..] && x[..k] == y[..k];
      assert |x[k..]| <= 1 && |y[k..]| <= 1;
    }
  }

  lemma RunGoesOnOverV3(start: V3.Link, es: seq<V3.Event>, e: V3.Event)
    requires V3.Fits(start)
    ensures V3.Run(start, es + [e]) == V3.Next(V3.Run(start, es), e)
    ensures V3.PatientRun(start, es + [e]) <==> V3.PatientRun(start, es) && V3.Patient(V3.Run(start, es), e)
  {
    hide V3.Next, V3.Patient;
    assert (es + [e])[..|es|] == es;
  }

  lemma RunIsTruthfulOverV3(segA: nat, xferA: nat, segB: nat, xferB: nat, es: seq<V3.Event>)
    requires V3.Fits(V3.NewLink(segA, xferA, segB, xferB)) && V3.PatientRun(V3.NewLink(segA, xferA, segB, xferB), es)
    ensures var l := V3.Run(V3.NewLink(segA, xferA, segB, xferB), es); V3.JustItsBundle(l.a, l.b)
  {
    hide V3.Run, V3.NewLink, V3.PatientRun, V3.JustItsBundle;
    V3.PatientSendsAreReliable(segA, xferA, segB, xferB, es);
  }

  /** Main result: while a send is under way over version 3, and none was begun after another timed out, a
      step is the arrival of its bundle, or its resolution after that, or nothing to the pump. */
  lemma V3SendIsArriveThenAck(segA: nat, xferA: nat, segB: nat, xferB: nat, es: seq<V3.Event>, e: V3.Event, file: nat)
    requires V3.Fits(V3.NewLink(segA, xferA, segB, xferB)) && V3.PatientRun(V3.NewLink(segA, xferA, segB, xferB), es + [e])
    requires !(e.AtA? && V3.Starts(V3.Run(V3.NewLink(segA, xferA, segB, xferB), es).a, e.step))
    ensures var l := V3.Run(V3.NewLink(segA, xferA, segB, xferB), es); var l' := V3.Next(l, e);
            var before, after := SendingOverV3(l, file), SendingOverV3(l', file);
            || (after == before && l'.b.emitted == l.b.emitted)
            || (before == Some(Sending(file, false)) && after == Some(Sending(file, true))
                && l.a.begun != [] && l'.b.emitted == l.b.emitted + [l.a.begun[|l.a.begun| - 1]])
            || (before == Some(Sending(file, true)) && after == None && l'.b.emitted == l.b.emitted)
  {
    hide V3.Run, V3.PatientRun, V3.Next, V3.NewLink, V3.JustItsBundle, V3.Starts;
    var start := V3.NewLink(segA, xferA, segB, xferB);
    RunGoesOnOverV3(start, es, e);
    RunIsTruthfulOverV3(segA, xferA, segB, xferB, es);
    RunIsTruthfulOverV3(segA, xferA, segB, xferB, es + [e]);
    var l := V3.Run(start, es);
    NextOfV3(l, e);
    StepOfSendOverV3(l, V3.Next(l, e), e.AtA?, file);
  }

  /** A send that waits or has timed out has not resolved. */
  predicate Fresh(e: V3.End) {
    && (e.late || e.current.Some? ==> e.begun != [] && |e.begun| - 1 !in e.resolved)
    && (e.late ==> e.current.None?)
  }

  lemma StaysFresh(l: V3.Link, e: V3.Event)
    requires V3.Fits(l) && Fresh(l.a) && !(e.AtA? && V3.Starts(l.a, e.step))
    ensures Fresh(V3.Next(l, e).a)
  {
    hide V3.StepAt;
    match e
    case AtA(step) => StepStaysFresh(l.a, l.b, step);
    case AtB(step) => if V3.Starts(l.b, step) { BeginOfV3(l.b, l.a, step.bundle); } else { StepOfV3(l.b, l.a, step); }
  }

  lemma StepStaysFresh(me: V3.End, peer: V3.End, step: V3.Step)
    requires V3.Sized(me) && V3.Sized(peer) && Fresh(me) && !V3.Starts(me, step)
    ensures Fresh(V3.StepAt(me, peer, step).0)
  {
    hide V3.OnMessage, V3.NextMessage, W3.EncodeAll;
    if step.Handle? && me.open && V3.NextMessage(me).Some? { MessageStaysFresh(me, V3.NextMessage(me).value.msg); }
  }

  lemma MessageStaysFresh(me: V3.End, m: W3.Msg)
    requires Fresh(me)
    ensures Fresh(V3.OnMessage(me, m).0)
  {
    hide T3.OnSegment;
  }

  /** A send begun when none is under way is patient, and the pump's only one. */
  lemma V3SendIsPick(segA: nat, xferA: nat, segB: nat, xferB: nat, es: seq<V3.Event>, bundle: seq<byte>, file: nat)
    requires V3.Fits(V3.NewLink(segA, xferA, segB, xferB)) && V3.PatientRun(V3.NewLink(segA, xferA, segB, xferB), es)
    requires var l := V3.Run(V3.NewLink(segA, xferA, segB, xferB), es);
             Fresh(l.a) && SendingOverV3(l, file).None? && V3.Starts(l.a, V3.Begin(bundle))
    ensures var start, e := V3.NewLink(segA, xferA, segB, xferB), V3.AtA(V3.Begin(bundle));
            var l := V3.Run(start, es); var l' := V3.Next(l, e);
            && V3.PatientRun(start, es + [e]) && V3.Run(start, es + [e]) == l' && Fresh(l'.a)
            && l'.a.begun == l.a.begun + [bundle] && l'.b.emitted == l.b.emitted
            && SendingOverV3(l', file) == Some(Sending(file, false))
  {
    hide V3.Run, V3.NewLink, V3.StepAt, V3.JustItsBundle;
    var start, e := V3.NewLink(segA, xferA, segB, xferB), V3.AtA(V3.Begin(bundle));
    var l := V3.Run(start, es);
    V3.PatientSendsAreReliable(segA, xferA, segB, xferB, es);
    BeginOfV3(l.a, l.b, bundle);
    RunGoesOnOverV3(start, es, e);
  }
}
