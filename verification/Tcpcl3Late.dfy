/**
 What a send begun over a TCPCLv3 session risks when an earlier one has timed out: the octets of the earlier
 transfer are still on their way, and replies say no more than how many octets have come. A send may begin
 (`MayBegin`) exactly when nothing on its way can spoil it.
 */
module Tcpcl3Late {
  import opened Wrappers
  import opened Bytes
  import opened Framing
  import opened Tcpcl3Wire
  import opened Tcpcl3Transfer
  import opened Tcpcl3Link

  // ---- Continuations ---------------------------------------------------------------------------------------

  predicate Begins(e: Event) {
    e.AtA? && e.step.Begin?
  }

  /** End a begins no further send. */
  predicate Quiet(es: seq<Event>) {
    forall e :: e in es ==> !Begins(e)
  }

  lemma {:induction false} RunBoth(l: Link, x: seq<Event>, y: seq<Event>)
    requires Fits(l)
    ensures Run(l, x + y) == Run(Run(l, x), y)
    decreases |y|
  {
    hide Next;
    if y == [] {
      assert x + y == x;
    } else {
      assert (x + y)[..|x + y| - 1] == x + y[..|y| - 1];
      RunBoth(l, x, y[..|y| - 1]);
    }
  }

  lemma RunOne(l: Link, e: Event)
    requires Fits(l)
    ensures Run(l, [e]) == Next(l, e)
  {
    hide Next;
    assert Run(l, []) == l;
    assert [e][..0] == [];
  }

  lemma RunTwo(l: Link, e: Event, e': Event)
    requires Fits(l)
    ensures Run(l, [e, e']) == Next(Next(l, e), e')
  {
    hide Next, Run;
    assert [e, e'] == [e] + [e'];
    RunBoth(l, [e], [e']);
    RunOne(l, e);
    RunOne(Next(l, e), e');
  }

  lemma QuietBoth(x: seq<Event>, y: seq<Event>)
    requires Quiet(x) && Quiet(y)
    ensures Quiet(x + y)
  {
  }

  // ---- One more message ------------------------------------------------------------------------------------------

  /** Once all octets are there, so is the next message. */
  lemma NextIsThere(e: End)
    requires e.wire == [] && Through(e) != []
    ensures NextMessage(e).Some? && GoesOn(NextMessage(e).value.msg)
  {
    hide ParseMessage, Drain;
    assert e.buf + e.wire == e.buf;
    DrainOnce(V3(e.transferMru), e.buf, true);
    if ParseMessage(e.buf, e.transferMru).Some? {
      LastEnds(e.buf, e.transferMru);
    }
  }

  /** All octets arrive and one message is handled. */
  function Turned(me: End, peer: End): (x: (End, End))
    requires Sized(me) && Sized(peer)
    ensures Sized(x.0) && Sized(x.1)
  {
    var x := StepAt(me, peer, Arrive(|me.wire|));
    StepAt(x.0, x.1, Handle)
  }

  /** A message changes the same whatever octets are on their way. */
  lemma MessageElsewhere(me: End, e: End, m: Msg)
    requires e == me.(wire := e.wire, buf := e.buf) && GoesOn(m)
    ensures var (x, out) := OnMessage(me, m);
            OnMessage(e, m) == (x.(wire := e.wire, buf := e.buf), out) && x.open == me.open && x.cut == me.cut
            && x.transferMru == me.transferMru && (!m.Segment? ==> out == [])
  {
    hide OnSegment;
  }

  lemma ArrivedIs(me: End, peer: End)
    requires Sized(me) && Sized(peer) && Whole(me) && Through(me) != []
    ensures var e := StepAt(me, peer, Arrive(|me.wire|)).0;
            && e == me.(wire := [], buf := me.buf + me.wire) && StepAt(me, peer, Arrive(|me.wire|)).1 == peer
            && Sized(e) && SamePipe(me, e) && e.open && Whole(e) && NextMessage(e).Some? && Through(e) == Through(me)
            && var p := NextMessage(e).value;
            GoesOn(p.msg) && p.msg == Through(me)[0] && After(e, p.msg, e.(buf := e.buf[p.used..]))
  {
    hide Hears, Upto, NextMessage, Whole, Clear;
    var e := me.(wire := [], buf := me.buf + me.wire);
    assert me.wire[..|me.wire|] == me.wire && me.wire[|me.wire|..] == [];
    assert (me.buf + me.wire) + [] == me.buf + me.wire;
    SamePipeHears(me, e);
    NextIsThere(e);
    HandleIs(e);
    var p := NextMessage(e).value;
    assert Through(e)[0] == p.msg;
    assert e == StepAt(me, peer, Arrive(|me.wire|)).0;
  }

  lemma TurnIs(me: End, peer: End)
    requires Sized(me) && Sized(peer) && Whole(me) && Whole(peer) && Through(me) != []
    ensures var (me', peer') := Turned(me, peer); var m := Through(me)[0]; var (x, out) := OnMessage(me, m);
            && GoesOn(m) && me' == x.(wire := [], buf := me'.buf) && peer' == Carry(peer, out) && Through(me)[1..] == Through(me')
            && Whole(me') && Whole(peer')
            && (var v, v' := Seen(me, peer), Seen(me', peer');
                v.rs == (if IsReply(m) then [m] else []) + v'.rs && v'.clear == v.clear && v'.ms == v.ms && v'.far == v.far)
            && (var v, v' := Seen(peer, me), Seen(peer', me');
                v.ms == (if m.Segment? then [m] else []) + v'.ms && v'.clear == v.clear && v'.far == v.far && v'.rs == v.rs + if v.clear then out else [])
  {
    ArrivedIs(me, peer);
    var e := StepAt(me, peer, Arrive(|me.wire|)).0;
    var m := Through(me)[0];
    MessageElsewhere(me, e, m);
    var (x, out) := OnMessage(me, m);
    var f := e.(buf := e.buf[NextMessage(e).value.used..]);
    var (me', peer') := Turned(me, peer);
    assert me' == x.(wire := [], buf := f.buf) && peer' == Carry(peer, out) by {
      hide Through, Whole, OnMessage, NextMessage, EncodeAll, After, SamePipe;
    }
    assert SamePipe(f, me') && Sized(me) by { hide Through, Whole, OnMessage, NextMessage, After; }
    hide StepAt, Turned, OnMessage, Through, Whole, Clear, Carry, NextMessage, EncodeAll;
    assert Through(e) == [m] + Through(f);
    SeenAfter(e, peer, m, f, me', peer', out);
    SamePipeHears(f, me');
    SamePipeHears(me, e);
  }

  /** Fewer segments are on their way, or as many and fewer messages. */
  predicate Fewer(me: End, peer: End, me': End, peer': End) {
    var segments, segments' := |Seen(me, peer).ms| + |Seen(peer, me).ms|, |Seen(me', peer').ms| + |Seen(peer', me').ms|;
    segments' < segments || (segments' == segments && |Through(me')| + |Through(peer')| < |Through(me)| + |Through(peer)|)
  }

  lemma TurnIsFewer(me: End, peer: End)
    requires Sized(me) && Sized(peer) && Whole(me) && Whole(peer) && Through(me) != []
    ensures var (me', peer') := Turned(me, peer); Fewer(me, peer, me', peer') && |Through(me')| < |Through(me)|
  {
    hide Turned, Through, Whole, Clear, Segments, Replies, OnMessage, Carry, EncodeAll;
    TurnIs(me, peer);
    var m := Through(me)[0];
    if !m.Segment? {
      MessageElsewhere(me, me, m);
      CarryNothing(peer);
    }
  }

  lemma CarryNothing(to: End)
    requires Whole(to)
    ensures Through(Carry(to, [])) == Through(to)
  {
    assert EncodeAll([]) == [] && to.wire + [] == to.wire;
    hide Through, EncodeAll;
  }

  lemma ReceivesIt(me: End, m: Msg, v: View, me': End, v': View)
    requires GoesOn(m) && me' == OnMessage(me, m).0.(wire := me'.wire, buf := me'.buf)
    requires v.ms == (if m.Segment? then [m] else []) + v'.ms && v'.clear == v.clear && v'.far == v.far
    requires v'.rs == v.rs + if v.clear then OnMessage(me, m).1 else []
    ensures TakesSegment(me, v, me', v') || (SameReceiver(me, me') && v' == v)
  {
    hide OnSegment;
    if m.Segment? {
      assert v.ms[0] == m && v.ms[1..] == v'.ms;
    } else {
      OtherMessage(me, m);
      hide OnMessage;
      assert [] + v'.ms == v'.ms && v.rs + [] == v.rs;
    }
  }

  lemma HearsIt(me: End, m: Msg, v: View, me': End, v': View)
    requires GoesOn(m) && me' == OnMessage(me, m).0.(wire := me'.wire, buf := me'.buf)
    requires v.rs == (if IsReply(m) then [m] else []) + v'.rs && v'.clear == v.clear && v'.ms == v.ms && v'.far == v.far
    ensures HearsReply(me, v, me', v') || (SameSender(me, me') && v' == v)
  {
    hide OnSegment;
    if IsReply(m) {
      assert v.rs[0] == m && v.rs[1..] == v'.rs;
    } else {
      assert [] + v'.rs == v'.rs;
    }
  }

  lemma TurnRuns(l: Link)
    requires Fits(l)
    ensures Run(l, [AtA(Arrive(|l.a.wire|)), AtA(Handle)]) == (var (a, b) := Turned(l.a, l.b); Link(a, b))
    ensures Run(l, [AtB(Arrive(|l.b.wire|)), AtB(Handle)]) == (var (b, a) := Turned(l.b, l.a); Link(a, b))
  {
    hide StepAt, Run;
    RunTwo(l, AtA(Arrive(|l.a.wire|)), AtA(Handle));
    RunTwo(l, AtB(Arrive(|l.b.wire|)), AtB(Handle));
  }

  /** The peer handles its next message. */
  lemma PeerTurn(l: Link) returns (q: seq<Event>)
    requires Fits(l) && Whole(l.a) && Whole(l.b) && Through(l.b) != []
    ensures Quiet(q)
    ensures var l' := Run(l, q); var v, v' := Seen(l.a, l.b), Seen(l'.a, l'.b);
            && Whole(l'.a) && Whole(l'.b) && SameSender(l.a, l'.a) && Fewer(l.b, l.a, l'.b, l'.a) && |Through(l'.b)| < |Through(l.b)|
            && (TakesSegment(l.b, v, l'.b, v') || (SameReceiver(l.b, l'.b) && v' == v))
  {
    hide Run, Turned, Whole, Through, Fewer, OnMessage, Seen, TakesSegment, SameReceiver, Carry;
    var (b, a) := Turned(l.b, l.a);
    q := [AtB(Arrive(|l.b.wire|)), AtB(Handle)];
    TurnRuns(l);
    var m := Through(l.b)[0];
    TurnIsFewer(l.b, l.a);
    TurnIs(l.b, l.a);
    CarryWrites(l.a, OnMessage(l.b, m).1);
    ReceivesIt(l.b, m, Seen(l.a, l.b), b, Seen(a, b));
  }

  /** The sender does. */
  lemma SenderTurn(l: Link) returns (q: seq<Event>)
    requires Fits(l) && Whole(l.a) && Whole(l.b) && Through(l.a) != []
    ensures Quiet(q)
    ensures var l' := Run(l, q); var v, v' := Seen(l.a, l.b), Seen(l'.a, l'.b);
            && Whole(l'.a) && Whole(l'.b) && SameReceiver(l.b, l'.b) && Fewer(l.a, l.b, l'.a, l'.b)
            && (HearsReply(l.a, v, l'.a, v') || (SameSender(l.a, l'.a) && v' == v))
  {
    hide Run, Turned, Whole, Through, Fewer, OnMessage, Seen, HearsReply, SameSender, Carry;
    var (a, b) := Turned(l.a, l.b);
    q := [AtA(Arrive(|l.a.wire|)), AtA(Handle)];
    TurnRuns(l);
    var m := Through(l.a)[0];
    TurnIsFewer(l.a, l.b);
    TurnIs(l.a, l.b);
    CarryWrites(l.b, OnMessage(l.a, m).1);
    HearsIt(l.a, m, Seen(l.a, l.b), a, Seen(a, b));
  }

  // ---- What spoils a send ------------------------------------------------------------------------------------------

  /** The peer handles all that is on its way to it while the sender waits. */
  lemma {:induction false} PeerTakesAll(l: Link) returns (q: seq<Event>)
    requires Fits(l) && Whole(l.a) && Whole(l.b)
    ensures Quiet(q) && SameSender(l.a, Run(l, q).a)
    ensures Run(l, q).b.emitted == l.b.emitted + Pending(l.b, Seen(l.a, l.b)).emitted
    decreases |Through(l.b)|
  {
    hide Next, Run, Whole, TakeAll, TakesSegment;
    var v := Seen(l.a, l.b);
    q := [];
    if Through(l.b) == [] {
      NoneOfNothing();
      NoneTaken(l.b.r, l.b.transferMru);
      RunNone(l);
    } else {
      var x := PeerTurn(l);
      var l' := Run(l, x);
      var y := PeerTakesAll(l');
      q := x + y;
      QuietBoth(x, y);
      RunBoth(l, x, y);
      if TakesSegment(l.b, v, l'.b, Seen(l'.a, l'.b)) { PendingAfter(l.b, v, l'.b, Seen(l'.a, l'.b), 0); }
    }
  }

  lemma RunNone(l: Link)
    requires Fits(l)
    ensures Run(l, []) == l
  {
  }

  /** The send has just resolved. */
  predicate Resolves(f: End, f': End) {
    && f.begun != [] && f'.begun == f.begun && f'.before == f.before && f'.current == None
    && f'.resolved == f.resolved[|f.begun| - 1 := f.before]
  }

  /** A sender that hears a reply in time to be misled is misled, or will be. */
  lemma ReplyMisleads(f: End, t: End, v: View, f': End, t': End, v': View)
    requires f.current.Some? && f.begun != [] && Misled(t, v, f.current.value)
    requires SameReceiver(t, t') && HearsReply(f, v, f', v')
    ensures Resolves(f, f') || (f'.current == f.current && f'.begun == f.begun && f'.before == f.before && f'.resolved == f.resolved
                                && Misled(t', v', f.current.value))
  {
    hide OnSegment;
  }

  lemma SegmentMisleads(t: End, v: View, t': End, v': View, n: nat)
    requires Misled(t, v, n) && v.rs == [] && TakesSegment(t, v, t', v')
    ensures t'.emitted == t.emitted && Misled(t', v', n)
  {
    hide OnSegment;
    var x := OnSegment(t.r, t.transferMru, v.ms[0].flags, v.ms[0].data);
    assert [] + x.out == x.out && t.emitted + [] == t.emitted;
  }

  lemma MisledTurn(l: Link) returns (q: seq<Event>)
    requires Fits(l) && Whole(l.a) && Whole(l.b) && l.a.current.Some? && l.a.begun != []
    requires Misled(l.b, Seen(l.a, l.b), l.a.current.value)
    ensures Quiet(q)
    ensures var l' := Run(l, q);
            && Whole(l'.a) && Whole(l'.b) && l'.b.emitted == l.b.emitted && Fewer(l.a, l.b, l'.a, l'.b)
            && (Resolves(l.a, l'.a)
                || (l'.a.current == l.a.current && l'.a.begun == l.a.begun && l'.a.before == l.a.before && l'.a.resolved == l.a.resolved
                    && Misled(l'.b, Seen(l'.a, l'.b), l.a.current.value)))
  {
    hide Next, Run, Whole, TakesSegment, HearsReply;
    var v := Seen(l.a, l.b);
    if Through(l.a) == [] {
      NoneOfNothing();
      assert Through(l.b) != [] by { hide OnSegment; }
      hide Misled, Through, Segments, Replies, Clear;
      q := PeerTurn(l);
      var l' := Run(l, q);
      if TakesSegment(l.b, v, l'.b, Seen(l'.a, l'.b)) { SegmentMisleads(l.b, v, l'.b, Seen(l'.a, l'.b), l.a.current.value); }
      else { SameMisled(l.b, v, l'.b, v, l.a.current.value); }
    } else {
      hide Misled, Through, Segments, Replies, Clear, Resolves;
      q := SenderTurn(l);
      var l' := Run(l, q);
      if HearsReply(l.a, v, l'.a, Seen(l'.a, l'.b)) { ReplyMisleads(l.a, l.b, v, l'.a, l'.b, Seen(l'.a, l'.b)); }
      else { SameMisled(l.b, v, l'.b, v, l.a.current.value); }
    }
  }

  lemma SameMisled(t: End, v: View, t': End, v': View, n: nat)
    requires SameReceiver(t, t') && v' == v.(far := v'.far)
    ensures Misled(t', v', n) == Misled(t, v, n)
  {
  }

  /** An acknowledgement of as many octets resolves the send before any bundle has come. */
  lemma {:induction false} MisledResolves(l: Link) returns (q: seq<Event>)
    requires Fits(l) && Whole(l.a) && Whole(l.b) && l.a.current.Some? && l.a.begun != []
    requires Misled(l.b, Seen(l.a, l.b), l.a.current.value)
    ensures Quiet(q)
    ensures var l' := Run(l, q); l'.b.emitted == l.b.emitted && Resolves(l.a, l'.a)
    decreases |Seen(l.a, l.b).ms| + |Seen(l.b, l.a).ms|, |Through(l.a)| + |Through(l.b)|
  {
    hide Next, Run, Whole, Misled, Seen, Through;
    q := MisledTurn(l);
    var l' := Run(l, q);
    if !Resolves(l.a, l'.a) {
      var y := MisledResolves(l');
      RunBoth(l, q, y);
      QuietBoth(q, y);
      q := q + y;
    }
  }

  /** A send that may not begin, begun, can be spoiled: it may resolve before any bundle has come, or another
      bundle may come first, or the same one twice. */
  lemma UnsafeSpoils(l: Link, bundle: seq<byte>) returns (q: seq<Event>)
    requires Fits(l) && Whole(l.a) && Whole(l.b) && Starts(l.a, Begin(bundle)) && !MayBegin(l.a, l.b, bundle)
    ensures Quiet(q)
    ensures var l' := Run(Next(l, AtA(Begin(bundle))), q);
            && !Reliable(l'.a, l'.b)
            && (Misled(l.b, Seen(l.a, l.b), |bundle|) ==> |l.a.begun| in l'.a.resolved && l'.b.emitted == l.b.emitted)
  {
    hide Run, Whole, Seen, Misled, StepAt, MayBegin, Added, Pending;
    var v, m := Seen(l.a, l.b), Next(l, AtA(Begin(bundle)));
    BeginIs(l.a, l.b, bundle);
    HarmlessIffMayBegin(l.a, l.b, v, bundle);
    var w := v.(ms := v.ms + Added(l.a, l.b, bundle));
    SameHarmless(Begun(l.a, l.b, bundle), l.b, w, m.b, Seen(m.a, m.b));
    assert !Harmless(m.a, m.b, Seen(m.a, m.b));
    var k := |l.b.emitted|;
    MisledIff(l.a, l.b, v, bundle);
    SameMisled(l.b, w, m.b, Seen(m.a, m.b), |bundle|);
    if Misled(m.b, Seen(m.a, m.b), |bundle|) {
      q := MisledResolves(m);
      var l' := Run(m, q);
      assert |l.a.begun| in l'.a.resolved && l'.a.resolved[|l.a.begun|] == k;
    } else {
      q := PeerTakesAll(m);
      var l' := Run(m, q);
      assert l'.b.emitted[k..] == m.b.emitted[k..] + Pending(m.b, Seen(m.a, m.b)).emitted;
    }
  }

  lemma SameHarmless(f: End, t: End, v: View, t': End, v': View)
    requires SameReceiver(t, t') && v' == v.(far := v'.far)
    ensures Harmless(f, t', v') == Harmless(f, t, v)
  {
    hide TakeAll, Early;
  }

  // ---- Every run -------------------------------------------------------------------------------------------------------

  lemma {:induction false} RunKeepsWhole(l: Link, es: seq<Event>)
    requires Fits(l) && Whole(l.a) && Whole(l.b)
    ensures Whole(Run(l, es).a) && Whole(Run(l, es).b)
    decreases |es|
  {
    hide Next, Whole, Seen, Moves, Begun, Added;
    if es != [] {
      RunKeepsWhole(l, es[..|es| - 1]);
      NextIs(Run(l, es[..|es| - 1]), es[|es| - 1]);
    }
  }

  lemma NewWhole(segA: nat, xferA: nat, segB: nat, xferB: nat)
    ensures var l := NewLink(segA, xferA, segB, xferB); Whole(l.a) && Whole(l.b)
  {
    NothingSeen(segA, xferA);
    NothingSeen(segB, xferB);
  }

  /** Main result: in whatever state a run has reached, a send begun that may not begin can be spoiled by
      octets already on their way, with no further send; where an acknowledgement misleads, by resolving
      before the peer has emitted anything. */
  lemma CarelessSendSpoils(segA: nat, xferA: nat, segB: nat, xferB: nat, es: seq<Event>, bundle: seq<byte>) returns (q: seq<Event>)
    requires Fits(NewLink(segA, xferA, segB, xferB))
    requires !Careful(Run(NewLink(segA, xferA, segB, xferB), es), AtA(Begin(bundle)))
    ensures Quiet(q)
    ensures var start := NewLink(segA, xferA, segB, xferB);
            var l, l' := Run(start, es), Run(start, es + [AtA(Begin(bundle))] + q);
            && !Reliable(l'.a, l'.b)
            && (Misled(l.b, Seen(l.a, l.b), |bundle|) ==> |l.a.begun| in l'.a.resolved && l'.b.emitted == l.b.emitted)
  {
    hide Run, NewLink, Next, Whole, Seen, Misled, MayBegin, Reliable;
    var start, e := NewLink(segA, xferA, segB, xferB), AtA(Begin(bundle));
    var l := Run(start, es);
    NewWhole(segA, xferA, segB, xferB);
    RunKeepsWhole(start, es);
    q := UnsafeSpoils(l, bundle);
    RunBoth(start, es + [e], q);
    RunBoth(start, es, [e]);
    RunOne(l, e);
  }

  lemma CarelessSpoils(l: Link, e: Event) returns (q: seq<Event>)
    requires Fits(l) && Whole(l.a) && Whole(l.b) && !Careful(l, e)
    ensures Quiet(q) && var l' := Run(Next(l, e), q); !Reliable(l'.a, l'.b)
  {
    hide Run, Whole, StepAt, MayBegin, Reliable;
    q := UnsafeSpoils(l, e.step.bundle);
  }

  ghost predicate ReliableAfter(l: Link, es: seq<Event>, q: seq<Event>)
    requires Fits(l)
  {
    var l' := Run(l, es + q);
    Reliable(l'.a, l'.b)
  }

  /** However a run breaks off and goes on without another send, end a may rely on what resolves. */
  ghost predicate Dependable(l: Link, es: seq<Event>)
    requires Fits(l)
  {
    forall k: nat, q: seq<Event> :: k <= |es| && Quiet(q) ==> ReliableAfter(l, es[..k], q)
  }

  lemma {:induction false} CarefulGoesOn(l: Link, es: seq<Event>, q: seq<Event>)
    requires Fits(l) && CarefulRun(l, es) && Quiet(q)
    ensures CarefulRun(l, es + q)
    decreases |q|
  {
    hide Run, MayBegin;
    if q == [] {
      assert es + q == es;
    } else {
      assert q[|q| - 1] in q;
      CarefulGoesOn(l, es, q[..|q| - 1]);
      assert (es + q)[..|es + q| - 1] == es + q[..|q| - 1];
      assert (es + q)[|es + q| - 1] == q[|q| - 1];
    }
  }

  lemma {:induction false} CarefulSoFar(l: Link, es: seq<Event>, k: nat)
    requires Fits(l) && CarefulRun(l, es) && k <= |es|
    ensures CarefulRun(l, es[..k])
    decreases |es|
  {
    hide Run, Careful;
    if k == |es| {
      assert es[..k] == es;
    } else {
      CarefulSoFar(l, es[..|es| - 1], k);
      assert es[..|es| - 1][..k] == es[..k];
    }
  }

  lemma DependableSoFar(l: Link, es: seq<Event>)
    requires Fits(l) && es != [] && Dependable(l, es)
    ensures Dependable(l, es[..|es| - 1])
  {
    hide ReliableAfter, Quiet;
    var first := es[..|es| - 1];
    forall k: nat, q: seq<Event> | k <= |first| && Quiet(q) ensures ReliableAfter(l, first[..k], q) {
      assert first[..k] == es[..k];
    }
  }

  lemma DependableAtEnd(l: Link, es: seq<Event>, q: seq<Event>)
    requires Fits(l) && Dependable(l, es) && Quiet(q)
    ensures Reliable(Run(l, es + q).a, Run(l, es + q).b)
  {
    hide Run, Reliable, Quiet;
    assert es[..|es|] == es;
  }

  lemma {:induction false} DependableIsCareful(l: Link, es: seq<Event>)
    requires Fits(l) && Whole(l.a) && Whole(l.b) && Dependable(l, es)
    ensures CarefulRun(l, es)
    decreases |es|
  {
    hide Run, Reliable, Dependable, Quiet, Whole, Careful, Next;
    if es != [] {
      var first, last := es[..|es| - 1], es[|es| - 1];
      DependableSoFar(l, es);
      DependableIsCareful(l, first);
      RunKeepsWhole(l, first);
      if !Careful(Run(l, first), last) {
        var q := CarelessSpoils(Run(l, first), last);
        DependableAtEnd(l, es, q);
        assert es == first + [last];
        RunBoth(l, es, q);
        RunBoth(l, first, [last]);
        RunOne(Run(l, first), last);
        assert false;
      }
    }
  }

  /** Main result: the exact condition. A run is dependable exactly when it begins only sends that may begin. */
  lemma DependableIffCareful(segA: nat, xferA: nat, segB: nat, xferB: nat, es: seq<Event>)
    requires Fits(NewLink(segA, xferA, segB, xferB))
    ensures Dependable(NewLink(segA, xferA, segB, xferB), es) <==> CarefulRun(NewLink(segA, xferA, segB, xferB), es)
  {
    hide Run, NewLink, Reliable, CarefulRun, Quiet, Whole;
    var start := NewLink(segA, xferA, segB, xferB);
    if CarefulRun(start, es) {
      forall k: nat, q: seq<Event> | k <= |es| && Quiet(q) ensures ReliableAfter(start, es[..k], q) {
        CarefulSoFar(start, es, k);
        CarefulGoesOn(start, es[..k], q);
        CarefulSendsAreReliable(segA, xferA, segB, xferB, es[..k] + q);
      }
    }
    if Dependable(start, es) {
      NewWhole(segA, xferA, segB, xferB);
      DependableIsCareful(start, es);
    }
  }

  /** The first send of a session times out: to begin another then is careless whatever its bundle, if the first
      one's was not empty and the peer takes bundles of its size; and careful if it was. */
  lemma TimeoutThenBegin(segA: nat, xferA: nat, segB: nat, xferB: nat, first: seq<byte>, second: seq<byte>)
    requires Fits(NewLink(segA, xferA, segB, xferB)) && |first| <= xferB
    ensures CarefulRun(NewLink(segA, xferA, segB, xferB), [AtA(Begin(first)), AtA(Timeout), AtA(Begin(second))]) <==> first == []
  {
    hide Whole, Clear, Through, SegmentsFrom, EncodeAll, TakeAll, Added, Careful, Next;
    var start := NewLink(segA, xferA, segB, xferB);
    var es := [AtA(Begin(first)), AtA(Timeout), AtA(Begin(second))];
    var l1 := Next(start, es[0]);
    var l2 := Next(l1, es[1]);
    assert es[..2] == [es[0], es[1]] && es[..2][..1] == [es[0]] && es[..1][..0] == [];
    RunNone(start);
    RunOne(start, es[0]);
    RunTwo(start, es[0], es[1]);
    FirstSend(start, segA, xferA, segB, xferB, first, second);
    assert CarefulRun(start, []);
    assert CarefulRun(start, es[..1]) <==> Careful(start, es[0]);
    assert CarefulRun(start, es[..2]) <==> CarefulRun(start, es[..1]) && Careful(l1, es[1]);
    assert CarefulRun(start, es) <==> CarefulRun(start, es[..2]) && Careful(l2, es[2]);
  }

  lemma FirstSend(start: Link, segA: nat, xferA: nat, segB: nat, xferB: nat, first: seq<byte>, second: seq<byte>)
    requires start == NewLink(segA, xferA, segB, xferB) && Fits(start) && |first| <= xferB
    ensures Careful(start, AtA(Begin(first)))
    ensures var l := Next(start, AtA(Begin(first)));
            Careful(l, AtA(Timeout)) && (Careful(Next(l, AtA(Timeout)), AtA(Begin(second))) <==> first == [])
  {
    hide Whole, Clear, Through, StepAt, Added, Misled, Pending;
    var a, b := start.a, start.b;
    NothingSeen(segA, xferA);
    NothingSeen(segB, xferB);
    NewIsClear(segB, xferB);
    NoneOfNothing();
    NothingPending(a, b);
    BeginIs(a, b, first);
    var l := Next(start, AtA(Begin(first)));
    assert l == Link(Begun(a, b, first), b.(wire := l.b.wire));
    assert Seen(l.a, l.b) == Seen(a, b).(ms := Seen(a, b).ms + Added(a, b, first), far := Clear(l.b));
    PendingWithAdded(a, b, Seen(a, b), first);
    var l' := Next(l, AtA(Timeout));
    assert l' == Link(l.a.(current := None, late := true), l.b) by { TimeoutIs(l); }
    SamePipeHears(l.a, l'.a);
    SamePending(b, l.b, Seen(l.a, l.b));
    if first == [] {
      AddedNothing(a, b);
      assert Seen(a, b).ms + [] == [];
      NothingPending(l'.a, l'.b);
    } else {
      assert Pending(l'.b, Seen(l'.a, l'.b)).emitted == [first];
      assert [first] == [second] ==> first == second by { assert [first][0] == first; }
    }
  }

  lemma TimeoutIs(l: Link)
    requires Fits(l) && l.a.current.Some?
    ensures Next(l, AtA(Timeout)) == Link(l.a.(current := None, late := true), l.b)
  {
  }

  lemma NothingPending(f: End, t: End)
    requires Seen(f, t).rs == [] && Seen(f, t).ms == []
    ensures Pending(t, Seen(f, t)).emitted == [] && forall n :: !Misled(t, Seen(f, t), n)
  {
    hide Seen;
  }

  lemma SamePending(t: End, t': End, v: View)
    requires SameReceiver(t, t')
    ensures Pending(t', v) == Pending(t, v)
  {
  }

  lemma AddedNothing(f: End, t: End)
    ensures Added(f, t, []) == []
  {
    NoneFrom([], SegmentSize(f.segmentMru));
  }

  lemma NewIsClear(segmentMru: nat, transferMru: nat)
    ensures Clear(NewEnd(segmentMru, transferMru))
  {
    NothingParses(transferMru);
    hide ParseMessage;
    var none: seq<byte> := [];
    assert none + none == none;
  }
}
