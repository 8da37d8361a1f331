/**
 Two TCPCLv3 sessions that acknowledge (gateway/tcpcl3.mjs, RFC 7242), joined by a byte stream each way,
 and every run of the pair. Version 3 numbers no transfers: an acknowledgement says how many octets of
 the transfer under way have come, and a send resolves when that is all of its own.

 So octets of a send that has timed out can spoil the next: its bundle may come first, or an
 acknowledgement of as many octets. `MayBegin` says when none of those on their way can, and sends begun only
 then are reliable; that no other is, is Tcpcl3Late. The two ends are alike, and everything is about a's sends.
 */
module Tcpcl3Link {
  import opened Wrappers
  import opened Bytes
  import opened Framing
  import opened Tcpcl3Wire
  import opened Tcpcl3Transfer

  // ---- Sessions --------------------------------------------------------------------------------------

  /** One end: whether its session is up; its limits; the length of the bundle whose send is waiting;
      whether a send has timed out; the bundles whose transfer was begun, and how many the peer had
      emitted when the last was; for each resolved send that number; the bundles emitted; what is being
      received; and the octets on their way to it, whether the connection towards it has died, and
      what its parser holds. */
  datatype End = End(
    open: bool, segmentMru: nat, transferMru: nat,
    current: Option<nat>, late: bool, begun: seq<seq<byte>>, before: nat, resolved: map<nat, nat>,
    emitted: seq<seq<byte>>, r: Receiving,
    wire: seq<byte>, cut: bool, buf: seq<byte>)

  datatype Link = Link(a: End, b: End)

  function NewEnd(segmentMru: nat, transferMru: nat): End {
    End(true, segmentMru, transferMru, None, false, [], 0, map[], [], Receiving(None, 0), [], false, [])
  }

  datatype Step =
    | Begin(bundle: seq<byte>)    // the next send in the queue starts
    | Arrive(count: nat)          // so many octets reach the parser
    | Handle                      // one turn of the receiving loop
    | Timeout                     // the send waiting gives up
    | Close                       // teardown
    | Say(m: Msg)                 // a keepalive, or the shutdown that begins a close
    | Cut(kept: nat)              // the connection towards this end dies, `kept` octets still in it

  /** Every number written can be read. */
  predicate Sized(e: End) {
    e.segmentMru < MAX_NUMBER && e.transferMru < MAX_NUMBER
  }

  function Carry(to: End, out: seq<Msg>): End
    requires AllEncodable(out)
  {
    if to.cut then to else to.(wire := to.wire + EncodeAll(out))
  }

  /** What one message does to the session, and what it writes. */
  function OnMessage(e: End, m: Msg): (x: (End, seq<Msg>))
    ensures Sized(e) ==> Sized(x.0) && AllEncodable(x.1)
    ensures forall m :: m in x.1 ==> IsReply(m)
  {
    match m
    case Segment(flags, data) =>
      var x := OnSegment(e.r, e.transferMru, flags, data);
      (e.(r := x.r, emitted := e.emitted + x.emitted), x.out)
    case Ack(value) =>
      (if e.current == Some(value) && e.begun != []
       then e.(current := None, resolved := e.resolved[|e.begun| - 1 := e.before]) else e, [])
    case Refuse(_) => (e.(current := None), [])
    case BadMagic => (Down(e), [])
    case BadHeader => (Down(e), [])
    case TooBig(_) => (Down(e), [])
    case SdnvError => (Down(e), [])
    case _ => (e, [])
  }

  function Down(e: End): End {
    e.(open := false, current := None)
  }

  function NextMessage(e: End): (p: Option<Parsed<Msg>>)
    ensures p.Some? ==> p.value.used <= |e.buf|
  {
    if ParseMessage(e.buf, e.transferMru).Some? then MessageStands(e.buf, [], e.transferMru); ParseMessage(e.buf, e.transferMru) else None
  }

  /** A step at end `me`, with `peer` at the other side; both as they are afterwards. */
  function StepAt(me: End, peer: End, step: Step): (x: (End, End))
    requires Sized(me) && Sized(peer)
    ensures Sized(x.0) && Sized(x.1)
  {
    match step
    case Begin(bundle) =>
      if !me.open || me.current.Some? then (me, peer)
      else
        (me.(current := Some(|bundle|), begun := me.begun + [bundle], before := |peer.emitted|),
         Carry(peer, SegmentsFrom(bundle, SegmentSize(me.segmentMru), 0)))
    case Arrive(count) =>
      (if count <= |me.wire| then me.(wire := me.wire[count..], buf := me.buf + me.wire[..count]) else me, peer)
    case Handle =>
      if !me.open then (me, peer)
      else
        (match NextMessage(me)
         case None => (me, peer)
         case Some(p) =>
           var (me', out) := OnMessage(me, p.msg);
           (me'.(buf := me.buf[p.used..]), Carry(peer, out)))
    case Timeout => (if me.current.Some? then me.(current := None, late := true) else me, peer)
    case Close => (Down(me), peer)
    case Say(m) => (me, if !me.open || !(m.Keepalive? || m.Shutdown?) then peer else Carry(peer, [m]))
    case Cut(kept) => (if kept <= |me.wire| then me.(wire := me.wire[..kept], cut := true) else me, peer)
  }

  datatype Event = AtA(step: Step) | AtB(step: Step)

  predicate Fits(l: Link) {
    Sized(l.a) && Sized(l.b)
  }

  function Next(l: Link, e: Event): (l': Link)
    requires Fits(l)
    ensures Fits(l')
  {
    match e
    case AtA(step) => var (a, b) := StepAt(l.a, l.b, step); Link(a, b)
    case AtB(step) => var (b, a) := StepAt(l.b, l.a, step); Link(a, b)
  }

  function Run(l: Link, es: seq<Event>): (l': Link)
    requires Fits(l)
    ensures Fits(l')
  {
    if es == [] then l else Next(Run(l, es[..|es| - 1]), es[|es| - 1])
  }

  /** Both sessions established and acknowledging. */
  function NewLink(segA: nat, xferA: nat, segB: nat, xferB: nat): Link {
    Link(NewEnd(segA, xferA), NewEnd(segB, xferB))
  }

  // ---- What is on its way ----------------------------------------------------------------------------------

  function Hears(e: End): Drained<Msg> {
    Drain(V3(e.transferMru), e.buf + e.wire, true)
  }

  /** All but the message that ends the session. */
  function Upto(d: Drained<Msg>): seq<Msg> {
    if d.stopped && d.msgs != [] then d.msgs[..|d.msgs| - 1] else d.msgs
  }

  /** The messages an end will take off its connection once all octets have reached it, up to one that
      ends its session. */
  function Through(e: End): seq<Msg> {
    if e.open then Upto(Hears(e)) else []
  }

  /** What is written to it now will be heard. */
  predicate Clear(e: End) {
    e.open && !e.cut && !Hears(e).stopped
  }

  /** While that is so, whole messages are on their way. */
  predicate Whole(e: End) {
    Clear(e) ==> Hears(e).rest == []
  }

  /** The same session, whatever its octets. */
  predicate SameSender(f: End, f': End) {
    && f'.open == f.open && f'.late == f.late && f'.current == f.current
    && f'.begun == f.begun && f'.before == f.before && f'.resolved == f.resolved
  }

  predicate SamePipe(e: End, e': End) {
    e'.open == e.open && e'.cut == e.cut && e'.transferMru == e.transferMru && e'.buf + e'.wire == e.buf + e.wire
  }

  lemma SamePipeHears(e: End, e': End)
    requires SamePipe(e, e')
    ensures Through(e') == Through(e) && Clear(e') == Clear(e) && Whole(e') == Whole(e)
  {
    hide Drain;
  }

  predicate GoesOn(m: Msg) {
    !m.BadMagic? && !m.BadHeader? && !m.TooBig? && !m.SdnvError?
  }

  lemma LastEnds(b: seq<byte>, limit: nat)
    requires ParseMessage(b, limit).Some?
    ensures ParseMessage(b, limit).value.last <==> !GoesOn(ParseMessage(b, limit).value.msg)
  {
    hide ReadSdnv;
  }

  lemma {:induction false} StoppedBy(b: seq<byte>, limit: nat)
    ensures Drain(V3(limit), b, true).stopped ==> Drain(V3(limit), b, true).msgs != []
    decreases |b|
  {
    hide ParseMessage;
  }

  /** The next message is the first of those on their way, unless it ends the session. */
  lemma HandleIs(me: End)
    requires me.open && NextMessage(me).Some?
    ensures var p := NextMessage(me).value; var e := me.(buf := me.buf[p.used..]);
            if GoesOn(p.msg) then Through(me) == [p.msg] + Through(e) && Clear(e) == Clear(me) && (Whole(me) ==> Whole(e))
            else Through(me) == [] && !Clear(me)
  {
    hide ParseMessage, Drain;
    var p, limit := NextMessage(me).value, me.transferMru;
    var b := me.buf + me.wire;
    MessageStands(me.buf, me.wire, limit);
    LastEnds(me.buf, limit);
    DrainOnce(V3(limit), b, true);
    assert V3(limit)(b, true) == Some(p);
    if GoesOn(p.msg) {
      assert b[p.used..] == me.buf[p.used..] + me.wire;
      StoppedBy(b[p.used..], limit);
    }
  }

  /** Of what is written, the messages before the first oversized segment get through. */
  lemma CarryIs(to: End, out: seq<Msg>)
    requires Whole(to) && AllEncodable(out)
    ensures var to' := Carry(to, out);
            && Whole(to') && (!Clear(to) ==> Through(to') == Through(to) && !Clear(to'))
            && (Clear(to) && Heard(out, to.transferMru) == out ==> Through(to') == Through(to) + out && Clear(to'))
            && (Clear(to) && Heard(out, to.transferMru) != out ==>
                  !Clear(to') && Through(to') == Through(to) + Upto(Drained(Heard(out, to.transferMru), [], true, true)))
  {
    hide Drain, Heard, EncodeAll, Incremental;
    if to.open && !to.cut {
      var limit, more := to.transferMru, EncodeAll(out);
      assert Incremental(V3(limit)) by { V3IsIncremental(limit); }
      DrainExtend(V3(limit), to.buf + to.wire, more, true);
      assert (to.buf + to.wire) + more == to.buf + (to.wire + more);
      StoppedBy(to.buf + to.wire, limit);
      AllReadBack(out, limit);
      StoppedBy(more, limit);
      if Clear(to) {
        assert [] + more == more;
        DrainKeepsHeader(to.buf + to.wire, limit);
      }
    }
  }

  lemma {:induction false} DrainKeepsHeader(b: seq<byte>, limit: nat)
    ensures Drain(V3(limit), b, true).headerDone
    decreases |b|
  {
    hide ParseMessage;
    var p := ParseMessage(b, limit);
    if p.Some? && !p.value.last && 0 < p.value.used <= |b| { DrainKeepsHeader(b[p.value.used..], limit); }
  }

  /** Where the connection dies, the messages cut off are the last. */
  lemma CutIs(me: End, kept: nat)
    requires kept <= |me.wire|
    ensures var me' := me.(wire := me.wire[..kept], cut := true); Through(me') <= Through(me) && !Clear(me')
  {
    hide Drain, Incremental;
    var limit, left, lost := me.transferMru, me.buf + me.wire[..kept], me.wire[kept..];
    assert Incremental(V3(limit)) by { V3IsIncremental(limit); }
    assert left + lost == me.buf + me.wire;
    DrainExtend(V3(limit), left, lost, true);
    var d := Drain(V3(limit), left, true);
    if !d.stopped { StoppedBy(d.rest + lost, limit); DrainKeepsHeader(left, limit); }
  }

  /** What is no oversized segment gets through. */
  lemma {:induction false} HeardWhole(ms: seq<Msg>, limit: nat)
    requires forall m :: m in ms ==> m.Segment? ==> |m.data| <= limit
    ensures Heard(ms, limit) == ms
  {
    if ms != [] { HeardWhole(ms[1..], limit); }
  }

  /** Of a bundle's segments all get through or, where the first is oversized, none. */
  predicate AllFit(bundle: seq<byte>, size: nat, limit: nat) {
    bundle != [] ==> (if size < |bundle| then size else |bundle|) <= limit
  }

  lemma SegmentsHeard(bundle: seq<byte>, size: nat, limit: nat)
    requires size > 0
    ensures var ms := SegmentsFrom(bundle, size, 0); var heard := Heard(ms, limit);
            if AllFit(bundle, size, limit) then heard == ms
            else heard != ms && Upto(Drained(heard, [], true, true)) == []
  {
    hide SegmentsFrom;
    var ms := SegmentsFrom(bundle, size, 0);
    if bundle == [] {
      NoneFrom(bundle, size);
    } else {
      FirstSegment(bundle, size, 0);
      if AllFit(bundle, size, limit) {
        HeardWhole(ms, limit);
      }
    }
  }

  // ---- What matters to one end's sends ------------------------------------------------------------------------

  /** The replies `f` will hear, whether it will hear what is written to it now, the segments `t` will hear, and
      whether `t` will hear what is written to it now. */
  datatype View = View(rs: seq<Msg>, clear: bool, ms: Data, far: bool)

  function Seen(f: End, t: End): View {
    View(Replies(Through(f)), Clear(f), Segments(Through(t)), Clear(t))
  }

  /** What `t` will make of the segments on their way to it. */
  function Pending(t: End, v: View): Taken {
    TakeAll(t.r, t.transferMru, v.ms)
  }

  /** Of the replies `rs`, and those to the segments `ms` if they can still be heard, an acknowledgement of n
      octets comes before any refusal and before any bundle. */
  predicate Early(rs: seq<Msg>, clear: bool, r: Receiving, limit: nat, ms: Data, n: nat)
    decreases |ms|, |rs|
  {
    if rs != [] then rs[0] == Ack(n) || (!rs[0].Refuse? && Early(rs[1..], clear, r, limit, ms, n))
    else
      clear && ms != [] &&
      var x := OnSegment(r, limit, ms[0].flags, ms[0].data);
      x.emitted == [] && Early(x.out, clear, x.r, limit, ms[1..], n)
  }

  predicate Misled(t: End, v: View, n: nat) {
    Early(v.rs, v.clear, t.r, t.transferMru, v.ms, n)
  }

  /** Every resolved send's bundle was emitted, later sends' later. */
  ghost predicate Resolved(f: End, t: End) {
    && (forall id :: id in f.resolved ==> id < |f.begun| && f.resolved[id] < |t.emitted| && t.emitted[f.resolved[id]] == f.begun[id])
    && (forall i, j :: i in f.resolved && j in f.resolved && i < j ==> f.resolved[i] < f.resolved[j])
    && (f.current.Some? ==> forall id :: id in f.resolved ==> id < |f.begun| - 1 && f.resolved[id] < f.before)
    && (f.begun != [] && |f.begun| - 1 in f.resolved ==> f.before < |t.emitted|)
    && (!f.open ==> f.current.None?)
  }

  predicate NoneOrJust(bundles: seq<seq<byte>>, bundle: seq<byte>) {
    bundles == [] || bundles == [bundle]
  }

  /** All that has come since the last send began, or will, is its bundle; and while it waits, until that has
      come no acknowledgement of as many octets. */
  ghost predicate Harmless(f: End, t: End, v: View) {
    && (if f.begun == [] then t.emitted == [] && Pending(t, v).emitted == []
        else f.before <= |t.emitted| && NoneOrJust(t.emitted[f.before..] + Pending(t, v).emitted, f.begun[|f.begun| - 1]))
    && (f.current.Some? ==> f.begun != [] && (|t.emitted| == f.before ==> !Misled(t, v, f.current.value)))
  }

  ghost predicate Kept(f: End, t: End, v: View) {
    Resolved(f, t) && Harmless(f, t, v)
  }

  /** Before any send has timed out: while one waits, only the last reply due ends it; and while none does, none
      is due. */
  predicate Orderly(f: End, t: End, v: View) {
    f.open && !f.late ==>
      var due := v.rs + Pending(t, v).out;
      match f.current
      case Some(total) => f.begun != [] && Proper(due, total)
      case None => due == []
  }

  // ---- What a step does to them ---------------------------------------------------------------------------------

  predicate SameReceiver(t: End, t': End) {
    t'.r == t.r && t'.transferMru == t.transferMru && t'.emitted == t.emitted
  }

  /** The sender hears the next reply. */
  predicate HearsReply(f: End, v: View, f': End, v': View) {
    && v.rs != [] && v' == v.(rs := v.rs[1..])
    && f'.begun == f.begun && f'.before == f.before && f'.late == f.late && f'.open == f.open
    && (if v.rs[0].Ack? && f.current == Some(v.rs[0].value) && f.begun != []
        then f'.current == None && f'.resolved == f.resolved[|f.begun| - 1 := f.before]
        else f'.resolved == f.resolved && f'.current == if v.rs[0].Refuse? then None else f.current)
  }

  /** Its send times out, or its session goes down. */
  predicate GivesUp(f: End, v: View, f': End, v': View) {
    && f'.current == None && (f'.late || !f'.open) && (f'.open ==> f.open) && v'.ms <= v.ms
    && f'.begun == f.begun && f'.before == f.before && f'.resolved == f.resolved
  }

  /** The receiver takes the next segment. */
  predicate TakesSegment(t: End, v: View, t': End, v': View) {
    && v.ms != []
    && var x := OnSegment(t.r, t.transferMru, v.ms[0].flags, v.ms[0].data);
    && t'.r == x.r && t'.transferMru == t.transferMru && t'.emitted == t.emitted + x.emitted
    && v' == View(v.rs + if v.clear then x.out else [], v.clear, v.ms[1..], v.far)
  }

  /** Some of what is on its way may be cut off, or never be heard. */
  predicate Fades(v: View, v': View) {
    && v'.rs <= v.rs && v'.ms <= v.ms
    && (v'.clear ==> v.clear && v'.rs == v.rs) && (v'.far ==> v.far && v'.ms == v.ms)
  }

  predicate Moves(f: End, t: End, v: View, f': End, t': End, v': View) {
    || (SameReceiver(t, t') && HearsReply(f, v, f', v'))
    || (SameReceiver(t, t') && GivesUp(f, v, f', v'))
    || (SameSender(f, f') && TakesSegment(t, v, t', v'))
    || (SameSender(f, f') && SameReceiver(t, t') && Fades(v, v'))
  }

  // ---- Careful sends stay reliable ------------------------------------------------------------------------------

  lemma {:induction false} EarlyGrows(rs: seq<Msg>, more: seq<Msg>, r: Receiving, limit: nat, m: Msg, ms: Data, n: nat)
    requires m.Segment?
    requires var x := OnSegment(r, limit, m.flags, m.data);
             x.emitted == [] && x.out == more && Early(rs + more, true, x.r, limit, ms, n)
    ensures Early(rs, true, r, limit, [m] + ms, n)
    decreases |rs|
  {
    hide OnSegment;
    if rs == [] {
      assert [] + more == more && ([m] + ms)[1..] == ms;
    } else {
      assert (rs + more)[1..] == rs[1..] + more;
      if rs[0] != Ack(n) { EarlyGrows(rs[1..], more, r, limit, m, ms, n); }
    }
  }

  /** What is misleading with less to hear is misleading with more. */
  lemma {:induction false} EarlyWithMore(rs: seq<Msg>, clear: bool, r: Receiving, limit: nat, ms: Data,
                                       rs': seq<Msg>, clear': bool, ms': Data, n: nat)
    requires rs' <= rs && ms' <= ms && (clear' ==> clear && rs' == rs)
    requires Early(rs', clear', r, limit, ms', n)
    ensures Early(rs, clear, r, limit, ms, n)
    decreases |ms|, |rs|
  {
    hide OnSegment;
    if rs != [] {
      if rs' != [] && rs[0] != Ack(n) { EarlyWithMore(rs[1..], clear, r, limit, ms, rs'[1..], clear', ms', n); }
    } else {
      var x := OnSegment(r, limit, ms[0].flags, ms[0].data);
      EarlyWithMore(x.out, clear, x.r, limit, ms[1..], x.out, clear', ms'[1..], n);
    }
  }

  lemma {:induction false} EarlyUnheard(rs: seq<Msg>, r: Receiving, limit: nat, ms: Data, r': Receiving, ms': Data, n: nat)
    ensures Early(rs, false, r, limit, ms, n) == Early(rs, false, r', limit, ms', n)
    decreases |rs|
  {
    if rs != [] { EarlyUnheard(rs[1..], r, limit, ms, r', ms', n); }
  }

  lemma AckedHasCome(f: End, t: End, v: View)
    requires Harmless(f, t, v) && f.current.Some? && v.rs != [] && v.rs[0] == Ack(f.current.value)
    ensures f.begun != [] && f.before < |t.emitted| && t.emitted[f.before] == f.begun[|f.begun| - 1]
  {
    hide OnSegment, TakeAll;
    assert Misled(t, v, f.current.value);
    hide Early;
    assert (t.emitted[f.before..] + Pending(t, v).emitted)[0] == t.emitted[f.before];
  }

  lemma HearsReplyResolved(f: End, t: End, v: View, f': End, t': End, v': View)
    requires Resolved(f, t) && SameReceiver(t, t') && HearsReply(f, v, f', v')
    requires f.current.Some? && v.rs[0] == Ack(f.current.value) ==>
               f.begun != [] && f.before < |t.emitted| && t.emitted[f.before] == f.begun[|f.begun| - 1]
    ensures Resolved(f', t')
  {
  }

  lemma HearsReplyKeeps(f: End, t: End, v: View, f': End, t': End, v': View)
    requires Kept(f, t, v) && SameReceiver(t, t') && HearsReply(f, v, f', v')
    ensures Kept(f', t', v')
  {
    if f.current.Some? && v.rs[0] == Ack(f.current.value) { AckedHasCome(f, t, v); }
    HearsReplyResolved(f, t, v, f', t', v');
    hide OnSegment, TakeAll, Resolved;
  }

  lemma GivesUpKeeps(f: End, t: End, v: View, f': End, t': End, v': View)
    requires Kept(f, t, v) && SameReceiver(t, t') && GivesUp(f, v, f', v')
    ensures Kept(f', t', v')
  {
    hide TakeAll, Early;
    PendingPrefix(t.r, t.transferMru, v.ms, v'.ms);
  }

  lemma ResolvedGrows(f: End, t: End, f': End, t': End)
    requires Resolved(f, t) && SameSender(f, f') && t.emitted <= t'.emitted
    ensures Resolved(f', t')
  {
  }

  lemma MisledAfter(t: End, v: View, t': End, v': View, n: nat)
    requires TakesSegment(t, v, t', v') && t'.emitted == t.emitted && Misled(t', v', n)
    ensures Misled(t, v, n)
  {
    hide OnSegment, Early;
    var x := OnSegment(t.r, t.transferMru, v.ms[0].flags, v.ms[0].data);
    if v.clear {
      assert v.ms == [v.ms[0]] + v.ms[1..];
      EarlyGrows(v.rs, x.out, t.r, t.transferMru, v.ms[0], v.ms[1..], n);
    } else {
      assert v.rs + [] == v.rs;
      EarlyUnheard(v.rs, t.r, t.transferMru, v.ms, x.r, v'.ms, n);
    }
  }

  lemma PendingAfter(t: End, v: View, t': End, v': View, k: nat)
    requires TakesSegment(t, v, t', v') && k <= |t.emitted|
    ensures t.emitted <= t'.emitted && t'.emitted[k..] + Pending(t', v').emitted == t.emitted[k..] + Pending(t, v).emitted
    ensures var x := OnSegment(t.r, t.transferMru, v.ms[0].flags, v.ms[0].data); Pending(t, v).out == x.out + Pending(t', v').out
  {
    hide OnSegment, TakeAll;
    assert v.ms == [v.ms[0]] + v.ms[1..];
    TakeFirst(t.r, t.transferMru, v.ms[0], v.ms[1..]);
  }

  lemma TakesSegmentKeeps(f: End, t: End, v: View, f': End, t': End, v': View)
    requires Kept(f, t, v) && SameSender(f, f') && TakesSegment(t, v, t', v')
    ensures Kept(f', t', v')
  {
    hide Misled, Pending, TakesSegment;
    PendingAfter(t, v, t', v', if f.begun != [] then f.before else 0);
    if f.current.Some? && |t'.emitted| == f.before && Misled(t', v', f.current.value) { MisledAfter(t, v, t', v', f.current.value); }
    ResolvedGrows(f, t, f', t');
    hide Resolved;
  }

  lemma {:induction false} PendingPrefix(r: Receiving, limit: nat, ms: Data, ms': Data)
    requires ms' <= ms
    ensures TakeAll(r, limit, ms').out <= TakeAll(r, limit, ms).out && TakeAll(r, limit, ms').emitted <= TakeAll(r, limit, ms).emitted
  {
    hide TakeAll;
    TakeBoth(r, limit, ms', ms[|ms'|..]);
    assert ms' + ms[|ms'|..] == ms;
  }

  lemma FadesKeeps(f: End, t: End, v: View, f': End, t': End, v': View)
    requires Kept(f, t, v) && SameSender(f, f') && SameReceiver(t, t') && Fades(v, v')
    ensures Kept(f', t', v')
  {
    hide OnSegment, TakeAll, Early;
    PendingPrefix(t.r, t.transferMru, v.ms, v'.ms);
    if f.current.Some? && Misled(t', v', f.current.value) {
      EarlyWithMore(v.rs, v.clear, t.r, t.transferMru, v.ms, v'.rs, v'.clear, v'.ms, f.current.value);
    }
  }

  lemma MovesKeep(f: End, t: End, v: View, f': End, t': End, v': View)
    requires Kept(f, t, v) && Moves(f, t, v, f', t', v')
    ensures Kept(f', t', v')
  {
    hide Kept, HearsReply, GivesUp, TakesSegment, Fades, SameSender, SameReceiver;
    if SameReceiver(t, t') && HearsReply(f, v, f', v') { HearsReplyKeeps(f, t, v, f', t', v'); }
    else if SameReceiver(t, t') && GivesUp(f, v, f', v') { GivesUpKeeps(f, t, v, f', t', v'); }
    else if SameSender(f, f') && TakesSegment(t, v, t', v') { TakesSegmentKeeps(f, t, v, f', t', v'); }
    else { FadesKeeps(f, t, v, f', t', v'); }
  }

  // ---- Orderly sends stay so ------------------------------------------------------------------------------------

  lemma HearsReplyOrderly(f: End, t: End, v: View, f': End, t': End, v': View)
    requires Orderly(f, t, v) && SameReceiver(t, t') && HearsReply(f, v, f', v')
    ensures Orderly(f', t', v')
  {
    hide OnSegment, TakeAll;
    if f.open && !f.late {
      var due, rest := v.rs + Pending(t, v).out, v'.rs + Pending(t', v').out;
      assert due == [v.rs[0]] + rest && due[0] == v.rs[0];
      forall i | 0 <= i < |rest| - 1 ensures rest[i] == due[i + 1] {
      }
    }
  }

  /** With some replies lost in between, what is left is as before. */
  lemma WithoutMiddle(a: seq<Msg>, b: seq<Msg>, c: seq<Msg>, total: nat)
    requires Proper(a + (b + c), total)
    ensures Proper(a + c, total)
  {
    var whole, less := a + (b + c), a + c;
    forall i | 0 <= i < |less| - 1 ensures less[i].Ack? && less[i].value < total {
      assert less[i] == whole[if i < |a| then i else i + |b|];
    }
  }

  lemma TakesSegmentOrderly(f: End, t: End, v: View, f': End, t': End, v': View)
    requires Orderly(f, t, v) && SameSender(f, f') && TakesSegment(t, v, t', v')
    ensures Orderly(f', t', v')
  {
    hide OnSegment, Pending, Proper;
    var x := OnSegment(t.r, t.transferMru, v.ms[0].flags, v.ms[0].data);
    var rest := Pending(t', v').out;
    PendingAfter(t, v, t', v', 0);
    if v.clear {
      assert (v.rs + x.out) + rest == v.rs + (x.out + rest);
    } else {
      assert v.rs + [] == v.rs;
      if f.open && !f.late && f.current.Some? { WithoutMiddle(v.rs, x.out, rest, f.current.value); }
    }
  }

  lemma LessDue(rs: seq<Msg>, out: seq<Msg>, rs': seq<Msg>, out': seq<Msg>, total: nat)
    requires Proper(rs + out, total) && rs' <= rs && out' <= out
    ensures Proper(rs' + out', total)
  {
    var whole, less := rs + out, rs' + out';
    forall i | 0 <= i < |less| - 1 ensures less[i].Ack? && less[i].value < total {
      assert less[i] == whole[if i < |rs'| then i else i + |rs| - |rs'|];
    }
  }

  lemma FadesOrderly(f: End, t: End, v: View, f': End, t': End, v': View)
    requires Orderly(f, t, v) && SameSender(f, f') && SameReceiver(t, t') && Fades(v, v')
    ensures Orderly(f', t', v')
  {
    hide OnSegment, TakeAll, Proper;
    PendingPrefix(t.r, t.transferMru, v.ms, v'.ms);
    if f.open && !f.late && f.current.Some? {
      LessDue(v.rs, Pending(t, v).out, v'.rs, Pending(t', v').out, f.current.value);
    }
  }

  lemma MovesOrderly(f: End, t: End, v: View, f': End, t': End, v': View)
    requires Orderly(f, t, v) && Moves(f, t, v, f', t', v')
    ensures Orderly(f', t', v')
  {
    if SameReceiver(t, t') && HearsReply(f, v, f', v') { HearsReplyOrderly(f, t, v, f', t', v'); }
    else if SameReceiver(t, t') && GivesUp(f, v, f', v') { }
    else if SameSender(f, f') && TakesSegment(t, v, t', v') { TakesSegmentOrderly(f, t, v, f', t', v'); }
    else { FadesOrderly(f, t, v, f', t', v'); }
  }

  // ---- A send begins --------------------------------------------------------------------------------------------

  /** From any offset of a transfer: the bundle comes unless it is empty or too large, and no acknowledgement
      of the whole before it. */
  lemma {:induction false} TransferIs(r: Receiving, limit: nat, bundle: seq<byte>, size: nat, off: nat, clear: bool)
    requires size > 0 && Ready(r, bundle, off)
    ensures var ms := SegmentsFrom(bundle, size, off);
            && TakeAll(r, limit, ms).emitted == (if off < |bundle| <= limit then [bundle] else [])
            && !Early([], clear, r, limit, ms, |bundle|)
    decreases |bundle| - off
  {
    hide OnSegment, SegmentsFrom, TakeAll, SegmentFlags, Ready, Early;
    ReadyWithin(r, bundle, off);
    if off == |bundle| {
      NoneFrom(bundle, size);
      NoSegments(r, limit, bundle, size);
      EarlyNothing(clear, r, limit, |bundle|);
    } else {
      var end := EndOf(bundle, size, off);
      var m := Segment(SegmentFlags(off == 0, end == |bundle|), bundle[off..end]);
      var ms := SegmentsFrom(bundle, size, end);
      FirstSegment(bundle, size, off);
      TakeFirst(r, limit, m, ms);
      OneSegment(r, limit, bundle, off, end);
      var x := OnSegment(r, limit, m.flags, m.data);
      EarlyFirst(clear, r, limit, m, ms, |bundle|);
      if end > limit {
        RefusedRest(x.r, limit, bundle, size, end);
        EarlyReply(Refuse(NO_RESOURCES), clear, x.r, limit, ms, |bundle|);
      } else if end == |bundle| {
        NoSegments(x.r, limit, bundle, size);
      } else {
        TransferIs(x.r, limit, bundle, size, end, clear);
        EarlyReply(Ack(end), clear, x.r, limit, ms, |bundle|);
        assert [] + TakeAll(x.r, limit, ms).emitted == TakeAll(x.r, limit, ms).emitted;
      }
    }
  }

  lemma EarlyNothing(clear: bool, r: Receiving, limit: nat, n: nat)
    ensures !Early([], clear, r, limit, [], n)
  {
  }

  lemma EarlyFirst(clear: bool, r: Receiving, limit: nat, m: Msg, ms: Data, n: nat)
    requires m.Segment?
    ensures var x := OnSegment(r, limit, m.flags, m.data);
            Early([], clear, r, limit, [m] + ms, n) == (clear && x.emitted == [] && Early(x.out, clear, x.r, limit, ms, n))
  {
    hide OnSegment;
    assert ([m] + ms)[1..] == ms;
  }

  lemma EarlyReply(reply: Msg, clear: bool, r: Receiving, limit: nat, ms: Data, n: nat)
    ensures Early([reply], clear, r, limit, ms, n) == (reply == Ack(n) || (!reply.Refuse? && Early([], clear, r, limit, ms, n)))
  {
    hide OnSegment;
    assert [reply][1..] == [];
  }

  /** Whatever is misleading with a harmless transfer added is so without it. */
  lemma {:induction false} EarlyWithout(rs: seq<Msg>, clear: bool, r: Receiving, limit: nat, ms: Data, added: Data, n: nat)
    requires forall r :: !Early([], clear, r, limit, added, n)
    requires Early(rs, clear, r, limit, ms + added, n)
    ensures Early(rs, clear, r, limit, ms, n)
    decreases |ms|, |rs|
  {
    hide OnSegment;
    assert [] + added == added;
    if rs != [] {
      if rs[0] != Ack(n) { EarlyWithout(rs[1..], clear, r, limit, ms, added, n); }
    } else if ms != [] {
      var x := OnSegment(r, limit, ms[0].flags, ms[0].data);
      assert (ms + added)[0] == ms[0] && (ms + added)[1..] == ms[1..] + added;
      EarlyWithout(x.out, clear, x.r, limit, ms[1..], added, n);
    }
  }

  /** A bundle sent now would come whole. */
  predicate Delivers(t: End, bundle: seq<byte>) {
    Clear(t) && 0 < |bundle| <= t.transferMru
  }

  /** A send may begin: of earlier ones no bundle is still to come, or just the same one and not twice; and no
      acknowledgement of as many octets would be heard first. */
  predicate MayBegin(f: End, t: End, bundle: seq<byte>) {
    var v := Seen(f, t);
    && (Pending(t, v).emitted == [] || (Pending(t, v).emitted == [bundle] && !Delivers(t, bundle)))
    && !Misled(t, v, |bundle|)
  }

  /** The segments of a send that will be heard. */
  function Added(f: End, t: End, bundle: seq<byte>): Data {
    if Clear(t) && AllFit(bundle, SegmentSize(f.segmentMru), t.transferMru) then SegmentsFrom(bundle, SegmentSize(f.segmentMru), 0) else []
  }

  function Begun(f: End, t: End, bundle: seq<byte>): End {
    f.(current := Some(|bundle|), begun := f.begun + [bundle], before := |t.emitted|)
  }

  lemma AddedIs(f: End, t: End, bundle: seq<byte>, r: Receiving, clear: bool)
    ensures TakeAll(r, t.transferMru, Added(f, t, bundle)).emitted == (if Delivers(t, bundle) then [bundle] else [])
    ensures !Early([], clear, r, t.transferMru, Added(f, t, bundle), |bundle|)
  {
    hide OnSegment, SegmentsFrom, Clear;
    TransferIs(r, t.transferMru, bundle, SegmentSize(f.segmentMru), 0, clear);
    EarlyNothing(clear, r, t.transferMru, |bundle|);
  }

  lemma MisledIff(f: End, t: End, v: View, bundle: seq<byte>)
    ensures Misled(t, v.(ms := v.ms + Added(f, t, bundle)), |bundle|) <==> Misled(t, v, |bundle|)
  {
    hide Early, Added, Delivers;
    var more, limit, n := Added(f, t, bundle), t.transferMru, |bundle|;
    forall r ensures !Early([], v.clear, r, limit, more, n) { AddedIs(f, t, bundle, r, v.clear); }
    if Early(v.rs, v.clear, t.r, limit, v.ms + more, n) { EarlyWithout(v.rs, v.clear, t.r, limit, v.ms, more, n); }
    if Early(v.rs, v.clear, t.r, limit, v.ms, n) { EarlyWithMore(v.rs, v.clear, t.r, limit, v.ms + more, v.rs, v.clear, v.ms, n); }
  }

  lemma PendingWithAdded(f: End, t: End, v: View, bundle: seq<byte>)
    ensures Pending(t, v.(ms := v.ms + Added(f, t, bundle))).emitted
            == Pending(t, v).emitted + (if Delivers(t, bundle) then [bundle] else [])
  {
    hide TakeAll, Added, Delivers, Early;
    TakeBoth(t.r, t.transferMru, v.ms, Added(f, t, bundle));
    AddedIs(f, t, bundle, Pending(t, v).r, v.clear);
  }

  lemma NoneOrJustWith(x: seq<seq<byte>>, bundle: seq<byte>, more: bool)
    ensures NoneOrJust(x + if more then [bundle] else [], bundle) <==> x == [] || (x == [bundle] && !more)
  {
    var all := x + if more then [bundle] else [];
    assert |all| == |x| + if more then 1 else 0;
    if x != [] { assert all[0] == x[0]; }
  }

  /** Beginning it is harmless exactly when it may begin. */
  lemma HarmlessIffMayBegin(f: End, t: End, v: View, bundle: seq<byte>)
    requires v == Seen(f, t)
    ensures Harmless(Begun(f, t, bundle), t, v.(ms := v.ms + Added(f, t, bundle))) <==> MayBegin(f, t, bundle)
  {
    hide Misled, Pending, Added, Seen, Delivers, NoneOrJust;
    MisledIff(f, t, v, bundle);
    PendingWithAdded(f, t, v, bundle);
    var all := Pending(t, v.(ms := v.ms + Added(f, t, bundle))).emitted;
    assert t.emitted[|t.emitted|..] + all == all;
    NoneOrJustWith(Pending(t, v).emitted, bundle, Delivers(t, bundle));
  }

  lemma ResolvedBegins(f: End, t: End, bundle: seq<byte>)
    requires Resolved(f, t) && f.open
    ensures Resolved(Begun(f, t, bundle), t)
  {
  }

  lemma BeginKeeps(f: End, t: End, v: View, bundle: seq<byte>)
    requires v == Seen(f, t) && Kept(f, t, v) && f.open && MayBegin(f, t, bundle)
    ensures Kept(Begun(f, t, bundle), t, v.(ms := v.ms + Added(f, t, bundle)))
  {
    hide Harmless, MayBegin, Added, Resolved, Begun;
    HarmlessIffMayBegin(f, t, v, bundle);
    ResolvedBegins(f, t, bundle);
  }

  lemma {:induction false} EarlyNeedsReply(clear: bool, r: Receiving, limit: nat, ms: Data, n: nat)
    requires TakeAll(r, limit, ms).out == []
    ensures !Early([], clear, r, limit, ms, n)
    decreases |ms|
  {
    hide OnSegment;
    if ms != [] {
      var x := OnSegment(r, limit, ms[0].flags, ms[0].data);
      EarlyNeedsReply(clear, x.r, limit, ms[1..], n);
    }
  }

  /** With nothing due any send may begin, and is as orderly. */
  lemma OrderlyBegins(f: End, t: End, v: View, bundle: seq<byte>)
    requires v == Seen(f, t) && Orderly(f, t, v) && f.open && !f.late && f.current.None?
    ensures MayBegin(f, t, bundle)
    ensures Orderly(Begun(f, t, bundle), t, v.(ms := v.ms + Added(f, t, bundle)))
  {
    hide OnSegment, TakeAll, Early, Seen, Delivers, Clear, AllFit, SegmentsFrom;
    var limit := t.transferMru;
    var p := Pending(t, v);
    assert v.rs == [] && p.out == [];
    EmittedWithReply(t.r, limit, v.ms);
    EarlyNeedsReply(v.clear, t.r, limit, v.ms, |bundle|);
    TakeBoth(t.r, limit, v.ms, Added(f, t, bundle));
    TransferOutcome(p.r, limit, bundle, SegmentSize(f.segmentMru), 0);
    NoneTaken(p.r, limit);
    var x := TakeAll(p.r, limit, Added(f, t, bundle));
    assert Proper(x.out, |bundle|);
    assert [] + ([] + x.out) == x.out;
  }

  // ---- Every step ---------------------------------------------------------------------------------------------------

  /** Replies are heard if the connection is clear, anything else but segments changes nothing. */
  lemma CarrySeen(to: End, out: seq<Msg>)
    requires Whole(to) && AllEncodable(out) && (forall m :: m in out ==> !m.Segment?)
    requires (forall m :: m in out ==> IsReply(m)) || (forall m :: m in out ==> !IsReply(m))
    ensures var to' := Carry(to, out);
            && Whole(to') && Clear(to') == Clear(to) && Segments(Through(to')) == Segments(Through(to))
            && Replies(Through(to')) == Replies(Through(to)) + if Clear(to) && (forall m :: m in out ==> IsReply(m)) then out else []
  {
    hide Clear, Through, EncodeAll, Encodable, Segments, Replies, Whole, Carry;
    CarryIs(to, out);
    HeardWhole(out, to.transferMru);
    OnlyAfter(Through(to), out);
    assert Replies(Through(to)) + [] == Replies(Through(to));
  }

  lemma SegmentsEncodable(bundle: seq<byte>, segmentMru: nat)
    requires segmentMru < MAX_NUMBER
    ensures AllEncodable(SegmentsFrom(bundle, SegmentSize(segmentMru), 0))
  {
    hide SegmentsFrom;
  }

  lemma CarrySegments(f: End, to: End, bundle: seq<byte>)
    requires Whole(to) && Sized(f)
    ensures AllEncodable(SegmentsFrom(bundle, SegmentSize(f.segmentMru), 0))
    ensures var to' := Carry(to, SegmentsFrom(bundle, SegmentSize(f.segmentMru), 0));
            && Whole(to') && (Clear(to') ==> Clear(to)) && (Delivers(to, bundle) ==> Clear(to')) && Replies(Through(to')) == Replies(Through(to))
            && Segments(Through(to')) == Segments(Through(to)) + Added(f, to, bundle)
  {
    hide Clear, Through, EncodeAll, Encodable, Segments, Replies, Whole, Carry, SegmentsFrom;
    SegmentsEncodable(bundle, f.segmentMru);
    var out := SegmentsFrom(bundle, SegmentSize(f.segmentMru), 0);
    CarryIs(to, out);
    SegmentsHeard(bundle, SegmentSize(f.segmentMru), to.transferMru);
    OnlyAfter(Through(to), out);
    assert Through(to) + [] == Through(to) && Segments(Through(to)) + [] == Segments(Through(to));
  }

  /** Whether the step starts a send. */
  predicate Starts(me: End, step: Step) {
    step.Begin? && me.open && me.current.None?
  }

  lemma BeginIs(me: End, peer: End, bundle: seq<byte>)
    requires Sized(me) && Sized(peer) && Whole(me) && Whole(peer) && Starts(me, Begin(bundle))
    ensures var (me', peer') := StepAt(me, peer, Begin(bundle)); var v := Seen(me, peer);
            && Whole(me') && Whole(peer') && (Clear(peer') ==> Clear(peer)) && (Delivers(peer, bundle) ==> Clear(peer'))
            && me' == Begun(me, peer, bundle) && SameReceiver(peer, peer') && peer' == peer.(wire := peer'.wire)
            && Seen(me', peer') == v.(ms := v.ms + Added(me, peer, bundle), far := Clear(peer'))
            && Moves(peer, me, Seen(peer, me), peer', me', Seen(peer', me'))
  {
    hide Clear, Through, EncodeAll, Encodable, Segments, Replies, Whole, SegmentsFrom, Added;
    CarrySegments(me, peer, bundle);
    SamePipeHears(me, Begun(me, peer, bundle));
  }

  lemma NothingMoves(f: End, t: End, v: View, f': End, t': End, v': View)
    requires SameSender(f, f') && SameReceiver(t, t') && Fades(v, v')
    ensures Moves(f, t, v, f', t', v')
  {
  }

  ghost predicate BothMove(me: End, peer: End, me': End, peer': End) {
    && Whole(me') && Whole(peer')
    && Moves(me, peer, Seen(me, peer), me', peer', Seen(me', peer'))
    && Moves(peer, me, Seen(peer, me), peer', me', Seen(peer', me'))
  }

  /** A turn of the loop leaves the rest of the messages on their way. */
  ghost predicate After(me: End, m: Msg, e: End) {
    && Through(me) == [m] + Through(e) && Clear(e) == Clear(me) && Whole(e) && e == me.(buf := e.buf)
  }

  lemma SeenAfter(me: End, peer: End, m: Msg, e: End, me': End, peer': End, out: seq<Msg>)
    requires After(me, m, e) && Whole(peer) && SamePipe(e, me') && AllEncodable(out) && peer' == Carry(peer, out)
    requires (if m.Segment? then forall m :: m in out ==> IsReply(m) else out == [])
    ensures Whole(me') && Whole(peer')
    ensures var v, v' := Seen(me, peer), Seen(me', peer');
            v.rs == (if IsReply(m) then [m] else []) + v'.rs && v'.clear == v.clear && v'.ms == v.ms && v'.far == v.far
    ensures var v, v' := Seen(peer, me), Seen(peer', me');
            v.ms == (if m.Segment? then [m] else []) + v'.ms && v'.clear == v.clear && v'.far == v.far && v'.rs == v.rs + if v.clear then out else []
  {
    hide Clear, Through, EncodeAll, Encodable, Segments, Replies, Whole, SamePipe, Carry;
    SamePipeHears(e, me');
    if !m.Segment? { assert forall m :: m in out ==> !IsReply(m); }
    assert forall m :: m in out ==> !m.Segment?;
    CarrySeen(peer, out);
    OnlyFirst(Through(me));
    assert Through(me)[1..] == Through(e);
    assert Replies(Through(peer)) + [] == Replies(Through(peer));
  }

  lemma SegmentMoves(me: End, peer: End, m: Msg, e: End)
    requires Sized(me) && Whole(peer) && me.open && m.Segment? && After(me, m, e)
    ensures var (x, out) := OnMessage(me, m); BothMove(me, peer, x.(buf := e.buf), Carry(peer, out))
  {
    hide Seen, Whole, Clear, OnSegment, EncodeAll, Carry;
    var (x, out) := OnMessage(me, m);
    var me', peer' := x.(buf := e.buf), Carry(peer, out);
    CarryWrites(peer, out);
    SeenAfter(me, peer, m, e, me', peer', out);
    assert TakesSegment(me, Seen(peer, me), me', Seen(peer', me'));
    var v' := Seen(me', peer');
    assert [] + v'.rs == v'.rs;
    assert Fades(Seen(me, peer), v');
    hide TakesSegment, Fades, HearsReply, GivesUp;
  }

  lemma OtherMessage(me: End, m: Msg)
    requires !m.Segment? && GoesOn(m)
    ensures var (x, out) := OnMessage(me, m);
            out == [] && SameReceiver(me, x) && x.open == me.open && x.wire == me.wire && x.cut == me.cut && (!IsReply(m) ==> x == me)
  {
  }

  lemma OtherHeard(me: End, peer: End, m: Msg, v: View, me': End, peer': End, v': View)
    requires !m.Segment? && GoesOn(m) && me' == OnMessage(me, m).0.(buf := me'.buf) && SameReceiver(peer, peer')
    requires v.rs == (if IsReply(m) then [m] else []) + v'.rs && v'.clear == v.clear && v'.ms == v.ms && v'.far == v.far
    ensures Moves(me, peer, v, me', peer', v')
  {
    hide OnSegment, TakesSegment, GivesUp;
    if IsReply(m) {
      assert v.rs[0] == m && v.rs[1..] == v'.rs;
    } else {
      assert [] + v'.rs == v'.rs;
    }
  }

  lemma OtherMoves(me: End, peer: End, m: Msg, e: End, me': End, peer': End)
    requires Sized(me) && Whole(peer) && !m.Segment? && GoesOn(m) && After(me, m, e)
    requires me' == OnMessage(me, m).0.(buf := e.buf) && peer' == Carry(peer, [])
    ensures BothMove(me, peer, me', peer')
  {
    hide Seen, Whole, Clear, Through, OnMessage, EncodeAll, Carry, Moves, Hears, HearsReply, GivesUp, TakesSegment;
    OtherMessage(me, m);
    CarryWrites(peer, []);
    SeenAfter(me, peer, m, e, me', peer', []);
    OtherHeard(me, peer, m, Seen(me, peer), me', peer', Seen(me', peer'));
    var w, w' := Seen(peer, me), Seen(peer', me');
    assert [] + w'.ms == w'.ms && w.rs + [] == w.rs;
    NothingMoves(peer, me, w, peer', me', w');
  }

  lemma TurnMoves(me: End, peer: End)
    requires Sized(me) && Sized(peer) && Whole(me) && Whole(peer)
    ensures var (me', peer') := StepAt(me, peer, Handle); BothMove(me, peer, me', peer')
  {
    hide Clear, Through, EncodeAll, Segments, Replies, Whole, NextMessage, OnMessage, Moves, Carry;
    var (me', peer') := StepAt(me, peer, Handle);
    if me.open && NextMessage(me).Some? {
      var p := NextMessage(me).value;
      HandleIs(me);
      if GoesOn(p.msg) {
        if p.msg.Segment? { SegmentMoves(me, peer, p.msg, me.(buf := me.buf[p.used..])); }
        else {
          OtherMessage(me, p.msg);
          OtherMoves(me, peer, p.msg, me.(buf := me.buf[p.used..]), me', peer');
        }
      } else {
        EndsSession(me, p.msg);
        GoneMoves(me, peer, me', Carry(peer, []));
      }
    } else {
      NothingMoves(me, peer, Seen(me, peer), me, peer, Seen(me, peer));
      NothingMoves(peer, me, Seen(peer, me), peer, me, Seen(peer, me));
    }
  }

  lemma EndsSession(me: End, m: Msg)
    requires !GoesOn(m)
    ensures OnMessage(me, m) == (Down(me), [])
  {
  }

  lemma GoneMoves(me: End, peer: End, me': End, peer': End)
    requires Whole(peer) && me' == Down(me).(wire := me'.wire, buf := me'.buf) && (peer' == peer || peer' == Carry(peer, []))
    ensures BothMove(me, peer, me', peer')
  {
    hide Hears, EncodeAll, Segments, Replies, Carry;
    CarrySeen(peer, []);
    assert Replies(Through(peer)) + [] == Replies(Through(peer));
    assert Through(me') == [] && !Clear(me');
    NoneOfNothing();
    assert Segments([]) == [] && [] <= Segments(Through(me));
    assert peer' == peer.(wire := peer'.wire) by { CarryWrites(peer, []); }
  }

  lemma CarryWrites(to: End, out: seq<Msg>)
    requires AllEncodable(out)
    ensures Carry(to, out) == to.(wire := Carry(to, out).wire)
  {
  }

  lemma NoneOfNothing()
    ensures Segments([]) == [] && Replies([]) == []
  {
  }

  lemma OnlyPrefix(ms: seq<Msg>, ms': seq<Msg>)
    requires ms' <= ms
    ensures Segments(ms') <= Segments(ms) && Replies(ms') <= Replies(ms)
  {
    hide IsSegment, IsReply;
    assert ms == ms' + ms[|ms'|..];
    OnlyBoth(IsSegment, ms', ms[|ms'|..]);
    OnlyBoth(IsReply, ms', ms[|ms'|..]);
  }

  lemma CutMoves(me: End, peer: End, kept: nat)
    requires Whole(me) && Whole(peer) && kept <= |me.wire|
    ensures BothMove(me, peer, me.(wire := me.wire[..kept], cut := true), peer)
  {
    hide Hears, Segments, Replies, Upto;
    var me' := me.(wire := me.wire[..kept], cut := true);
    CutIs(me, kept);
    OnlyPrefix(Through(me), Through(me'));
  }

  /** Any step but the beginning of a send. */
  lemma StepMoves(me: End, peer: End, step: Step)
    requires Sized(me) && Sized(peer) && Whole(me) && Whole(peer) && !Starts(me, step)
    ensures var (me', peer') := StepAt(me, peer, step); BothMove(me, peer, me', peer')
  {
    hide Hears, Upto, EncodeAll, Segments, Replies, Moves, BothMove, Carry, NextMessage;
    var (me', peer') := StepAt(me, peer, step);
    match step
    case Handle => TurnMoves(me, peer);
    case Close => GoneMoves(me, peer, me', peer);
    case Cut(kept) => if kept <= |me.wire| { CutMoves(me, peer, kept); } else { StillMoves(me, peer, me, peer); }
    case Timeout => if me.current.Some? { TimeoutMoves(me, peer); } else { StillMoves(me, peer, me, peer); }
    case Say(m) => SayMoves(me, peer, m);
    case Arrive(count) =>
      assert count <= |me.wire| ==> (me.buf + me.wire[..count]) + me.wire[count..] == me.buf + me.wire;
      StillMoves(me, peer, me', peer);
    case Begin(_) => StillMoves(me, peer, me, peer);
  }

  lemma StillMoves(me: End, peer: End, me': End, peer': End)
    requires Whole(me) && Whole(peer) && peer' == peer && me' == me.(wire := me'.wire, buf := me'.buf) && SamePipe(me, me')
    ensures BothMove(me, peer, me', peer')
  {
    hide Through, Clear, Whole, Segments, Replies;
    SamePipeHears(me, me');
  }

  lemma TimeoutMoves(me: End, peer: End)
    requires Whole(me) && Whole(peer)
    ensures BothMove(me, peer, me.(current := None, late := true), peer)
  {
    hide Through, Clear, Whole, Segments, Replies;
    SamePipeHears(me, me.(current := None, late := true));
  }

  lemma SayMoves(me: End, peer: End, m: Msg)
    requires Sized(me) && Sized(peer) && Whole(me) && Whole(peer)
    ensures var (me', peer') := StepAt(me, peer, Say(m)); BothMove(me, peer, me', peer')
  {
    hide Through, Clear, Whole, Segments, Replies, EncodeAll;
    if me.open && (m.Keepalive? || m.Shutdown?) {
      assert m in [m];
      CarrySeen(peer, [m]);
      assert Replies(Through(peer)) + [] == Replies(Through(peer));
    }
  }

  // ---- Every run ------------------------------------------------------------------------------------------------------

  /** What a sender may rely on: each resolved send's bundle has been emitted by the peer, later sends'
      later; and since the last one began the peer has emitted nothing, or just its bundle. */
  ghost predicate Reliable(f: End, t: End) {
    && (forall id :: id in f.resolved ==> id < |f.begun| && f.resolved[id] < |t.emitted| && t.emitted[f.resolved[id]] == f.begun[id])
    && (forall i, j :: i in f.resolved && j in f.resolved && i < j ==> f.resolved[i] < f.resolved[j])
    && JustItsBundle(f, t)
  }

  ghost predicate JustItsBundle(f: End, t: End) {
    if f.begun == [] then t.emitted == []
    else
      && f.before <= |t.emitted| && NoneOrJust(t.emitted[f.before..], f.begun[|f.begun| - 1])
      && (|f.begun| - 1 in f.resolved ==> f.before < |t.emitted|)
  }

  function Exchanged(e: Event): Event {
    match e case AtA(step) => AtB(step) case AtB(step) => AtA(step)
  }

  function ExchangedAll(es: seq<Event>): (r: seq<Event>)
    ensures |r| == |es| && forall i :: 0 <= i < |es| ==> r[i] == Exchanged(es[i])
  {
    seq(|es|, i requires 0 <= i < |es| => Exchanged(es[i]))
  }

  /** The ends are alike: what is shown of a's sends in every run is so of b's. */
  lemma {:induction false} EndsAreAlike(l: Link, es: seq<Event>)
    requires Fits(l)
    ensures var l' := Run(l, es); Run(Link(l.b, l.a), ExchangedAll(es)) == Link(l'.b, l'.a)
    decreases |es|
  {
    hide StepAt;
    if es != [] {
      EndsAreAlike(l, es[..|es| - 1]);
      assert ExchangedAll(es)[..|es| - 1] == ExchangedAll(es[..|es| - 1]);
    }
  }

  /** No send is begun at end a after one has timed out there. */
  predicate Patient(l: Link, e: Event) {
    e.AtA? && Starts(l.a, e.step) ==> !l.a.late
  }

  /** None is begun there that may not begin. */
  predicate Careful(l: Link, e: Event) {
    e.AtA? && Starts(l.a, e.step) ==> MayBegin(l.a, l.b, e.step.bundle)
  }

  predicate PatientRun(l: Link, es: seq<Event>)
    requires Fits(l)
  {
    es == [] || (PatientRun(l, es[..|es| - 1]) && Patient(Run(l, es[..|es| - 1]), es[|es| - 1]))
  }

  predicate CarefulRun(l: Link, es: seq<Event>)
    requires Fits(l)
  {
    es == [] || (CarefulRun(l, es[..|es| - 1]) && Careful(Run(l, es[..|es| - 1]), es[|es| - 1]))
  }

  ghost predicate LinkKept(l: Link) {
    Whole(l.a) && Whole(l.b) && Kept(l.a, l.b, Seen(l.a, l.b))
  }

  predicate LinkOrderly(l: Link) {
    Whole(l.a) && Whole(l.b) && Orderly(l.a, l.b, Seen(l.a, l.b))
  }

  /** It is all the same what else the receiver has on its way. */
  lemma SameReceived(f: End, t: End, v: View, t': End, v': View)
    requires SameReceiver(t, t') && v' == v.(far := v'.far)
    ensures Kept(f, t', v') == Kept(f, t, v) && Orderly(f, t', v') == Orderly(f, t, v)
  {
    hide TakeAll, Early, Proper;
  }

  /** A step is the beginning of one of a's sends, or moves them. */
  lemma NextIs(l: Link, e: Event)
    requires Fits(l) && Whole(l.a) && Whole(l.b)
    ensures var l' := Next(l, e); var v := Seen(l.a, l.b);
            && Whole(l'.a) && Whole(l'.b)
            && if e.AtA? && Starts(l.a, e.step)
               then l'.a == Begun(l.a, l.b, e.step.bundle) && SameReceiver(l.b, l'.b)
                    && Seen(l'.a, l'.b) == v.(ms := v.ms + Added(l.a, l.b, e.step.bundle), far := Clear(l'.b))
                    && (Clear(l'.b) ==> Clear(l.b)) && (Delivers(l.b, e.step.bundle) ==> Clear(l'.b))
               else Moves(l.a, l.b, v, l'.a, l'.b, Seen(l'.a, l'.b))
  {
    hide StepAt, Whole, Seen, Moves, Added;
    match e
    case AtA(step) => if Starts(l.a, step) { BeginIs(l.a, l.b, step.bundle); } else { StepMoves(l.a, l.b, step); }
    case AtB(step) => if Starts(l.b, step) { BeginIs(l.b, l.a, step.bundle); } else { StepMoves(l.b, l.a, step); }
  }

  lemma NextKeeps(l: Link, e: Event)
    requires Fits(l) && LinkKept(l) && Careful(l, e)
    ensures LinkKept(Next(l, e))
  {
    hide Next, Whole, Kept, Seen, Moves, MayBegin, Begun, Added;
    var l', v := Next(l, e), Seen(l.a, l.b);
    NextIs(l, e);
    if e.AtA? && Starts(l.a, e.step) {
      BeginKeeps(l.a, l.b, v, e.step.bundle);
      SameReceived(l'.a, l.b, v.(ms := v.ms + Added(l.a, l.b, e.step.bundle)), l'.b, Seen(l'.a, l'.b));
    } else {
      MovesKeep(l.a, l.b, v, l'.a, l'.b, Seen(l'.a, l'.b));
    }
  }

  lemma NextOrderly(l: Link, e: Event)
    requires Fits(l) && LinkOrderly(l) && Patient(l, e)
    ensures LinkOrderly(Next(l, e)) && Careful(l, e)
  {
    hide Next, Whole, Orderly, Seen, Moves, MayBegin, Begun, Added;
    var l', v := Next(l, e), Seen(l.a, l.b);
    NextIs(l, e);
    if e.AtA? && Starts(l.a, e.step) {
      OrderlyBegins(l.a, l.b, v, e.step.bundle);
      SameReceived(l'.a, l.b, v.(ms := v.ms + Added(l.a, l.b, e.step.bundle)), l'.b, Seen(l'.a, l'.b));
    } else {
      MovesOrderly(l.a, l.b, v, l'.a, l'.b, Seen(l'.a, l'.b));
    }
  }

  lemma NewLinkKept(segA: nat, xferA: nat, segB: nat, xferB: nat)
    ensures var l := NewLink(segA, xferA, segB, xferB); LinkKept(l) && LinkOrderly(l)
  {
    NothingSeen(segA, xferA);
    NothingSeen(segB, xferB);
    hide Hears, Through, Clear, Misled;
  }

  lemma NothingSeen(segmentMru: nat, transferMru: nat)
    ensures var e := NewEnd(segmentMru, transferMru); Whole(e) && Through(e) == []
  {
    NothingParses(transferMru);
    hide ParseMessage;
    var none: seq<byte> := [];
    assert none + none == none;
  }

  lemma {:induction false} RunKeeps(l: Link, es: seq<Event>)
    requires Fits(l) && LinkKept(l) && CarefulRun(l, es)
    ensures LinkKept(Run(l, es))
    decreases |es|
  {
    hide LinkKept, Next, Careful;
    if es != [] {
      RunKeeps(l, es[..|es| - 1]);
      NextKeeps(Run(l, es[..|es| - 1]), es[|es| - 1]);
    }
  }

  lemma {:induction false} PatientIsCareful(l: Link, es: seq<Event>)
    requires Fits(l) && LinkOrderly(l) && PatientRun(l, es)
    ensures CarefulRun(l, es) && LinkOrderly(Run(l, es))
    decreases |es|
  {
    hide LinkOrderly, Next, Careful, Patient;
    if es != [] {
      PatientIsCareful(l, es[..|es| - 1]);
      NextOrderly(Run(l, es[..|es| - 1]), es[|es| - 1]);
    }
  }

  lemma KeptIsReliable(f: End, t: End, v: View)
    requires Kept(f, t, v)
    ensures Reliable(f, t)
  {
    hide Pending, Misled;
    if f.begun != [] {
      var come, more, last := t.emitted[f.before..], Pending(t, v).emitted, f.begun[|f.begun| - 1];
      if come != [] { assert (come + more)[0] == come[0] && |come + more| == 1; }
    }
  }

  /** Main result: in every run that begins only sends that may begin, the sender may rely on them, whatever
      the other end sends, the pieces octets arrive in and wherever the connections die. */
  lemma CarefulSendsAreReliable(segA: nat, xferA: nat, segB: nat, xferB: nat, es: seq<Event>)
    requires Fits(NewLink(segA, xferA, segB, xferB)) && CarefulRun(NewLink(segA, xferA, segB, xferB), es)
    ensures var l := Run(NewLink(segA, xferA, segB, xferB), es); Reliable(l.a, l.b)
  {
    hide Run, NewLink, CarefulRun, Reliable, Kept, Seen, Whole;
    var start := NewLink(segA, xferA, segB, xferB);
    NewLinkKept(segA, xferA, segB, xferB);
    RunKeeps(start, es);
    var l := Run(start, es);
    KeptIsReliable(l.a, l.b, Seen(l.a, l.b));
  }

  /** Main result: a run that begins none after one has timed out is such a run. */
  lemma PatientSendsAreReliable(segA: nat, xferA: nat, segB: nat, xferB: nat, es: seq<Event>)
    requires Fits(NewLink(segA, xferA, segB, xferB)) && PatientRun(NewLink(segA, xferA, segB, xferB), es)
    ensures CarefulRun(NewLink(segA, xferA, segB, xferB), es)
    ensures var l := Run(NewLink(segA, xferA, segB, xferB), es); Reliable(l.a, l.b)
  {
    hide Run, NewLink, PatientRun, CarefulRun, Reliable, LinkKept, LinkOrderly;
    NewLinkKept(segA, xferA, segB, xferB);
    PatientIsCareful(NewLink(segA, xferA, segB, xferB), es);
    CarefulSendsAreReliable(segA, xferA, segB, xferB, es);
  }
}
