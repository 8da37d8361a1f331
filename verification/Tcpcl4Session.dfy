/**
 A TCPCLv4 session of gateway/tcpcl4.mjs once it is established (section 5.2 of RFC 9174): cutting a
 bundle into segments, putting received segments together, and acknowledging them.

 `Handle` and `SendBundle` say what one message or one call does to a session; class `Session` is the
 object itself.
 */
module Tcpcl4Session {
  import opened Wrappers
  import opened Bytes
  import opened Framing
  import opened Tcpcl4Wire

  const REPLY: byte := 1
  const REASON_RESOURCE_EXHAUSTION: byte := 5
  const REJECT_TYPE_UNKNOWN: byte := 1
  const REJECT_UNEXPECTED: byte := 3
  const REFUSE_NO_RESOURCES: byte := 2

  datatype Phase = Established | Ending | Closed

  /** The limits we announced, the peer's, and the transfers in progress each way: for each of ours
      still waiting its length, for each of the peer's the segments received and their size. */
  datatype State = State(
    phase: Phase,
    transferMru: nat, peerSegmentMru: nat, peerTransferMru: nat,
    nextId: nat, pending: map<nat, nat>,
    rx: map<nat, seq<seq<byte>>>, rxBytes: map<nat, nat>)

  /** What a step writes to the peer, hands up as complete bundles, and settles of our own sends. */
  datatype Effect = Effect(s: State, out: seq<Msg>, emitted: seq<seq<byte>>, resolved: set<nat>)

  function Quiet(s: State): Effect {
    Effect(s, [], [], {})
  }

  function Says(s: State, m: Msg): Effect {
    Effect(s, [m], [], {})
  }

  // ---- Receiving ------------------------------------------------------------------------------------

  function Teardown(s: State): State {
    s.(phase := Closed, pending := map[])
  }

  function OnSegment(s: State, flags: byte, id: nat, data: seq<byte>): Effect {
    if !s.phase.Established? then Says(s, Reject(REJECT_UNEXPECTED, XFER_SEGMENT))
    else
      var rx := if IsStart(flags) then s.rx[id := []] else s.rx;
      var bytes := if IsStart(flags) then s.rxBytes[id := 0] else s.rxBytes;
      if id !in rx || id !in bytes then Says(s, Reject(REJECT_UNEXPECTED, XFER_SEGMENT))
      else WithPart(s.(rx := rx, rxBytes := bytes), flags, id, data)
  }

  /** One more part of a transfer being received: refused above the limit, else acknowledged, and with
      the last one the bundle is complete. */
  function WithPart(s: State, flags: byte, id: nat, data: seq<byte>): Effect
    requires id in s.rx && id in s.rxBytes
  {
    var parts, got := s.rx[id] + [data], s.rxBytes[id] + |data|;
    if got > s.transferMru then Says(s.(rx := s.rx - {id}, rxBytes := s.rxBytes - {id}), Refuse(REFUSE_NO_RESOURCES, id))
    else if IsEnd(flags) then
      Effect(s.(rx := s.rx - {id}, rxBytes := s.rxBytes - {id}), [Ack(flags, id, got)], [Concat(parts)], {})
    else Says(s.(rx := s.rx[id := parts], rxBytes := s.rxBytes[id := got]), Ack(flags, id, got))
  }

  /** The final acknowledgement of all its octets resolves a send; any other does nothing. */
  function OnAck(s: State, flags: byte, id: nat, acked: nat): Effect {
    if id in s.pending && IsEnd(flags) && acked == s.pending[id]
    then Effect(s.(pending := s.pending - {id}), [], [], {id})
    else Quiet(s)
  }

  /** What the parser can deliver once the contact header has been read. */
  predicate AfterHeader(m: Msg) {
    !m.Contact? && !m.BadMagic?
  }

  function Handle(s: State, m: Msg): Effect
    requires AfterHeader(m)
  {
    match m
    case SessInit(_, _, _, _) => Says(s, Reject(REJECT_UNEXPECTED, SESS_INIT))
    case Segment(flags, id, data) => OnSegment(s, flags, id, data)
    case Ack(flags, id, acked) => OnAck(s, flags, id, acked)
    case Refuse(_, id) => Quiet(s.(pending := s.pending - {id}))
    case SessTerm(flags, reason) =>
      Effect(s.(phase := Ending), if flags % 2 == 1 then [] else [SessTerm(REPLY, reason)], [], {})
    case TooBig(_) => Says(Teardown(s), SessTerm(0, REASON_RESOURCE_EXHAUSTION))
    case Unknown(typ) => Says(s, Reject(REJECT_TYPE_UNKNOWN, typ))
    case _ => Quiet(s)
  }

  // ---- Sending ----------------------------------------------------------------------------------------

  function Min(a: nat, b: nat): nat {
    if a < b then a else b
  }

  /** The segments of a transfer from offset `off` on; an empty bundle is one empty segment. */
  function SegmentsFrom(id: nat, bundle: seq<byte>, size: nat, off: nat): seq<Msg>
    requires size > 0 && off <= |bundle|
    decreases |bundle| - off
  {
    var end := Min(off + size, |bundle|);
    [Segment(SegmentFlags(off == 0, end == |bundle|), id, bundle[off..end])]
    + (if end == |bundle| then [] else SegmentsFrom(id, bundle, size, end))
  }

  lemma FirstSegment(id: nat, bundle: seq<byte>, size: nat, off: nat)
    requires size > 0 && off <= |bundle|
    ensures var end := Min(off + size, |bundle|);
            var first := Segment(SegmentFlags(off == 0, end == |bundle|), id, bundle[off..end]);
            SegmentsFrom(id, bundle, size, off) == if end == |bundle| then [first] else [first] + SegmentsFrom(id, bundle, size, end)
  {
  }

  /** A send that does not start leaves the session alone. */
  predicate MaySend(s: State, bundle: seq<byte>) {
    s.phase.Established? && |bundle| <= s.peerTransferMru
  }

  function SendBundle(s: State, bundle: seq<byte>): Effect {
    if !MaySend(s, bundle) then Quiet(s)
    else
      Effect(s.(nextId := s.nextId + 1, pending := s.pending[s.nextId := |bundle|]),
             SegmentsFrom(s.nextId, bundle, SegmentSize(s.peerSegmentMru), 0), [], {})
  }

  /** Every segment is within the peer's limit, unless that limit is zero and there is something to
      send: a segment then carries one octet. */
  lemma {:induction false} SegmentsFit(id: nat, bundle: seq<byte>, mru: nat, off: nat)
    requires off <= |bundle| && (off < |bundle| || off == 0)
    ensures (forall m :: m in SegmentsFrom(id, bundle, SegmentSize(mru), off) ==> m.Segment? && |m.data| <= mru)
            <==> mru > 0 || bundle == []
    decreases |bundle| - off
  {
    var size := SegmentSize(mru);
    var end := Min(off + size, |bundle|);
    var all := SegmentsFrom(id, bundle, size, off);
    assert all[0] in all && all[0].Segment? && |all[0].data| == end - off;
    if end < |bundle| {
      SegmentsFit(id, bundle, mru, end);
    }
  }

  /** The data of the segments, joined in order, is the bundle. */
  lemma {:induction false} SegmentsCarryBundle(id: nat, bundle: seq<byte>, size: nat, off: nat)
    requires size > 0 && off <= |bundle|
    ensures JoinData(SegmentsFrom(id, bundle, size, off)) == bundle[off..]
    decreases |bundle| - off
  {
    var end := Min(off + size, |bundle|);
    if end < |bundle| {
      SegmentsCarryBundle(id, bundle, size, end);
      assert SegmentsFrom(id, bundle, size, off)[1..] == SegmentsFrom(id, bundle, size, end);
      assert bundle[off..] == bundle[off..end] + bundle[end..];
    } else {
      assert SegmentsFrom(id, bundle, size, off)[1..] == [];
    }
  }

  /** The data of some segments, joined. */
  function JoinData(ms: seq<Msg>): seq<byte> {
    if ms == [] then [] else (if ms[0].Segment? then ms[0].data else []) + JoinData(ms[1..])
  }

  // ---- What is held is bounded ------------------------------------------------------------------------

  /** rxBytes is the number of octets held for each transfer, and within the announced limit. */
  ghost predicate Bounded(s: State) {
    && s.rx.Keys == s.rxBytes.Keys
    && forall id :: id in s.rx ==> s.rxBytes[id] == |Concat(s.rx[id])| <= s.transferMru
  }

  /** Whatever the peer sends, well behaved or not, leaves it so, and any bundle handed up is within
      the limit too. */
  lemma HandleKeepsBounded(s: State, m: Msg)
    requires Bounded(s) && AfterHeader(m)
    ensures Bounded(Handle(s, m).s)
    ensures Handle(s, m).s.transferMru == s.transferMru
    ensures forall b :: b in Handle(s, m).emitted ==> |b| <= s.transferMru
  {
    hide Concat;
    if m.Segment? && s.phase.Established? {
      assert Concat([]) == [];
      var rx := if IsStart(m.flags) then s.rx[m.transferId := []] else s.rx;
      if m.transferId in rx { ConcatLast(rx[m.transferId], m.data); }
    }
  }

  lemma UpdateThenRemove<K, V>(m: map<K, V>, k: K, v: V)
    ensures m[k := v] - {k} == m - {k}
  {
  }

  // ---- A whole transfer ---------------------------------------------------------------------------------

  predicate AllAfterHeader(ms: seq<Msg>) {
    forall m :: m in ms ==> AfterHeader(m)
  }

  /** Messages handled one after the other. */
  function HandleAll(s: State, ms: seq<Msg>): Effect
    requires AllAfterHeader(ms)
    decreases |ms|
  {
    if ms == [] then Quiet(s)
    else
      var x := Handle(s, ms[0]);
      var y := HandleAll(x.s, ms[1..]);
      Effect(y.s, x.out + y.out, x.emitted + y.emitted, x.resolved + y.resolved)
  }

  /** Answers to the segments of one transfer: acknowledgements short of the last, then the one of all its octets, or a
      refusal and after it nothing but rejections. */
  predicate Answers(out: seq<Msg>, id: nat, total: nat, taken: bool) {
    && out != []
    && if out[0].Ack? && !IsEnd(out[0].flags) then Answers(out[1..], id, total, taken)
       else if taken then |out| == 1 && out[0].Ack? && out[0].transferId == id && out[0].acked == total
       else out[0] == Refuse(REFUSE_NO_RESOURCES, id) && AllRejects(out[1..])
  }

  predicate AllRejects(out: seq<Msg>) {
    forall m :: m in out ==> m.Reject?
  }

  /** The receiver holds the first `off` octets of the transfer, or is at its beginning. */
  ghost predicate Midway(s: State, id: nat, bundle: seq<byte>, off: nat) {
    && s.phase.Established? && off <= |bundle| && (off == |bundle| ==> off == 0)
    && (off > 0 ==> id in s.rx && id in s.rxBytes && Concat(s.rx[id]) == bundle[..off] && s.rxBytes[id] == off)
  }

  lemma OneSegmentTaken(s: State, id: nat, bundle: seq<byte>, off: nat, end: nat)
    requires Midway(s, id, bundle, off) && off <= end <= |bundle| && (off == end ==> end == |bundle|)
    ensures var flags := SegmentFlags(off == 0, end == |bundle|); var x := OnSegment(s, flags, id, bundle[off..end]);
            && x.resolved == {} && x.s == s.(rx := x.s.rx, rxBytes := x.s.rxBytes)
            && if end > s.transferMru then x.out == [Refuse(REFUSE_NO_RESOURCES, id)] && x.emitted == [] && id !in x.s.rx
               else
                 && x.out == [Ack(flags, id, end)]
                 && if end == |bundle| then x.emitted == [bundle] && id !in x.s.rx
                    else x.emitted == [] && Midway(x.s, id, bundle, end)
  {
    hide Concat;
    var parts := if off == 0 then [] else s.rx[id];
    assert off == 0 ==> Concat([]) == [] by { NothingJoined(); }
    ConcatLast(parts, bundle[off..end]);
    assert bundle[..off] + bundle[off..end] == bundle[..end];
    assert end == |bundle| ==> bundle[..end] == bundle;
  }

  lemma NothingJoined()
    ensures Concat([]) == []
  {
  }

  lemma {:induction false} RestRejected(s: State, id: nat, bundle: seq<byte>, size: nat, off: nat)
    requires size > 0 && 0 < off < |bundle| && s.phase.Established? && id !in s.rx
    ensures var ms := SegmentsFrom(id, bundle, size, off);
            && AllAfterHeader(ms)
            && var x := HandleAll(s, ms); x.s == s && AllRejects(x.out) && x.emitted == [] && x.resolved == {}
    decreases |bundle| - off
  {
    hide SegmentsFrom;
    FirstSegment(id, bundle, size, off);
    var end := Min(off + size, |bundle|);
    if end < |bundle| {
      RestRejected(s, id, bundle, size, end);
      var ms := SegmentsFrom(id, bundle, size, off);
      assert ms[1..] == SegmentsFrom(id, bundle, size, end);
    }
  }

  lemma HandledFirst(s: State, m: Msg, ms: seq<Msg>)
    requires AfterHeader(m) && AllAfterHeader(ms)
    ensures var x := Handle(s, m); var y := HandleAll(x.s, ms);
            AllAfterHeader([m] + ms) && HandleAll(s, [m] + ms) == Effect(y.s, x.out + y.out, x.emitted + y.emitted, x.resolved + y.resolved)
  {
    hide Handle;
    assert ([m] + ms)[1..] == ms;
  }

  /** Whatever it held before, a receiver takes a bundle within its limit and acknowledges it in full, and refuses a
      larger one. */
  lemma {:induction false} TransferTaken(s: State, id: nat, bundle: seq<byte>, size: nat, off: nat)
    requires size > 0 && Midway(s, id, bundle, off)
    ensures var ms := SegmentsFrom(id, bundle, size, off);
            && AllAfterHeader(ms)
            && var x := HandleAll(s, ms); var taken := |bundle| <= s.transferMru;
               && Answers(x.out, id, |bundle|, taken) && x.emitted == (if taken then [bundle] else []) && x.resolved == {}
    decreases |bundle| - off
  {
    hide SegmentsFrom, Concat, OnSegment, SegmentFlags, HandleAll;
    FirstSegment(id, bundle, size, off);
    var end := Min(off + size, |bundle|);
    var m := Segment(SegmentFlags(off == 0, end == |bundle|), id, bundle[off..end]);
    OneSegmentTaken(s, id, bundle, off, end);
    var x := Handle(s, m);
    NoneHandled(x.s);
    if end == |bundle| {
      HandledFirst(s, m, []);
      assert [m] + [] == [m] && x.out + [] == x.out && x.emitted + [] == x.emitted;
    } else {
      if end > s.transferMru {
        RestRejected(x.s, id, bundle, size, end);
      } else {
        TransferTaken(x.s, id, bundle, size, end);
      }
      HandledFirst(s, m, SegmentsFrom(id, bundle, size, end));
      var rest := HandleAll(x.s, SegmentsFrom(id, bundle, size, end));
      assert (x.out + rest.out)[0] == x.out[0] && (x.out + rest.out)[1..] == rest.out;
      assert x.emitted + rest.emitted == rest.emitted;
    }
  }

  lemma NoneHandled(s: State)
    ensures HandleAll(s, []) == Quiet(s)
  {
  }

  lemma {:induction false} RejectsChangeNothing(s: State, out: seq<Msg>)
    requires AllRejects(out)
    ensures AllAfterHeader(out) && HandleAll(s, out) == Quiet(s)
  {
    if out != [] { RejectsChangeNothing(s, out[1..]); }
  }

  /** A sender that hears the answers is done with the send: resolved exactly when it was taken. */
  lemma {:induction false} AnswersSettle(s: State, out: seq<Msg>, id: nat, total: nat, taken: bool)
    requires Answers(out, id, total, taken) && id in s.pending && s.pending[id] == total
    ensures AllAfterHeader(out) && var x := HandleAll(s, out); x.s == s.(pending := s.pending - {id}) && x.resolved == (if taken then {id} else {})
    decreases |out|
  {
    hide OnSegment;
    assert out == [out[0]] + out[1..];
    if out[0].Ack? && !IsEnd(out[0].flags) {
      AnswersSettle(s, out[1..], id, total, taken);
    } else {
      assert AllRejects(out[1..]);
      RejectsChangeNothing(s.(pending := s.pending - {id}), out[1..]);
    }
    HandledFirst(s, out[0], out[1..]);
  }

  /** Main result: one transfer, to a receiver of any limit: the bundle is handed up, and its send resolves, exactly
      when it is within the limit; else it is refused, and the send given up. */
  lemma TransferSettles(f: State, t: State, bundle: seq<byte>)
    requires MaySend(f, bundle) && t.phase.Established?
    ensures var sent := SendBundle(f, bundle);
            && AllAfterHeader(sent.out)
            && var x := HandleAll(t, sent.out); var taken := |bundle| <= t.transferMru;
               && x.emitted == (if taken then [bundle] else [])
               && AllAfterHeader(x.out)
               && var y := HandleAll(sent.s, x.out);
                  f.nextId !in y.s.pending && (f.nextId in y.resolved <==> taken)
  {
    hide SegmentsFrom, HandleAll, SegmentSize, AllAfterHeader, Answers;
    TransferTaken(t, f.nextId, bundle, SegmentSize(f.peerSegmentMru), 0);
    var sent := SendBundle(f, bundle);
    AnswersSettle(sent.s, HandleAll(t, sent.out).out, f.nextId, |bundle|, |bundle| <= t.transferMru);
  }

  /** A message that makes no sense here changes nothing and is rejected by the type it has on the wire: a second
      SESS_INIT, and a segment of a transfer that has not begun, or of any once the session is ending. */
  lemma UnexpectedIsRejected(s: State, m: Msg)
    requires Encodable(m) && Bounded(s)
    requires m.SessInit? || (m.Segment? && (!s.phase.Established? || (!IsStart(m.flags) && m.transferId !in s.rx)))
    ensures var x := Handle(s, m);
            x.s == s && x.out == [Reject(REJECT_UNEXPECTED, Encode(m)[0])] && x.emitted == [] && x.resolved == {}
  {
    hide Concat;
  }

  /** A SESS_TERM is answered by a reply, and a reply by nothing: the two ends do not answer each other for ever. */
  lemma TermIsAnsweredOnce(s: State, peer: State, flags: byte, reason: byte)
    ensures var out := Handle(s, SessTerm(flags, reason)).out;
            && |out| == (if flags % 2 == REPLY then 0 else 1)
            && (forall m :: m in out ==> m.SessTerm? && m.reason == reason && Handle(peer, m).out == [])
  {
  }

  // ---- The object -----------------------------------------------------------------------------------------

  class Session {
    const transferMru: nat
    const peerSegmentMru: nat
    const peerTransferMru: nat
    var phase: Phase
    var nextId: nat
    var pending: map<nat, nat>
    var rx: map<nat, seq<seq<byte>>>
    var rxBytes: map<nat, nat>
    /** Written to the socket, emitted and resolved so far. */
    var written: seq<Msg>
    var emitted: seq<seq<byte>>
    var resolved: set<nat>

    function View(): State
      reads this
    {
      State(phase, transferMru, peerSegmentMru, peerTransferMru, nextId, pending, rx, rxBytes)
    }

    ghost predicate Valid()
      reads this
    {
      Bounded(View())
    }

    /** A session just established with the limits exchanged in SESS_INIT. */
    constructor (transferMru: nat, peerSegmentMru: nat, peerTransferMru: nat)
      ensures Valid() && written == [] && emitted == [] && resolved == {}
      ensures View() == State(Established, transferMru, peerSegmentMru, peerTransferMru, 0, map[], map[], map[])
    {
      this.transferMru, this.peerSegmentMru, this.peerTransferMru := transferMru, peerSegmentMru, peerTransferMru;
      phase, nextId := Established, 0;
      pending, rx, rxBytes := map[], map[], map[];
      written, emitted, resolved := [], [], {};
    }

    /** The state and everything sent, emitted and resolved are what this effect adds. */
    twostate predicate Did(e: Effect)
      reads this
    {
      && View() == e.s
      && written == old(written) + e.out
      && emitted == old(emitted) + e.emitted
      && resolved == old(resolved) + e.resolved
    }

    method Write(m: Msg)
      modifies this`written
      ensures written == old(written) + [m]
    {
      written := written + [m];
    }

    method OnMessage(m: Msg)
      requires Valid() && AfterHeader(m)
      modifies this
      ensures Valid() && Did(Handle(old(View()), m))
    {
      HandleKeepsBounded(View(), m);
      match m
      case SessInit(_, _, _, _) => Write(Reject(REJECT_UNEXPECTED, SESS_INIT));
      case Segment(flags, id, data) => ReceiveSegment(flags, id, data);
      case Ack(flags, id, acked) =>
        if id in pending && IsEnd(flags) && acked == pending[id] {
          pending := pending - {id};
          resolved := resolved + {id};
        }
      case Refuse(_, id) => pending := pending - {id};
      case SessTerm(flags, reason) =>
        if flags % 2 != 1 { Write(SessTerm(REPLY, reason)); }
        phase := Ending;
      case TooBig(_) =>
        Write(SessTerm(0, REASON_RESOURCE_EXHAUSTION));
        phase := Closed;
        pending := map[];
      case Unknown(typ) => Write(Reject(REJECT_TYPE_UNKNOWN, typ));
      case _ =>
    }

    method ReceiveSegment(flags: byte, id: nat, data: seq<byte>)
      requires Valid()
      modifies this
      ensures Did(OnSegment(old(View()), flags, id, data))
    {
      hide Concat;
      if phase != Established {
        Write(Reject(REJECT_UNEXPECTED, XFER_SEGMENT));
        return;
      }
      if IsStart(flags) {
        rx := rx[id := []];
        rxBytes := rxBytes[id := 0];
      }
      if id !in rx {
        Write(Reject(REJECT_UNEXPECTED, XFER_SEGMENT));
        return;
      }
      AddPart(flags, id, data);
    }

    /** The part is kept and acknowledged; the last one completes the bundle. */
    method AddPart(flags: byte, id: nat, data: seq<byte>)
      requires id in rx && id in rxBytes
      modifies this`rx, this`rxBytes, this`written, this`emitted
      ensures Did(WithPart(old(View()), flags, id, data))
    {
      hide Concat;
      ghost var rx0, bytes0 := rx, rxBytes;
      rx := rx[id := rx[id] + [data]];
      UpdateThenRemove(rx0, id, rx[id]);
      var got := rxBytes[id] + |data|;
      if got > transferMru {
        Write(Refuse(REFUSE_NO_RESOURCES, id));
        rx := rx - {id};
        rxBytes := rxBytes - {id};
        return;
      }
      rxBytes := rxBytes[id := got];
      UpdateThenRemove(bytes0, id, got);
      Write(Ack(flags, id, got));
      if IsEnd(flags) {
        var bundle := Concat(rx[id]);
        rx := rx - {id};
        rxBytes := rxBytes - {id};
        emitted := emitted + [bundle];
      }
    }

    /** Refused at once unless the session is up and the bundle within the peer's limit. */
    method Send(bundle: seq<byte>) returns (started: bool)
      requires Valid()
      modifies this
      ensures Valid() && Did(SendBundle(old(View()), bundle))
      ensures started == MaySend(old(View()), bundle)
    {
      if phase != Established || |bundle| > peerTransferMru { return false; }
      var id := nextId;
      nextId := nextId + 1;
      var seg := if peerSegmentMru > 1 then peerSegmentMru else 1;
      pending := pending[id := |bundle|];
      WriteSegments(id, bundle, seg);
      return true;
    }

    method WriteSegments(id: nat, bundle: seq<byte>, seg: nat)
      requires seg > 0
      modifies this`written
      ensures written == old(written) + SegmentsFrom(id, bundle, seg, 0)
    {
      hide SegmentsFrom;
      ghost var whole, done := SegmentsFrom(id, bundle, seg, 0), [];
      var off := 0;
      while off < |bundle| || off == 0
        invariant off < |bundle| || off == 0
        invariant written == old(written) + done && done + SegmentsFrom(id, bundle, seg, off) == whole
        decreases |bundle| - off
      {
        var end := if off + seg < |bundle| then off + seg else |bundle|;
        var flags := 0;
        if off == 0 { flags := flags + 2; }
        if end == |bundle| { flags := flags + 1; }
        FirstSegment(id, bundle, seg, off);
        var m := Segment(flags, id, bundle[off..end]);
        Write(m);
        ghost var before := done;
        done := done + [m];
        if end == |bundle| {
          assert done == whole;
          break;
        }
        assert before + ([m] + SegmentsFrom(id, bundle, seg, end)) == done + SegmentsFrom(id, bundle, seg, end);
        off := end;
      }
    }

    method TearDown()
      requires Valid()
      modifies this
      ensures Valid() && View() == Teardown(old(View()))
      ensures written == old(written) && emitted == old(emitted) && resolved == old(resolved)
    {
      phase := Closed;
      pending := map[];
    }

    method Timeout(id: nat)
      requires Valid()
      modifies this`pending
      ensures Valid() && View() == old(View()).(pending := old(pending) - {id})
    {
      pending := pending - {id};
    }
  }
}
