/**
 One transfer of a TCPCLv3 session (gateway/tcpcl3.mjs): the segments it is cut into, what a receiver makes
 of them, and the replies that come back.
 */
module Tcpcl3Transfer {
  import opened Wrappers
  import opened Bytes
  import opened Framing
  import opened Tcpcl3Wire

  // ---- Receiving and sending -----------------------------------------------------------------------

  /** The parts of the transfer being received, if any, and its octets so far. */
  datatype Receiving = Receiving(rx: Option<seq<seq<byte>>>, bytes: nat)

  /** What a segment does: the transfer after it, the replies, and the bundle if it completes one. */
  datatype Taken = Taken(r: Receiving, out: seq<Msg>, emitted: seq<seq<byte>>)

  const NO_RESOURCES := 2

  predicate IsReply(m: Msg) {
    m.Ack? || m.Refuse?
  }

  function OnSegment(r: Receiving, limit: nat, flags: byte, data: seq<byte>): (x: Taken)
    ensures limit < MAX_NUMBER ==> AllEncodable(x.out)
    ensures forall m :: m in x.out ==> IsReply(m)
  {
    var r1 := if IsStart(flags) then Receiving(Some([]), 0) else r;
    if r1.rx.None? then Taken(r1, [], [])
    else
      var parts, got := r1.rx.value + [data], r1.bytes + |data|;
      if got > limit then Taken(Receiving(None, got), [Refuse(NO_RESOURCES)], [])
      else if IsEnd(flags) then Taken(Receiving(None, got), [Ack(got)], [Concat(parts)])
      else Taken(Receiving(Some(parts), got), [Ack(got)], [])
  }

  /** The segments of a bundle from offset `off` on; an empty bundle has none. */
  function SegmentsFrom(bundle: seq<byte>, size: nat, off: nat): (ms: seq<Msg>)
    requires size > 0 && off <= |bundle|
    ensures forall m :: m in ms ==> m.Segment? && m.flags < 4 && |m.data| <= size && |m.data| <= |bundle|
    decreases |bundle| - off
  {
    if off == |bundle| then []
    else
      var end := if off + size < |bundle| then off + size else |bundle|;
      [Segment(SegmentFlags(off == 0, end == |bundle|), bundle[off..end])] + SegmentsFrom(bundle, size, end)
  }

  // ---- What a receiver makes of segments ---------------------------------------------------------------

  predicate IsSegment(m: Msg) {
    m.Segment?
  }

  /** The messages of a kind, in order. */
  function Only(kind: Msg -> bool, ms: seq<Msg>): (r: seq<Msg>)
    ensures forall m :: m in r ==> kind(m)
  {
    if ms == [] then [] else (if kind(ms[0]) then [ms[0]] else []) + Only(kind, ms[1..])
  }

  type Data = ms: seq<Msg> | forall m :: m in ms ==> m.Segment?

  function Segments(ms: seq<Msg>): (r: Data) {
    assert forall m :: m in Only(IsSegment, ms) ==> IsSegment(m);
    Only(IsSegment, ms)
  }

  function Replies(ms: seq<Msg>): seq<Msg> {
    Only(IsReply, ms)
  }

  lemma {:induction false} OnlyBoth(kind: Msg -> bool, x: seq<Msg>, y: seq<Msg>)
    ensures Only(kind, x + y) == Only(kind, x) + Only(kind, y)
  {
    if x == [] {
      assert x + y == y;
    } else {
      OnlyBoth(kind, x[1..], y);
      assert (x + y)[0] == x[0] && (x + y)[1..] == x[1..] + y;
      AppendAssociates(if kind(x[0]) then [x[0]] else [], Only(kind, x[1..]), Only(kind, y));
    }
  }

  lemma {:induction false} OnlyNone(kind: Msg -> bool, x: seq<Msg>)
    requires forall m :: m in x ==> !kind(m)
    ensures Only(kind, x) == []
  {
    if x != [] { OnlyNone(kind, x[1..]); }
  }

  lemma {:induction false} OnlyAll(kind: Msg -> bool, x: seq<Msg>)
    requires forall m :: m in x ==> kind(m)
    ensures Only(kind, x) == x
  {
    if x != [] {
      OnlyAll(kind, x[1..]);
      assert [x[0]] + x[1..] == x;
    }
  }

  /** Written after these, segments and replies are the last of their kind. */
  lemma OnlyAfter(ms: seq<Msg>, out: seq<Msg>)
    ensures (forall m :: m in out ==> m.Segment?) ==> Segments(ms + out) == Segments(ms) + out && Replies(ms + out) == Replies(ms)
    ensures (forall m :: m in out ==> IsReply(m)) ==> Segments(ms + out) == Segments(ms) && Replies(ms + out) == Replies(ms) + out
    ensures (forall m :: m in out ==> !m.Segment? && !IsReply(m)) ==> Segments(ms + out) == Segments(ms) && Replies(ms + out) == Replies(ms)
  {
    OnlyBoth(IsSegment, ms, out);
    OnlyBoth(IsReply, ms, out);
    if forall m :: m in out ==> m.Segment? { OnlyAll(IsSegment, out); OnlyNone(IsReply, out); }
    if forall m :: m in out ==> IsReply(m) { OnlyNone(IsSegment, out); OnlyAll(IsReply, out); }
    if forall m :: m in out ==> !m.Segment? && !IsReply(m) { OnlyNone(IsSegment, out); OnlyNone(IsReply, out); }
  }

  lemma OnlyFirst(ms: seq<Msg>)
    requires ms != []
    ensures Segments(ms) == (if ms[0].Segment? then [ms[0]] else []) + Segments(ms[1..])
    ensures Replies(ms) == (if IsReply(ms[0]) then [ms[0]] else []) + Replies(ms[1..])
  {
  }

  function TakeAll(r: Receiving, limit: nat, ms: Data): (x: Taken)
    ensures forall m :: m in x.out ==> IsReply(m)
    decreases |ms|
  {
    if ms == [] then Taken(r, [], [])
    else
      var x := OnSegment(r, limit, ms[0].flags, ms[0].data);
      var rest := TakeAll(x.r, limit, ms[1..]);
      Taken(rest.r, x.out + rest.out, x.emitted + rest.emitted)
  }

  /** One segment less of some. */
  lemma TakeMore(r: Receiving, limit: nat, ms: Data)
    requires ms != []
    ensures var x := OnSegment(r, limit, ms[0].flags, ms[0].data); var rest := TakeAll(x.r, limit, ms[1..]);
            TakeAll(r, limit, ms) == Taken(rest.r, x.out + rest.out, x.emitted + rest.emitted)
  {
    hide OnSegment;
  }

  lemma {:induction false} TakeBoth(r: Receiving, limit: nat, x: Data, y: Data)
    ensures var t := TakeAll(r, limit, x); var u := TakeAll(t.r, limit, y);
            TakeAll(r, limit, x + y) == Taken(u.r, t.out + u.out, t.emitted + u.emitted)
    decreases |x|
  {
    hide OnSegment, TakeAll;
    var u := TakeAll(TakeAll(r, limit, x).r, limit, y);
    if x == [] {
      assert x + y == y;
      NoneTaken(r, limit);
      assert [] + u.out == u.out && [] + u.emitted == u.emitted;
    } else {
      TakeMore(r, limit, x);
      TakeMore(r, limit, x + y);
      assert (x + y)[0] == x[0] && (x + y)[1..] == x[1..] + y;
      var z := OnSegment(r, limit, x[0].flags, x[0].data);
      TakeBoth(z.r, limit, x[1..], y);
      var t := TakeAll(z.r, limit, x[1..]);
      AppendAssociates(z.out, t.out, u.out);
      AppendAssociates(z.emitted, t.emitted, u.emitted);
    }
  }

  lemma NoneTaken(r: Receiving, limit: nat)
    ensures TakeAll(r, limit, []) == Taken(r, [], [])
  {
  }

  /** Replies to one transfer: all but the last acknowledge less than the whole. */
  predicate Proper(rs: seq<Msg>, total: nat) {
    forall i :: 0 <= i < |rs| - 1 ==> rs[i].Ack? && rs[i].value < total
  }

  predicate SaysAll(rs: seq<Msg>, total: nat) {
    rs != [] && rs[|rs| - 1] == Ack(total)
  }

  /** What comes of the rest of a transfer, the receiver holding its beginning or, at offset 0, anything:
      replies in order, the bundle with the last of them, or a refusal and no bundle. */
  ghost predicate Outcome(x: Taken, bundle: seq<byte>, off: nat) {
    && (forall i :: 0 <= i < |x.out| && x.out[i].Ack? ==> off < x.out[i].value)
    && Proper(x.out, |bundle|)
    && x.emitted == (if SaysAll(x.out, |bundle|) then [bundle] else [])
    && (off < |bundle| ==> x.r.rx.None? && x.out != [])
  }

  /** The receiver is ready for the rest of a transfer. */
  ghost predicate Ready(r: Receiving, bundle: seq<byte>, off: nat) {
    off <= |bundle| && (off > 0 ==> off < |bundle| && r.rx.Some? && Concat(r.rx.value) == bundle[..off] && r.bytes == off)
  }

  function EndOf(bundle: seq<byte>, size: nat, off: nat): (end: nat)
    requires size > 0 && off < |bundle|
    ensures off < end <= |bundle|
  {
    if off + size < |bundle| then off + size else |bundle|
  }

  lemma FirstSegment(bundle: seq<byte>, size: nat, off: nat)
    requires size > 0 && off < |bundle|
    ensures var end := EndOf(bundle, size, off);
            SegmentsFrom(bundle, size, off)
            == [Segment(SegmentFlags(off == 0, end == |bundle|), bundle[off..end])] + SegmentsFrom(bundle, size, end)
  {
  }

  lemma OneSegment(r: Receiving, limit: nat, bundle: seq<byte>, off: nat, end: nat)
    requires Ready(r, bundle, off) && off < end <= |bundle|
    ensures var x := OnSegment(r, limit, SegmentFlags(off == 0, end == |bundle|), bundle[off..end]);
            if end > limit then x == Taken(Receiving(None, end), [Refuse(NO_RESOURCES)], [])
            else if end == |bundle| then x == Taken(Receiving(None, end), [Ack(end)], [bundle])
            else x.out == [Ack(end)] && x.emitted == [] && Ready(x.r, bundle, end)
  {
    hide Concat, SegmentFlags;
    var parts := if off == 0 then [] else r.rx.value;
    ConcatLast(parts, bundle[off..end]);
    assert bundle[..off] + bundle[off..end] == bundle[..end];
    assert end == |bundle| ==> bundle[..end] == bundle;
  }

  lemma NoneFrom(bundle: seq<byte>, size: nat)
    requires size > 0
    ensures SegmentsFrom(bundle, size, |bundle|) == []
  {
  }

  lemma NoSegments(r: Receiving, limit: nat, bundle: seq<byte>, size: nat)
    requires size > 0
    ensures TakeAll(r, limit, SegmentsFrom(bundle, size, |bundle|)) == Taken(r, [], [])
  {
  }

  lemma TakeFirst(r: Receiving, limit: nat, m: Msg, ms: Data)
    requires m.Segment?
    ensures var x := OnSegment(r, limit, m.flags, m.data); var rest := TakeAll(x.r, limit, ms);
            TakeAll(r, limit, [m] + ms) == Taken(rest.r, x.out + rest.out, x.emitted + rest.emitted)
  {
    assert ([m] + ms)[1..] == ms;
    TakeMore(r, limit, [m] + ms);
  }

  lemma OutcomeAfterAck(x: Taken, bundle: seq<byte>, off: nat, end: nat)
    requires Outcome(x, bundle, end) && off < end < |bundle|
    ensures Outcome(Taken(x.r, [Ack(end)] + x.out, x.emitted), bundle, off)
  {
  }

  lemma {:induction false} TransferOutcome(r: Receiving, limit: nat, bundle: seq<byte>, size: nat, off: nat)
    requires size > 0 && Ready(r, bundle, off)
    ensures Outcome(TakeAll(r, limit, SegmentsFrom(bundle, size, off)), bundle, off)
    decreases |bundle| - off
  {
    hide OnSegment, SegmentsFrom, TakeAll, SegmentFlags, Ready;
    if off == |bundle| {
      NoSegments(r, limit, bundle, size);
    } else {
      assert off < |bundle| by { ReadyWithin(r, bundle, off); }
      var end := EndOf(bundle, size, off);
      var m := Segment(SegmentFlags(off == 0, end == |bundle|), bundle[off..end]);
      FirstSegment(bundle, size, off);
      TakeFirst(r, limit, m, SegmentsFrom(bundle, size, end));
      OneSegment(r, limit, bundle, off, end);
      var x := OnSegment(r, limit, m.flags, m.data);
      if end > limit {
        RefusedRest(x.r, limit, bundle, size, end);
      } else if end == |bundle| {
        NoSegments(x.r, limit, bundle, size);
      } else {
        TransferOutcome(x.r, limit, bundle, size, end);
        var rest := TakeAll(x.r, limit, SegmentsFrom(bundle, size, end));
        OutcomeAfterAck(rest, bundle, off, end);
        assert [] + rest.emitted == rest.emitted;
      }
    }
  }

  lemma ReadyWithin(r: Receiving, bundle: seq<byte>, off: nat)
    requires Ready(r, bundle, off)
    ensures off <= |bundle|
  {
  }

  /** The rest of a refused transfer goes unheard. */
  lemma {:induction false} RefusedRest(r: Receiving, limit: nat, bundle: seq<byte>, size: nat, off: nat)
    requires size > 0 && 0 < off <= |bundle| && r.rx.None?
    ensures TakeAll(r, limit, SegmentsFrom(bundle, size, off)) == Taken(r, [], [])
    decreases |bundle| - off
  {
    if off < |bundle| {
      var end := EndOf(bundle, size, off);
      FirstSegment(bundle, size, off);
      TakeFirst(r, limit, Segment(SegmentFlags(false, end == |bundle|), bundle[off..end]), SegmentsFrom(bundle, size, end));
      RefusedRest(r, limit, bundle, size, end);
    }
  }

  /** A bundle comes with its last acknowledgement. */
  lemma {:induction false} EmittedWithReply(r: Receiving, limit: nat, ms: Data)
    ensures TakeAll(r, limit, ms).out == [] ==> TakeAll(r, limit, ms).emitted == []
    decreases |ms|
  {
    if ms != [] { EmittedWithReply(OnSegment(r, limit, ms[0].flags, ms[0].data).r, limit, ms[1..]); }
  }
}
