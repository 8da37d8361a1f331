/** The session object of gateway/tcpcl3.mjs, proved against the rules of Tcpcl3Transfer and Tcpcl3Link. */
module Tcpcl3Session {
  import opened Wrappers
  import opened Bytes
  import opened Framing
  import opened Tcpcl3Wire
  import opened Tcpcl3Transfer
  import opened Tcpcl3Link

  class Session {
    const segmentMru: nat
    const transferMru: nat
    var open: bool
    var cur: Option<nat>
    var rx: Option<seq<seq<byte>>>
    var rxBytes: nat
    /** Written to the socket and emitted so far. */
    var written: seq<Msg>
    var emitted: seq<seq<byte>>

    constructor (segmentMru: nat, transferMru: nat)
      ensures open && cur.None? && Held() == Receiving(None, 0) && written == [] && emitted == []
      ensures this.segmentMru == segmentMru && this.transferMru == transferMru
    {
      this.segmentMru, this.transferMru := segmentMru, transferMru;
      open, cur, rx, rxBytes := true, None, None, 0;
      written, emitted := [], [];
    }

    function Held(): Receiving
      reads this
    {
      Receiving(rx, rxBytes)
    }

    /** The part of an end that its own messages change. */
    ghost predicate Is(e: End)
      reads this
    {
      && open == e.open && cur == e.current && Held() == e.r && emitted == e.emitted
      && segmentMru == e.segmentMru && transferMru == e.transferMru
    }

    method Write(m: Msg)
      modifies this`written
      ensures written == old(written) + [m]
    {
      written := written + [m];
    }

    /** The message handler leaves the session, and what it has written and emitted, as the rules say. */
    method Receive(m: Msg, ghost e: End)
      requires Is(e) && (cur.Some? ==> e.begun != [])
      modifies this
      ensures Is(OnMessage(e, m).0) && written == old(written) + OnMessage(e, m).1
    {
      hide Concat;
      match m
      case Segment(flags, data) => ReceiveSegment(flags, data);
      case Ack(value) => if cur == Some(value) { cur := None; }
      case Refuse(_) => cur := None;
      case BadMagic => TearDown();
      case BadHeader => TearDown();
      case TooBig(_) => TearDown();
      case SdnvError => TearDown();
      case _ =>
    }

    method TearDown()
      modifies this`open, this`cur
      ensures !open && cur.None?
    {
      open, cur := false, None;
    }

    method ReceiveSegment(flags: byte, data: seq<byte>)
      modifies this`rx, this`rxBytes, this`written, this`emitted
      ensures var x := OnSegment(old(Held()), transferMru, flags, data);
              Held() == x.r && written == old(written) + x.out && emitted == old(emitted) + x.emitted
    {
      hide Concat;
      if IsStart(flags) { rx, rxBytes := Some([]), 0; }
      if rx.None? { return; }
      rx := Some(rx.value + [data]);
      rxBytes := rxBytes + |data|;
      if rxBytes > transferMru {
        Write(Refuse(NO_RESOURCES));
        rx := None;
        return;
      }
      Write(Ack(rxBytes));
      if IsEnd(flags) {
        var bundle := Concat(rx.value);
        rx := None;
        emitted := emitted + [bundle];
      }
    }

    /** The next send in the queue starts: it waits for all its octets, and its segments are written. */
    method Start(bundle: seq<byte>)
      requires open && cur.None?
      modifies this`cur, this`written
      ensures cur == Some(|bundle|) && written == old(written) + SegmentsFrom(bundle, SegmentSize(segmentMru), 0)
    {
      hide SegmentsFrom;
      cur := Some(|bundle|);
      var seg := if segmentMru > 1 then segmentMru else 1;
      ghost var done := [];
      var off := 0;
      NoneFrom(bundle, seg);
      assert seg == SegmentSize(segmentMru);
      while off < |bundle|
        invariant off <= |bundle| && cur == Some(|bundle|)
        invariant written == old(written) + done && done + SegmentsFrom(bundle, seg, off) == SegmentsFrom(bundle, seg, 0)
      {
        var end := if off + seg < |bundle| then off + seg else |bundle|;
        var flags := 0;
        if off == 0 { flags := flags + 2; }
        if end == |bundle| { flags := flags + 1; }
        var m := Segment(flags, bundle[off..end]);
        OneMoreSegment(bundle, seg, off, done, m);
        Write(m);
        done := done + [m];
        off := end;
      }
      assert done + [] == done;
    }
  }

  lemma OneMoreSegment(bundle: seq<byte>, size: nat, off: nat, done: seq<Msg>, m: Msg)
    requires size > 0 && off < |bundle|
    requires var end := EndOf(bundle, size, off); m == Segment(SegmentFlags(off == 0, end == |bundle|), bundle[off..end])
    ensures done + SegmentsFrom(bundle, size, off) == (done + [m]) + SegmentsFrom(bundle, size, EndOf(bundle, size, off))
  {
    hide SegmentsFrom;
    FirstSegment(bundle, size, off);
    AppendAssociates(done, [m], SegmentsFrom(bundle, size, EndOf(bundle, size, off)));
  }
}
