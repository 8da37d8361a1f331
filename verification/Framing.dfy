/**
 Cutting a stream of octets into messages (the `_onData` loop and `Parser` objects of
 gateway/tcpcl4.mjs and gateway/tcpcl3.mjs): for any parser whose finished results do not change when
 more octets arrive, the pieces in which a stream arrives make no difference.
 */
module Framing {
  import opened Wrappers
  import opened Bytes

  // ---- Segments, in both versions -----------------------------------------------------------------

  predicate IsEnd(flags: byte) { flags % 2 == 1 }
  predicate IsStart(flags: byte) { flags / 2 % 2 == 1 }

  function SegmentFlags(start: bool, end: bool): (flags: byte)
    ensures (IsStart(flags) <==> start) && (IsEnd(flags) <==> end) && flags < 4
  {
    (if start then 2 else 0) + (if end then 1 else 0)
  }

  /** No segment carries more than the limit, or one octet if that is none. */
  function SegmentSize(segmentMru: nat): (size: nat)
    ensures size > 0
  {
    if segmentMru == 0 then 1 else segmentMru
  }

  // ---- Parsing ------------------------------------------------------------------------------------

  /** A message, how many octets it took, and whether the session ends with it. */
  datatype Parsed<+M> = Parsed(msg: M, used: nat, last: bool)

  /** The next item of a buffer, given whether the contact header has been read. */
  type ParseFn<!M> = (seq<byte>, bool) -> Option<Parsed<M>>

  /** A finished parse takes octets that are there, makes progress unless it is the last, and stands
      however many octets follow. */
  ghost predicate Incremental<M(!new)>(parse: ParseFn<M>) {
    forall b: seq<byte>, c: seq<byte>, hd: bool :: Stands(parse, b, c, hd)
  }

  ghost predicate Stands<M(!new)>(parse: ParseFn<M>, b: seq<byte>, c: seq<byte>, hd: bool) {
    parse(b, hd).Some? ==>
      && parse(b, hd).value.used <= |b|
      && (parse(b, hd).value.used > 0 || parse(b, hd).value.last)
      && parse(b + c, hd) == parse(b, hd)
  }

  lemma IncrementalAt<M(!new)>(parse: ParseFn<M>, b: seq<byte>, c: seq<byte>, hd: bool)
    requires Incremental(parse) && parse(b, hd).Some?
    ensures var p := parse(b, hd).value; p.used <= |b| && (p.used > 0 || p.last) && parse(b + c, hd) == Some(p)
  {
    assert Stands(parse, b, c, hd);
  }

  /** The messages found, what is left in the buffer, and whether the session ended. */
  datatype Drained<+M> = Drained(msgs: seq<M>, rest: seq<byte>, headerDone: bool, stopped: bool)

  /** Parsing until nothing more is complete. A parse that claims more octets than there are, or
      none without ending the session, is no parse here. */
  function Drain<M>(parse: ParseFn<M>, b: seq<byte>, headerDone: bool): Drained<M>
    decreases |b|
  {
    match parse(b, headerDone)
    case None => Drained([], b, headerDone, false)
    case Some(p) =>
      if p.last then Drained([p.msg], b, headerDone, true)
      else if !(0 < p.used <= |b|) then Drained([], b, headerDone, false)
      else
        var d := Drain(parse, b[p.used..], true);
        d.(msgs := [p.msg] + d.msgs)
  }

  /** One turn of the drain. */
  lemma DrainOnce<M>(parse: ParseFn<M>, b: seq<byte>, headerDone: bool)
    ensures match parse(b, headerDone)
            case None => Drain(parse, b, headerDone) == Drained([], b, headerDone, false)
            case Some(p) =>
              && (p.last ==> Drain(parse, b, headerDone) == Drained([p.msg], b, headerDone, true))
              && (!p.last && 0 < p.used <= |b| ==>
                    Drain(parse, b, headerDone)
                    == var d := Drain(parse, b[p.used..], true); d.(msgs := [p.msg] + d.msgs))
  {
  }

  /** Pushing pieces one at a time, draining after each. */
  function Feed<M>(parse: ParseFn<M>, d: Drained<M>, chunks: seq<seq<byte>>): Drained<M>
    decreases |chunks|
  {
    if chunks == [] || d.stopped then d
    else
      var e := Drain(parse, d.rest + chunks[0], d.headerDone);
      Feed(parse, e.(msgs := d.msgs + e.msgs), chunks[1..])
  }

  /** Draining part of the octets and then the rest finds the same messages. */
  lemma {:induction false} DrainExtend<M(!new)>(parse: ParseFn<M>, b: seq<byte>, c: seq<byte>, headerDone: bool)
    requires Incremental(parse)
    ensures var d := Drain(parse, b, headerDone);
            var whole := Drain(parse, b + c, headerDone);
            if d.stopped then whole.stopped && whole.msgs == d.msgs
            else whole == (var e := Drain(parse, d.rest + c, d.headerDone); e.(msgs := d.msgs + e.msgs))
    decreases |b|
  {
    hide Incremental;
    match parse(b, headerDone)
    case None =>
      var e := Drain(parse, b + c, headerDone);
      assert [] + e.msgs == e.msgs;
    case Some(p) =>
      IncrementalAt(parse, b, c, headerDone);
      if !p.last {
        var d := Drain(parse, b[p.used..], true);
        var whole := Drain(parse, b[p.used..] + c, true);
        assert (b + c)[p.used..] == b[p.used..] + c;
        assert Drain(parse, b, headerDone) == d.(msgs := [p.msg] + d.msgs);
        assert Drain(parse, b + c, headerDone) == whole.(msgs := [p.msg] + whole.msgs);
        DrainExtend(parse, b[p.used..], c, true);
        if !d.stopped {
          AppendAssociates([p.msg], d.msgs, Drain(parse, d.rest + c, d.headerDone).msgs);
        }
      }
  }

  lemma AppendAssociates<T>(a: seq<T>, b: seq<T>, c: seq<T>)
    ensures a + (b + c) == (a + b) + c
  {
  }

  /** What a drain leaves behind is not yet a message. */
  lemma {:induction false} DrainTwice<M(!new)>(parse: ParseFn<M>, b: seq<byte>, headerDone: bool)
    requires Incremental(parse)
    ensures var d := Drain(parse, b, headerDone);
            !d.stopped ==> Drain(parse, d.rest, d.headerDone) == d.(msgs := [])
    decreases |b|
  {
    hide Incremental;
    match parse(b, headerDone)
    case None =>
    case Some(p) =>
      IncrementalAt(parse, b, [], headerDone);
      if !p.last { DrainTwice(parse, b[p.used..], true); }
  }

  /** Results that a session cannot tell apart: once it has ended, what is left in the buffer does
      not matter. */
  predicate SameOutcome<M(==)>(a: Drained<M>, b: Drained<M>) {
    a.msgs == b.msgs && a.stopped == b.stopped && (!a.stopped ==> a == b)
  }

  /** Main result: the pieces in which the octets arrive make no difference. */
  lemma {:induction false} ChunkingDoesNotMatter<M(!new)>(parse: ParseFn<M>, d: Drained<M>, chunks: seq<seq<byte>>)
    requires Incremental(parse)
    requires !d.stopped && Drain(parse, d.rest, d.headerDone) == d.(msgs := [])
    ensures var whole := Drain(parse, d.rest + Concat(chunks), d.headerDone);
            SameOutcome(Feed(parse, d, chunks), whole.(msgs := d.msgs + whole.msgs))
    decreases |chunks|
  {
    hide Drain, Incremental;
    if chunks == [] {
      assert d.rest + Concat([]) == d.rest;
      assert d.msgs + [] == d.msgs;
    } else {
      var c, more := chunks[0], Concat(chunks[1..]);
      assert d.rest + Concat(chunks) == (d.rest + c) + more;
      var e := Drain(parse, d.rest + c, d.headerDone);
      DrainExtend(parse, d.rest + c, more, d.headerDone);
      var next := e.(msgs := d.msgs + e.msgs);
      if !e.stopped {
        DrainTwice(parse, d.rest + c, d.headerDone);
        ChunkingDoesNotMatter(parse, next, chunks[1..]);
        var tail := Drain(parse, e.rest + more, e.headerDone);
        assert d.msgs + (e.msgs + tail.msgs) == (d.msgs + e.msgs) + tail.msgs;
      } else {
        assert Feed(parse, next, chunks[1..]) == next;
      }
    }
  }
}
