/**
 The TCPCLv4 message codec of gateway/tcpcl4.mjs (RFC 9174): encoders, the incremental parser, and
 why it makes no difference in which pieces the octets arrive.
 */
module Tcpcl4Wire {
  import opened Wrappers
  import opened Bytes
  import opened Framing

  const MAGIC: seq<byte> := [0x64, 0x74, 0x6e, 0x21]   // "dtn!"
  const VERSION: byte := 4

  const XFER_SEGMENT: byte := 1
  const XFER_ACK: byte := 2
  const XFER_REFUSE: byte := 3
  const KEEPALIVE: byte := 4
  const SESS_TERM: byte := 5
  const MSG_REJECT: byte := 6
  const SESS_INIT: byte := 7

  datatype Msg =
    | BadMagic
    | Contact(version: byte, flags: byte)
    | SessInit(keepalive: nat, segmentMru: nat, transferMru: nat, nodeId: seq<byte>)
    | Segment(flags: byte, transferId: nat, data: seq<byte>)
    | Ack(flags: byte, transferId: nat, acked: nat)
    | Refuse(reason: byte, transferId: nat)
    | Keepalive
    | SessTerm(flags: byte, reason: byte)
    | Reject(reason: byte, header: byte)
    | Unknown(typ: byte)
    | TooBig(len: nat)

  // ---- Encoders ----------------------------------------------------------------------------------

  function EncodeContactHeader(canTls: bool): seq<byte> {
    MAGIC + [VERSION, if canTls then 1 else 0]
  }

  /** What a field of the wire format can hold; the encoders throw beyond it. */
  predicate Encodable(m: Msg) {
    match m
    case SessInit(k, s, t, id) => k < 0x1_0000 && s < TWO_64 && t < TWO_64 && |id| < 0x1_0000
    case Segment(f, id, data) => id < TWO_64 && |data| < TWO_64
    case Ack(f, id, acked) => id < TWO_64 && acked < TWO_64
    case Refuse(r, id) => id < TWO_64
    case Keepalive => true
    case SessTerm(f, r) => true
    case Reject(r, h) => true
    case _ => false
  }

  function EncodeSessInit(keepalive: nat, segmentMru: nat, transferMru: nat, nodeId: seq<byte>): seq<byte> {
    [SESS_INIT] + ToBE(keepalive, 2) + ToBE(segmentMru, 8) + ToBE(transferMru, 8) + ToBE(|nodeId|, 2) + nodeId + [0, 0, 0, 0]
  }

  function EncodeSegment(flags: byte, transferId: nat, data: seq<byte>): seq<byte> {
    [XFER_SEGMENT, flags] + ToBE(transferId, 8) + (if IsStart(flags) then [0, 0, 0, 0] else []) + ToBE(|data|, 8) + data
  }

  function EncodeAck(flags: byte, transferId: nat, acked: nat): seq<byte> {
    [XFER_ACK, flags] + ToBE(transferId, 8) + ToBE(acked, 8)
  }

  function Encode(m: Msg): seq<byte>
    requires Encodable(m)
  {
    match m
    case SessInit(k, s, t, id) => EncodeSessInit(k, s, t, id)
    case Segment(f, id, data) => EncodeSegment(f, id, data)
    case Ack(f, id, acked) => EncodeAck(f, id, acked)
    case Refuse(r, id) => [XFER_REFUSE, r] + ToBE(id, 8)
    case Keepalive => [KEEPALIVE]
    case SessTerm(f, r) => [SESS_TERM, f, r]
    case Reject(r, h) => [MSG_REJECT, r, h]
  }

  // ---- One parse -----------------------------------------------------------------------------------

  function Whole(m: Msg, used: nat): Parsed<Msg> {
    Parsed(m, used, false)
  }

  function ParseHeader(b: seq<byte>): (r: Option<Parsed<Msg>>)
    ensures r.Some? ==> 0 < r.value.used <= |b| && !r.value.msg.TooBig? && !r.value.last
  {
    if |b| < 6 then None
    else if b[..4] != MAGIC then Some(Whole(BadMagic, 6))
    else Some(Whole(Contact(b[4], b[5]), 6))
  }

  function ParseSessInit(b: seq<byte>): (r: Option<Parsed<Msg>>)
    ensures r.Some? ==> 0 < r.value.used <= |b| && r.value.msg.SessInit? && !r.value.last
  {
    if |b| < 21 then None
    else
      var idLen := FromBE(b, 19, 2);
      if |b| < 21 + idLen + 4 then None
      else
        var total := 21 + idLen + 4 + FromBE(b, 21 + idLen, 4);
        if |b| < total then None
        else Some(Whole(SessInit(FromBE(b, 1, 2), FromBE(b, 3, 8), FromBE(b, 11, 8), b[21..21 + idLen]), total))
  }

  /** Where the data length field of a segment starts: after the extension items of a first segment. */
  function SegmentBody(b: seq<byte>): (off: Option<nat>)
    requires |b| >= 10
    ensures off.Some? ==> off.value >= 10
  {
    if !IsStart(b[1]) then Some(10)
    else if |b| < 14 then None
    else Some(14 + FromBE(b, 10, 4))
  }

  /** An oversized segment is reported before its data is waited for, and is not taken out. */
  function ParseSegment(b: seq<byte>, maxSegment: nat): (r: Option<Parsed<Msg>>)
    ensures r.Some? ==> r.value.used <= |b| && (r.value.last <==> r.value.used == 0) && (r.value.last <==> r.value.msg.TooBig?)
  {
    if |b| < 10 then None
    else
      match SegmentBody(b)
      case None => None
      case Some(off) =>
        if |b| < off + 8 then None
        else
          var len := FromBE(b, off, 8);
          if len > maxSegment then Some(Parsed(TooBig(len), 0, true))
          else if |b| < off + 8 + len then None
          else Some(Whole(Segment(b[1], FromBE(b, 2, 8), b[off + 8..off + 8 + len]), off + 8 + len))
  }

  function ParseMessage(b: seq<byte>, maxSegment: nat): (r: Option<Parsed<Msg>>)
    ensures r.Some? ==> r.value.used <= |b| && (r.value.last <==> r.value.used == 0) && (r.value.last <==> r.value.msg.TooBig?)
  {
    if |b| < 1 then None
    else if b[0] == SESS_INIT then ParseSessInit(b)
    else if b[0] == XFER_SEGMENT then ParseSegment(b, maxSegment)
    else if b[0] == XFER_ACK then
      if |b| < 18 then None else Some(Whole(Ack(b[1], FromBE(b, 2, 8), FromBE(b, 10, 8)), 18))
    else if b[0] == XFER_REFUSE then
      if |b| < 10 then None else Some(Whole(Refuse(b[1], FromBE(b, 2, 8)), 10))
    else if b[0] == KEEPALIVE then Some(Whole(Keepalive, 1))
    else if b[0] == SESS_TERM then
      if |b| < 3 then None else Some(Whole(SessTerm(b[1], b[2]), 3))
    else if b[0] == MSG_REJECT then
      if |b| < 3 then None else Some(Whole(Reject(b[1], b[2]), 3))
    else Some(Whole(Unknown(b[0]), 1))
  }

  function ParseNext(b: seq<byte>, headerDone: bool, maxSegment: nat): (r: Option<Parsed<Msg>>)
    ensures r.Some? ==> r.value.used <= |b| && (r.value.last <==> r.value.used == 0) && (r.value.last <==> r.value.msg.TooBig?)
    ensures r.Some? && r.value.msg.TooBig? ==> headerDone
  {
    if headerDone then ParseMessage(b, maxSegment) else ParseHeader(b)
  }

  // ---- More octets never change a finished parse ------------------------------------------------------

  lemma FromBEExtend(b: seq<byte>, c: seq<byte>, i: nat, n: nat)
    requires i + n <= |b|
    ensures FromBE(b + c, i, n) == FromBE(b, i, n)
  {
    FromBELocal(b, i, n, b + c, 0);
  }

  lemma SessInitExtend(b: seq<byte>, c: seq<byte>)
    requires ParseSessInit(b).Some?
    ensures ParseSessInit(b + c) == ParseSessInit(b)
  {
    hide FromBE;
    FromBEExtend(b, c, 19, 2);
    var idLen := FromBE(b, 19, 2);
    FromBEExtend(b, c, 21 + idLen, 4);
    FromBEExtend(b, c, 1, 2);
    FromBEExtend(b, c, 3, 8);
    FromBEExtend(b, c, 11, 8);
    assert (b + c)[21..21 + idLen] == b[21..21 + idLen];
  }

  lemma SegmentExtend(b: seq<byte>, c: seq<byte>, maxSegment: nat)
    requires ParseSegment(b, maxSegment).Some?
    ensures ParseSegment(b + c, maxSegment) == ParseSegment(b, maxSegment)
  {
    hide FromBE;
    if IsStart(b[1]) { FromBEExtend(b, c, 10, 4); }
    var off := SegmentBody(b).value;
    assert SegmentBody(b + c) == Some(off);
    FromBEExtend(b, c, off, 8);
    FromBEExtend(b, c, 2, 8);
    var len := FromBE(b, off, 8);
    if len <= maxSegment {
      assert (b + c)[off + 8..off + 8 + len] == b[off + 8..off + 8 + len];
    }
  }

  lemma ParseExtend(b: seq<byte>, c: seq<byte>, headerDone: bool, maxSegment: nat)
    requires ParseNext(b, headerDone, maxSegment).Some?
    ensures ParseNext(b + c, headerDone, maxSegment) == ParseNext(b, headerDone, maxSegment)
  {
    hide FromBE, ParseSessInit, ParseSegment;
    if !headerDone {
      assert (b + c)[..4] == b[..4];
    } else if b[0] == SESS_INIT {
      SessInitExtend(b, c);
    } else if b[0] == XFER_SEGMENT {
      SegmentExtend(b, c, maxSegment);
    } else if b[0] == XFER_ACK {
      FromBEExtend(b, c, 2, 8);
      FromBEExtend(b, c, 10, 8);
    } else if b[0] == XFER_REFUSE {
      FromBEExtend(b, c, 2, 8);
    }
  }

  /** The parser of a session that accepts segments up to this size. */
  function V4(maxSegment: nat): ParseFn<Msg> {
    (b: seq<byte>, headerDone: bool) => ParseNext(b, headerDone, maxSegment)
  }

  lemma V4IsIncremental(maxSegment: nat)
    ensures Incremental(V4(maxSegment))
  {
    hide ParseNext;
    forall b: seq<byte>, c: seq<byte>, hd: bool ensures Stands(V4(maxSegment), b, c, hd) {
      if V4(maxSegment)(b, hd).Some? { ParseExtend(b, c, hd, maxSegment); }
    }
  }

  /** Octets of a TCPCLv4 stream may arrive in any pieces. */
  lemma PiecesDoNotMatter(chunks: seq<seq<byte>>, maxSegment: nat)
    ensures SameOutcome(Feed(V4(maxSegment), Drained([], [], false, false), chunks), Drain(V4(maxSegment), Concat(chunks), false))
  {
    hide Drain, Feed, Incremental;
    var start: Drained<Msg> := Drained([], [], false, false);
    V4IsIncremental(maxSegment);
    assert Drain(V4(maxSegment), [], false) == start by { NothingYet(maxSegment); }
    ChunkingDoesNotMatter(V4(maxSegment), start, chunks);
    assert [] + Concat(chunks) == Concat(chunks);
    var whole := Drain(V4(maxSegment), Concat(chunks), false);
    assert [] + whole.msgs == whole.msgs;
  }

  lemma NothingYet(maxSegment: nat)
    ensures Drain(V4(maxSegment), [], false) == Drained([], [], false, false)
    ensures Drain(V4(maxSegment), [], true) == Drained([], [], true, false)
  {
  }

  // ---- Every encoded message reads back ------------------------------------------------------------------

  lemma SessInitReadsBack(k: nat, s: nat, t: nat, id: seq<byte>, rest: seq<byte>)
    requires Encodable(SessInit(k, s, t, id))
    ensures ParseSessInit(EncodeSessInit(k, s, t, id) + rest)
            == Some(Whole(SessInit(k, s, t, id), |EncodeSessInit(k, s, t, id)|))
  {
    hide FromBE, ToBE;
    Pow256Values();
    var b := EncodeSessInit(k, s, t, id) + rest;
    assert b[1..3] == ToBE(k, 2) && b[3..11] == ToBE(s, 8) && b[11..19] == ToBE(t, 8) && b[19..21] == ToBE(|id|, 2);
    FromToBE(k, 2, b, 1);
    FromToBE(s, 8, b, 3);
    FromToBE(t, 8, b, 11);
    FromToBE(|id|, 2, b, 19);
    assert b[21..21 + |id|] == id;
    assert b[21 + |id|..25 + |id|] == [0, 0, 0, 0];
    FourZeros(b, 21 + |id|);
  }

  lemma FourZeros(b: seq<byte>, i: nat)
    requires i + 4 <= |b| && b[i..i + 4] == [0, 0, 0, 0]
    ensures FromBE(b, i, 4) == 0
  {
    assert b[i] == b[i..i + 4][0] && b[i + 1] == b[i..i + 4][1] && b[i + 2] == b[i..i + 4][2] && b[i + 3] == b[i..i + 4][3];
    assert FromBE(b, i, 1) == 0;
    assert FromBE(b, i, 2) == 0;
    assert FromBE(b, i, 3) == 0;
  }

  /** A segment reads back whole, or as oversized when its data exceeds the limit. */
  lemma SegmentReadsBack(flags: byte, id: nat, data: seq<byte>, rest: seq<byte>, maxSegment: nat)
    requires Encodable(Segment(flags, id, data))
    ensures ParseSegment(EncodeSegment(flags, id, data) + rest, maxSegment)
            == Some(if |data| > maxSegment then Parsed(TooBig(|data|), 0, true)
                    else Whole(Segment(flags, id, data), |EncodeSegment(flags, id, data)|))
  {
    hide FromBE, ToBE;
    Pow256Values();
    var b := EncodeSegment(flags, id, data) + rest;
    assert b[2..10] == ToBE(id, 8);
    FromToBE(id, 8, b, 2);
    var off := if IsStart(flags) then 14 else 10;
    if IsStart(flags) {
      assert b[10..14] == [0, 0, 0, 0];
      FourZeros(b, 10);
    }
    assert SegmentBody(b) == Some(off);
    assert b[off..off + 8] == ToBE(|data|, 8);
    FromToBE(|data|, 8, b, off);
    assert b[off + 8..off + 8 + |data|] == data;
  }

  /** The 14 octets of a first segment before its extension items. */
  function FirstHead(flags: byte, id: nat, n: nat): (h: seq<byte>)
    ensures |h| == 14 && h[0] == XFER_SEGMENT && h[1] == flags
  {
    [XFER_SEGMENT, flags] + ToBE(id, 8) + ToBE(n, 4)
  }

  lemma FirstFields(flags: byte, id: nat, n: nat, b: seq<byte>)
    requires id < TWO_64 && n < 0x1_0000_0000 && FirstHead(flags, id, n) <= b
    ensures FromBE(b, 2, 8) == id && FromBE(b, 10, 4) == n
  {
    hide FromBE, ToBE;
    Pow256Values();
    hide Pow256;
    var h := FirstHead(flags, id, n);
    assert h[2..10] == ToBE(id, 8) && h[10..14] == ToBE(n, 4);
    FromToBE(id, 8, h, 2);
    FromToBE(n, 4, h, 10);
    FromBELocal(h, 2, 8, b, 0);
    FromBELocal(h, 10, 4, b, 0);
  }

  lemma FirstParses(b: seq<byte>, flags: byte, id: nat, extLen: nat, len: nat, maxSegment: nat)
    requires |b| >= 22 + extLen && b[1] == flags && IsStart(flags) && FromBE(b, 2, 8) == id && FromBE(b, 10, 4) == extLen
    requires FromBE(b, 14 + extLen, 8) == len
    ensures len > maxSegment ==> ParseSegment(b, maxSegment) == Some(Parsed(TooBig(len), 0, true))
    ensures len <= maxSegment && |b| >= 22 + extLen + len ==>
              ParseSegment(b, maxSegment) == Some(Whole(Segment(flags, id, b[22 + extLen..22 + extLen + len]), 22 + extLen + len))
  {
    hide FromBE;
  }

  /** A first segment as a peer may send it, up to its data. */
  function ExtendedHead(flags: byte, id: nat, ext: seq<byte>, len: nat): seq<byte> {
    FirstHead(flags, id, |ext|) + (ext + ToBE(len, 8))
  }

  lemma ExtendedFields(flags: byte, id: nat, ext: seq<byte>, len: nat, b: seq<byte>)
    requires id < TWO_64 && len < TWO_64 && |ext| < 0x1_0000_0000 && ExtendedHead(flags, id, ext, len) <= b
    ensures |ExtendedHead(flags, id, ext, len)| == 22 + |ext| && b[1] == flags
    ensures FromBE(b, 2, 8) == id && FromBE(b, 10, 4) == |ext| && FromBE(b, 14 + |ext|, 8) == len
  {
    hide FromBE, ToBE, FirstHead, Pow256;
    var h, n := FirstHead(flags, id, |ext|), ToBE(len, 8);
    var e := h + (ext + n);
    assert h <= e && e[14 + |ext|..14 + |ext| + 8] == n;
    FirstFields(flags, id, |ext|, b);
    assert len < Pow256(8) by { Pow256Values(); }
    FromToBE(len, 8, e, 14 + |ext|);
    FromBELocal(e, 14 + |ext|, 8, b, 0);
  }

  /** A peer may put extension items into a first segment: they are passed over, and an oversized segment is reported
      once its length is known, before any of its data has come. */
  lemma ExtendedSegmentReadsBack(flags: byte, id: nat, ext: seq<byte>, data: seq<byte>, rest: seq<byte>, maxSegment: nat)
    requires Encodable(Segment(flags, id, data)) && IsStart(flags) && |ext| < 0x1_0000_0000
    ensures var h := ExtendedHead(flags, id, ext, |data|);
            && (|data| > maxSegment ==> ParseSegment(h + rest, maxSegment) == Some(Parsed(TooBig(|data|), 0, true)))
            && (|data| <= maxSegment ==> ParseSegment(h + (data + rest), maxSegment) == Some(Whole(Segment(flags, id, data), |h| + |data|)))
  {
    hide FromBE, ExtendedHead, ParseSegment;
    var h := ExtendedHead(flags, id, ext, |data|);
    var b := h + if |data| > maxSegment then rest else data + rest;
    ExtendedFields(flags, id, ext, |data|, b);
    FirstParses(b, flags, id, |ext|, |data|, maxSegment);
    if |data| <= maxSegment { assert b[|h|..|h| + |data|] == data; }
  }

  /** The 21 octets of a SESS_INIT before the node id. */
  function InitHead(k: nat, s: nat, t: nat, n: nat): (h: seq<byte>)
    ensures |h| == 21 && h[0] == SESS_INIT
  {
    [SESS_INIT] + ToBE(k, 2) + ToBE(s, 8) + ToBE(t, 8) + ToBE(n, 2)
  }

  lemma InitFields(k: nat, s: nat, t: nat, n: nat, b: seq<byte>)
    requires k < 0x1_0000 && s < TWO_64 && t < TWO_64 && n < 0x1_0000 && InitHead(k, s, t, n) <= b
    ensures FromBE(b, 1, 2) == k && FromBE(b, 3, 8) == s && FromBE(b, 11, 8) == t && FromBE(b, 19, 2) == n
  {
    hide FromBE, ToBE;
    Pow256Values();
    var h := InitHead(k, s, t, n);
    assert h[1..3] == ToBE(k, 2) && h[3..11] == ToBE(s, 8) && h[11..19] == ToBE(t, 8) && h[19..21] == ToBE(n, 2);
    FromToBE(k, 2, h, 1);
    FromToBE(s, 8, h, 3);
    FromToBE(t, 8, h, 11);
    FromToBE(n, 2, h, 19);
    FromBELocal(h, 1, 2, b, 0);
    FromBELocal(h, 3, 8, b, 0);
    FromBELocal(h, 11, 8, b, 0);
    FromBELocal(h, 19, 2, b, 0);
  }

  lemma Parts(h: seq<byte>, id: seq<byte>, e: seq<byte>, tail: seq<byte>)
    requires |h| == 21 && |e| == 4
    ensures var b := h + (id + (e + tail));
            b[21..21 + |id|] == id && b[21 + |id|..25 + |id|] == e && |b| == 25 + |id| + |tail| && h <= b
  {
  }

  lemma InitParses(b: seq<byte>, k: nat, s: nat, t: nat, id: seq<byte>, extLen: nat)
    requires |b| >= 25 + |id| + extLen && FromBE(b, 1, 2) == k && FromBE(b, 3, 8) == s && FromBE(b, 11, 8) == t
    requires FromBE(b, 19, 2) == |id| && b[21..21 + |id|] == id && FromBE(b, 21 + |id|, 4) == extLen
    ensures ParseSessInit(b) == Some(Whole(SessInit(k, s, t, id), 25 + |id| + extLen))
  {
    hide FromBE;
  }

  /** And into a SESS_INIT. */
  lemma ExtendedSessInitReadsBack(k: nat, s: nat, t: nat, id: seq<byte>, ext: seq<byte>, rest: seq<byte>)
    requires Encodable(SessInit(k, s, t, id)) && |ext| < 0x1_0000_0000
    ensures var b := InitHead(k, s, t, |id|) + (id + (ToBE(|ext|, 4) + (ext + rest)));
            ParseSessInit(b) == Some(Whole(SessInit(k, s, t, id), 25 + |id| + |ext|))
  {
    hide FromBE, ToBE, InitHead, ParseSessInit, Pow256;
    var h, e := InitHead(k, s, t, |id|), ToBE(|ext|, 4);
    var b := h + (id + (e + (ext + rest)));
    Parts(h, id, e, ext + rest);
    InitFields(k, s, t, |id|, b);
    assert |ext| < Pow256(4) by { Pow256Values(); }
    FromToBE(|ext|, 4, b, 21 + |id|);
    InitParses(b, k, s, t, id, |ext|);
  }

  /** A contact header is taken off whole, with the magic it should have or without. */
  lemma HeaderReadsBack(magic: seq<byte>, version: byte, flags: byte, rest: seq<byte>)
    requires |magic| == 4
    ensures ParseHeader(magic + [version, flags] + rest) == Some(Whole(if magic == MAGIC then Contact(version, flags) else BadMagic, 6))
  {
    assert (magic + [version, flags] + rest)[..4] == magic;
  }

  lemma MessageReadsBack(m: Msg, rest: seq<byte>, maxSegment: nat)
    requires Encodable(m)
    ensures ParseMessage(Encode(m) + rest, maxSegment)
            == Some(if m.Segment? && |m.data| > maxSegment then Parsed(TooBig(|m.data|), 0, true) else Whole(m, |Encode(m)|))
  {
    hide FromBE, ToBE, ParseSessInit, ParseSegment;
    Pow256Values();
    var b := Encode(m) + rest;
    match m
    case SessInit(k, s, t, id) => SessInitReadsBack(k, s, t, id, rest);
    case Segment(f, id, data) => SegmentReadsBack(f, id, data, rest, maxSegment);
    case Ack(f, id, acked) =>
      assert b[2..10] == ToBE(id, 8) && b[10..18] == ToBE(acked, 8);
      FromToBE(id, 8, b, 2);
      FromToBE(acked, 8, b, 10);
    case Refuse(r, id) =>
      assert b[2..10] == ToBE(id, 8);
      FromToBE(id, 8, b, 2);
    case Keepalive =>
    case SessTerm(f, r) =>
    case Reject(r, h) =>
  }

  /** The octets of some messages, back to back. */
  function EncodeAll(ms: seq<Msg>): seq<byte>
    requires forall m :: m in ms ==> Encodable(m)
  {
    if ms == [] then [] else Encode(ms[0]) + EncodeAll(ms[1..])
  }

  /** What a receiver with this limit makes of them: all, up to the first oversized segment. */
  function Heard(ms: seq<Msg>, maxSegment: nat): seq<Msg> {
    if ms == [] then []
    else if ms[0].Segment? && |ms[0].data| > maxSegment then [TooBig(|ms[0].data|)]
    else [ms[0]] + Heard(ms[1..], maxSegment)
  }

  lemma {:induction false} AllReadBack(ms: seq<Msg>, maxSegment: nat)
    requires forall m :: m in ms ==> Encodable(m)
    ensures var d := Drain(V4(maxSegment), EncodeAll(ms), true);
            && d.msgs == Heard(ms, maxSegment)
            && (d.stopped <==> exists m :: m in ms && m.Segment? && |m.data| > maxSegment)
            && (!d.stopped ==> d.rest == [])
    decreases |ms|
  {
    hide ParseMessage, Encode;
    if ms == [] {
      NothingYet(maxSegment);
    } else {
      var m := ms[0];
      MessageReadsBack(m, EncodeAll(ms[1..]), maxSegment);
      if !(m.Segment? && |m.data| > maxSegment) {
        assert EncodeAll(ms)[|Encode(m)|..] == EncodeAll(ms[1..]);
        AllReadBack(ms[1..], maxSegment);
        assert ParseNext(EncodeAll(ms), true, maxSegment) == Some(Whole(m, |Encode(m)|));
        assert Drain(V4(maxSegment), EncodeAll(ms), true).msgs == [m] + Drain(V4(maxSegment), EncodeAll(ms[1..]), true).msgs;
        assert forall x :: x in ms <==> x == m || x in ms[1..];
      }
    }
  }

  /** Main result: a contact header and messages, cut into any pieces, are heard as sent. */
  lemma StreamReadsBack(canTls: bool, ms: seq<Msg>, chunks: seq<seq<byte>>, maxSegment: nat)
    requires forall m :: m in ms ==> Encodable(m)
    requires Concat(chunks) == EncodeContactHeader(canTls) + EncodeAll(ms)
    ensures Feed(V4(maxSegment), Drained([], [], false, false), chunks).msgs
            == [Contact(VERSION, if canTls then 1 else 0)] + Heard(ms, maxSegment)
  {
    hide ParseMessage, Encodable, Encode, Feed;
    PiecesDoNotMatter(chunks, maxSegment);
    var b := EncodeContactHeader(canTls) + EncodeAll(ms);
    assert b[..4] == MAGIC && b[6..] == EncodeAll(ms);
    AllReadBack(ms, maxSegment);
    assert ParseNext(b, false, maxSegment) == Some(Whole(Contact(VERSION, if canTls then 1 else 0), 6));
  }

  // ---- The parser object -----------------------------------------------------------------------------------

  class Parser {
    const maxSegment: nat
    var buf: seq<byte>
    var headerDone: bool

    constructor (maxSegment: nat)
      ensures buf == [] && !headerDone && this.maxSegment == maxSegment
    {
      this.maxSegment := maxSegment;
      buf, headerDone := [], false;
    }

    method Push(chunk: seq<byte>)
      modifies this`buf
      ensures buf == old(buf) + chunk
    {
      buf := if |buf| > 0 then buf + chunk else chunk;
    }

    method Take(n: nat) returns (out: seq<byte>)
      requires n <= |buf|
      modifies this`buf
      ensures out == old(buf)[..n] && buf == old(buf)[n..]
    {
      out := buf[..n];
      buf := buf[n..];
    }

    /** The next complete item, or None when more octets are needed. */
    method Parse() returns (m: Option<Msg>)
      modifies this
      ensures ParseNext(old(buf), old(headerDone), maxSegment).None? ==> m.None? && buf == old(buf) && headerDone == old(headerDone)
      ensures ParseNext(old(buf), old(headerDone), maxSegment).Some? ==>
                var p := ParseNext(old(buf), old(headerDone), maxSegment).value;
                m == Some(p.msg) && buf == old(buf)[p.used..] && headerDone
    {
      hide FromBE;
      m := None;
      var b := buf;
      if !headerDone {
        if |b| < 6 { return; }
        var h := Take(6);
        headerDone := true;
        assert h[..4] == b[..4];
        return if h[..4] != MAGIC then Some(BadMagic) else Some(Contact(h[4], h[5]));
      }
      if |b| < 1 { return; }
      var typ := b[0];
      if typ == SESS_INIT {
        m := ParseInit();
      } else if typ == XFER_SEGMENT {
        m := ParseSeg();
      } else if typ == XFER_ACK {
        if |b| < 18 { return; }
        var t := Take(18);
        FromBELocal(t, 2, 8, b, 0);
        FromBELocal(t, 10, 8, b, 0);
        m := Some(Ack(t[1], FromBE(t, 2, 8), FromBE(t, 10, 8)));
      } else if typ == XFER_REFUSE {
        if |b| < 10 { return; }
        var t := Take(10);
        FromBELocal(t, 2, 8, b, 0);
        m := Some(Refuse(t[1], FromBE(t, 2, 8)));
      } else if typ == KEEPALIVE {
        var _ := Take(1);
        m := Some(Keepalive);
      } else if typ == SESS_TERM {
        if |b| < 3 { return; }
        var t := Take(3);
        m := Some(SessTerm(t[1], t[2]));
      } else if typ == MSG_REJECT {
        if |b| < 3 { return; }
        var t := Take(3);
        m := Some(Reject(t[1], t[2]));
      } else {
        var _ := Take(1);
        m := Some(Unknown(typ));
      }
    }

    method ParseInit() returns (m: Option<Msg>)
      modifies this`buf
      ensures ParseSessInit(old(buf)).None? ==> m.None? && buf == old(buf)
      ensures ParseSessInit(old(buf)).Some? ==>
                var p := ParseSessInit(old(buf)).value;
                m == Some(p.msg) && buf == old(buf)[p.used..]
    {
      hide FromBE;
      var b := buf;
      if |b| < 21 { return None; }
      var idLen := FromBE(b, 19, 2);
      if |b| < 21 + idLen + 4 { return None; }
      var extLen := FromBE(b, 21 + idLen, 4);
      var total := 21 + idLen + 4 + extLen;
      if |b| < total { return None; }
      var t := Take(total);
      FromBELocal(t, 1, 2, b, 0);
      FromBELocal(t, 3, 8, b, 0);
      FromBELocal(t, 11, 8, b, 0);
      assert t[21..21 + idLen] == b[21..21 + idLen];
      m := Some(SessInit(FromBE(t, 1, 2), FromBE(t, 3, 8), FromBE(t, 11, 8), t[21..21 + idLen]));
    }

    method ParseSeg() returns (m: Option<Msg>)
      modifies this`buf
      ensures ParseSegment(old(buf), maxSegment).None? ==> m.None? && buf == old(buf)
      ensures ParseSegment(old(buf), maxSegment).Some? ==>
                var p := ParseSegment(old(buf), maxSegment).value;
                m == Some(p.msg) && buf == old(buf)[p.used..]
    {
      hide FromBE;
      var b := buf;
      if |b| < 10 { return None; }
      var flags := b[1];
      var off := 10;
      if IsStart(flags) {
        if |b| < off + 4 { return None; }
        off := off + 4 + FromBE(b, off, 4);
      }
      if |b| < off + 8 { return None; }
      var len := FromBE(b, off, 8);
      if len > maxSegment { return Some(TooBig(len)); }
      off := off + 8;
      if |b| < off + len { return None; }
      var t := Take(off + len);
      FromBELocal(t, 2, 8, b, 0);
      assert t[off..] == b[off..off + len];
      m := Some(Segment(flags, FromBE(t, 2, 8), t[off..]));
    }

    /** Receiving a piece: everything it completes, up to an oversized segment. */
    method Receive(chunk: seq<byte>) returns (msgs: seq<Msg>, stopped: bool)
      modifies this
      ensures Drain(V4(maxSegment), old(buf) + chunk, old(headerDone)) == Drained(msgs, buf, headerDone, stopped)
    {
      hide ParseNext, Drain;
      Push(chunk);
      msgs, stopped := [], false;
      ghost var whole := Drain(V4(maxSegment), buf, headerDone);
      while true
        invariant whole == (var d := Drain(V4(maxSegment), buf, headerDone); d.(msgs := msgs + d.msgs))
        decreases |buf|
      {
        ghost var before, d := buf, Drain(V4(maxSegment), buf, headerDone);
        ghost var parsed := ParseNext(buf, headerDone, maxSegment);
        DrainOnce(V4(maxSegment), buf, headerDone);
        var m := Parse();
        if m.None? {
          assert msgs + [] == msgs;
          return;
        }
        ghost var said := msgs;
        msgs := msgs + [m.value];
        if m.value.TooBig? {
          assert parsed.value.used == 0 && buf == before;
          return msgs, true;
        }
        ghost var rest := Drain(V4(maxSegment), buf, headerDone);
        assert d == rest.(msgs := [m.value] + rest.msgs);
        assert said + ([m.value] + rest.msgs) == msgs + rest.msgs;
      }
    }
  }
}
