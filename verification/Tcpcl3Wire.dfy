/**
 The TCPCLv3 codec of gateway/tcpcl3.mjs (RFC 7242): self-delimiting numeric values (RFC 6256), the
 contact header, and the incremental parser.
 */
module Tcpcl3Wire {
  import opened Wrappers
  import opened Bytes
  import opened Framing

  // ---- Self-delimiting numeric values -------------------------------------------------------------

  const MAX_SDNV := 10
  const MAX_NUMBER: nat := 0x40_0000_0000_0000_0000   // 2^70

  /** The septets of v with their high bit set, most significant first; nothing for zero. */
  function HighSeptets(v: nat): seq<byte> {
    if v == 0 then [] else HighSeptets(v / 128) + [v % 128 + 128]
  }

  /** Seven bits per octet, the high bit set on all but the last. */
  function Sdnv(n: nat): (s: seq<byte>)
    ensures |s| > 0
  {
    HighSeptets(n / 128) + [n % 128]
  }

  /** `sdnv`: the last octet first, the others put in front of it. */
  method WriteSdnv(n: nat) returns (out: seq<byte>)
    ensures out == Sdnv(n)
  {
    out := [n % 128];
    var v: nat := n / 128;
    while v > 0
      invariant HighSeptets(v) + out == Sdnv(n)
      decreases v
    {
      assert HighSeptets(v) + out == HighSeptets(v / 128) + ([v % 128 + 128] + out);
      out := [v % 128 + 128] + out;
      v := v / 128;
    }
  }

  /** A number and where it ends, or more octets are needed, or the tenth was not the last. */
  datatype SdnvRead = Number(value: nat, end: nat) | NeedMore | TooLong

  /** The read from octet i on, with v read so far. */
  function ReadSdnvFrom(buf: seq<byte>, off: nat, i: nat, v: nat): (r: SdnvRead)
    requires off <= i
    ensures r.Number? ==> i < r.end <= |buf| && r.end <= off + MAX_SDNV
    decreases off + MAX_SDNV - i
  {
    if i < |buf| && i < off + MAX_SDNV then
      var v' := v * 128 + buf[i] % 128;
      if buf[i] < 128 then Number(v', i + 1) else ReadSdnvFrom(buf, off, i + 1, v')
    else if |buf| >= off + MAX_SDNV then TooLong
    else NeedMore
  }

  function ReadSdnv(buf: seq<byte>, off: nat): (r: SdnvRead)
    ensures r.Number? ==> off < r.end <= |buf|
  {
    ReadSdnvFrom(buf, off, off, 0)
  }

  method ReadSdnvLoop(buf: seq<byte>, off: nat) returns (r: SdnvRead)
    ensures r == ReadSdnv(buf, off)
  {
    var v: nat, i: nat := 0, off;
    while i < |buf| && i < off + MAX_SDNV
      invariant off <= i
      invariant ReadSdnv(buf, off) == ReadSdnvFrom(buf, off, i, v)
    {
      v := v * 128 + buf[i] % 128;
      if buf[i] < 128 { return Number(v, i + 1); }
      i := i + 1;
    }
    return if |buf| >= off + MAX_SDNV then TooLong else NeedMore;
  }

  function Pow128(k: nat): (p: nat)
    ensures p > 0
  {
    if k == 0 then 1 else 128 * Pow128(k - 1)
  }

  lemma {:induction false} HighSeptetsShape(v: nat)
    ensures forall i :: 0 <= i < |HighSeptets(v)| ==> HighSeptets(v)[i] >= 128
  {
    if v > 0 { HighSeptetsShape(v / 128); }
  }

  /** k octets hold exactly the numbers below 128^k. */
  lemma {:induction false} HighSeptetsLength(v: nat, k: nat)
    ensures |HighSeptets(v)| <= k <==> v < Pow128(k)
    decreases k
  {
    if v > 0 && k > 0 {
      HighSeptetsLength(v / 128, k - 1);
    }
  }

  lemma Pow128OfTen()
    ensures Pow128(9) * 128 == MAX_NUMBER
  {
    assert Pow128(1) == 128 * Pow128(0);
    assert Pow128(2) == 128 * Pow128(1);
    assert Pow128(3) == 128 * Pow128(2);
    assert Pow128(4) == 128 * Pow128(3);
    assert Pow128(5) == 128 * Pow128(4);
    assert Pow128(6) == 128 * Pow128(5);
    assert Pow128(7) == 128 * Pow128(6);
    assert Pow128(8) == 128 * Pow128(7);
    assert Pow128(9) == 128 * Pow128(8);
  }

  /** The value the loop reaches after these octets. */
  function Accumulate(v: nat, s: seq<byte>): nat {
    if s == [] then v else Accumulate(v, s[..|s| - 1]) * 128 + s[|s| - 1] % 128
  }

  lemma {:induction false} AccumulateStep(v: nat, s: seq<byte>)
    requires s != []
    ensures Accumulate(v, s) == Accumulate(v * 128 + s[0] % 128, s[1..])
    decreases |s|
  {
    if |s| > 1 {
      AccumulateStep(v, s[..|s| - 1]);
      assert s[..|s| - 1][1..] == s[1..][..|s| - 2];
    } else {
      assert s[..0] == [] && s[1..] == [];
    }
  }

  lemma {:induction false} AccumulateHigh(v: nat)
    ensures Accumulate(0, HighSeptets(v)) == v
  {
    if v > 0 {
      AccumulateHigh(v / 128);
      var s, low := HighSeptets(v), v % 128;
      assert s[..|s| - 1] == HighSeptets(v / 128) && s[|s| - 1] == low + 128;
      hide HighSeptets;
      assert (low + 128) % 128 == low;
    }
  }

  /** Octets with the high bit set are read through. */
  lemma {:induction false} ReadThrough(buf: seq<byte>, off: nat, i: nat, j: nat, v: nat)
    requires off <= i <= j <= |buf| && j <= off + MAX_SDNV
    requires forall k :: i <= k < j ==> buf[k] >= 128
    ensures ReadSdnvFrom(buf, off, i, v) == ReadSdnvFrom(buf, off, j, Accumulate(v, buf[i..j]))
    decreases j - i
  {
    if i < j {
      ReadThrough(buf, off, i + 1, j, v * 128 + buf[i] % 128);
      AccumulateStep(v, buf[i..j]);
      assert buf[i..j][1..] == buf[i + 1..j];
    }
  }

  /** Main result: any number below 2^70 reads back, wherever it is written and whatever follows;
      any larger number is refused as too long. */
  lemma SdnvReadsBackIff(n: nat, pre: seq<byte>, rest: seq<byte>)
    ensures var r := ReadSdnv(pre + Sdnv(n) + rest, |pre|);
            if n < MAX_NUMBER then r == Number(n, |pre| + |Sdnv(n)|) else r == TooLong
  {
    hide ReadSdnvFrom, HighSeptets, Accumulate, Pow128;
    var high, buf, off := HighSeptets(n / 128), pre + Sdnv(n) + rest, |pre|;
    HighSeptetsShape(n / 128);
    HighSeptetsLength(n / 128, 9);
    Pow128OfTen();
    var j := if |high| < MAX_SDNV then off + |high| else off + MAX_SDNV;
    assert forall k :: off <= k < off + |high| ==> buf[k] == high[k - off];
    ReadThrough(buf, off, off, j, 0);
    if |high| < MAX_SDNV {
      assert buf[off..j] == high;
      AccumulateHigh(n / 128);
      assert buf[j] == n % 128;
      LastOctet(buf, off, j, n / 128);
    } else {
      NoLastOctet(buf, off, Accumulate(0, buf[off..j]));
    }
  }

  lemma LastOctet(buf: seq<byte>, off: nat, j: nat, v: nat)
    requires off <= j < |buf| && j < off + MAX_SDNV && buf[j] < 128
    ensures ReadSdnvFrom(buf, off, j, v) == Number(v * 128 + buf[j], j + 1)
  {
  }

  lemma NoLastOctet(buf: seq<byte>, off: nat, v: nat)
    requires |buf| >= off + MAX_SDNV
    ensures ReadSdnvFrom(buf, off, off + MAX_SDNV, v) == TooLong
  {
  }

  /** Cut short, it asks for more. */
  lemma ProperPrefixNeedsMore(n: nat, k: nat)
    requires k < |Sdnv(n)| && n < MAX_NUMBER
    ensures ReadSdnv(Sdnv(n)[..k], 0) == NeedMore
  {
    hide HighSeptets, Accumulate, Pow128;
    var buf := Sdnv(n)[..k];
    HighSeptetsShape(n / 128);
    HighSeptetsLength(n / 128, 9);
    Pow128OfTen();
    assert forall i :: 0 <= i < k ==> buf[i] == HighSeptets(n / 128)[i];
    ReadThrough(buf, 0, 0, k, 0);
  }

  /** No encoding begins another. */
  lemma SdnvIsPrefixFree(a: nat, b: nat)
    requires Sdnv(a) <= Sdnv(b)
    ensures a == b
  {
    hide HighSeptets, Accumulate;
    var s, t := Sdnv(a), Sdnv(b);
    HighSeptetsShape(a / 128);
    HighSeptetsShape(b / 128);
    assert s[|s| - 1] < 128 && s[|s| - 1] == t[|s| - 1];
    assert forall i :: 0 <= i < |t| - 1 ==> t[i] == HighSeptets(b / 128)[i] && t[i] >= 128;
    assert HighSeptets(a / 128) == s[..|s| - 1] == t[..|t| - 1] == HighSeptets(b / 128);
    AccumulateHigh(a / 128);
    AccumulateHigh(b / 128);
  }

  /** More octets never change a finished read. */
  lemma {:induction false} ReadSdnvExtend(buf: seq<byte>, c: seq<byte>, off: nat, i: nat, v: nat)
    requires off <= i && ReadSdnvFrom(buf, off, i, v) != NeedMore
    ensures ReadSdnvFrom(buf + c, off, i, v) == ReadSdnvFrom(buf, off, i, v)
    decreases off + MAX_SDNV - i
  {
    if i < |buf| && i < off + MAX_SDNV && buf[i] >= 128 {
      ReadSdnvExtend(buf, c, off, i + 1, v * 128 + buf[i] % 128);
    }
  }

  // ---- Messages ------------------------------------------------------------------------------------

  const MAGIC: seq<byte> := [0x64, 0x74, 0x6e, 0x21]
  const VERSION: byte := 3
  const MAX_EID := 1024

  datatype Msg =
    | BadMagic
    | BadHeader
    | Contact(version: byte, flags: byte, keepalive: nat, eid: seq<byte>)
    | Segment(flags: byte, data: seq<byte>)
    | Ack(value: nat)
    | Length(value: nat)
    | Refuse(reason: nat)
    | Keepalive
    | Shutdown
    | Unknown(typ: nat)
    | TooBig(len: nat)
    | SdnvError          // the thrown "SDNV longer than 64 bits"

  function Ends(m: Msg): Option<Parsed<Msg>> {
    Some(Parsed(m, 0, true))
  }

  function Takes(m: Msg, used: nat): Option<Parsed<Msg>> {
    Some(Parsed(m, used, false))
  }

  function EncodeContactHeader(flags: byte, keepalive: nat, eid: seq<byte>): seq<byte> {
    MAGIC + [VERSION, flags] + ToBE(keepalive, 2) + Sdnv(|eid|) + eid
  }

  function ParseHeader(b: seq<byte>): Option<Parsed<Msg>> {
    if |b| < 8 then None
    else if b[..4] != MAGIC then Ends(BadMagic)
    else
      match ReadSdnv(b, 8)
      case NeedMore => None
      case TooLong => Ends(SdnvError)
      case Number(n, end) =>
        if n > MAX_EID then Ends(BadHeader)
        else if |b| < end + n then None
        else Takes(Contact(b[4], b[5], FromBE(b, 6, 2), b[end..end + n]), end + n)
  }

  /** The numeric reason after a shutdown's optional reason octet. */
  function ParseShutdown(b: seq<byte>, flags: nat): Option<Parsed<Msg>> {
    var off := if flags / 2 % 2 == 1 then 2 else 1;
    if flags % 2 == 1 then
      if |b| < off + 1 then None
      else
        match ReadSdnv(b, off)
        case NeedMore => None
        case TooLong => Ends(SdnvError)
        case Number(n, end) => Takes(Shutdown, end)
    else if |b| < off then None
    else Takes(Shutdown, off)
  }

  function ParseSegment(b: seq<byte>, flags: byte, maxSegment: nat): Option<Parsed<Msg>> {
    match ReadSdnv(b, 1)
    case NeedMore => None
    case TooLong => Ends(SdnvError)
    case Number(n, end) =>
      if n > maxSegment then Ends(TooBig(n))
      else if |b| < end + n then None
      else Takes(Segment(flags, b[end..end + n]), end + n)
  }

  function ParseNumber(b: seq<byte>, ack: bool): Option<Parsed<Msg>> {
    match ReadSdnv(b, 1)
    case NeedMore => None
    case TooLong => Ends(SdnvError)
    case Number(n, end) => Takes(if ack then Ack(n) else Length(n), end)
  }

  function ParseMessage(b: seq<byte>, maxSegment: nat): Option<Parsed<Msg>> {
    if b == [] then None
    else
      var typ, flags := b[0] / 16, b[0] % 16;
      if typ == 1 then ParseSegment(b, flags, maxSegment)
      else if typ == 2 then ParseNumber(b, true)
      else if typ == 3 then Takes(Refuse(flags), 1)
      else if typ == 4 then Takes(Keepalive, 1)
      else if typ == 5 then ParseShutdown(b, flags)
      else if typ == 6 then ParseNumber(b, false)
      else Takes(Unknown(typ), 1)
  }

  function ParseNext(b: seq<byte>, headerDone: bool, maxSegment: nat): Option<Parsed<Msg>> {
    if headerDone then ParseMessage(b, maxSegment) else ParseHeader(b)
  }

  /** The parser of a session that accepts segments up to this size. */
  function V3(maxSegment: nat): ParseFn<Msg> {
    (b: seq<byte>, headerDone: bool) => ParseNext(b, headerDone, maxSegment)
  }

  lemma MessageStands(b: seq<byte>, c: seq<byte>, maxSegment: nat)
    requires ParseMessage(b, maxSegment).Some?
    ensures var p := ParseMessage(b, maxSegment).value;
            p.used <= |b| && (p.used > 0 || p.last) && ParseMessage(b + c, maxSegment) == Some(p)
  {
    hide ReadSdnvFrom;
    var typ, flags := b[0] / 16, b[0] % 16;
    var off := if typ == 5 && flags / 2 % 2 == 1 then 2 else 1;
    if ReadSdnv(b, off) != NeedMore { ReadSdnvExtend(b, c, off, off, 0); }
    if typ == 1 && ReadSdnv(b, 1).Number? {
      var Number(n, end) := ReadSdnv(b, 1);
      if n <= maxSegment { assert (b + c)[end..end + n] == b[end..end + n]; }
    }
  }

  lemma HeaderStands(b: seq<byte>, c: seq<byte>)
    requires ParseHeader(b).Some?
    ensures var p := ParseHeader(b).value;
            p.used <= |b| && (p.used > 0 || p.last) && ParseHeader(b + c) == Some(p)
  {
    hide ReadSdnvFrom, FromBE;
    assert (b + c)[..4] == b[..4];
    if ReadSdnv(b, 8) != NeedMore { ReadSdnvExtend(b, c, 8, 8, 0); }
    FromBELocal(b, 6, 2, b + c, 0);
    if ReadSdnv(b, 8).Number? {
      var Number(n, end) := ReadSdnv(b, 8);
      if end + n <= |b| { assert (b + c)[end..end + n] == b[end..end + n]; }
    }
  }

  /** Octets of a TCPCLv3 stream may arrive in any pieces. */
  lemma PiecesDoNotMatter(chunks: seq<seq<byte>>, maxSegment: nat)
    ensures SameOutcome(Feed(V3(maxSegment), Drained([], [], false, false), chunks), Drain(V3(maxSegment), Concat(chunks), false))
  {
    hide Drain, Feed, Incremental, ParseMessage, ParseHeader;
    assert Incremental(V3(maxSegment)) by { V3IsIncremental(maxSegment); }
    var start: Drained<Msg> := Drained([], [], false, false);
    assert Drain(V3(maxSegment), [], false) == start by { NothingYet(maxSegment); }
    ChunkingDoesNotMatter(V3(maxSegment), start, chunks);
    assert [] + Concat(chunks) == Concat(chunks);
    var whole := Drain(V3(maxSegment), Concat(chunks), false);
    assert [] + whole.msgs == whole.msgs;
  }

  lemma V3IsIncremental(maxSegment: nat)
    ensures Incremental(V3(maxSegment))
  {
    hide ParseMessage, ParseHeader;
    forall b: seq<byte>, c: seq<byte>, hd: bool ensures Stands(V3(maxSegment), b, c, hd) {
      if V3(maxSegment)(b, hd).Some? {
        if hd { MessageStands(b, c, maxSegment); } else { HeaderStands(b, c); }
      }
    }
  }

  lemma NothingYet(maxSegment: nat)
    ensures Drain(V3(maxSegment), [], false) == Drained([], [], false, false)
  {
  }

  /** The contact header reads back, whatever follows. */
  lemma ContactHeaderReadsBack(flags: byte, keepalive: nat, eid: seq<byte>, rest: seq<byte>)
    requires keepalive < 0x1_0000 && |eid| <= MAX_EID
    ensures ParseHeader(EncodeContactHeader(flags, keepalive, eid) + rest)
            == Takes(Contact(VERSION, flags, keepalive, eid), |EncodeContactHeader(flags, keepalive, eid)|)
  {
    hide ReadSdnv, FromBE, ToBE, Sdnv;
    Pow256Values();
    var b := EncodeContactHeader(flags, keepalive, eid) + rest;
    assert b[..4] == MAGIC && b[6..8] == ToBE(keepalive, 2);
    FromToBE(keepalive, 2, b, 6);
    var pre := MAGIC + [VERSION, flags] + ToBE(keepalive, 2);
    SdnvReadsBackIff(|eid|, pre, eid + rest);
    assert b == pre + Sdnv(|eid|) + (eid + rest);
    var end := 8 + |Sdnv(|eid|)|;
    assert b[end..end + |eid|] == eid;
  }

  /** Without the magic it should have, or with a node id of more than 1024 octets, a contact header is refused as soon
      as that shows. */
  lemma ContactHeaderRefused(magic: seq<byte>, flags: byte, keepalive: nat, n: nat, rest: seq<byte>)
    requires |magic| == 4 && keepalive < 0x1_0000 && n < MAX_NUMBER
    ensures var b := magic + [VERSION, flags] + ToBE(keepalive, 2) + Sdnv(n) + rest;
            && (magic != MAGIC ==> ParseHeader(b) == Ends(BadMagic))
            && (magic == MAGIC && n > MAX_EID ==> ParseHeader(b) == Ends(BadHeader))
  {
    hide ReadSdnv, FromBE, ToBE, Sdnv;
    var pre := magic + [VERSION, flags] + ToBE(keepalive, 2);
    SdnvReadsBackIff(n, pre, rest);
    assert (pre + Sdnv(n) + rest)[..4] == magic;
  }

  // ---- What a session writes reads back -----------------------------------------------------------------

  /** What `send`, the segment handler, the keepalive timer and `close` write: numbers the other end
      can read, and flags or a reason in four bits. */
  predicate Encodable(m: Msg) {
    match m
    case Segment(flags, data) => flags < 16 && |data| < MAX_NUMBER
    case Ack(value) => value < MAX_NUMBER
    case Refuse(reason) => reason < 16
    case Keepalive => true
    case Shutdown => true
    case _ => false
  }

  function Encode(m: Msg): (s: seq<byte>)
    requires Encodable(m)
    ensures s != []
  {
    match m
    case Segment(flags, data) => [16 + flags] + Sdnv(|data|) + data
    case Ack(value) => [32] + Sdnv(value)
    case Refuse(reason) => [48 + reason]
    case Keepalive => [64]
    case Shutdown => [80]
  }

  lemma SegmentReadsBack(flags: byte, data: seq<byte>, rest: seq<byte>, maxSegment: nat)
    requires Encodable(Segment(flags, data))
    ensures ParseSegment(Encode(Segment(flags, data)) + rest, flags, maxSegment)
            == if |data| > maxSegment then Ends(TooBig(|data|)) else Takes(Segment(flags, data), |Encode(Segment(flags, data))|)
  {
    hide ReadSdnv, Sdnv;
    var pre, n := [16 + flags], |data|;
    var b := Encode(Segment(flags, data)) + rest;
    SdnvReadsBackIff(n, pre, data + rest);
    assert b == pre + Sdnv(n) + (data + rest);
    var end := 1 + |Sdnv(n)|;
    assert b[end..end + n] == data;
  }

  lemma MessageReadsBack(m: Msg, rest: seq<byte>, maxSegment: nat)
    requires Encodable(m)
    ensures ParseMessage(Encode(m) + rest, maxSegment)
            == if m.Segment? && |m.data| > maxSegment then Ends(TooBig(|m.data|)) else Takes(m, |Encode(m)|)
  {
    hide ReadSdnv, Sdnv, ParseSegment;
    var b := Encode(m) + rest;
    match m
    case Segment(flags, data) => SegmentReadsBack(flags, data, rest, maxSegment);
    case Ack(value) =>
      SdnvReadsBackIff(value, [32], rest);
      assert b == [32] + Sdnv(value) + rest;
    case _ =>
  }

  /** A shutdown as a peer may send it (section 6.1 of RFC 7242): with a reason, and with a delay before reconnecting. */
  function ShutdownOf(reason: Option<byte>, delay: Option<nat>): seq<byte> {
    [80 + (if reason.Some? then 2 else 0) + (if delay.Some? then 1 else 0)]
    + (if reason.Some? then [reason.value] else []) + (if delay.Some? then Sdnv(delay.value) else [])
  }

  /** It is taken off whole, whichever of the two it has. */
  lemma ShutdownReadsBack(reason: Option<byte>, delay: Option<nat>, rest: seq<byte>, maxSegment: nat)
    requires delay.Some? ==> delay.value < MAX_NUMBER
    ensures ParseMessage(ShutdownOf(reason, delay) + rest, maxSegment) == Takes(Shutdown, |ShutdownOf(reason, delay)|)
  {
    hide ReadSdnv, Sdnv;
    var b := ShutdownOf(reason, delay) + rest;
    var pre := [80 + (if reason.Some? then 2 else 0) + (if delay.Some? then 1 else 0)] + (if reason.Some? then [reason.value] else []);
    if delay.Some? {
      SdnvReadsBackIff(delay.value, pre, rest);
      assert b == pre + Sdnv(delay.value) + rest;
    } else {
      assert b == pre + rest;
    }
    assert b[0] == pre[0];
  }

  /** So is the announcement of a bundle's length (section 5.5 of RFC 7242), which the session ignores. */
  lemma LengthReadsBack(total: nat, rest: seq<byte>, maxSegment: nat)
    requires total < MAX_NUMBER
    ensures ParseMessage([96] + Sdnv(total) + rest, maxSegment) == Takes(Length(total), 1 + |Sdnv(total)|)
  {
    hide ReadSdnv, Sdnv;
    SdnvReadsBackIff(total, [96], rest);
  }

  predicate AllEncodable(ms: seq<Msg>) {
    forall m :: m in ms ==> Encodable(m)
  }

  /** The octets of some messages, back to back. */
  function EncodeAll(ms: seq<Msg>): seq<byte>
    requires AllEncodable(ms)
  {
    if ms == [] then [] else Encode(ms[0]) + EncodeAll(ms[1..])
  }

  /** What a receiver with this limit makes of them: all, up to the first oversized segment. */
  function Heard(ms: seq<Msg>, maxSegment: nat): seq<Msg> {
    if ms == [] then []
    else if ms[0].Segment? && |ms[0].data| > maxSegment then [TooBig(|ms[0].data|)]
    else [ms[0]] + Heard(ms[1..], maxSegment)
  }

  lemma {:induction false} AllReadBack(ms: seq<Msg>, maxSegment: nat)
    requires AllEncodable(ms)
    ensures var d := Drain(V3(maxSegment), EncodeAll(ms), true);
            d.msgs == Heard(ms, maxSegment) && (d.stopped <==> Heard(ms, maxSegment) != ms) && (!d.stopped ==> d.rest == [])
    decreases |ms|
  {
    hide ParseMessage, Encode, Encodable;
    if ms == [] {
      assert ParseMessage([], maxSegment).None? by { NothingParses(maxSegment); }
    } else {
      var m := ms[0];
      assert m in ms;
      MessageReadsBack(m, EncodeAll(ms[1..]), maxSegment);
      if !(m.Segment? && |m.data| > maxSegment) {
        assert EncodeAll(ms)[|Encode(m)|..] == EncodeAll(ms[1..]);
        AllReadBack(ms[1..], maxSegment);
        assert ParseNext(EncodeAll(ms), true, maxSegment) == Takes(m, |Encode(m)|);
        assert Drain(V3(maxSegment), EncodeAll(ms), true).msgs == [m] + Drain(V3(maxSegment), EncodeAll(ms[1..]), true).msgs;
      }
    }
  }

  lemma NothingParses(maxSegment: nat)
    ensures ParseMessage([], maxSegment).None?
  {
  }

  /** Main result: a contact header, data segments, acknowledgements and the rest, cut into any pieces,
      are heard as sent. */
  lemma StreamReadsBack(flags: byte, keepalive: nat, eid: seq<byte>, ms: seq<Msg>, chunks: seq<seq<byte>>, maxSegment: nat)
    requires keepalive < 0x1_0000 && |eid| <= MAX_EID && AllEncodable(ms)
    requires Concat(chunks) == EncodeContactHeader(flags, keepalive, eid) + EncodeAll(ms)
    ensures Feed(V3(maxSegment), Drained([], [], false, false), chunks).msgs
            == [Contact(VERSION, flags, keepalive, eid)] + Heard(ms, maxSegment)
  {
    hide ParseMessage, ParseHeader, Encodable, Encode, Feed, EncodeContactHeader;
    PiecesDoNotMatter(chunks, maxSegment);
    var header := EncodeContactHeader(flags, keepalive, eid);
    ContactHeaderReadsBack(flags, keepalive, eid, EncodeAll(ms));
    var b := header + EncodeAll(ms);
    assert b[|header|..] == EncodeAll(ms);
    AllReadBack(ms, maxSegment);
    assert ParseNext(b, false, maxSegment) == Takes(Contact(VERSION, flags, keepalive, eid), |header|);
    assert header != [] by { HeaderNotEmpty(flags, keepalive, eid); }
  }

  lemma HeaderNotEmpty(flags: byte, keepalive: nat, eid: seq<byte>)
    ensures EncodeContactHeader(flags, keepalive, eid) != []
  {
  }

  // ---- The parser object -------------------------------------------------------------------------------

  class Parser {
    const maxSegment: nat
    var buf: seq<byte>
    var headerDone: bool

    constructor (maxSegment: nat)
      ensures buf == [] && !headerDone && this.maxSegment == maxSegment
    {
      this.maxSegment := maxSegment;
      buf, headerDone := [], false;
    }

    method Push(chunk: seq<byte>)
      modifies this`buf
      ensures buf == old(buf) + chunk
    {
      buf := if |buf| > 0 then buf + chunk else chunk;
    }

    method Take(n: nat) returns (out: seq<byte>)
      requires n <= |buf|
      modifies this`buf
      ensures out == old(buf)[..n] && buf == old(buf)[n..]
    {
      out := buf[..n];
      buf := buf[n..];
    }

    /** The next complete item, or None when more octets are needed; the thrown error is an item of
        its own, after which the session closes. */
    method Parse() returns (m: Option<Msg>)
      modifies this
      ensures ParseNext(old(buf), old(headerDone), maxSegment).None? ==> m.None? && buf == old(buf) && headerDone == old(headerDone)
      ensures ParseNext(old(buf), old(headerDone), maxSegment).Some? ==>
                var p := ParseNext(old(buf), old(headerDone), maxSegment).value;
                m == Some(p.msg) && p.used <= |old(buf)| && buf == old(buf)[p.used..]
    {
      hide ReadSdnvFrom, FromBE;
      m := None;
      var b := buf;
      if !headerDone {
        if |b| < 8 { return; }
        if b[..4] != MAGIC {
          headerDone := true;
          return Some(BadMagic);
        }
        var len := ReadSdnvLoop(b, 8);
        if len.NeedMore? { return; }
        if len.TooLong? { return Some(SdnvError); }
        if len.value > MAX_EID {
          headerDone := true;
          return Some(BadHeader);
        }
        if |b| < len.end + len.value { return; }
        var h := Take(len.end + len.value);
        headerDone := true;
        FromBELocal(h, 6, 2, b, 0);
        assert h[len.end..] == b[len.end..len.end + len.value];
        return Some(Contact(h[4], h[5], FromBE(h, 6, 2), h[len.end..]));
      }
      if |b| == 0 { return; }
      var typ, flags := b[0] / 16, b[0] % 16;
      if typ == 1 {
        var len := ReadSdnvLoop(b, 1);
        if len.NeedMore? { return; }
        if len.TooLong? { return Some(SdnvError); }
        if len.value > maxSegment { return Some(TooBig(len.value)); }
        if |b| < len.end + len.value { return; }
        var t := Take(len.end + len.value);
        assert t[len.end..] == b[len.end..len.end + len.value];
        return Some(Segment(flags, t[len.end..]));
      } else if typ == 2 || typ == 6 {
        var len := ReadSdnvLoop(b, 1);
        if len.NeedMore? { return; }
        if len.TooLong? { return Some(SdnvError); }
        var _ := Take(len.end);
        return Some(if typ == 2 then Ack(len.value) else Length(len.value));
      } else if typ == 3 {
        var _ := Take(1);
        return Some(Refuse(flags));
      } else if typ == 4 {
        var _ := Take(1);
        return Some(Keepalive);
      } else if typ == 5 {
        var off := 1;
        if flags / 2 % 2 == 1 { off := off + 1; }
        if flags % 2 == 1 {
          if |b| < off + 1 { return; }
          var d := ReadSdnvLoop(b, off);
          if d.NeedMore? { return; }
          if d.TooLong? { return Some(SdnvError); }
          off := d.end;
        }
        if |b| < off { return; }
        var _ := Take(off);
        return Some(Shutdown);
      } else {
        var _ := Take(1);
        return Some(Unknown(typ));
      }
    }
  }
}
