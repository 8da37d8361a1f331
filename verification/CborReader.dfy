/**
 The definite-length CBOR reader of flight/keyring.c and the COSE_Sign1 records it reads.

 `Head`, `ByteString` and `ParseItem` say what one read at an offset yields and where it stops;
 class `Reader` is the C cursor, whose methods advance `i` and are proved to yield exactly that.
 */
module CborReader {
  import opened Wrappers
  import opened Bytes

  /** One data item head: major type, argument, and the offset after it. */
  datatype HeadRead = HeadRead(major: nat, val: uint64, next: nat)

  /** A string and the offset after it. */
  datatype StringRead = StringRead(s: seq<byte>, next: nat)

  /** How many octets follow an initial octet whose low five bits are `ai`. */
  function ArgumentLength(ai: nat): (len: Option<nat>) {
    if ai < 24 then Some(0)
    else if ai == 24 then Some(1)
    else if ai == 25 then Some(2)
    else if ai == 26 then Some(4)
    else if ai == 27 then Some(8)
    else None
  }

  /** A head read never runs past the buffer and always consumes something. */
  function Head(p: seq<byte>, i: nat): (r: Option<HeadRead>)
    ensures r.Some? ==> i < r.value.next <= |p| && r.value.major < 8
  {
    if i >= |p| then None
    else
      var ai := p[i] % 32;
      match ArgumentLength(ai)
      case None => None
      case Some(len) =>
        if len == 0 then Some(HeadRead(p[i] / 32, ai, i + 1))
        else if |p| - (i + 1) < len then None
        else
          FromBEFits(p, i + 1, len);
          Some(HeadRead(p[i] / 32, FromBE(p, i + 1, len), i + 1 + len))
  }

  function ByteString(p: seq<byte>, i: nat, major: nat): (r: Option<StringRead>)
    ensures r.Some? ==> i < r.value.next <= |p| && |r.value.s| < r.value.next - i
  {
    match Head(p, i)
    case None => None
    case Some(h) =>
      if h.major != major || h.val > |p| - h.next then None
      else Some(StringRead(p[h.next..h.next + h.val], h.next + h.val))
  }

  // ---- Records ---------------------------------------------------------------------------

  const MAX_PAYLOAD := 256
  const MAX_EID := 64

  /** What the flight code calls but does not define: key ids and Ed25519. */
  datatype Crypto = Crypto(
    keyId: seq<byte> -> seq<byte>,                        // 16 octets of SHA-256 of a public key
    opens: (seq<byte>, seq<byte>, seq<byte>) -> bool)     // signature, message, public key

  /** A key record (kind 1) or a revocation (kind 2), with the time it was first seen. */
  datatype Record = Record(
    kind: byte, algOk: bool, sig: seq<byte>, payload: seq<byte>,
    subject: seq<byte>, pub: seq<byte>, keyid: seq<byte>, roles: uint32,
    notBefore: uint64, notAfter: uint64, issuedAt: uint64, effectiveFrom: uint64, seenAt: uint64,
    issuer: seq<byte>, target: seq<byte>)

  /** The part of a char array that strcmp sees: everything before the first NUL. */
  function CString(s: seq<byte>): (r: seq<byte>)
    ensures 0 !in r
  {
    if s == [] || s[0] == 0 then [] else [s[0]] + CString(s[1..])
  }

  function BlankRecord(algOk: bool, sig: seq<byte>, payload: seq<byte>): Record {
    Record(0, algOk, sig, payload, [], Zeros(32), Zeros(16), 0, 0, 0, 0, 0, 0, Zeros(16), Zeros(16))
  }

  /** One entry of the payload map. `num` is the head's argument, `s` the string if there is one. */
  function SetField(cr: Crypto, rec: Record, key: uint64, num: uint64, s: Option<seq<byte>>): (r: Option<Record>)
    ensures r.Some? ==> r.value.algOk == rec.algOk && r.value.sig == rec.sig
                        && r.value.payload == rec.payload && r.value.seenAt == rec.seenAt
    ensures r.Some? && rec.keyid in {Zeros(16), cr.keyId(rec.pub)}
            ==> r.value.keyid in {Zeros(16), cr.keyId(r.value.pub)}
  {
    match key
    case 1 => Some(rec.(kind := num % 256))
    case 2 => if s.None? || |s.value| >= MAX_EID then None else Some(rec.(subject := CString(s.value)))
    case 3 => if s.None? || |s.value| != 32 then None else Some(rec.(pub := s.value, keyid := cr.keyId(s.value)))
    case 4 => Some(rec.(roles := num % 0x1_0000_0000))
    case 5 => Some(rec.(notBefore := num))
    case 6 => Some(rec.(notAfter := num))
    case 7 => Some(rec.(issuedAt := num))
    case 8 => if s.None? || |s.value| != 16 then None else Some(rec.(issuer := s.value))
    case 10 => if s.None? || |s.value| != 16 then None else Some(rec.(target := s.value))
    case 11 => Some(rec.(effectiveFrom := num))
    case _ => Some(rec)
  }

  /** Key and value of one map entry at offset `at`: key, argument, string, next offset. */
  datatype Entry = Entry(key: uint64, num: uint64, s: Option<seq<byte>>, next: nat)

  function MapEntry(pl: seq<byte>, at: nat): (r: Option<Entry>)
    ensures r.Some? ==> at < r.value.next <= |pl|
  {
    match Head(pl, at)
    case None => None
    case Some(k) =>
      if k.major != 0 then None else
      match Head(pl, k.next)
      case None => None
      case Some(v) =>
        if v.major == 2 || v.major == 3 then
          match ByteString(pl, k.next, v.major)
          case None => None
          case Some(b) => Some(Entry(k.val, v.val, Some(b.s), b.next))
        else if v.major != 0 then None
        else Some(Entry(k.val, v.val, None, v.next))
  }

  /** The payload map from its k-th entry on, written into `rec` entry by entry. */
  function Fields(cr: Crypto, pl: seq<byte>, at: nat, k: nat, count: uint64, rec: Record): (r: Option<Record>)
    ensures r.Some? ==> r.value.algOk == rec.algOk && r.value.sig == rec.sig
                        && r.value.payload == rec.payload && r.value.seenAt == rec.seenAt
    ensures r.Some? && rec.keyid in {Zeros(16), cr.keyId(rec.pub)}
            ==> r.value.keyid in {Zeros(16), cr.keyId(r.value.pub)}
    decreases count - k
  {
    if k >= count then Some(rec)
    else
      match MapEntry(pl, at)
      case None => None
      case Some(e) =>
        match SetField(cr, rec, e.key, e.num, e.s)
        case None => None
        case Some(rec') => Fields(cr, pl, e.next, k + 1, count, rec')
  }

  /** The record a protected-header verdict, a signature and a payload stand for. */
  function Assemble(cr: Crypto, algOk: bool, sig: seq<byte>, pl: seq<byte>): (r: Option<Record>)
    ensures r.Some? ==> r.value.algOk == algOk && r.value.sig == sig && r.value.payload == pl
                        && r.value.seenAt == 0 && r.value.kind in {1, 2}
    ensures r.Some? ==> r.value.keyid in {Zeros(16), cr.keyId(r.value.pub)}
  {
    match Head(pl, 0)
    case None => None
    case Some(h) =>
      if h.major != 5 then None else
      match Fields(cr, pl, h.next, 0, h.val, BlankRecord(algOk, sig, pl))
      case None => None
      case Some(rec) => if rec.kind == 1 || rec.kind == 2 then Some(rec) else None
  }

  /** The parts of a COSE_Sign1 array [protected, {}, payload, signature] and where it ends. */
  datatype Envelope = Envelope(algOk: bool, sig: seq<byte>, payload: seq<byte>, next: nat)

  /** The array head, the protected header, and the empty unprotected map after it. */
  function ReadProtected(p: seq<byte>, i: nat): (r: Option<StringRead>)
    ensures r.Some? ==> i < r.value.next <= |p|
  {
    match Head(p, i)
    case None => None
    case Some(h) =>
      if h.major != 4 || h.val != 4 then None else
      match ByteString(p, h.next, 2)
      case None => None
      case Some(prot) =>
        match Head(p, prot.next)
        case None => None
        case Some(u) => if u.major != 5 || u.val != 0 then None else Some(prot.(next := u.next))
  }

  function ReadEnvelope(p: seq<byte>, i: nat): (r: Option<Envelope>)
    ensures r.Some? ==> i < r.value.next <= |p| && |r.value.sig| == 64 && |r.value.payload| <= MAX_PAYLOAD
  {
    match ReadProtected(p, i)
    case None => None
    case Some(prot) =>
      match ByteString(p, prot.next, 2)
      case None => None
      case Some(pl) =>
        match ByteString(p, pl.next, 2)
        case None => None
        case Some(sig) =>
          if |sig.s| != 64 || |pl.s| > MAX_PAYLOAD then None
          else Some(Envelope(prot.s == [0xa1, 0x01, 0x27], sig.s, pl.s, sig.next))
  }

  datatype ItemRead = ItemRead(rec: Record, next: nat)

  function ParseItem(cr: Crypto, p: seq<byte>, i: nat): (r: Option<ItemRead>)
    ensures r.Some? ==> i < r.value.next <= |p| && r.value.rec.seenAt == 0
  {
    match ReadEnvelope(p, i)
    case None => None
    case Some(e) =>
      match Assemble(cr, e.algOk, e.sig, e.payload)
      case None => None
      case Some(rec) => Some(ItemRead(rec, e.next))
  }

  // ---- Reading is local to the octets consumed --------------------------------------------

  lemma HeadLocal(p: seq<byte>, i: nat, j: nat, q: seq<byte>, d: int)
    requires Head(p, i).Some? && Head(p, i).value.next <= j
    requires SameOctets(p, i, j, q, d)
    ensures Head(q, i + d) == Some(Head(p, i).value.(next := Head(p, i).value.next + d))
  {
    var initial := p[i];
    assert q[i + d] == initial;
    FromBELocal(p, i + 1, ArgumentLength(p[i] % 32).value, q, d);
  }

  lemma ByteStringLocal(p: seq<byte>, i: nat, j: nat, q: seq<byte>, d: int, major: nat)
    requires ByteString(p, i, major).Some? && ByteString(p, i, major).value.next <= j
    requires SameOctets(p, i, j, q, d)
    ensures ByteString(q, i + d, major)
            == Some(ByteString(p, i, major).value.(next := ByteString(p, i, major).value.next + d))
  {
    HeadLocal(p, i, j, q, d);
    var h := Head(p, i).value;
    SameSlice(p, h.next, h.next + h.val, q, d);
  }

  lemma ProtectedLocal(p: seq<byte>, i: nat, j: nat, q: seq<byte>, d: int)
    requires ReadProtected(p, i).Some? && ReadProtected(p, i).value.next <= j
    requires SameOctets(p, i, j, q, d)
    ensures ReadProtected(q, i + d)
            == Some(ReadProtected(p, i).value.(next := ReadProtected(p, i).value.next + d))
  {
    hide Head, ByteString;
    var h := Head(p, i).value;
    var prot := ByteString(p, h.next, 2).value;
    HeadLocal(p, i, j, q, d);
    ByteStringLocal(p, h.next, j, q, d, 2);
    HeadLocal(p, prot.next, j, q, d);
  }

  lemma EnvelopeLocal(p: seq<byte>, i: nat, q: seq<byte>, d: int)
    requires ReadEnvelope(p, i).Some?
    requires SameOctets(p, i, ReadEnvelope(p, i).value.next, q, d)
    ensures ReadEnvelope(q, i + d)
            == Some(ReadEnvelope(p, i).value.(next := ReadEnvelope(p, i).value.next + d))
  {
    hide Head, FromBE, ByteString, ReadProtected;
    var j := ReadEnvelope(p, i).value.next;
    var prot := ReadProtected(p, i).value;
    var pl := ByteString(p, prot.next, 2).value;
    ProtectedLocal(p, i, j, q, d);
    ByteStringLocal(p, prot.next, j, q, d, 2);
    ByteStringLocal(p, pl.next, j, q, d, 2);
  }

  /** A successful parse depends on nothing but the octets it consumed: found again anywhere in
      any buffer, with anything or nothing after them, they give the same record. */
  lemma ParseItemLocal(cr: Crypto, p: seq<byte>, i: nat, q: seq<byte>, d: int)
    requires ParseItem(cr, p, i).Some?
    requires SameOctets(p, i, ParseItem(cr, p, i).value.next, q, d)
    ensures ParseItem(cr, q, i + d)
            == Some(ItemRead(ParseItem(cr, p, i).value.rec, ParseItem(cr, p, i).value.next + d))
  {
    hide Assemble, Fields, Head, ByteString, ReadProtected, ReadEnvelope;
    EnvelopeLocal(p, i, q, d);
  }

  /** Two items with the same verdict, signature and payload are the same record. */
  lemma SameItemSameRecord(cr: Crypto, p: seq<byte>, q: seq<byte>, i: nat, k: nat)
    requires ParseItem(cr, p, i).Some? && ParseItem(cr, q, k).Some?
    ensures var a, b := ParseItem(cr, p, i).value.rec, ParseItem(cr, q, k).value.rec;
            a.algOk == b.algOk && a.sig == b.sig && a.payload == b.payload ==> a == b
  {
  }

  // ---- The C cursor ------------------------------------------------------------------------

  class Reader {
    const p: seq<byte>
    var i: nat

    constructor (p: seq<byte>)
      ensures this.p == p && i == 0
    {
      this.p := p;
      this.i := 0;
    }

    /** On failure the cursor may have moved, but never past the end. */
    method ReadHead() returns (ok: bool, major: nat, val: uint64)
      requires i <= |p|
      modifies this
      ensures i <= |p|
      ensures ok <==> Head(p, old(i)).Some?
      ensures ok ==> Head(p, old(i)) == Some(HeadRead(major, val, i))
    {
      ok, major, val := false, 0, 0;
      if i >= |p| { return; }
      var b := p[i];
      i := i + 1;
      var ai := b % 32;
      major := b / 32;
      if ai < 24 {
        ok, val := true, ai;
        return;
      }
      var len;
      if ai == 24 { len := 1; } else if ai == 25 { len := 2; } else if ai == 26 { len := 4; } else if ai == 27 { len := 8; } else { return; }
      if |p| - i < len { return; }
      ghost var start := i;
      var v: nat := 0;
      var k := 0;
      while k < len
        invariant 0 <= k <= len && i == start + k && start + len <= |p|
        invariant v == FromBE(p, start, k)
      {
        v := v * 256 + p[i];
        i := i + 1;
        k := k + 1;
      }
      FromBEFits(p, start, len);
      ok, val := true, v;
    }

    method ReadBytes(major: nat) returns (ok: bool, s: seq<byte>)
      requires i <= |p|
      modifies this
      ensures i <= |p|
      ensures ok <==> ByteString(p, old(i), major).Some?
      ensures ok ==> ByteString(p, old(i), major) == Some(StringRead(s, i))
    {
      s := [];
      var m, v;
      ok, m, v := ReadHead();
      if !ok || m != major || v > |p| - i {
        ok := false;
        return;
      }
      s := p[i..i + v];
      i := i + v;
    }
  }

  /** `parse_item`: the loop over the payload map works on a cursor of its own. */
  method ReadItem(cr: Crypto, r: Reader) returns (item: Option<Record>)
    requires r.i <= |r.p|
    modifies r
    ensures r.i <= |r.p|
    ensures item.Some? <==> ParseItem(cr, r.p, old(r.i)).Some?
    ensures item.Some? ==> ParseItem(cr, r.p, old(r.i)) == Some(ItemRead(item.value, r.i))
  {
    hide Head, ByteString, Assemble;
    item := None;
    var ok, m, v := r.ReadHead();
    if !ok || m != 4 || v != 4 { return; }
    var prot, pl, sig;
    ok, prot := r.ReadBytes(2);
    if !ok { return; }
    ok, m, v := r.ReadHead();
    if !ok || m != 5 || v != 0 { return; }
    ok, pl := r.ReadBytes(2);
    if !ok { return; }
    ok, sig := r.ReadBytes(2);
    if !ok || |sig| != 64 || |pl| > MAX_PAYLOAD { return; }
    var algOk := prot == [0xa1, 0x01, 0x27];
    item := ReadPayload(cr, algOk, sig, pl);
  }

  method ReadPayload(cr: Crypto, algOk: bool, sig: seq<byte>, pl: seq<byte>) returns (item: Option<Record>)
    ensures item == Assemble(cr, algOk, sig, pl)
  {
    hide Fields, MapEntry, SetField, BlankRecord;
    item := None;
    var rec := BlankRecord(algOk, sig, pl);
    var q := new Reader(pl);
    var ok, m, count := q.ReadHead();
    if !ok || m != 5 { return; }
    ghost var whole := Fields(cr, pl, q.i, 0, count, rec);
    var k := 0;
    while k < count
      invariant q.p == pl && q.i <= |pl| && 0 <= k <= count
      invariant whole == Fields(cr, pl, q.i, k, count, rec)
    {
      NextField(cr, pl, q.i, k, count, rec);
      var e := ReadEntry(q);
      if e.None? { return; }
      var updated := SetField(cr, rec, e.value.key, e.value.num, e.value.s);
      if updated.None? { return; }
      rec := updated.value;
      k := k + 1;
    }
    NoFields(cr, pl, q.i, k, count, rec);
    if rec.kind == 1 || rec.kind == 2 { item := Some(rec); }
  }

  /** One turn of the loop. */
  lemma NextField(cr: Crypto, pl: seq<byte>, at: nat, k: nat, count: uint64, rec: Record)
    requires k < count
    ensures Fields(cr, pl, at, k, count, rec)
            == match MapEntry(pl, at)
               case None => None
               case Some(e) =>
                 match SetField(cr, rec, e.key, e.num, e.s)
                 case None => None
                 case Some(rec') => Fields(cr, pl, e.next, k + 1, count, rec')
  {
    hide MapEntry, SetField;
  }

  lemma NoFields(cr: Crypto, pl: seq<byte>, at: nat, k: nat, count: uint64, rec: Record)
    requires k >= count
    ensures Fields(cr, pl, at, k, count, rec) == Some(rec)
  {
  }

  /** One key and value; a string value is read again from its head. */
  method ReadEntry(q: Reader) returns (e: Option<Entry>)
    requires q.i <= |q.p|
    modifies q
    ensures q.i <= |q.p|
    ensures e == MapEntry(q.p, old(q.i))
    ensures e.Some? ==> e.value.next == q.i
  {
    e := None;
    var ok, m, key, num;
    ok, m, key := q.ReadHead();
    if !ok || m != 0 { return; }
    var at := q.i;
    ok, m, num := q.ReadHead();
    if !ok { return; }
    if m == 2 || m == 3 {
      q.i := at;
      var t;
      ok, t := q.ReadBytes(m);
      if ok { e := Some(Entry(key, num, Some(t), q.i)); }
    } else if m == 0 {
      e := Some(Entry(key, num, None, q.i));
    }
  }
}
