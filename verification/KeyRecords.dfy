/**
 The operator's side of the key ring: how transport/bpv7/keyring.mjs writes key records and revocations
 (`issueKey`, `revokeKey`, over cbor.mjs and cose.mjs), and that flight/keyring.c reads back exactly what
 was written, or refuses it for the two limits it has.
 */
module KeyRecords {
  import opened Wrappers
  import opened Bytes
  import opened CborReader
  import opened KeyringRules

  // ---- CBOR in shortest form ---------------------------------------------------------------------

  /** The head of a data item (section 4.2.1 of RFC 8949). */
  function CborHead(major: nat, n: uint64): (s: seq<byte>)
    requires major < 8
    ensures 1 <= |s| <= 9
  {
    if n < 24 then [major * 32 + n]
    else if n < 0x100 then [major * 32 + 24] + ToBE(n, 1)
    else if n < 0x1_0000 then [major * 32 + 25] + ToBE(n, 2)
    else if n < 0x1_0000_0000 then [major * 32 + 26] + ToBE(n, 4)
    else [major * 32 + 27] + ToBE(n, 8)
  }

  lemma LongHeadReadsBack(p: seq<byte>, i: nat, major: nat, ai: nat, len: nat, n: uint64)
    requires i + 1 + len <= |p| && major < 8 && ai < 32 && p[i] == major * 32 + ai
    requires len > 0 && ArgumentLength(ai) == Some(len) && n < Pow256(len) && p[i + 1..i + 1 + len] == ToBE(n, len)
    ensures Head(p, i) == Some(HeadRead(major, n, i + 1 + len))
  {
    hide FromBE, ToBE, Pow256;
    FromToBE(n, len, p, i + 1);
    FromBEFits(p, i + 1, len);
  }

  lemma HeadReadsBack(pre: seq<byte>, major: nat, n: uint64, rest: seq<byte>)
    requires major < 8
    ensures Head(pre + CborHead(major, n) + rest, |pre|) == Some(HeadRead(major, n, |pre| + |CborHead(major, n)|))
  {
    hide FromBE, ToBE, Pow256;
    Pow256Values();
    var p, i, h := pre + CborHead(major, n) + rest, |pre|, CborHead(major, n);
    assert p[i] == h[0];
    if n >= 24 {
      hide Head;
      var len := |h| - 1;
      assert p[i + 1..i + 1 + len] == h[1..];
      LongHeadReadsBack(p, i, major, h[0] - major * 32, len, n);
    }
  }

  /** A head and the octets it announces. */
  function CborString(major: nat, s: seq<byte>): seq<byte>
    requires major < 8 && |s| < TWO_64
  {
    CborHead(major, |s|) + s
  }

  lemma StringReadsBack(pre: seq<byte>, major: nat, s: seq<byte>, rest: seq<byte>)
    requires major < 8 && |s| < TWO_64
    ensures ByteString(pre + CborString(major, s) + rest, |pre|, major)
            == Some(StringRead(s, |pre| + |CborString(major, s)|))
  {
    hide CborHead, Head;
    HeadReadsBack(pre, major, |s|, s + rest);
    var p := pre + CborString(major, s) + rest;
    assert p == pre + CborHead(major, |s|) + (s + rest);
    var at := |pre| + |CborHead(major, |s|)|;
    assert p[at..at + |s|] == s;
  }

  // ---- The payload map ---------------------------------------------------------------------------

  datatype Value = Num(n: uint64) | Text(s: seq<byte>) | Octets(s: seq<byte>)

  datatype Pair = Pair(key: uint64, value: Value)

  predicate Encodable(v: Value) {
    v.Num? || |v.s| < TWO_64
  }

  function EncodeValue(v: Value): seq<byte>
    requires Encodable(v)
  {
    match v
    case Num(n) => CborHead(0, n)
    case Text(s) => CborString(3, s)
    case Octets(s) => CborString(2, s)
  }

  predicate AllEncodable(ps: seq<Pair>) {
    forall p :: p in ps ==> Encodable(p.value)
  }

  function EncodePairs(ps: seq<Pair>): seq<byte>
    requires AllEncodable(ps)
  {
    if ps == [] then [] else CborHead(0, ps[0].key) + EncodeValue(ps[0].value) + EncodePairs(ps[1..])
  }

  function EncodeMap(ps: seq<Pair>): seq<byte>
    requires AllEncodable(ps) && |ps| < TWO_64
  {
    CborHead(5, |ps|) + EncodePairs(ps)
  }

  /** What the reader makes of a pair: the head's argument, and the string if there is one. */
  function EntryOf(p: Pair, next: nat): Entry
    requires Encodable(p.value)
  {
    match p.value
    case Num(n) => Entry(p.key, n, None, next)
    case Text(s) => Entry(p.key, |s|, Some(s), next)
    case Octets(s) => Entry(p.key, |s|, Some(s), next)
  }

  lemma PairReadsBack(pre: seq<byte>, p: Pair, rest: seq<byte>)
    requires Encodable(p.value)
    ensures var key, value := CborHead(0, p.key), EncodeValue(p.value);
            MapEntry(pre + (key + value + rest), |pre|) == Some(EntryOf(p, |pre| + |key| + |value|))
  {
    hide CborHead, Head, ByteString;
    var key, value := CborHead(0, p.key), EncodeValue(p.value);
    var pl := pre + (key + value + rest);
    HeadReadsBack(pre, 0, p.key, value + rest);
    assert pl == pre + key + (value + rest);
    match p.value
    case Num(n) =>
      HeadReadsBack(pre + key, 0, n, rest);
      assert pl == (pre + key) + value + rest;
    case Text(s) => StringEntry(pre + key, 3, s, rest, pl);
    case Octets(s) => StringEntry(pre + key, 2, s, rest, pl);
  }

  lemma StringEntry(pre: seq<byte>, major: nat, s: seq<byte>, rest: seq<byte>, pl: seq<byte>)
    requires major < 8 && |s| < TWO_64 && pl == pre + (CborString(major, s) + rest)
    ensures Head(pl, |pre|).Some? && Head(pl, |pre|).value.major == major && Head(pl, |pre|).value.val == |s|
    ensures ByteString(pl, |pre|, major) == Some(StringRead(s, |pre| + |CborString(major, s)|))
  {
    hide CborHead, Head, ByteString;
    HeadReadsBack(pre, major, |s|, s + rest);
    assert pl == pre + CborHead(major, |s|) + (s + rest);
    StringReadsBack(pre, major, s, rest);
    assert pl == pre + CborString(major, s) + rest;
  }

  /** The fields set one after the other, or None where one is refused. */
  function SetAll(cr: Crypto, rec: Record, ps: seq<Pair>): Option<Record>
    requires AllEncodable(ps)
    decreases |ps|
  {
    if ps == [] then Some(rec)
    else
      var e := EntryOf(ps[0], 0);
      match SetField(cr, rec, e.key, e.num, e.s)
      case None => None
      case Some(rec') => SetAll(cr, rec', ps[1..])
  }

  lemma {:induction false} PairsReadBack(cr: Crypto, pre: seq<byte>, ps: seq<Pair>, k: nat, count: uint64, rec: Record)
    requires AllEncodable(ps) && k + |ps| == count
    ensures Fields(cr, pre + EncodePairs(ps), |pre|, k, count, rec) == SetAll(cr, rec, ps)
    decreases |ps|
  {
    hide CborHead, EncodeValue, Encodable, SetField, MapEntry;
    if ps != [] {
      assert ps[0] in ps;
      var key, value, rest := CborHead(0, ps[0].key), EncodeValue(ps[0].value), EncodePairs(ps[1..]);
      PairReadsBack(pre, ps[0], rest);
      var pl := pre + EncodePairs(ps);
      assert pl == pre + (key + value + rest);
      var e := EntryOf(ps[0], |pre| + |key| + |value|);
      match SetField(cr, rec, e.key, e.num, e.s) {
        case None =>
        case Some(rec') =>
          PairsReadBack(cr, pre + key + value, ps[1..], k + 1, count, rec');
          assert pl == (pre + key + value) + rest;
      }
    }
  }

  lemma MapReadsBack(cr: Crypto, ps: seq<Pair>, sig: seq<byte>)
    requires AllEncodable(ps) && |ps| < TWO_64
    ensures var pl := EncodeMap(ps);
            Assemble(cr, true, sig, pl)
            == match SetAll(cr, BlankRecord(true, sig, pl), ps)
               case None => None
               case Some(rec) => if rec.kind == 1 || rec.kind == 2 then Some(rec) else None
  {
    hide CborHead, EncodePairs, Encodable, SetAll, Fields, Head, BlankRecord;
    var pl, pairs := EncodeMap(ps), EncodePairs(ps);
    HeadReadsBack([], 5, |ps|, pairs);
    assert [] + CborHead(5, |ps|) + pairs == pl;
    PairsReadBack(cr, CborHead(5, |ps|), ps, 0, |ps|, BlankRecord(true, sig, pl));
  }

  // ---- The envelope ----------------------------------------------------------------------------------

  const SIGNATURE1: seq<byte> := [0x53, 0x69, 0x67, 0x6e, 0x61, 0x74, 0x75, 0x72, 0x65, 0x31]   // "Signature1"
  const PROTECTED: seq<byte> := [0xa1, 0x01, 0x27]   // {1: -8}, EdDSA

  /** A COSE_Sign1 of the payload (section 4.2 of RFC 9052). */
  function Sign1(payload: seq<byte>, sig: seq<byte>): seq<byte>
    requires |payload| < TWO_64 && |sig| < TWO_64
  {
    CborHead(4, 4) + CborString(2, PROTECTED) + CborHead(5, 0) + CborString(2, payload) + CborString(2, sig)
  }

  /** What the operator signs: ["Signature1", protected, h'', payload] (section 4.4 of RFC 9052). */
  function ToBeSigned(payload: seq<byte>): seq<byte>
    requires |payload| < TWO_64
  {
    CborHead(4, 4)
    + CborString(3, SIGNATURE1)
    + CborString(2, PROTECTED) + CborString(2, []) + CborString(2, payload)
  }

  lemma SmallHead(n: nat)
    requires n <= MAX_PAYLOAD
    ensures CborHead(2, n) == if n < 24 then [0x40 + n] else if n < 256 then [0x58, n] else [0x59, 0x01, 0x00]
  {
    if n < 256 {
      assert ToBE(n, 1) == ToBE(0, 0) + [n];
    } else {
      assert ToBE(256, 2) == ToBE(1, 1) + [0] == (ToBE(0, 0) + [1]) + [0];
    }
  }

  /** Both sides sign and check the same octets. */
  lemma SignedOctetsAgree(payload: seq<byte>)
    requires |payload| <= MAX_PAYLOAD
    ensures ToBeSigned(payload) == SignedMessage(payload)
  {
    SignedPrefix();
    SmallHead(|payload|);
    hide CborHead;
    var head := CborHead(2, |payload|);
    assert ToBeSigned(payload) == SignedMessage([])[..17] + (head + payload);
  }

  lemma SignedPrefix()
    ensures CborHead(4, 4) + CborString(3, SIGNATURE1) + CborString(2, PROTECTED) + CborString(2, [])
            == [0x84, 0x6a, 0x53, 0x69, 0x67, 0x6e, 0x61, 0x74, 0x75, 0x72, 0x65, 0x31, 0x43, 0xa1, 0x01, 0x27, 0x40]
  {
  }

  lemma EnvelopeReadsBack(payload: seq<byte>, sig: seq<byte>)
    requires |payload| < TWO_64 && |sig| == 64
    ensures ReadEnvelope(Sign1(payload, sig), 0)
            == if |payload| <= MAX_PAYLOAD then Some(Envelope(true, sig, payload, |Sign1(payload, sig)|)) else None
  {
    hide CborHead, CborString, Head, ByteString;
    var p := Sign1(payload, sig);
    var a, b, c, d, e := CborHead(4, 4), CborString(2, PROTECTED), CborHead(5, 0), CborString(2, payload), CborString(2, sig);
    assert p == [] + a + (b + c + d + e);
    HeadReadsBack([], 4, 4, b + c + d + e);
    assert p == a + b + (c + d + e);
    StringReadsBack(a, 2, PROTECTED, c + d + e);
    assert p == (a + b) + c + (d + e);
    HeadReadsBack(a + b, 5, 0, d + e);
    assert p == (a + b + c) + d + e;
    StringReadsBack(a + b + c, 2, payload, e);
    assert p == (a + b + c + d) + e + [];
    StringReadsBack(a + b + c + d, 2, sig, []);
  }

  lemma SignedMapReadsBack(cr: Crypto, ps: seq<Pair>, sig: seq<byte>)
    requires AllEncodable(ps) && |ps| < TWO_64 && |EncodeMap(ps)| < TWO_64 && |sig| == 64
    ensures var pl := EncodeMap(ps);
            ParseItem(cr, Sign1(pl, sig), 0)
            == if |pl| > MAX_PAYLOAD then None
               else match SetAll(cr, BlankRecord(true, sig, pl), ps)
                    case None => None
                    case Some(rec) => if rec.kind == 1 || rec.kind == 2 then Some(ItemRead(rec, |Sign1(pl, sig)|)) else None
  {
    hide Sign1, EncodeMap, SetAll, BlankRecord, ReadEnvelope, Assemble, Encodable;
    EnvelopeReadsBack(EncodeMap(ps), sig);
    MapReadsBack(cr, ps, sig);
  }

  // ---- Key records and revocations --------------------------------------------------------------------

  datatype KeyFields = KeyFields(
    subject: seq<byte>, pub: seq<byte>, roles: uint64,
    notBefore: uint64, notAfter: uint64, issuedAt: uint64, issuer: Id, rotates: Option<Id>)
  {
    predicate Valid() {
      |subject| < TWO_64 && |pub| == 32 && |issuer| == 16 && (rotates.Some? ==> |rotates.value| == 16)
    }
  }

  /** `issueKey`: the fields in the order written. */
  function KeyPairs(k: KeyFields): (ps: seq<Pair>)
    requires k.Valid()
    ensures AllEncodable(ps) && |ps| <= 9
  {
    [Pair(1, Num(1)), Pair(2, Text(k.subject)), Pair(3, Octets(k.pub)), Pair(4, Num(k.roles)), Pair(5, Num(k.notBefore)),
     Pair(6, Num(k.notAfter)), Pair(7, Num(k.issuedAt)), Pair(8, Octets(k.issuer))]
    + match k.rotates case None => [] case Some(id) => [Pair(9, Octets(id))]
  }

  datatype RevocationFields = RevocationFields(target: Id, effectiveFrom: uint64, reason: seq<byte>, issuedAt: uint64, issuer: Id)
  {
    predicate Valid() {
      |target| == 16 && |reason| < TWO_64 && |issuer| == 16
    }
  }

  /** `revokeKey`. */
  function RevocationPairs(v: RevocationFields): (ps: seq<Pair>)
    requires v.Valid()
    ensures AllEncodable(ps) && |ps| == 6
  {
    [Pair(1, Num(2)), Pair(10, Octets(v.target)), Pair(11, Num(v.effectiveFrom)), Pair(12, Text(v.reason)),
     Pair(7, Num(v.issuedAt)), Pair(8, Octets(v.issuer))]
  }

  function KeyRecordOf(cr: Crypto, k: KeyFields, sig: seq<byte>): Record
    requires k.Valid()
  {
    Record(1, true, sig, EncodeMap(KeyPairs(k)), CString(k.subject), k.pub, cr.keyId(k.pub), k.roles % 0x1_0000_0000,
           k.notBefore, k.notAfter, k.issuedAt, 0, 0, k.issuer, Zeros(16))
  }

  function RevocationOf(v: RevocationFields, sig: seq<byte>): Record
    requires v.Valid()
  {
    Record(2, true, sig, EncodeMap(RevocationPairs(v)), [], Zeros(32), Zeros(16), 0,
           0, 0, v.issuedAt, v.effectiveFrom, 0, v.issuer, v.target)
  }

  lemma SetNext(cr: Crypto, rec: Record, ps: seq<Pair>, i: nat, rec': Record)
    requires AllEncodable(ps) && i < |ps|
    requires var e := EntryOf(ps[i], 0); SetField(cr, rec, e.key, e.num, e.s) == Some(rec')
    ensures SetAll(cr, rec, ps[i..]) == SetAll(cr, rec', ps[i + 1..])
  {
    hide SetField, Encodable;
    assert ps[i..][1..] == ps[i + 1..];
  }

  lemma SetRefused(cr: Crypto, rec: Record, ps: seq<Pair>, i: nat)
    requires AllEncodable(ps) && i < |ps|
    requires var e := EntryOf(ps[i], 0); SetField(cr, rec, e.key, e.num, e.s).None?
    ensures SetAll(cr, rec, ps[i..]) == None
  {
    hide SetField, Encodable;
  }

  lemma KeyFieldsSet(cr: Crypto, k: KeyFields, sig: seq<byte>)
    requires k.Valid()
    ensures SetAll(cr, BlankRecord(true, sig, EncodeMap(KeyPairs(k))), KeyPairs(k))
            == if |k.subject| < MAX_EID then Some(KeyRecordOf(cr, k, sig)) else None
  {
    hide SetAll, EncodeMap, CString, Zeros, Encodable;
    var ps := KeyPairs(k);
    var r0 := BlankRecord(true, sig, EncodeMap(ps));
    assert ps[0..] == ps;
    var r1 := r0.(kind := 1);
    SetNext(cr, r0, ps, 0, r1);
    if |k.subject| >= MAX_EID {
      SetRefused(cr, r1, ps, 1);
    } else {
      var r2 := r1.(subject := CString(k.subject));
      SetNext(cr, r1, ps, 1, r2);
      var r3 := r2.(pub := k.pub, keyid := cr.keyId(k.pub));
      SetNext(cr, r2, ps, 2, r3);
      LaterFieldsSet(cr, k, r3);
    }
  }

  lemma LaterPairs(k: KeyFields)
    requires k.Valid()
    ensures var ps := KeyPairs(k);
            && |ps| == (if k.rotates.Some? then 9 else 8)
            && ps[3] == Pair(4, Num(k.roles)) && ps[4] == Pair(5, Num(k.notBefore)) && ps[5] == Pair(6, Num(k.notAfter))
            && ps[6] == Pair(7, Num(k.issuedAt)) && ps[7] == Pair(8, Octets(k.issuer))
            && (k.rotates.Some? ==> ps[8] == Pair(9, Octets(k.rotates.value)))
  {
  }

  lemma LaterFieldsSet(cr: Crypto, k: KeyFields, r3: Record)
    requires k.Valid()
    ensures SetAll(cr, r3, KeyPairs(k)[3..])
            == Some(r3.(roles := k.roles % 0x1_0000_0000, notBefore := k.notBefore, notAfter := k.notAfter,
                        issuedAt := k.issuedAt, issuer := k.issuer))
  {
    hide SetAll, EncodeMap, Zeros, Encodable, KeyPairs;
    LaterPairs(k);
    var ps := KeyPairs(k);
    var r4 := r3.(roles := k.roles % 0x1_0000_0000);
    SetNext(cr, r3, ps, 3, r4);
    var r5 := r4.(notBefore := k.notBefore);
    SetNext(cr, r4, ps, 4, r5);
    var r6 := r5.(notAfter := k.notAfter);
    SetNext(cr, r5, ps, 5, r6);
    var r7 := r6.(issuedAt := k.issuedAt);
    SetNext(cr, r6, ps, 6, r7);
    var r8 := r7.(issuer := k.issuer);
    SetNext(cr, r7, ps, 7, r8);
    if k.rotates.Some? { SetNext(cr, r8, ps, 8, r8); }
    NoFieldsLeft(cr, r8, ps[|ps|..]);
  }

  lemma NoFieldsLeft(cr: Crypto, rec: Record, ps: seq<Pair>)
    requires ps == []
    ensures SetAll(cr, rec, ps) == Some(rec)
  {
  }

  lemma RevocationFieldsSet(cr: Crypto, v: RevocationFields, sig: seq<byte>)
    requires v.Valid()
    ensures SetAll(cr, BlankRecord(true, sig, EncodeMap(RevocationPairs(v))), RevocationPairs(v)) == Some(RevocationOf(v, sig))
  {
    hide SetAll, EncodeMap, Zeros, Encodable;
    var ps := RevocationPairs(v);
    var r0 := BlankRecord(true, sig, EncodeMap(ps));
    assert ps[0..] == ps;
    var r1 := r0.(kind := 2);
    SetNext(cr, r0, ps, 0, r1);
    var r2 := r1.(target := v.target);
    SetNext(cr, r1, ps, 1, r2);
    var r3 := r2.(effectiveFrom := v.effectiveFrom);
    SetNext(cr, r2, ps, 2, r3);
    SetNext(cr, r3, ps, 3, r3);
    var r4 := r3.(issuedAt := v.issuedAt);
    SetNext(cr, r3, ps, 4, r4);
    var r5 := r4.(issuer := v.issuer);
    SetNext(cr, r4, ps, 5, r5);
    NoFieldsLeft(cr, r5, ps[6..]);
  }

  // ---- Lengths -------------------------------------------------------------------------------------------

  lemma PairsLength(ps: seq<Pair>)
    requires AllEncodable(ps) && ps != []
    ensures |EncodePairs(ps)| == |CborHead(0, ps[0].key)| + |EncodeValue(ps[0].value)| + |EncodePairs(ps[1..])|
  {
    hide EncodeValue, Encodable, CborHead;
  }

  /** At most this many octets for a pair with a small key and a short string. */
  function Room(p: Pair): nat {
    if p.value.Num? then 10 else 3 + |p.value.s|
  }

  lemma PairFits(p: Pair)
    requires Encodable(p.value) && p.key < 24 && (p.value.Num? || |p.value.s| < 256)
    ensures |CborHead(0, p.key)| + |EncodeValue(p.value)| <= Room(p)
  {
  }

  lemma PairsFitFrom(ps: seq<Pair>, i: nat)
    requires AllEncodable(ps) && i < |ps| && ps[i].key < 24 && (ps[i].value.Num? || |ps[i].value.s| < 256)
    ensures |EncodePairs(ps[i..])| <= Room(ps[i]) + |EncodePairs(ps[i + 1..])|
  {
    hide EncodePairs, EncodeValue, Encodable, CborHead, Room;
    PairsLength(ps[i..]);
    PairFits(ps[i]);
    assert ps[i..][1..] == ps[i + 1..];
  }

  /** A key record's payload fits whenever its subject does. */
  lemma KeyPayloadFits(k: KeyFields)
    requires k.Valid() && |k.subject| < MAX_EID
    ensures |EncodeMap(KeyPairs(k))| <= MAX_PAYLOAD
  {
    hide EncodePairs, CborHead;
    var ps := KeyPairs(k);
    assert ps[0..] == ps;
    PairsFitFrom(ps, 0);
    PairsFitFrom(ps, 1);
    PairsFitFrom(ps, 2);
    PairsFitFrom(ps, 3);
    PairsFitFrom(ps, 4);
    PairsFitFrom(ps, 5);
    PairsFitFrom(ps, 6);
    PairsFitFrom(ps, 7);
    if k.rotates.Some? { PairsFitFrom(ps, 8); }
    NothingEncoded(ps[|ps|..]);
  }

  /** A revocation's does unless its reason is long. */
  lemma RevocationPayloadFits(v: RevocationFields)
    requires v.Valid() && |v.reason| <= 184
    ensures |EncodeMap(RevocationPairs(v))| <= MAX_PAYLOAD
  {
    assert |CborHead(5, 6)| == 1;
    hide EncodePairs, CborHead;
    var ps := RevocationPairs(v);
    NothingEncoded(ps[6..]);
    PairsFitFrom(ps, 5);
    PairsFitFrom(ps, 4);
    assert |EncodePairs(ps[4..])| <= 29;
    PairsFitFrom(ps, 3);
    PairsFitFrom(ps, 2);
    assert |EncodePairs(ps[2..])| <= 42 + |v.reason|;
    PairsFitFrom(ps, 1);
    PairsFitFrom(ps, 0);
    assert ps[0..] == ps;
  }

  lemma NothingEncoded(ps: seq<Pair>)
    requires ps == []
    ensures EncodePairs(ps) == []
  {
  }

  // ---- What is issued reads back ----------------------------------------------------------------------------

  /** Main result: a key record issued by the operator reads back aboard as what was issued (roles in 32
      bits, the subject up to a NUL), exactly when its subject is within 63 octets; otherwise it is
      refused. */
  lemma KeyRecordReadsBackIff(cr: Crypto, k: KeyFields, sig: seq<byte>)
    requires k.Valid() && |sig| == 64 && |EncodeMap(KeyPairs(k))| < TWO_64
    ensures var item := Sign1(EncodeMap(KeyPairs(k)), sig);
            ParseItem(cr, item, 0) == if |k.subject| < MAX_EID then Some(ItemRead(KeyRecordOf(cr, k, sig), |item|)) else None
  {
    hide SetAll, EncodeMap, Sign1, ParseItem, BlankRecord;
    SignedMapReadsBack(cr, KeyPairs(k), sig);
    KeyFieldsSet(cr, k, sig);
    if |k.subject| < MAX_EID { KeyPayloadFits(k); }
  }

  /** A revocation reads back exactly when its payload is within 256 octets: `revokeKey` does not limit
      the reason it writes, and a long one makes the record unreadable aboard. */
  lemma RevocationReadsBackIff(cr: Crypto, v: RevocationFields, sig: seq<byte>)
    requires v.Valid() && |sig| == 64 && |EncodeMap(RevocationPairs(v))| < TWO_64
    ensures var pl := EncodeMap(RevocationPairs(v));
            var item := Sign1(pl, sig);
            ParseItem(cr, item, 0) == if |pl| <= MAX_PAYLOAD then Some(ItemRead(RevocationOf(v, sig), |item|)) else None
  {
    hide SetAll, EncodeMap, Sign1, ParseItem, BlankRecord;
    SignedMapReadsBack(cr, RevocationPairs(v), sig);
    RevocationFieldsSet(cr, v, sig);
  }
}
