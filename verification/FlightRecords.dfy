/**
 The signed records of flight/custody.c: custody/1, manifest/1 and custody-batch/1, each written as
 canonical JSON into a caller's buffer after its content has been hashed and signed.
 */
module FlightRecords {
  import opened Codes
  import opened RecordWriter
  import opened IdOrder
  import opened Wrappers

  /** Content id (SHA-256 as "0x" and hex), signature over it (base64) and public key (base64). */
  datatype Signer = Signer(contentId: string -> string, sign: string -> string, pub: string)

  /** Hex and base64 need no escaping. */
  ghost predicate Printable(sg: Signer) {
    && (forall t :: Safe(sg.contentId(t)))
    && (forall t :: Safe(sg.sign(t)))
    && Safe(sg.pub)
  }

  const CONTENT_CAP := 1024
  const MANIFEST_CAP := 512
  const BATCH_CAP := 768

  // ---- custody/1 --------------------------------------------------------------------------------

  datatype Custody = Custody(payloadId: string, bundleId: string, prevHop: string, thisHop: string, receivedAt: nat, forwardedAt: nat)

  function CustodyContent(c: Custody): seq<Field> {
    [Field("bundleId", Str(c.bundleId)), Field("forwardedAt", Num(c.forwardedAt)), Field("kind", Str("custody/1")),
     Field("payloadId", Str(c.payloadId)), Field("prevHop", Str(c.prevHop)), Field("receivedAt", Num(c.receivedAt)),
     Field("thisHop", Str(c.thisHop))]
  }

  function CustodyRecord(sg: Signer, c: Custody): seq<Field> {
    var id := sg.contentId(Text(CustodyContent(c)));
    [Field("bundleId", Str(c.bundleId)), Field("claimId", Str(id)), Field("forwardedAt", Num(c.forwardedAt)),
     Field("kind", Str("custody/1")), Field("payloadId", Str(c.payloadId)), Field("prevHop", Str(c.prevHop)),
     Field("receivedAt", Num(c.receivedAt)), Field("sig", Str(sg.sign(id))), Field("signerPub", Str(sg.pub)),
     Field("thisHop", Str(c.thisHop))]
  }

  predicate CustodyAcceptable(c: Custody) {
    && Safe(c.bundleId) && Safe(c.payloadId) && Safe(c.prevHop) && Safe(c.thisHop)
    && c.receivedAt <= MAX_SAFE && c.forwardedAt <= MAX_SAFE
  }

  /** The signer's own strings never make a record unacceptable. */
  lemma CustodyWritable(sg: Signer, c: Custody)
    requires Printable(sg)
    ensures ValuesWritable(CustodyContent(c)) <==> CustodyAcceptable(c)
    ensures ValuesWritable(CustodyRecord(sg, c)) <==> CustodyAcceptable(c)
  {
    hide Text, Safe, Printable;
    KindsAreSafe();
    var content, record := CustodyContent(c), CustodyRecord(sg, c);
    SignerIsSafe(sg, Text(content));
    var id := sg.contentId(Text(content));
    assert Writable(Str(id)) && Writable(Str(sg.sign(id))) && Writable(Str(sg.pub));
    if ValuesWritable(content) {
      assert Writable(content[0].value) && Writable(content[1].value) && Writable(content[3].value)
             && Writable(content[4].value) && Writable(content[5].value) && Writable(content[6].value);
    }
    if ValuesWritable(record) {
      assert Writable(record[0].value) && Writable(record[2].value) && Writable(record[4].value)
             && Writable(record[5].value) && Writable(record[6].value) && Writable(record[9].value);
    }
  }

  lemma SignerIsSafe(sg: Signer, t: string)
    requires Printable(sg)
    ensures Safe(sg.contentId(t)) && Safe(sg.sign(sg.contentId(t))) && Safe(sg.pub)
  {
    hide Safe;
  }

  lemma KindsAreSafe()
    ensures Safe("custody/1") && Safe("manifest/1") && Safe("custody-batch/1")
  {
  }

  /** `out` holds this C string. */
  ghost predicate Holds(out: array<char>, s: string)
    reads out
  {
    |s| < out.Length && out[..|s|] == s && out[|s|] == '\0'
  }

  /** A record written to a buffer is whole, or refused with its error. */
  ghost predicate Wrote(out: array<char>, fs: seq<Field>, code: int)
    reads out
  {
    && code == ErrorOf(out.Length, fs) && (code == 0 <==> ValuesWritable(fs) && |Text(fs)| < out.Length)
    && (code == 0 ==> Holds(out, Text(fs)))
  }

  /** The code of content and record, written one after the other. */
  function FirstError(cap: nat, content: seq<Field>, room: nat, record: seq<Field>): int {
    if ErrorOf(cap, content) != 0 then ErrorOf(cap, content) else ErrorOf(room, record)
  }

  lemma WriterWrote(w: Writer, fs: seq<Field>)
    requires w.Valid() && fs != [] && w.View() == RecordOut(w.p.Length, fs)
    ensures Wrote(w.p, fs, w.err)
    ensures w.err == 0 ==> w.p[..w.n] == Text(fs)
  {
    hide RecordOut, Text, ValuesWritable, ErrorOf;
    RecordOutIsWhole(w.p.Length, fs);
    RecordErrorIs(w.p.Length, fs);
    if w.err == 0 { assert |Text(fs)| > 0 by { TextNotEmpty(fs); } }
  }

  lemma TextNotEmpty(fs: seq<Field>)
    ensures |Text(fs)| > 0
  {
  }

  /** Code 0 exactly when every string and number is acceptable, the content fits the 1 KiB work
      buffer and the record fits the caller's; the buffer then holds the whole record. */
  method WriteCustody(sg: Signer, c: Custody, out: array<char>) returns (code: int)
    requires Printable(sg)
    modifies out
    ensures code == 0 <==> CustodyAcceptable(c) && |Text(CustodyContent(c))| < CONTENT_CAP
                           && |Text(CustodyRecord(sg, c))| < out.Length
    ensures code == FirstError(CONTENT_CAP, CustodyContent(c), out.Length, CustodyRecord(sg, c))
    ensures code == 0 ==> Holds(out, Text(CustodyRecord(sg, c)))
  {
    hide Text, Printable, CustodyAcceptable, FieldOut, PutOut, ValuesWritable, ErrorOf;
    CustodyWritable(sg, c);
    ghost var content, record := CustodyContent(c), CustodyRecord(sg, c);
    var buf := new char[CONTENT_CAP];
    var w := new Writer(buf);
    w.Put("{");
    ghost var start := w.View();
    w.KStr("bundleId", c.bundleId, true);
    assert w.View() == FieldsOut(CONTENT_CAP, start, content, 1);
    w.KNum("forwardedAt", c.forwardedAt, false);
    assert w.View() == FieldsOut(CONTENT_CAP, start, content, 2);
    w.KStr("kind", "custody/1", false);
    assert w.View() == FieldsOut(CONTENT_CAP, start, content, 3);
    w.KStr("payloadId", c.payloadId, false);
    assert w.View() == FieldsOut(CONTENT_CAP, start, content, 4);
    w.KStr("prevHop", c.prevHop, false);
    assert w.View() == FieldsOut(CONTENT_CAP, start, content, 5);
    w.KNum("receivedAt", c.receivedAt, false);
    assert w.View() == FieldsOut(CONTENT_CAP, start, content, 6);
    w.KStr("thisHop", c.thisHop, false);
    assert w.View() == FieldsOut(CONTENT_CAP, start, content, 7);
    w.Put("}");
    WriterWrote(w, content);
    if w.err != 0 { return w.err; }
    code := WriteCustodyRecord(sg, c, w.p[..w.n], out);
  }

  /** The second half: the record with its content id, signature and key. */
  method WriteCustodyRecord(sg: Signer, c: Custody, content: string, out: array<char>) returns (code: int)
    requires content == Text(CustodyContent(c))
    modifies out
    ensures Wrote(out, CustodyRecord(sg, c), code)
  {
    hide Text, CustodyRecord, FieldsOut, FieldOut, PutOut, Wrote;
    var id := sg.contentId(content);
    var sig := sg.sign(id);
    CustodyRecordSize(sg, c);
    var o := new Writer(out);
    o.Put("{");
    WriteCustodyFirst(o, sg, c, id);
    WriteCustodyRest(o, sg, c, sig, PutOut(out.Length, Out("", 0), "{"));
    o.Put("}");
    WriterWrote(o, CustodyRecord(sg, c));
    return o.err;
  }

  lemma CustodyRecordSize(sg: Signer, c: Custody)
    ensures |CustodyRecord(sg, c)| == 10
  {
    hide Text;
  }

  /** Its first five fields. */
  method WriteCustodyFirst(o: Writer, sg: Signer, c: Custody, id: string)
    requires o.Valid() && id == sg.contentId(Text(CustodyContent(c)))
    modifies o, o.p
    ensures o.Valid() && o.View() == FieldsOut(o.p.Length, old(o.View()), CustodyRecord(sg, c), 5)
  {
    hide Text, FieldOut, PutOut;
    ghost var start, record := o.View(), CustodyRecord(sg, c);
    o.KStr("bundleId", c.bundleId, true);
    assert o.View() == FieldsOut(o.p.Length, start, record, 1);
    o.KStr("claimId", id, false);
    assert o.View() == FieldsOut(o.p.Length, start, record, 2);
    o.KNum("forwardedAt", c.forwardedAt, false);
    assert o.View() == FieldsOut(o.p.Length, start, record, 3);
    o.KStr("kind", "custody/1", false);
    assert o.View() == FieldsOut(o.p.Length, start, record, 4);
    o.KStr("payloadId", c.payloadId, false);
  }

  /** And the other five. */
  method WriteCustodyRest(o: Writer, sg: Signer, c: Custody, sig: string, ghost start: Out)
    requires o.Valid() && sig == sg.sign(sg.contentId(Text(CustodyContent(c))))
    requires |CustodyRecord(sg, c)| == 10 && o.View() == FieldsOut(o.p.Length, start, CustodyRecord(sg, c), 5)
    modifies o, o.p
    ensures o.Valid() && o.View() == FieldsOut(o.p.Length, start, CustodyRecord(sg, c), 10)
  {
    hide Text, FieldOut, PutOut;
    ghost var record := CustodyRecord(sg, c);
    o.KStr("prevHop", c.prevHop, false);
    assert o.View() == FieldsOut(o.p.Length, start, record, 6);
    o.KNum("receivedAt", c.receivedAt, false);
    assert o.View() == FieldsOut(o.p.Length, start, record, 7);
    o.KStr("sig", sig, false);
    assert o.View() == FieldsOut(o.p.Length, start, record, 8);
    o.KStr("signerPub", sg.pub, false);
    assert o.View() == FieldsOut(o.p.Length, start, record, 9);
    o.KStr("thisHop", c.thisHop, false);
  }

  /** Accepted records with one text are one record: signing a text commits to every field. */
  lemma CustodyTextCommits(sg: Signer, a: Custody, b: Custody)
    requires Printable(sg) && CustodyAcceptable(a) && CustodyAcceptable(b)
    ensures Text(CustodyContent(a)) == Text(CustodyContent(b)) ==> a == b
    ensures Text(CustodyRecord(sg, a)) == Text(CustodyRecord(sg, b)) ==> a == b
  {
    hide Text, Printable, CustodyAcceptable, ValuesWritable;
    CustodyWritable(sg, a);
    CustodyWritable(sg, b);
    var ca, cb, ra, rb := CustodyContent(a), CustodyContent(b), CustodyRecord(sg, a), CustodyRecord(sg, b);
    CustodyKeysSafe(sg, a);
    CustodyKeysSafe(sg, b);
    if Text(ca) == Text(cb) {
      TextIsUnambiguous(ca, cb);
      assert ca[0] == cb[0] && ca[1] == cb[1] && ca[3] == cb[3] && ca[4] == cb[4] && ca[5] == cb[5] && ca[6] == cb[6];
    }
    if Text(ra) == Text(rb) {
      TextIsUnambiguous(ra, rb);
      assert ra[0] == rb[0] && ra[2] == rb[2] && ra[4] == rb[4] && ra[5] == rb[5] && ra[6] == rb[6] && ra[9] == rb[9];
    }
  }

  lemma CustodyKeysSafe(sg: Signer, c: Custody)
    requires ValuesWritable(CustodyContent(c)) && ValuesWritable(CustodyRecord(sg, c))
    ensures AllWritable(CustodyContent(c)) && AllWritable(CustodyRecord(sg, c))
  {
    hide Text, Writable;
    hide Safe;
    KeysAreSafe();
  }

  lemma KeysAreSafe()
    ensures Safe("bundleId") && Safe("claimId") && Safe("forwardedAt") && Safe("kind") && Safe("payloadId")
    ensures Safe("prevHop") && Safe("receivedAt") && Safe("sig") && Safe("signerPub") && Safe("thisHop")
    ensures Safe("chunkCount") && Safe("meta") && Safe("root") && Safe("contactId") && Safe("count") && Safe("from") && Safe("to")
  {
  }

  // ---- Which value stands under which key ---------------------------------------------------------

  /** What a record adds to the content that is signed. */
  const SIGNING: set<string> := {"claimId", "sig", "signerPub"}

  lemma KeyOrder()
    ensures Below("bundleId", "claimId") && Below("claimId", "forwardedAt") && Below("bundleId", "forwardedAt") && Below("forwardedAt", "kind")
    ensures Below("kind", "payloadId") && Below("payloadId", "prevHop") && Below("prevHop", "receivedAt") && Below("receivedAt", "sig")
    ensures Below("sig", "signerPub") && Below("signerPub", "thisHop") && Below("receivedAt", "thisHop")
  {
    hide Below;
    BelowAt("bundleId", "claimId", 0);
    BelowAt("claimId", "forwardedAt", 0);
    BelowAt("bundleId", "forwardedAt", 0);
    BelowAt("forwardedAt", "kind", 0);
    BelowAt("kind", "payloadId", 0);
    BelowAt("payloadId", "prevHop", 1);
    BelowAt("prevHop", "receivedAt", 0);
    BelowAt("receivedAt", "sig", 0);
    BelowAt("sig", "signerPub", 3);
    BelowAt("signerPub", "thisHop", 0);
    BelowAt("receivedAt", "thisHop", 0);
  }

  lemma CustodyKeysAscend(sg: Signer, c: Custody)
    ensures KeysAscend(CustodyContent(c)) && KeysAscend(CustodyRecord(sg, c))
  {
    hide Below, Text;
    KeyOrder();
    AscendByPairs(CustodyContent(c));
    AscendByPairs(CustodyRecord(sg, c));
  }

  /** Without its signing fields the record is exactly the content that was hashed and signed. */
  lemma CustodyKeepsContent(sg: Signer, c: Custody)
    ensures Without(CustodyRecord(sg, c), SIGNING) == CustodyContent(c)
  {
    hide Text, Without, KeysAscend;
    var fs := CustodyRecord(sg, c);
    CustodyKeysAscend(sg, c);
    assert fs[1].key == "claimId" && fs[7].key == "sig" && fs[8].key == "signerPub";
    assert forall x :: x in SIGNING <==> x == fs[1].key || exists i :: 7 <= i < 9 && x == fs[i].key;
    WithoutSome(fs, 1, 7, 9, SIGNING);
    assert fs[..1] + (fs[2..7] + fs[9..]) == CustodyContent(c);
  }

  /** Main result: what a reader finds. Read back, the text of an accepted record holds each key once, in order, and
      under each the value meant; the id is that of the content, and what is signed. */
  lemma CustodySays(sg: Signer, c: Custody)
    requires Printable(sg) && CustodyAcceptable(c)
    ensures var fs := Parse(Text(CustodyRecord(sg, c)));
            && fs.Some? && KeysAscend(fs.value) && |fs.value| == 10
            && Lookup(fs.value, "kind") == Some(Str("custody/1"))
            && Lookup(fs.value, "payloadId") == Some(Str(c.payloadId)) && Lookup(fs.value, "bundleId") == Some(Str(c.bundleId))
            && Lookup(fs.value, "prevHop") == Some(Str(c.prevHop)) && Lookup(fs.value, "thisHop") == Some(Str(c.thisHop))
            && Lookup(fs.value, "receivedAt") == Some(Num(c.receivedAt)) && Lookup(fs.value, "forwardedAt") == Some(Num(c.forwardedAt))
            && Lookup(fs.value, "signerPub") == Some(Str(sg.pub))
            && (var id := sg.contentId(Text(Without(fs.value, SIGNING)));
                Lookup(fs.value, "claimId") == Some(Str(id)) && Lookup(fs.value, "sig") == Some(Str(sg.sign(id))))
  {
    hide Text, Parse, Printable, CustodyAcceptable, Without, Lookup, KeysAscend, ValuesWritable, AllWritable;
    var fs := CustodyRecord(sg, c);
    CustodyWritable(sg, c);
    CustodyKeysSafe(sg, c);
    TextReadsBack(fs);
    CustodyKeysAscend(sg, c);
    CustodyKeepsContent(sg, c);
    forall i | 0 <= i < |fs| ensures Lookup(fs, fs[i].key) == Some(fs[i].value) { LookupAt(fs, i); }
    assert fs[0].key == "bundleId" && fs[1].key == "claimId" && fs[2].key == "forwardedAt" && fs[3].key == "kind" && fs[4].key == "payloadId";
    assert fs[5].key == "prevHop" && fs[6].key == "receivedAt" && fs[7].key == "sig" && fs[8].key == "signerPub" && fs[9].key == "thisHop";
  }

  // ---- manifest/1 -------------------------------------------------------------------------------

  datatype Manifest = Manifest(payloadId: string, chunkCount: nat, rootHex: string, chunkSize: nat)

  function ManifestContent(m: Manifest): seq<Field> {
    [Field("chunkCount", Num(m.chunkCount)), Field("kind", Str("manifest/1")), Field("meta", Size(m.chunkSize)),
     Field("payloadId", Str(m.payloadId)), Field("root", Str(m.rootHex))]
  }

  function ManifestRecord(sg: Signer, m: Manifest): seq<Field> {
    var id := sg.contentId(Text(ManifestContent(m)));
    [Field("chunkCount", Num(m.chunkCount)), Field("claimId", Str(id)), Field("kind", Str("manifest/1")),
     Field("meta", Size(m.chunkSize)), Field("payloadId", Str(m.payloadId)), Field("root", Str(m.rootHex)),
     Field("sig", Str(sg.sign(id))), Field("signerPub", Str(sg.pub))]
  }

  /** The root arrives as hex, which needs no escaping. */
  predicate ManifestAcceptable(m: Manifest) {
    Safe(m.payloadId) && m.chunkCount <= MAX_SAFE && m.chunkSize <= MAX_SAFE
  }

  lemma ManifestWritable(sg: Signer, m: Manifest)
    requires Printable(sg) && Safe(m.rootHex)
    ensures ValuesWritable(ManifestContent(m)) <==> Safe(m.payloadId) && m.chunkCount <= MAX_SAFE
    ensures ValuesWritable(ManifestRecord(sg, m)) <==> Safe(m.payloadId) && m.chunkCount <= MAX_SAFE
  {
    hide Text, Safe, Printable;
    KindsAreSafe();
    var content, record := ManifestContent(m), ManifestRecord(sg, m);
    SignerIsSafe(sg, Text(content));
    var id := sg.contentId(Text(content));
    assert Writable(Str(id)) && Writable(Str(sg.sign(id))) && Writable(Str(sg.pub)) && Writable(Str(m.rootHex));
    if ValuesWritable(content) {
      assert Writable(content[0].value) && Writable(content[3].value);
    }
    if ValuesWritable(record) {
      assert Writable(record[0].value) && Writable(record[4].value);
    }
  }

  method WriteManifest(sg: Signer, m: Manifest, out: array<char>) returns (code: int)
    requires Printable(sg) && Safe(m.rootHex)
    modifies out
    ensures code == 0 <==> ManifestAcceptable(m) && |Text(ManifestContent(m))| < MANIFEST_CAP
                           && |Text(ManifestRecord(sg, m))| < out.Length
    ensures code == if m.chunkSize > MAX_SAFE then E_NUMBER
                    else FirstError(MANIFEST_CAP, ManifestContent(m), out.Length, ManifestRecord(sg, m))
    ensures code == 0 ==> Holds(out, Text(ManifestRecord(sg, m)))
  {
    hide Text, Printable, FieldOut, PutOut, ValuesWritable, ErrorOf;
    ManifestWritable(sg, m);
    if m.chunkSize > MAX_SAFE { return E_NUMBER; }
    ghost var content := ManifestContent(m);
    var buf := new char[MANIFEST_CAP];
    var w := new Writer(buf);
    w.Put("{");
    ghost var start := w.View();
    w.KNum("chunkCount", m.chunkCount, true);
    assert w.View() == FieldsOut(MANIFEST_CAP, start, content, 1);
    w.KStr("kind", "manifest/1", false);
    assert w.View() == FieldsOut(MANIFEST_CAP, start, content, 2);
    w.KSize("meta", m.chunkSize);
    assert w.View() == FieldsOut(MANIFEST_CAP, start, content, 3);
    w.KStr("payloadId", m.payloadId, false);
    assert w.View() == FieldsOut(MANIFEST_CAP, start, content, 4);
    w.KStr("root", m.rootHex, false);
    assert w.View() == FieldsOut(MANIFEST_CAP, start, content, 5);
    w.Put("}");
    WriterWrote(w, content);
    if w.err != 0 { return w.err; }
    code := WriteManifestRecord(sg, m, w.p[..w.n], out);
  }

  method WriteManifestRecord(sg: Signer, m: Manifest, content: string, out: array<char>) returns (code: int)
    requires content == Text(ManifestContent(m))
    modifies out
    ensures Wrote(out, ManifestRecord(sg, m), code)
  {
    hide Text, FieldOut, PutOut, Wrote;
    var id := sg.contentId(content);
    var sig := sg.sign(id);
    ghost var record := ManifestRecord(sg, m);
    var o := new Writer(out);
    o.Put("{");
    ghost var start := o.View();
    o.KNum("chunkCount", m.chunkCount, true);
    assert o.View() == FieldsOut(out.Length, start, record, 1);
    o.KStr("claimId", id, false);
    assert o.View() == FieldsOut(out.Length, start, record, 2);
    o.KStr("kind", "manifest/1", false);
    assert o.View() == FieldsOut(out.Length, start, record, 3);
    o.KSize("meta", m.chunkSize);
    assert o.View() == FieldsOut(out.Length, start, record, 4);
    o.KStr("payloadId", m.payloadId, false);
    assert o.View() == FieldsOut(out.Length, start, record, 5);
    o.KStr("root", m.rootHex, false);
    assert o.View() == FieldsOut(out.Length, start, record, 6);
    o.KStr("sig", sig, false);
    assert o.View() == FieldsOut(out.Length, start, record, 7);
    o.KStr("signerPub", sg.pub, false);
    assert o.View() == FieldsOut(out.Length, start, record, 8);
    o.Put("}");
    WriterWrote(o, record);
    return o.err;
  }

  lemma ManifestTextCommits(sg: Signer, a: Manifest, b: Manifest)
    requires Printable(sg) && ManifestAcceptable(a) && ManifestAcceptable(b) && Safe(a.rootHex) && Safe(b.rootHex)
    ensures Text(ManifestContent(a)) == Text(ManifestContent(b)) ==> a == b
    ensures Text(ManifestRecord(sg, a)) == Text(ManifestRecord(sg, b)) ==> a == b
  {
    hide Text, Printable, ValuesWritable, Safe;
    ManifestWritable(sg, a);
    ManifestWritable(sg, b);
    KeysAreSafe();
    var ca, cb, ra, rb := ManifestContent(a), ManifestContent(b), ManifestRecord(sg, a), ManifestRecord(sg, b);
    if Text(ca) == Text(cb) {
      TextIsUnambiguous(ca, cb);
      assert ca[0] == cb[0] && ca[2] == cb[2] && ca[3] == cb[3] && ca[4] == cb[4];
    }
    if Text(ra) == Text(rb) {
      TextIsUnambiguous(ra, rb);
      assert ra[0] == rb[0] && ra[3] == rb[3] && ra[4] == rb[4] && ra[5] == rb[5];
    }
  }

  lemma ManifestKeyOrder()
    ensures Below("chunkCount", "claimId") && Below("claimId", "kind") && Below("chunkCount", "kind") && Below("kind", "meta")
    ensures Below("meta", "payloadId") && Below("payloadId", "root") && Below("root", "sig") && Below("sig", "signerPub")
  {
    hide Below;
    BelowAt("chunkCount", "claimId", 1);
    BelowAt("claimId", "kind", 0);
    BelowAt("chunkCount", "kind", 0);
    BelowAt("kind", "meta", 0);
    BelowAt("meta", "payloadId", 0);
    BelowAt("payloadId", "root", 0);
    BelowAt("root", "sig", 0);
    BelowAt("sig", "signerPub", 3);
  }

  lemma ManifestKeysAscend(sg: Signer, m: Manifest)
    ensures KeysAscend(ManifestContent(m)) && KeysAscend(ManifestRecord(sg, m))
  {
    hide Below, Text;
    ManifestKeyOrder();
    AscendByPairs(ManifestContent(m));
    AscendByPairs(ManifestRecord(sg, m));
  }

  lemma ManifestKeepsContent(sg: Signer, m: Manifest)
    ensures Without(ManifestRecord(sg, m), SIGNING) == ManifestContent(m)
  {
    hide Text, Without, KeysAscend;
    var fs := ManifestRecord(sg, m);
    ManifestKeysAscend(sg, m);
    assert fs[1].key == "claimId" && fs[6].key == "sig" && fs[7].key == "signerPub";
    assert forall x :: x in SIGNING <==> x == fs[1].key || exists i :: 6 <= i < 8 && x == fs[i].key;
    WithoutSome(fs, 1, 6, 8, SIGNING);
    assert fs[..1] + (fs[2..6] + fs[8..]) == ManifestContent(m);
  }

  /** Main result: the same of a manifest. */
  lemma ManifestSays(sg: Signer, m: Manifest)
    requires Printable(sg) && ManifestAcceptable(m) && Safe(m.rootHex)
    ensures var fs := Parse(Text(ManifestRecord(sg, m)));
            && fs.Some? && KeysAscend(fs.value) && |fs.value| == 8
            && Lookup(fs.value, "kind") == Some(Str("manifest/1"))
            && Lookup(fs.value, "payloadId") == Some(Str(m.payloadId)) && Lookup(fs.value, "root") == Some(Str(m.rootHex))
            && Lookup(fs.value, "chunkCount") == Some(Num(m.chunkCount)) && Lookup(fs.value, "meta") == Some(Size(m.chunkSize))
            && Lookup(fs.value, "signerPub") == Some(Str(sg.pub))
            && (var id := sg.contentId(Text(Without(fs.value, SIGNING)));
                Lookup(fs.value, "claimId") == Some(Str(id)) && Lookup(fs.value, "sig") == Some(Str(sg.sign(id))))
  {
    hide Text, Parse, Printable, Without, Lookup, KeysAscend, ValuesWritable, Safe;
    var fs := ManifestRecord(sg, m);
    ManifestWritable(sg, m);
    KeysAreSafe();
    TextReadsBack(fs);
    ManifestKeysAscend(sg, m);
    ManifestKeepsContent(sg, m);
    forall i | 0 <= i < |fs| ensures Lookup(fs, fs[i].key) == Some(fs[i].value) { LookupAt(fs, i); }
    assert fs[0].key == "chunkCount" && fs[1].key == "claimId" && fs[2].key == "kind" && fs[3].key == "meta";
    assert fs[4].key == "payloadId" && fs[5].key == "root" && fs[6].key == "sig" && fs[7].key == "signerPub";
  }
}
