/**
 `ck_batch` of flight/custody.c: one signed custody-batch/1 record for the bundles taken in a
 contact. The ids are sorted and compacted in the caller's array, hashed into a scratch array, and
 that array is reduced in place to the root.
 */
module FlightBatch {
  import opened Codes
  import opened RecordWriter
  import opened FlightRecords
  import opened Merkle
  import opened IdOrder
  import opened Wrappers

  datatype Contact = Contact(prevHop: string, thisHop: string, contactId: string, from: nat, to: nat)

  /** The hashes of the platform: leaf, node, and a root as hex. */
  datatype Hashes<!H> = Hashes(leaf: string -> H, node: (H, H) -> H, hex: H -> string)

  function Leaves<H>(hs: Hashes<H>, ids: seq<string>): (ls: seq<H>)
    ensures |ls| == |ids|
    ensures forall i :: 0 <= i < |ls| ==> ls[i] == hs.leaf(ids[i])
  {
    seq(|ids|, i requires 0 <= i < |ids| => hs.leaf(ids[i]))
  }

  /** The root over a set of ids: over their sorted list. */
  function BatchRoot<H>(hs: Hashes<H>, ids: seq<string>): H
    requires Canonical(ids) != []
  {
    Root(hs.node, Leaves(hs, Canonical(ids)))
  }

  function BatchContent(c: Contact, count: nat, rootHex: string): seq<Field> {
    [Field("contactId", Str(c.contactId)), Field("count", Num(count)), Field("from", Num(c.from)),
     Field("kind", Str("custody-batch/1")), Field("prevHop", Str(c.prevHop)), Field("root", Str(rootHex)),
     Field("thisHop", Str(c.thisHop)), Field("to", Num(c.to))]
  }

  function BatchRecord(sg: Signer, c: Contact, count: nat, rootHex: string): seq<Field> {
    var id := sg.contentId(Text(BatchContent(c, count, rootHex)));
    [Field("claimId", Str(id)), Field("contactId", Str(c.contactId)), Field("count", Num(count)),
     Field("from", Num(c.from)), Field("kind", Str("custody-batch/1")), Field("prevHop", Str(c.prevHop)),
     Field("root", Str(rootHex)), Field("sig", Str(sg.sign(id))), Field("signerPub", Str(sg.pub)),
     Field("thisHop", Str(c.thisHop)), Field("to", Num(c.to))]
  }

  predicate BatchAcceptable(c: Contact, count: nat) {
    && Safe(c.contactId) && Safe(c.prevHop) && Safe(c.thisHop)
    && count <= MAX_SAFE && c.from <= MAX_SAFE && c.to <= MAX_SAFE
  }

  lemma BatchWritable(sg: Signer, c: Contact, count: nat, rootHex: string)
    requires Printable(sg) && Safe(rootHex)
    ensures ValuesWritable(BatchContent(c, count, rootHex)) <==> BatchAcceptable(c, count)
    ensures ValuesWritable(BatchRecord(sg, c, count, rootHex)) <==> BatchAcceptable(c, count)
  {
    hide Text, Safe, Printable;
    KindsAreSafe();
    var content, record := BatchContent(c, count, rootHex), BatchRecord(sg, c, count, rootHex);
    SignerIsSafe(sg, Text(content));
    var id := sg.contentId(Text(content));
    assert Writable(Str(id)) && Writable(Str(sg.sign(id))) && Writable(Str(sg.pub)) && Writable(Str(rootHex));
    if ValuesWritable(content) {
      assert Writable(content[0].value) && Writable(content[1].value) && Writable(content[2].value)
             && Writable(content[4].value) && Writable(content[6].value) && Writable(content[7].value);
    }
    if ValuesWritable(record) {
      assert Writable(record[1].value) && Writable(record[2].value) && Writable(record[3].value)
             && Writable(record[5].value) && Writable(record[9].value) && Writable(record[10].value);
    }
  }

  /** The accepted batch: every id printable, and the record within both buffers. */
  ghost predicate BatchAccepted<H>(sg: Signer, hs: Hashes<H>, c: Contact, ids: seq<string>, cap: nat) {
    && ids != [] && c.from <= c.to
    && (forall x :: x in ids ==> Safe(x))
    && Canonical(ids) != []
    && var count, rootHex := |Canonical(ids)|, hs.hex(BatchRoot(hs, ids));
       && BatchAcceptable(c, count)
       && |Text(BatchContent(c, count, rootHex))| < BATCH_CAP
       && |Text(BatchRecord(sg, c, count, rootHex))| < cap
  }

  /** The code it ends with: bad arguments, then an unprintable id, then the records' own errors. */
  function BatchError<H>(sg: Signer, hs: Hashes<H>, c: Contact, ids: seq<string>, cap: nat): int {
    if ids == [] || c.to < c.from then E_ARG
    else if exists i :: 0 <= i < |ids| && !Safe(ids[i]) then E_STRING
    else if Canonical(ids) == [] then 0
    else
      var n, rootHex := |Canonical(ids)|, hs.hex(BatchRoot(hs, ids));
      FirstError(BATCH_CAP, BatchContent(c, n, rootHex), cap, BatchRecord(sg, c, n, rootHex))
  }

  /** Sorting, compaction and hashing: afterwards the first n ids are the distinct ones in order and
      the scratch array holds their leaf hashes. An unprintable id stops it. */
  method Compact<H>(hs: Hashes<H>, ids: array<string>, s: array<H>) returns (code: int, n: nat)
    requires s.Length >= ids.Length && ids as object != s
    modifies ids, s
    ensures code == 0 <==> forall x :: x in old(ids[..]) ==> Safe(x)
    ensures code in {0, E_STRING}
    ensures code == 0 ==> n <= ids.Length && ids[..n] == Canonical(old(ids[..]))
                          && s[..n] == Leaves(hs, Canonical(old(ids[..])))
  {
    hide Safe, Sort, Dedup, Leaves;
    QSort(ids);
    ghost var sorted := ids[..];
    SortKeepsMembers(old(ids[..]));
    n := 0;
    var i := 0;
    while i < ids.Length
      invariant 0 <= n <= i <= ids.Length
      invariant forall k :: 0 <= k < i ==> Safe(sorted[k])
      invariant forall k :: i <= k < ids.Length ==> ids[k] == sorted[k]
      invariant ids[..n] == Dedup(sorted[..i])
      invariant forall k :: 0 <= k < n ==> s[k] == hs.leaf(ids[k])
    {
      if !Safe(ids[i]) {
        assert sorted[i] in sorted;
        return E_STRING, n;
      }
      DedupStep(sorted, i);
      assert n == |Dedup(sorted[..i])| && forall k :: 0 <= k < n ==> ids[k] == Dedup(sorted[..i])[k];
      if n > 0 && ids[i] == ids[n - 1] {
        i := i + 1;
        continue;
      }
      ghost var before := ids[..n];
      ids[n] := ids[i];
      s[n] := hs.leaf(ids[n]);
      n := n + 1;
      assert ids[..n] == before + [sorted[i]];
      i := i + 1;
    }
    assert sorted[..i] == sorted;
    assert s[..n] == Leaves(hs, ids[..n]);
    return 0, n;
  }

  lemma DedupStep(s: seq<string>, i: nat)
    requires i < |s|
    ensures var d := Dedup(s[..i]);
            Dedup(s[..i + 1]) == if d != [] && s[i] == d[|d| - 1] then d else d + [s[i]]
  {
    assert s[..i + 1][..i] == s[..i];
  }

  /** `ck_batch`: success means the whole record of the sorted distinct ids is in the buffer. */
  method WriteBatch<H>(sg: Signer, hs: Hashes<H>, c: Contact, ids: array<string>, s: array<H>, out: array<char>) returns (code: int)
    requires Printable(sg) && forall h :: Safe(hs.hex(h))
    requires s.Length >= ids.Length && ids as object != s
    modifies ids, s, out
    ensures code == 0 <==> BatchAccepted(sg, hs, c, old(ids[..]), out.Length)
    ensures code == 0 ==> Holds(out, Text(BatchRecord(sg, c, |Canonical(old(ids[..]))|, hs.hex(BatchRoot(hs, old(ids[..]))))))
    ensures code == BatchError(sg, hs, c, old(ids[..]), out.Length)
  {
    hide Text, Printable, Canonical, BatchAcceptable, ValuesWritable, Safe, Leaves, Root, FirstError;
    ghost var given := ids[..];
    if ids.Length == 0 || c.to < c.from { return E_ARG; }
    var n;
    code, n := Compact(hs, ids, s);
    if code != 0 { return; }
    CanonicalOf(given);
    ghost var ls := s[..n];
    Reduce(hs.node, s, n);
    var rootHex := hs.hex(s[0]);
    BatchWritable(sg, c, n, rootHex);
    assert s[0] == BatchRoot(hs, given);
    code := WriteContact(sg, c, n, rootHex, out);
  }

  /** The record for a contact, its count and its root. */
  method WriteContact(sg: Signer, c: Contact, n: nat, rootHex: string, out: array<char>) returns (code: int)
    modifies out
    ensures code == FirstError(BATCH_CAP, BatchContent(c, n, rootHex), out.Length, BatchRecord(sg, c, n, rootHex))
    ensures code == 0 <==> ValuesWritable(BatchContent(c, n, rootHex)) && |Text(BatchContent(c, n, rootHex))| < BATCH_CAP
                           && ValuesWritable(BatchRecord(sg, c, n, rootHex)) && |Text(BatchRecord(sg, c, n, rootHex))| < out.Length
    ensures code == 0 ==> Holds(out, Text(BatchRecord(sg, c, n, rootHex)))
  {
    hide Text, FieldOut, PutOut, ValuesWritable, ErrorOf;
    ghost var content := BatchContent(c, n, rootHex);
    var buf := new char[BATCH_CAP];
    var w := new Writer(buf);
    w.Put("{");
    ghost var start := w.View();
    w.KStr("contactId", c.contactId, true);
    assert w.View() == FieldsOut(BATCH_CAP, start, content, 1);
    w.KNum("count", n, false);
    assert w.View() == FieldsOut(BATCH_CAP, start, content, 2);
    w.KNum("from", c.from, false);
    assert w.View() == FieldsOut(BATCH_CAP, start, content, 3);
    w.KStr("kind", "custody-batch/1", false);
    assert w.View() == FieldsOut(BATCH_CAP, start, content, 4);
    w.KStr("prevHop", c.prevHop, false);
    assert w.View() == FieldsOut(BATCH_CAP, start, content, 5);
    w.KStr("root", rootHex, false);
    assert w.View() == FieldsOut(BATCH_CAP, start, content, 6);
    w.KStr("thisHop", c.thisHop, false);
    assert w.View() == FieldsOut(BATCH_CAP, start, content, 7);
    w.KNum("to", c.to, false);
    assert w.View() == FieldsOut(BATCH_CAP, start, content, 8);
    w.Put("}");
    WriterWrote(w, content);
    if w.err != 0 { return w.err; }
    code := WriteBatchRecord(sg, c, n, rootHex, w.p[..w.n], out);
  }

  method WriteBatchRecord(sg: Signer, c: Contact, n: nat, rootHex: string, content: string, out: array<char>) returns (code: int)
    requires content == Text(BatchContent(c, n, rootHex))
    modifies out
    ensures Wrote(out, BatchRecord(sg, c, n, rootHex), code)
  {
    hide Text, BatchRecord, FieldsOut, FieldOut, PutOut, Wrote;
    var id := sg.contentId(content);
    var sig := sg.sign(id);
    ghost var record := BatchRecord(sg, c, n, rootHex);
    BatchRecordSize(sg, c, n, rootHex);
    var o := new Writer(out);
    o.Put("{");
    WriteBatchFirst(o, sg, c, n, id, rootHex);
    WriteBatchRest(o, sg, c, n, sig, rootHex, PutOut(out.Length, Out("", 0), "{"));
    o.Put("}");
    WriterWrote(o, record);
    return o.err;
  }

  lemma BatchRecordSize(sg: Signer, c: Contact, n: nat, rootHex: string)
    ensures |BatchRecord(sg, c, n, rootHex)| == 11
  {
    hide Text;
  }

  /** Its first six fields. */
  method WriteBatchFirst(o: Writer, sg: Signer, c: Contact, n: nat, id: string, rootHex: string)
    requires o.Valid() && id == sg.contentId(Text(BatchContent(c, n, rootHex)))
    modifies o, o.p
    ensures o.Valid() && o.View() == FieldsOut(o.p.Length, old(o.View()), BatchRecord(sg, c, n, rootHex), 6)
  {
    hide Text, FieldOut, PutOut;
    ghost var start, record := o.View(), BatchRecord(sg, c, n, rootHex);
    o.KStr("claimId", id, true);
    assert o.View() == FieldsOut(o.p.Length, start, record, 1);
    o.KStr("contactId", c.contactId, false);
    assert o.View() == FieldsOut(o.p.Length, start, record, 2);
    o.KNum("count", n, false);
    assert o.View() == FieldsOut(o.p.Length, start, record, 3);
    o.KNum("from", c.from, false);
    assert o.View() == FieldsOut(o.p.Length, start, record, 4);
    o.KStr("kind", "custody-batch/1", false);
    assert o.View() == FieldsOut(o.p.Length, start, record, 5);
    o.KStr("prevHop", c.prevHop, false);
  }

  /** And the other five. */
  method WriteBatchRest(o: Writer, sg: Signer, c: Contact, n: nat, sig: string, rootHex: string, ghost start: Out)
    requires o.Valid() && sig == sg.sign(sg.contentId(Text(BatchContent(c, n, rootHex))))
    requires |BatchRecord(sg, c, n, rootHex)| == 11 && o.View() == FieldsOut(o.p.Length, start, BatchRecord(sg, c, n, rootHex), 6)
    modifies o, o.p
    ensures o.Valid() && o.View() == FieldsOut(o.p.Length, start, BatchRecord(sg, c, n, rootHex), 11)
  {
    hide Text, FieldOut, PutOut;
    ghost var record := BatchRecord(sg, c, n, rootHex);
    o.KStr("root", rootHex, false);
    assert o.View() == FieldsOut(o.p.Length, start, record, 7);
    o.KStr("sig", sig, false);
    assert o.View() == FieldsOut(o.p.Length, start, record, 8);
    o.KStr("signerPub", sg.pub, false);
    assert o.View() == FieldsOut(o.p.Length, start, record, 9);
    o.KStr("thisHop", c.thisHop, false);
    assert o.View() == FieldsOut(o.p.Length, start, record, 10);
    o.KNum("to", c.to, false);
  }

  // ---- What the record depends on and commits to -------------------------------------------------

  /** Whether a batch is accepted, its count and its root depend on the set of ids alone, not on
      their order or repetition; and the count is the number of distinct ids. */
  lemma BatchDependsOnSet<H>(sg: Signer, hs: Hashes<H>, c: Contact, a: seq<string>, b: seq<string>, cap: nat)
    requires a != [] && forall x :: x in a <==> x in b
    ensures Canonical(a) == Canonical(b) != [] && |Canonical(a)| == |set x | x in a|
    ensures BatchRoot(hs, a) == BatchRoot(hs, b)
    ensures BatchAccepted(sg, hs, c, a, cap) <==> BatchAccepted(sg, hs, c, b, cap)
  {
    hide Canonical, Text, BatchAcceptable, Leaves, Safe;
    CanonicalDependsOnSet(a, b);
    CanonicalOf(a);
    CanonicalOf(b);
    SameMembersSameEmptiness(a, b);
  }

  lemma BatchTextCommits(sg: Signer, a: Contact, m: nat, r: string, b: Contact, n: nat, q: string)
    requires Printable(sg) && BatchAcceptable(a, m) && BatchAcceptable(b, n) && Safe(r) && Safe(q)
    requires Text(BatchContent(a, m, r)) == Text(BatchContent(b, n, q))
    ensures a == b && m == n && r == q
  {
    hide Text, Printable, ValuesWritable, Safe;
    BatchWritable(sg, a, m, r);
    BatchWritable(sg, b, n, q);
    KeysAreSafe();
    var ca, cb := BatchContent(a, m, r), BatchContent(b, n, q);
    TextIsUnambiguous(ca, cb);
    assert ca[0] == cb[0] && ca[1] == cb[1] && ca[2] == cb[2] && ca[4] == cb[4]
           && ca[5] == cb[5] && ca[6] == cb[6] && ca[7] == cb[7];
  }

  lemma BatchKeyOrder()
    ensures Below("claimId", "contactId") && Below("contactId", "count") && Below("count", "from") && Below("from", "kind")
    ensures Below("kind", "prevHop") && Below("prevHop", "root") && Below("root", "sig") && Below("sig", "signerPub")
    ensures Below("signerPub", "thisHop") && Below("thisHop", "to") && Below("root", "thisHop")
  {
    hide Below;
    BelowAt("claimId", "contactId", 1);
    BelowAt("contactId", "count", 2);
    BelowAt("count", "from", 0);
    BelowAt("from", "kind", 0);
    BelowAt("kind", "prevHop", 0);
    BelowAt("prevHop", "root", 0);
    BelowAt("root", "sig", 0);
    BelowAt("sig", "signerPub", 3);
    BelowAt("signerPub", "thisHop", 0);
    BelowAt("thisHop", "to", 1);
    BelowAt("root", "thisHop", 0);
  }

  lemma BatchKeysAscend(sg: Signer, c: Contact, count: nat, rootHex: string)
    ensures KeysAscend(BatchContent(c, count, rootHex)) && KeysAscend(BatchRecord(sg, c, count, rootHex))
  {
    hide Below, Text;
    BatchKeyOrder();
    AscendByPairs(BatchContent(c, count, rootHex));
    AscendByPairs(BatchRecord(sg, c, count, rootHex));
  }

  lemma BatchKeepsContent(sg: Signer, c: Contact, count: nat, rootHex: string)
    ensures Without(BatchRecord(sg, c, count, rootHex), SIGNING) == BatchContent(c, count, rootHex)
  {
    hide Text, Without, KeysAscend;
    var fs := BatchRecord(sg, c, count, rootHex);
    BatchKeysAscend(sg, c, count, rootHex);
    assert fs[0].key == "claimId" && fs[7].key == "sig" && fs[8].key == "signerPub";
    assert forall x :: x in SIGNING <==> x == fs[0].key || exists i :: 7 <= i < 9 && x == fs[i].key;
    WithoutSome(fs, 0, 7, 9, SIGNING);
    assert fs[..0] + (fs[1..7] + fs[9..]) == BatchContent(c, count, rootHex);
  }

  /** Main result: what a reader finds in the text of an accepted batch: each key once, in order, and under each
      the value meant. */
  lemma BatchSays(sg: Signer, c: Contact, count: nat, rootHex: string)
    requires Printable(sg) && BatchAcceptable(c, count) && Safe(rootHex)
    ensures var fs := Parse(Text(BatchRecord(sg, c, count, rootHex)));
            && fs.Some? && KeysAscend(fs.value) && |fs.value| == 11
            && Lookup(fs.value, "kind") == Some(Str("custody-batch/1"))
            && Lookup(fs.value, "contactId") == Some(Str(c.contactId)) && Lookup(fs.value, "root") == Some(Str(rootHex))
            && Lookup(fs.value, "prevHop") == Some(Str(c.prevHop)) && Lookup(fs.value, "thisHop") == Some(Str(c.thisHop))
            && Lookup(fs.value, "from") == Some(Num(c.from)) && Lookup(fs.value, "to") == Some(Num(c.to))
            && Lookup(fs.value, "count") == Some(Num(count)) && Lookup(fs.value, "signerPub") == Some(Str(sg.pub))
            && (var id := sg.contentId(Text(Without(fs.value, SIGNING)));
                Lookup(fs.value, "claimId") == Some(Str(id)) && Lookup(fs.value, "sig") == Some(Str(sg.sign(id))))
  {
    hide Text, Parse, Printable, Without, Lookup, KeysAscend, ValuesWritable, Safe, BatchAcceptable;
    var fs := BatchRecord(sg, c, count, rootHex);
    BatchWritable(sg, c, count, rootHex);
    KeysAreSafe();
    TextReadsBack(fs);
    BatchKeysAscend(sg, c, count, rootHex);
    BatchKeepsContent(sg, c, count, rootHex);
    forall i | 0 <= i < |fs| ensures Lookup(fs, fs[i].key) == Some(fs[i].value) { LookupAt(fs, i); }
    assert fs[0].key == "claimId" && fs[1].key == "contactId" && fs[2].key == "count" && fs[3].key == "from" && fs[4].key == "kind";
    assert fs[5].key == "prevHop" && fs[6].key == "root" && fs[7].key == "sig" && fs[8].key == "signerPub";
    assert fs[9].key == "thisHop" && fs[10].key == "to";
  }

  /** Main result: the record of an accepted batch, read back: its interval is one, and its count and root are those of
      the distinct ids, of which there is at least one. */
  lemma AcceptedBatchSays<H>(sg: Signer, hs: Hashes<H>, c: Contact, ids: seq<string>, cap: nat)
    requires Printable(sg) && (forall h :: Safe(hs.hex(h))) && BatchAccepted(sg, hs, c, ids, cap)
    ensures c.from <= c.to && 1 <= |set x | x in ids| && forall x :: x in ids ==> Safe(x)
    ensures Canonical(ids) != [] && StrictlySorted(Canonical(ids)) && forall x :: x in Canonical(ids) <==> x in ids
    ensures var count, rootHex := |set x | x in ids|, hs.hex(Root(hs.node, Leaves(hs, Canonical(ids))));
            var fs := Parse(Text(BatchRecord(sg, c, count, rootHex)));
            && fs.Some? && KeysAscend(fs.value) && Lookup(fs.value, "count") == Some(Num(count)) && Lookup(fs.value, "root") == Some(Str(rootHex))
            && Lookup(fs.value, "from") == Some(Num(c.from)) && Lookup(fs.value, "to") == Some(Num(c.to))
            && Lookup(fs.value, "prevHop") == Some(Str(c.prevHop)) && Lookup(fs.value, "thisHop") == Some(Str(c.thisHop))
  {
    hide Text, Parse, Printable, Canonical, Lookup, KeysAscend, BatchAcceptable, Leaves, Root, BatchRecord, BatchContent;
    BatchDependsOnSet(sg, hs, c, ids, ids, cap);
    CanonicalOf(ids);
    BatchSays(sg, c, |Canonical(ids)|, hs.hex(BatchRoot(hs, ids)));
  }
}
