/** How records enter a ring (`ck_kr_add`, `ck_kr_ingest_block` of flight/keyring.c), as functions of
    the record table, and what the table then holds. */
module KeyringIngest {
  import opened Codes
  import opened Wrappers
  import opened Bytes
  import opened CborReader
  import opened KeyringRules

  /** The table afterwards and the code returned: 1 added, 0 duplicate, negative on error. */
  datatype Added = Added(records: seq<Record>, code: int)

  predicate SameItem(a: Record, b: Record) {
    a.payload == b.payload && a.sig == b.sig && a.algOk == b.algOk
  }

  function FirstSame(rs: seq<Record>, rec: Record, i: nat): (k: nat)
    requires i <= |rs|
    ensures i <= k <= |rs|
    ensures k < |rs| ==> SameItem(rs[k], rec)
    ensures forall j :: i <= j < k ==> !SameItem(rs[j], rec)
    decreases |rs| - i
  {
    if i == |rs| || SameItem(rs[i], rec) then i else FirstSame(rs, rec, i + 1)
  }

  function AddRecord(rs: seq<Record>, rec: Record, seen: uint64): Added {
    var k := FirstSame(rs, rec, 0);
    if k < |rs| then Added(if seen < rs[k].seenAt then rs[k := rs[k].(seenAt := seen)] else rs, 0)
    else if |rs| >= MAX_RECORDS then Added(rs, E_SPACE)
    else Added(rs + [rec.(seenAt := seen)], 1)
  }

  /** `ck_kr_add`: the item must be one record and nothing more. */
  function AddItem(cr: Crypto, rs: seq<Record>, item: seq<byte>, seen: uint64): Added {
    match ParseItem(cr, item, 0)
    case None => Added(rs, E_ARG)
    case Some(read) => if read.next != |item| then Added(rs, E_ARG) else AddRecord(rs, read.rec, seen)
  }

  // ---- A Key Record Block ------------------------------------------------------------------

  /** The loop of `ck_kr_ingest_block`: each item is parsed to find its end and then handed to
      `ck_kr_add`, which parses it again. */
  function IngestFrom(cr: Crypto, rs: seq<Record>, data: seq<byte>, at: nat, k: nat, count: uint64, seen: uint64, added: int): Added
    requires at <= |data|
    decreases count - k
  {
    if k >= count then Added(rs, added)
    else
      match ParseItem(cr, data, at)
      case None => Added(rs, E_ARG)
      case Some(read) =>
        var a := AddItem(cr, rs, data[at..read.next], seen);
        if a.code < 0 then a
        else IngestFrom(cr, a.records, data, read.next, k + 1, count, seen, added + a.code)
  }

  function IngestBlock(cr: Crypto, rs: seq<Record>, data: seq<byte>, seen: uint64): Added {
    match Head(data, 0)
    case None => Added(rs, E_ARG)
    case Some(h) => if h.major != 4 then Added(rs, E_ARG) else IngestFrom(cr, rs, data, h.next, 0, h.val, seen, 0)
  }

  /** The records of a block up to its first malformed item, and whether it has one. */
  datatype BlockItems = BlockItems(recs: seq<Record>, wellFormed: bool)

  function ItemsFrom(cr: Crypto, data: seq<byte>, at: nat, k: nat, count: uint64): BlockItems
    requires at <= |data|
    decreases count - k
  {
    if k >= count then BlockItems([], true)
    else
      match ParseItem(cr, data, at)
      case None => BlockItems([], false)
      case Some(read) =>
        var more := ItemsFrom(cr, data, read.next, k + 1, count);
        BlockItems([read.rec] + more.recs, more.wellFormed)
  }

  /** Adding parsed records one after another until the table is full; the code is the number
      added, or the error. */
  function AddAll(rs: seq<Record>, recs: seq<Record>, wellFormed: bool, seen: uint64, added: int): Added
    decreases |recs|
  {
    if recs == [] then Added(rs, if wellFormed then added else E_ARG)
    else
      var a := AddRecord(rs, recs[0], seen);
      if a.code < 0 then a else AddAll(a.records, recs[1..], wellFormed, seen, added + a.code)
  }

  /** An item cut out of its block parses to the same record and is used up exactly: adding it
      never fails on the second parse. */
  lemma CutItemIsWhole(cr: Crypto, rs: seq<Record>, data: seq<byte>, at: nat, seen: uint64)
    requires ParseItem(cr, data, at).Some?
    ensures var read := ParseItem(cr, data, at).value;
            AddItem(cr, rs, data[at..read.next], seen) == AddRecord(rs, read.rec, seen)
  {
    hide ReadEnvelope, Assemble;
    var read := ParseItem(cr, data, at).value;
    var cut := data[at..read.next];
    forall x {:trigger data[x]} | at <= x < read.next ensures cut[x - at] == data[x] {
    }
    ParseItemLocal(cr, data, at, cut, -(at as int));
  }

  /** Ingesting a block is adding its records in order: all of them if the block is well formed and
      there is room, else those before the first malformed item or the one that did not fit. */
  lemma {:induction false} IngestIsFold(cr: Crypto, rs: seq<Record>, data: seq<byte>, at: nat, k: nat, count: uint64, seen: uint64, added: int)
    requires at <= |data|
    ensures var items := ItemsFrom(cr, data, at, k, count);
            IngestFrom(cr, rs, data, at, k, count, seen, added) == AddAll(rs, items.recs, items.wellFormed, seen, added)
    decreases count - k
  {
    hide ParseItem, AddItem, AddRecord;
    if k < count && ParseItem(cr, data, at).Some? {
      CutItemIsWhole(cr, rs, data, at, seen);
      var read := ParseItem(cr, data, at).value;
      var a := AddRecord(rs, read.rec, seen);
      if a.code >= 0 {
        IngestIsFold(cr, a.records, data, read.next, k + 1, count, seen, added + a.code);
        assert ItemsFrom(cr, data, at, k, count).recs[1..] == ItemsFrom(cr, data, read.next, k + 1, count).recs;
      }
    }
  }

  // ---- What the codes say --------------------------------------------------------------------------

  ghost predicate OnFile(rs: seq<Record>, rec: Record) {
    exists k :: 0 <= k < |rs| && SameItem(rs[k], rec)
  }

  /** One is added exactly when it is not on file and there is room; a duplicate is none even of a full table. */
  lemma AddedIff(rs: seq<Record>, rec: Record, seen: uint64)
    ensures var a := AddRecord(rs, rec, seen);
            if OnFile(rs, rec) then a.code == 0 && |a.records| == |rs|
            else if |rs| < MAX_RECORDS then a.code == 1 && a.records == rs + [rec.(seenAt := seen)]
            else a.code == E_SPACE && a.records == rs
  {
    hide SameItem;
  }

  /** Main result: ingesting ends with the number of records the table has grown by, or with an error: the block is
      malformed, or the table is full. */
  lemma {:induction false} IngestedCount(rs: seq<Record>, recs: seq<Record>, wellFormed: bool, seen: uint64, added: nat)
    requires |rs| <= MAX_RECORDS
    ensures var a := AddAll(rs, recs, wellFormed, seen, added);
            && |rs| <= |a.records| <= MAX_RECORDS
            && (a.code >= 0 ==> wellFormed && a.code == added + |a.records| - |rs|)
            && (a.code < 0 ==> (a.code == E_ARG && !wellFormed) || (a.code == E_SPACE && |a.records| == MAX_RECORDS))
    decreases |recs|
  {
    hide AddRecord, OnFile;
    if recs != [] {
      AddedIff(rs, recs[0], seen);
      var a := AddRecord(rs, recs[0], seen);
      if a.code >= 0 { IngestedCount(a.records, recs[1..], wellFormed, seen, added + a.code); }
    }
  }

  // ---- What a run of sightings leaves in the table ---------------------------------------------

  /** An item offered to the ring at some local time. */
  datatype Sighting = Sighting(item: seq<byte>, seen: uint64)

  /** The record a sighting carries, if `ck_kr_add` takes it. */
  function Carried(cr: Crypto, s: Sighting): (r: Option<Record>)
    ensures r.Some? ==> r.value.seenAt == 0
  {
    match ParseItem(cr, s.item, 0)
    case None => None
    case Some(read) => if read.next == |s.item| then Some(read.rec) else None
  }

  /** The table of a new ring after a run of sightings. */
  function Feed(cr: Crypto, ss: seq<Sighting>): seq<Record> {
    if ss == [] then []
    else AddItem(cr, Feed(cr, ss[..|ss| - 1]), ss[|ss| - 1].item, ss[|ss| - 1].seen).records
  }

  /** What a sighting carries, by itself: all that the table depends on. */
  type Carrier = Sighting -> Option<Record>

  function CarrierOf(cr: Crypto): Carrier {
    (s: Sighting) => Carried(cr, s)
  }

  /** Records with the same verdict, signature and payload are the same but for the time seen. */
  ghost predicate Consistent(carried: Carrier) {
    && (forall s: Sighting :: carried(s).Some? ==> carried(s).value.seenAt == 0)
    && (forall s: Sighting, t: Sighting :: carried(s).Some? && carried(t).Some? ==>
          (SameItem(carried(s).value, carried(t).value) <==> carried(s) == carried(t)))
  }

  lemma ParsedIsConsistent(cr: Crypto)
    ensures Consistent(CarrierOf(cr))
  {
    hide Carried, SameItem;
    forall s: Sighting, t: Sighting | Carried(cr, s).Some? && Carried(cr, t).Some?
      ensures SameItem(Carried(cr, s).value, Carried(cr, t).value) <==> Carried(cr, s) == Carried(cr, t)
    {
      SameParse(cr, s, t);
    }
  }

  lemma SameParse(cr: Crypto, s: Sighting, t: Sighting)
    ensures Carried(cr, s).Some? && Carried(cr, t).Some? ==>
              (SameItem(Carried(cr, s).value, Carried(cr, t).value) <==> Carried(cr, s) == Carried(cr, t))
  {
    hide ParseItem;
    if Carried(cr, s).Some? && Carried(cr, t).Some? { SameItemSameRecord(cr, s.item, t.item, 0, 0); }
  }

  /** The table by what the sightings carry. */
  function Table(carried: Carrier, ss: seq<Sighting>): seq<Record> {
    if ss == [] then []
    else
      var before, s := Table(carried, ss[..|ss| - 1]), ss[|ss| - 1];
      if carried(s).Some? then AddRecord(before, carried(s).value, s.seen).records else before
  }

  lemma {:induction false} FeedIsTable(cr: Crypto, ss: seq<Sighting>)
    ensures Feed(cr, ss) == Table(CarrierOf(cr), ss)
    decreases |ss|
  {
    hide AddRecord, ParseItem;
    if ss != [] { FeedIsTable(cr, ss[..|ss| - 1]); }
  }

  /** The distinct records among the sightings. */
  function Distinct(carried: Carrier, ss: seq<Sighting>): set<Record> {
    set s | s in ss && carried(s).Some? :: carried(s).value
  }

  function Body(r: Record): Record {
    r.(seenAt := 0)
  }

  ghost predicate SeenAs(carried: Carrier, ss: seq<Sighting>, r: Record) {
    exists s :: s in ss && carried(s) == Some(Body(r)) && s.seen == r.seenAt
  }

  /** `r` was sighted at its seenAt and never earlier. */
  ghost predicate EarliestSighting(carried: Carrier, ss: seq<Sighting>, r: Record) {
    && SeenAs(carried, ss, r)
    && forall s :: s in ss && carried(s) == Some(Body(r)) ==> r.seenAt <= s.seen
  }

  /** The table holds exactly the earliest sighting of each distinct record. */
  ghost predicate Faithful(carried: Carrier, ss: seq<Sighting>, rs: seq<Record>) {
    && (forall r :: r in rs ==> EarliestSighting(carried, ss, r))
    && (forall s :: s in ss && carried(s).Some? ==> Holds(rs, carried(s).value))
    && (forall i, j :: 0 <= i < j < |rs| ==> Body(rs[i]) != Body(rs[j]))
  }

  ghost predicate Holds(rs: seq<Record>, body: Record) {
    exists r :: r in rs && Body(r) == body
  }

  /** A table with no two records alike has no more records than there are distinct bodies. */
  lemma {:induction false} NoMoreThanDistinct(rs: seq<Record>, bodies: set<Record>)
    requires forall r :: r in rs ==> Body(r) in bodies
    requires forall i, j :: 0 <= i < j < |rs| ==> Body(rs[i]) != Body(rs[j])
    ensures |rs| <= |bodies|
  {
    if rs != [] {
      var last := rs[|rs| - 1];
      assert forall r :: r in rs[..|rs| - 1] ==> Body(r) in bodies - {Body(last)};
      NoMoreThanDistinct(rs[..|rs| - 1], bodies - {Body(last)});
    }
  }

  lemma {:induction false} TableIsFaithful(carried: Carrier, ss: seq<Sighting>)
    requires Consistent(carried) && |Distinct(carried, ss)| <= MAX_RECORDS
    ensures Faithful(carried, ss, Table(carried, ss))
  {
    hide AddRecord, Faithful, Distinct, Consistent;
    if ss == [] {
      FaithfulToNothing(carried);
    } else {
      var before, s := ss[..|ss| - 1], ss[|ss| - 1];
      assert ss == before + [s];
      DistinctOfSet(carried, before, ss);
      SubsetIsSmaller(Distinct(carried, before), Distinct(carried, ss));
      TableIsFaithful(carried, before);
      if carried(s).Some? {
        AddKeepsFaithful(carried, before, s, Table(carried, before));
      } else {
        IgnoredKeepsFaithful(carried, before, s, Table(carried, before));
      }
    }
  }

  lemma {:induction false} SubsetIsSmaller<T>(a: set<T>, b: set<T>)
    requires a <= b
    ensures |a| <= |b|
  {
    if a != {} {
      var x :| x in a;
      SubsetIsSmaller(a - {x}, b - {x});
    }
  }

  lemma FaithfulToNothing(carried: Carrier)
    ensures Faithful(carried, [], [])
  {
  }

  lemma IgnoredKeepsFaithful(carried: Carrier, before: seq<Sighting>, s: Sighting, rs: seq<Record>)
    requires Faithful(carried, before, rs) && carried(s).None?
    ensures Faithful(carried, before + [s], rs)
  {
    forall r | r in rs ensures EarliestSighting(carried, before + [s], r) {
      var t :| t in before && carried(t) == Some(Body(r)) && t.seen == r.seenAt;
      assert t in before + [s];
    }
  }

  /** A record already in the table is the one sighted before, under whatever sighting. */
  lemma SameAsSighted(carried: Carrier, before: seq<Sighting>, s: Sighting, r: Record)
    requires Consistent(carried) && SeenAs(carried, before, r) && carried(s).Some?
    ensures SameItem(r, carried(s).value) <==> Body(r) == carried(s).value
  {
    var t :| t in before && carried(t) == Some(Body(r)) && t.seen == r.seenAt;
    assert SameItem(r, carried(s).value) <==> SameItem(carried(t).value, carried(s).value);
  }

  /** Where a sighted record is in the table, if it is: by item and by body alike. */
  lemma FoundByBody(carried: Carrier, before: seq<Sighting>, s: Sighting, rs: seq<Record>)
    requires Consistent(carried) && Faithful(carried, before, rs) && carried(s).Some?
    ensures var rec := carried(s).value;
            var k := FirstSame(rs, rec, 0);
            && (k < |rs| ==> Body(rs[k]) == rec)
            && (forall i :: 0 <= i < |rs| && i != k ==> Body(rs[i]) != rec)
  {
    hide SameItem;
    var rec := carried(s).value;
    var k := FirstSame(rs, rec, 0);
    forall i | 0 <= i < |rs| ensures SameItem(rs[i], rec) <==> Body(rs[i]) == rec {
      assert rs[i] in rs;
      EarliestIsSeen(carried, before, rs[i]);
      SameAsSighted(carried, before, s, rs[i]);
    }
  }

  lemma AddKeepsFaithful(carried: Carrier, before: seq<Sighting>, s: Sighting, rs: seq<Record>)
    requires Consistent(carried) && Faithful(carried, before, rs) && carried(s).Some?
    requires |Distinct(carried, before + [s])| <= MAX_RECORDS
    ensures Faithful(carried, before + [s], AddRecord(rs, carried(s).value, s.seen).records)
  {
    hide EarliestSighting, SameItem, Distinct, Holds;
    var rec := carried(s).value;
    var k := FirstSame(rs, rec, 0);
    FoundByBody(carried, before, s, rs);
    if k == |rs| {
      RoomLeft(carried, before, s, rs);
    }
    var out := AddRecord(rs, rec, s.seen).records;
    AllEarliestAfterAdd(carried, before, s, rs, out);
    AllHeldAfterAdd(carried, before, s, rs, out);
  }

  /** `out` is the table with the sighted record added, or its time brought forward. */
  ghost predicate Folded(rs: seq<Record>, rec: Record, seen: uint64, out: seq<Record>) {
    var k := FirstSame(rs, rec, 0);
    if k == |rs| then out == rs + [rec.(seenAt := seen)]
    else |out| == |rs| && (forall i :: 0 <= i < |rs| && i != k ==> out[i] == rs[i])
         && out[k] == rs[k].(seenAt := if seen < rs[k].seenAt then seen else rs[k].seenAt)
  }

  lemma AllEarliestAfterAdd(carried: Carrier, before: seq<Sighting>, s: Sighting, rs: seq<Record>, out: seq<Record>)
    requires Consistent(carried) && Faithful(carried, before, rs) && carried(s).Some?
    requires Folded(rs, carried(s).value, s.seen, out)
    ensures forall r :: r in out ==> EarliestSighting(carried, before + [s], r)
  {
    hide EarliestSighting, SameItem, Holds;
    var rec := carried(s).value;
    var k := FirstSame(rs, rec, 0);
    FoundByBody(carried, before, s, rs);
    forall i | 0 <= i < |out| ensures EarliestSighting(carried, before + [s], out[i]) {
      if i == k {
        EarliestWithNew(carried, before, s, rs, out[i], if k < |rs| then Some(rs[k]) else None);
      } else {
        assert out[i] in rs;
        EarliestKept(carried, before, s, out[i]);
      }
    }
  }

  lemma AllHeldAfterAdd(carried: Carrier, before: seq<Sighting>, s: Sighting, rs: seq<Record>, out: seq<Record>)
    requires Consistent(carried) && Faithful(carried, before, rs) && carried(s).Some?
    requires Folded(rs, carried(s).value, s.seen, out)
    ensures forall t :: t in before + [s] && carried(t).Some? ==> Holds(out, carried(t).value)
  {
    hide EarliestSighting, SameItem;
    var rec := carried(s).value;
    var k := FirstSame(rs, rec, 0);
    FoundByBody(carried, before, s, rs);
    forall t | t in before + [s] && carried(t).Some? ensures Holds(out, carried(t).value) {
      if carried(t).value == rec {
        assert out[k] in out;
      } else {
        assert t in before;
        assert Holds(rs, carried(t).value);
        var i :| 0 <= i < |rs| && Body(rs[i]) == carried(t).value;
        assert out[i] in out;
      }
    }
  }

  lemma EarliestIsSeen(carried: Carrier, ss: seq<Sighting>, r: Record)
    requires EarliestSighting(carried, ss, r)
    ensures SeenAs(carried, ss, r)
  {
  }

  lemma EarliestKept(carried: Carrier, before: seq<Sighting>, s: Sighting, r: Record)
    requires EarliestSighting(carried, before, r) && carried(s) != Some(Body(r))
    ensures EarliestSighting(carried, before + [s], r)
  {
    var t :| t in before && carried(t) == Some(Body(r)) && t.seen == r.seenAt;
    assert t in before + [s];
  }

  /** The record of the new sighting, with the earlier of its old time (if any) and the new one. */
  lemma EarliestWithNew(carried: Carrier, before: seq<Sighting>, s: Sighting, rs: seq<Record>, r: Record, stored: Option<Record>)
    requires Faithful(carried, before, rs)
    requires carried(s) == Some(Body(r))
    requires stored.Some? ==>
               && stored.value in rs && Body(stored.value) == Body(r)
               && r.seenAt == (if s.seen < stored.value.seenAt then s.seen else stored.value.seenAt)
    requires stored.None? ==> r.seenAt == s.seen && forall q :: q in rs ==> Body(q) != Body(r)
    ensures EarliestSighting(carried, before + [s], r)
  {
    var ss := before + [s];
    if stored.Some? && !(s.seen < stored.value.seenAt) {
      var t :| t in before && carried(t) == Some(Body(r)) && t.seen == r.seenAt;
      assert t in ss;
    } else {
      assert s in ss;
    }
  }

  lemma RoomLeft(carried: Carrier, before: seq<Sighting>, s: Sighting, rs: seq<Record>)
    requires Faithful(carried, before, rs) && carried(s).Some?
    requires forall r :: r in rs ==> Body(r) != carried(s).value
    requires |Distinct(carried, before + [s])| <= MAX_RECORDS
    ensures |rs| < MAX_RECORDS
  {
    var all, rec := Distinct(carried, before + [s]), carried(s).value;
    forall r | r in rs ensures Body(r) in all - {rec} {
      var t :| t in before && carried(t) == Some(Body(r)) && t.seen == r.seenAt;
      assert t in before + [s];
    }
    NoMoreThanDistinct(rs, all - {rec});
    assert rec in all by { assert s in before + [s]; }
  }

  /** Main result. When the distinct records fit the table, it ends up holding each of them at its
      earliest sighting: which records, and with which times, depends on the set of sightings and
      on neither their order nor their repetition. */
  lemma ArrivalOrderDoesNotMatter(cr: Crypto, a: seq<Sighting>, b: seq<Sighting>)
    requires forall s :: s in a <==> s in b
    requires |Distinct(CarrierOf(cr), a)| <= MAX_RECORDS
    ensures forall r :: r in Feed(cr, a) <==> EarliestSighting(CarrierOf(cr), a, r)
    ensures forall r :: r in Feed(cr, a) <==> r in Feed(cr, b)
  {
    hide CarrierOf, Feed, Table, Consistent;
    ParsedIsConsistent(cr);
    FeedIsTable(cr, a);
    FeedIsTable(cr, b);
    TableIgnoresOrder(CarrierOf(cr), a, b);
  }

  lemma TableIgnoresOrder(carried: Carrier, a: seq<Sighting>, b: seq<Sighting>)
    requires Consistent(carried) && forall s :: s in a <==> s in b
    requires |Distinct(carried, a)| <= MAX_RECORDS
    ensures forall r :: r in Table(carried, a) <==> EarliestSighting(carried, a, r)
    ensures forall r :: r in Table(carried, a) <==> r in Table(carried, b)
  {
    hide Consistent, Table, Faithful, EarliestSighting, Distinct;
    assert Distinct(carried, a) == Distinct(carried, b) by { DistinctOfSet(carried, a, b); }
    TableIsFaithful(carried, a);
    TableIsFaithful(carried, b);
    forall r ensures (r in Table(carried, a) <==> EarliestSighting(carried, a, r)) && (r in Table(carried, a) <==> r in Table(carried, b)) {
      HeldIffEarliest(carried, a, Table(carried, a), r);
      HeldIffEarliest(carried, b, Table(carried, b), r);
      EarliestOfSet(carried, a, b, r);
    }
  }

  lemma DistinctOfSet(carried: Carrier, a: seq<Sighting>, b: seq<Sighting>)
    requires forall s :: s in a ==> s in b
    ensures Distinct(carried, a) <= Distinct(carried, b)
    ensures (forall s :: s in b ==> s in a) ==> Distinct(carried, a) == Distinct(carried, b)
  {
  }

  lemma EarliestOfSet(carried: Carrier, a: seq<Sighting>, b: seq<Sighting>, r: Record)
    requires forall s :: s in a <==> s in b
    ensures EarliestSighting(carried, a, r) <==> EarliestSighting(carried, b, r)
  {
  }

  lemma HeldIffEarliest(carried: Carrier, ss: seq<Sighting>, rs: seq<Record>, r: Record)
    requires Faithful(carried, ss, rs)
    ensures r in rs <==> EarliestSighting(carried, ss, r)
  {
    if EarliestSighting(carried, ss, r) {
      var s :| s in ss && carried(s) == Some(Body(r)) && s.seen == r.seenAt;
      assert Holds(rs, carried(s).value);
      var q :| q in rs && Body(q) == carried(s).value;
      assert EarliestSighting(carried, ss, q);
      var t :| t in ss && carried(t) == Some(Body(q)) && t.seen == q.seenAt;
      assert q == r;
    }
  }
}
