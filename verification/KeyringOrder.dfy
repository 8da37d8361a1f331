/**
 When the answers of the key ring depend on the order of its record table: never, for a key certified once
 by keys certified once; otherwise exactly when two accepted records of the key differ in what they allow.
 */
module KeyringOrder {
  import opened Wrappers
  import opened Bytes
  import opened CborReader
  import opened KeyringRules
  import opened KeyringSoundness
  import opened KeyringIngest
  import opened KeyringIntruder
  import opened SampleRecords

  /** No key that signed a record on file is itself certified twice. */
  ghost predicate IssuersCertifiedOnce(kr: Ring) {
    forall r :: r in kr.records ==> CertifiedOnce(kr, r.issuer)
  }

  ghost predicate Reordered(a: Ring, b: Ring) {
    && a.anchors == b.anchors && a.skew == b.skew
    && (forall r :: r in a.records <==> r in b.records)
    && IssuersCertifiedOnce(a)
  }

  lemma {:induction false} NoRecordRefuses(cr: Crypto, kr: Ring, id: Id, depth: nat, rest: seq<Record>, found: bool, last: Reason)
    requires depth < MAX_DEPTH && AnchorOf(kr.anchors, id).None? && last != Ok
    requires forall r :: r in rest ==> r in kr.records && !IsKeyRecordFor(r, id)
    ensures FirstAccepted(cr, kr, id, depth, rest, found, last)
            == Bad(if found then last else if depth > 0 then ChainNotAnchored else KeyUnknown)
    decreases |rest|
  {
    if rest != [] { NoRecordRefuses(cr, kr, id, depth, rest[1..], found, last); }
  }

  lemma SamePub(a: Ring, b: Ring, id: Id)
    requires Reordered(a, b) && CertifiedOnce(a, id)
    ensures PubOf(a, id) == PubOf(b, id)
  {
    hide IssuersCertifiedOnce;
  }

  lemma SameParts(a: Ring, b: Ring, id: Id)
    requires Reordered(a, b)
    ensures a.skew == b.skew && a.anchors == b.anchors
    ensures forall r :: r in a.records <==> r in b.records
    ensures CertifiedOnce(a, id) <==> CertifiedOnce(b, id)
    ensures forall r :: r in a.records ==> CertifiedOnce(a, r.issuer)
  {
  }

  lemma {:induction false} SameChain(cr: Crypto, a: Ring, b: Ring, id: Id, depth: nat)
    requires Reordered(a, b) && CertifiedOnce(a, id)
    ensures ChainOf(cr, a, id, depth) == ChainOf(cr, b, id, depth)
    decreases Levels(depth), 2
  {
    hide FirstAccepted, Judge, Reordered, CertifiedOnce;
    SameParts(a, b, id);
    if AnchorOf(a.anchors, id).None? && depth < MAX_DEPTH {
      if r :| r in a.records && IsKeyRecordFor(r, id) {
        SameJudgement(cr, a, b, r, depth);
        ChainOfOnlyRecord(cr, a, r, id, depth);
        ChainOfOnlyRecord(cr, b, r, id, depth);
      } else {
        NoRecordRefuses(cr, a, id, depth, a.records, false, KeyUnknown);
        NoRecordRefuses(cr, b, id, depth, b.records, false, KeyUnknown);
      }
    }
  }

  lemma {:induction false} SameJudgement(cr: Crypto, a: Ring, b: Ring, r: Record, depth: nat)
    requires Reordered(a, b) && depth < MAX_DEPTH && r in a.records
    ensures Judge(cr, a, r, depth) == Judge(cr, b, r, depth)
    ensures ChainOf(cr, a, r.issuer, depth + 1) == ChainOf(cr, b, r.issuer, depth + 1)
    decreases Levels(depth), 0
  {
    hide ChainOf, RevokedFrom, PubOf, Reordered, CertifiedOnce;
    SameParts(a, b, r.issuer);
    SameChain(cr, a, b, r.issuer, depth + 1);
    SamePub(a, b, r.issuer);
    SameRevocation(cr, a, b, r.issuer, depth + 1);
  }

  lemma {:induction false} SameRevocation(cr: Crypto, a: Ring, b: Ring, id: Id, depth: nat)
    requires Reordered(a, b) && CertifiedOnce(a, id)
    ensures RevokedFrom(cr, a, id, depth) == RevokedFrom(cr, b, id, depth)
    decreases Levels(depth), 1
  {
    hide Revokes, EarliestRevocation, Reordered, CertifiedOnce;
    if depth < MAX_DEPTH {
      SameParts(a, b, id);
      forall r | r in a.records ensures Revokes(cr, a, r, id, depth) <==> Revokes(cr, b, r, id, depth) {
        SameRevoker(cr, a, b, r, id, depth);
      }
      RevokedFromIsEarliest(cr, a, id, depth);
      RevokedFromIsEarliest(cr, b, id, depth);
    }
  }

  lemma {:induction false} SameRevoker(cr: Crypto, a: Ring, b: Ring, r: Record, id: Id, depth: nat)
    requires Reordered(a, b) && CertifiedOnce(a, id) && depth < MAX_DEPTH && r in a.records
    ensures Revokes(cr, a, r, id, depth) <==> Revokes(cr, b, r, id, depth)
    decreases Levels(depth), 0
  {
    hide ChainOf, PubOf, Reordered, Verify, CertifiedOnce;
    SameParts(a, b, r.issuer);
    SameChain(cr, a, b, id, depth + 1);
    SameChain(cr, a, b, r.issuer, depth + 1);
    SamePub(a, b, id);
    SamePub(a, b, r.issuer);
  }

  /** Main result: the same records in another order give the same answer, the reason included, about any
      key certified at most once, when the keys that signed records are. */
  lemma AnswersIgnoreTableOrder(cr: Crypto, a: Ring, b: Ring, id: Id, eid: seq<byte>, t: uint64, role: uint32)
    requires Reordered(a, b) && CertifiedOnce(a, id)
    ensures KeyStatus(cr, a, id, eid, t, role) == KeyStatus(cr, b, id, eid, t, role)
  {
    hide ChainOf, RevokedFrom, Reordered, InWindow, Overlaps, CertifiedOnce;
    SameChain(cr, a, b, id, 0);
    SameRevocation(cr, a, b, id, 0);
    SameParts(a, b, id);
  }

  /** The ring after a run of sightings. */
  function RingOf(cr: Crypto, anchors: seq<Anchor>, ss: seq<Sighting>, skew: uint64): Ring {
    Ring(anchors, Feed(cr, ss), skew)
  }

  ghost predicate SameSightings(a: seq<Sighting>, b: seq<Sighting>) {
    forall s :: s in a <==> s in b
  }

  /** From the octets in: two runs of the same sightings, in any order and with any repeats, answer
      every query about such a key alike. */
  lemma AnswersIgnoreArrivalOrder(cr: Crypto, anchors: seq<Anchor>, skew: uint64, a: seq<Sighting>, b: seq<Sighting>,
                                  id: Id, eid: seq<byte>, t: uint64, role: uint32)
    requires SameSightings(a, b) && |Distinct(CarrierOf(cr), a)| <= MAX_RECORDS
    requires var kr := RingOf(cr, anchors, a, skew); IssuersCertifiedOnce(kr) && CertifiedOnce(kr, id)
    ensures KeyStatus(cr, RingOf(cr, anchors, a, skew), id, eid, t, role) == KeyStatus(cr, RingOf(cr, anchors, b, skew), id, eid, t, role)
  {
    hide KeyStatus, Feed, Distinct, EarliestSighting, CarrierOf, CertifiedOnce, IssuersCertifiedOnce;
    ArrivalOrderDoesNotMatter(cr, a, b);
    AnswersIgnoreTableOrder(cr, RingOf(cr, anchors, a, skew), RingOf(cr, anchors, b, skew), id, eid, t, role);
  }

  // ---- Forgeries do not bring order back -------------------------------------------------------------

  lemma SameForgeries(cr: Crypto, a: Ring, b: Ring, f: Record)
    requires a.anchors == b.anchors && (forall r :: r in a.records <==> r in b.records) && OnePubPerId(a)
    ensures VerifiedByIssuer(cr, a, f) <==> VerifiedByIssuer(cr, b, f)
    ensures OnePubPerId(b)
  {
  }

  /** Main result: forged key records, even for keys already certified, do not make the order matter: when
      the records outside `junk` certify each signer and the queried key at most once, and those inside
      fail under the key on file for their issuer, two runs of the same sightings give the same ok,
      revoked and revoked_from. */
  lemma ForgeriesDoNotBringOrder(cr: Crypto, anchors: seq<Anchor>, skew: uint64, a: seq<Sighting>, b: seq<Sighting>, junk: set<Record>,
                                 id: Id, eid: seq<byte>, t: uint64, role: uint32)
    requires SameSightings(a, b) && |Distinct(CarrierOf(cr), a)| <= MAX_RECORDS
    requires var kr := RingOf(cr, anchors, a, skew);
             var clean := kr.(records := Without(kr.records, junk));
             && OnePubPerId(kr) && (forall f :: f in junk ==> !VerifiedByIssuer(cr, kr, f))
             && IssuersCertifiedOnce(clean) && CertifiedOnce(clean, id)
    ensures var x := KeyStatus(cr, RingOf(cr, anchors, a, skew), id, eid, t, role);
            var y := KeyStatus(cr, RingOf(cr, anchors, b, skew), id, eid, t, role);
            x.ok == y.ok && x.revoked == y.revoked && x.revokedFrom == y.revokedFrom
  {
    hide KeyStatus, Feed, Distinct, EarliestSighting, CarrierOf, CertifiedOnce, IssuersCertifiedOnce, VerifiedByIssuer, OnePubPerId, Without;
    ArrivalOrderDoesNotMatter(cr, a, b);
    var ka, kb := RingOf(cr, anchors, a, skew), RingOf(cr, anchors, b, skew);
    var ca, cb := ka.(records := Without(ka.records, junk)), kb.(records := Without(kb.records, junk));
    forall f | f in junk ensures !VerifiedByIssuer(cr, kb, f) { SameForgeries(cr, ka, kb, f); }
    SameForgeries(cr, ka, kb, BlankRecord(false, [], []));
    ForgeriesAreInert(cr, ca, ka, junk, id, eid, t, role);
    ForgeriesAreInert(cr, cb, kb, junk, id, eid, t, role);
    AnswersIgnoreTableOrder(cr, ca, cb, id, eid, t, role);
  }

  // ---- A key certified more than once ----------------------------------------------------------------

  /** A key record for this id that passes every test. */
  predicate Accepted(cr: Crypto, kr: Ring, id: Id, r: Record) {
    r in kr.records && IsKeyRecordFor(r, id) && Judge(cr, kr, r, 0) == Ok
  }

  /** What a key record allows its key to sign. */
  predicate Allows(skew: uint64, r: Record, eid: seq<byte>, t: uint64, role: uint32) {
    r.subject == eid && Overlaps(r.roles, role) && InWindow(skew, r, t)
  }

  function Opens(skew: uint64, r: Record): nat {
    if r.notBefore > skew then r.notBefore - skew else 0
  }

  function Closes(skew: uint64, r: Record): nat {
    (r.notAfter + skew) % TWO_64
  }

  /** It allows something. */
  predicate Usable(skew: uint64, r: Record) {
    Opens(skew, r) <= Closes(skew, r) && r.roles > 0
  }

  /** The same subject, roles and window; or neither allows anything. */
  predicate Agree(skew: uint64, r: Record, s: Record) {
    || (!Usable(skew, r) && !Usable(skew, s))
    || (r.subject == s.subject && r.roles == s.roles && Opens(skew, r) == Opens(skew, s) && Closes(skew, r) == Closes(skew, s))
  }

  lemma {:induction false} OverlapsItself(a: nat)
    requires a > 0
    ensures Overlaps(a, a)
  {
    if a % 2 == 0 { OverlapsItself(a / 2); }
  }

  lemma OverlapsTwice(a: nat, x: nat)
    requires x > 0
    ensures Overlaps(a, 2 * x) <==> Overlaps(a / 2, x)
  {
  }

  function Pow2(n: nat): (p: nat)
    ensures p > 0
  {
    if n == 0 then 1 else 2 * Pow2(n - 1)
  }

  /** Numbers that overlap the same numbers are the same. */
  lemma {:induction false} SameOverlapsSameRoles(a: nat, b: nat, width: nat)
    requires a < Pow2(width) && b < Pow2(width)
    requires forall x: nat :: x < Pow2(width) ==> (Overlaps(a, x) <==> Overlaps(b, x))
    ensures a == b
  {
    if width > 0 {
      assert Overlaps(a, 1) <==> Overlaps(b, 1);
      LowBit(a);
      LowBit(b);
      forall x: nat | x < Pow2(width - 1) ensures Overlaps(a / 2, x) <==> Overlaps(b / 2, x) {
        if x > 0 {
          assert Overlaps(a, 2 * x) <==> Overlaps(b, 2 * x);
          OverlapsTwice(a, x);
          OverlapsTwice(b, x);
        }
      }
      SameOverlapsSameRoles(a / 2, b / 2, width - 1);
    }
  }

  lemma LowBit(a: nat)
    ensures Overlaps(a, 1) <==> a % 2 == 1
  {
    assert !Overlaps(a / 2, 0);
  }

  lemma Pow2Of32()
    ensures Pow2(32) == 0x1_0000_0000
  {
    assert Pow2(8) == 256 by { assert Pow2(4) == 16; }
    assert Pow2(16) == 65536 by { assert Pow2(12) == 4096; }
    assert Pow2(24) == 16777216 by { assert Pow2(20) == 1048576; }
    assert Pow2(28) == 268435456;
  }

  lemma AllowsMeans(skew: uint64, r: Record, eid: seq<byte>, t: uint64, role: uint32)
    ensures Allows(skew, r, eid, t, role)
            <==> r.subject == eid && Overlaps(r.roles, role) && Opens(skew, r) <= t <= Closes(skew, r)
  {
  }

  lemma RolesNeeded(a: nat, b: nat)
    ensures Overlaps(a, b) ==> a > 0
  {
  }

  /** What one allows the other does only if subject and window say so. */
  lemma AllowedWithin(skew: uint64, r: Record, s: Record)
    requires forall eid: seq<byte>, t: uint64, role: uint32 :: Allows(skew, r, eid, t, role) <==> Allows(skew, s, eid, t, role)
    requires Usable(skew, r)
    ensures Usable(skew, s) && r.subject == s.subject
    ensures Opens(skew, s) <= Opens(skew, r) && Closes(skew, r) <= Closes(skew, s)
  {
    hide Overlaps, Allows;
    OverlapsItself(r.roles);
    RolesNeeded(s.roles, r.roles);
    AllowsMeans(skew, r, r.subject, Opens(skew, r), r.roles);
    AllowsMeans(skew, s, r.subject, Opens(skew, r), r.roles);
    AllowsMeans(skew, r, r.subject, Closes(skew, r), r.roles);
    AllowsMeans(skew, s, r.subject, Closes(skew, r), r.roles);
  }

  /** Two records agree exactly when they allow the same signatures. */
  lemma AgreeIffAllowSame(skew: uint64, r: Record, s: Record)
    ensures Agree(skew, r, s)
            <==> forall eid: seq<byte>, t: uint64, role: uint32 :: Allows(skew, r, eid, t, role) <==> Allows(skew, s, eid, t, role)
  {
    hide Overlaps, Allows;
    if Agree(skew, r, s) {
      forall eid: seq<byte>, t: uint64, role: uint32 ensures Allows(skew, r, eid, t, role) <==> Allows(skew, s, eid, t, role) {
        AllowsMeans(skew, r, eid, t, role);
        AllowsMeans(skew, s, eid, t, role);
        RolesNeeded(r.roles, role);
        RolesNeeded(s.roles, role);
      }
    } else if forall eid: seq<byte>, t: uint64, role: uint32 :: Allows(skew, r, eid, t, role) <==> Allows(skew, s, eid, t, role) {
      if Usable(skew, r) { AllowedWithin(skew, r, s); }
      if Usable(skew, s) { AllowedWithin(skew, s, r); }
      Pow2Of32();
      forall x: nat | x < Pow2(32) ensures Overlaps(r.roles, x) <==> Overlaps(s.roles, x) {
        AllowsMeans(skew, r, r.subject, Opens(skew, r), x);
        AllowsMeans(skew, s, r.subject, Opens(skew, r), x);
      }
      SameOverlapsSameRoles(r.roles, s.roles, 32);
    }
  }

  ghost predicate SomeAccepted(cr: Crypto, kr: Ring, id: Id, rest: seq<Record>) {
    exists r :: r in rest && Accepted(cr, kr, id, r)
  }

  /** The loop stops at an accepted record, and only where there is none does it find none. */
  lemma {:induction false} StopsAtAccepted(cr: Crypto, kr: Ring, id: Id, rest: seq<Record>, found: bool, last: Reason)
    requires AnchorOf(kr.anchors, id).None? && last != Ok
    requires forall r :: r in rest ==> r in kr.records
    ensures var c := FirstAccepted(cr, kr, id, 0, rest, found, last);
            && (c.Good? <==> SomeAccepted(cr, kr, id, rest))
            && (c.Good? ==> c.rec.Some? && c.rec.value in rest && Accepted(cr, kr, id, c.rec.value))
    decreases |rest|
  {
    hide ChainOf, Judge;
    if rest != [] {
      var r := rest[0];
      var verdict := Judge(cr, kr, r, 0);
      if IsKeyRecordFor(r, id) && verdict == Ok {
        assert Accepted(cr, kr, id, r);
      } else {
        StopsAtAccepted(cr, kr, id, rest[1..], found || IsKeyRecordFor(r, id), if IsKeyRecordFor(r, id) then verdict else last);
        assert rest == [r] + rest[1..];
        assert SomeAccepted(cr, kr, id, rest) <==> SomeAccepted(cr, kr, id, rest[1..]);
      }
    }
  }

  /** A key that is no anchor is ok exactly when the first of its accepted records allows it. */
  lemma OkIsAllowed(cr: Crypto, kr: Ring, id: Id) returns (first: Option<Record>)
    requires AnchorOf(kr.anchors, id).None?
    ensures first.Some? <==> SomeAccepted(cr, kr, id, kr.records)
    ensures first.Some? ==> Accepted(cr, kr, id, first.value)
    ensures first.Some? && Accepted(cr, kr, id, kr.records[0]) ==> first == Some(kr.records[0])
    ensures forall eid: seq<byte>, t: uint64, role: uint32 ::
              KeyStatus(cr, kr, id, eid, t, role).ok <==> first.Some? && Allows(kr.skew, first.value, eid, t, role)
  {
    hide Judge, RevokedFrom, InWindow, Overlaps;
    StopsAtAccepted(cr, kr, id, kr.records, false, KeyUnknown);
    var c := ChainOf(cr, kr, id, 0);
    first := if c.Good? then c.rec else None;
  }

  lemma SameAccepted(cr: Crypto, a: Ring, b: Ring, id: Id, r: Record)
    requires Reordered(a, b)
    ensures Accepted(cr, a, id, r) <==> Accepted(cr, b, id, r)
  {
    hide Judge, Reordered, CertifiedOnce;
    SameParts(a, b, id);
    if r in a.records { SameJudgement(cr, a, b, r, 0); }
  }

  // ---- Any record can come first ------------------------------------------------------------------------

  lemma AddKeepsFirst(rs: seq<Record>, rec: Record, seen: uint64)
    requires rs != []
    ensures AddRecord(rs, rec, seen).records != [] && Body(AddRecord(rs, rec, seen).records[0]) == Body(rs[0])
  {
    hide SameItem;
  }

  lemma {:induction false} FirstStays(cr: Crypto, s: Sighting, ss: seq<Sighting>)
    requires Carried(cr, s).Some?
    ensures Feed(cr, [s] + ss) != [] && Body(Feed(cr, [s] + ss)[0]) == Carried(cr, s).value
    decreases |ss|
  {
    hide AddRecord, ParseItem;
    if ss == [] {
      assert [s] + ss == [s] && Feed(cr, [s][..0]) == [];
      AddItemIsAdd(cr, [], s);
      FirstRecord(Carried(cr, s).value, s.seen);
    } else {
      var before, last := ss[..|ss| - 1], ss[|ss| - 1];
      FirstStays(cr, s, before);
      assert ([s] + ss)[..|ss|] == [s] + before && ([s] + ss)[|ss|] == last;
      if Carried(cr, last).Some? {
        AddItemIsAdd(cr, Feed(cr, [s] + before), last);
        AddKeepsFirst(Feed(cr, [s] + before), Carried(cr, last).value, last.seen);
      }
    }
  }

  lemma FirstRecord(rec: Record, seen: uint64)
    ensures AddRecord([], rec, seen).records == [rec.(seenAt := seen)]
  {
  }

  /** Sighted first of all, and at its earliest, a record leads the table. */
  lemma SightedFirstLeads(cr: Crypto, ss: seq<Sighting>, r: Record) returns (ss': seq<Sighting>)
    requires |Distinct(CarrierOf(cr), ss)| <= MAX_RECORDS && r in Feed(cr, ss)
    ensures SameSightings(ss, ss') && Feed(cr, ss') != [] && Feed(cr, ss')[0] == r
  {
    hide Feed, Distinct, Carried;
    ArrivalOrderDoesNotMatter(cr, ss, ss);
    assert EarliestSighting(CarrierOf(cr), ss, r);
    var s :| s in ss && CarrierOf(cr)(s) == Some(Body(r)) && s.seen == r.seenAt;
    ss' := [s] + ss;
    FirstStays(cr, s, ss);
    ArrivalOrderDoesNotMatter(cr, ss, ss');
    var first := Feed(cr, ss')[0];
    assert first in Feed(cr, ss');
    SameEarliest(CarrierOf(cr), ss, first, r);
  }

  lemma SameEarliest(carried: Carrier, ss: seq<Sighting>, a: Record, b: Record)
    requires EarliestSighting(carried, ss, a) && EarliestSighting(carried, ss, b) && Body(a) == Body(b)
    ensures a == b
  {
    var s :| s in ss && carried(s) == Some(Body(a)) && s.seen == a.seenAt;
    var t :| t in ss && carried(t) == Some(Body(b)) && t.seen == b.seenAt;
    assert a == Body(a).(seenAt := a.seenAt) && b == Body(b).(seenAt := b.seenAt);
  }

  // ---- When order matters -----------------------------------------------------------------------------------

  /** Every order of the sightings says ok to the same queries about the key. */
  ghost predicate OkIgnoresOrder(cr: Crypto, anchors: seq<Anchor>, ss: seq<Sighting>, skew: uint64, id: Id) {
    forall other: seq<Sighting>, eid: seq<byte>, t: uint64, role: uint32 :: SameSightings(ss, other) ==>
      KeyStatus(cr, RingOf(cr, anchors, other, skew), id, eid, t, role).ok
      == KeyStatus(cr, RingOf(cr, anchors, ss, skew), id, eid, t, role).ok
  }

  /** All accepted records of the key agree on what it may sign. */
  ghost predicate AcceptedAgree(cr: Crypto, kr: Ring, id: Id) {
    forall r, s :: Accepted(cr, kr, id, r) && Accepted(cr, kr, id, s) ==> Agree(kr.skew, r, s)
  }

  lemma ReorderedByArrival(cr: Crypto, anchors: seq<Anchor>, ss: seq<Sighting>, other: seq<Sighting>, skew: uint64)
    requires SameSightings(ss, other) && |Distinct(CarrierOf(cr), ss)| <= MAX_RECORDS
    requires IssuersCertifiedOnce(RingOf(cr, anchors, ss, skew))
    ensures Reordered(RingOf(cr, anchors, ss, skew), RingOf(cr, anchors, other, skew))
  {
    hide Feed, Distinct, EarliestSighting, CarrierOf, IssuersCertifiedOnce;
    ArrivalOrderDoesNotMatter(cr, ss, other);
  }

  lemma AgreedOkIgnoresOrder(cr: Crypto, anchors: seq<Anchor>, ss: seq<Sighting>, other: seq<Sighting>, skew: uint64, id: Id)
    requires SameSightings(ss, other) && |Distinct(CarrierOf(cr), ss)| <= MAX_RECORDS && AnchorOf(anchors, id).None?
    requires var kr := RingOf(cr, anchors, ss, skew); IssuersCertifiedOnce(kr) && AcceptedAgree(cr, kr, id)
    ensures forall eid: seq<byte>, t: uint64, role: uint32 ::
              KeyStatus(cr, RingOf(cr, anchors, other, skew), id, eid, t, role).ok
              == KeyStatus(cr, RingOf(cr, anchors, ss, skew), id, eid, t, role).ok
  {
    hide KeyStatus, Feed, Distinct, CarrierOf, IssuersCertifiedOnce, Accepted, Reordered, Agree, Allows;
    var a, b := RingOf(cr, anchors, ss, skew), RingOf(cr, anchors, other, skew);
    ReorderedByArrival(cr, anchors, ss, other, skew);
    var x := OkIsAllowed(cr, a, id);
    var y := OkIsAllowed(cr, b, id);
    forall r ensures Accepted(cr, a, id, r) <==> Accepted(cr, b, id, r) { SameAccepted(cr, a, b, id, r); }
    SameParts(a, b, id);
    if x.Some? && y.Some? { AgreeIffAllowSame(skew, x.value, y.value); }
  }

  lemma IgnoringOrderTheyAgree(cr: Crypto, anchors: seq<Anchor>, ss: seq<Sighting>, skew: uint64, id: Id, r: Record, s: Record)
    requires |Distinct(CarrierOf(cr), ss)| <= MAX_RECORDS && AnchorOf(anchors, id).None?
    requires IssuersCertifiedOnce(RingOf(cr, anchors, ss, skew)) && OkIgnoresOrder(cr, anchors, ss, skew, id)
    requires Accepted(cr, RingOf(cr, anchors, ss, skew), id, r) && Accepted(cr, RingOf(cr, anchors, ss, skew), id, s)
    ensures Agree(skew, r, s)
  {
    hide KeyStatus, Feed, Distinct, CarrierOf, IssuersCertifiedOnce, Judge, Reordered, Agree, Allows;
    var p := SightedFirstLeads(cr, ss, r);
    var q := SightedFirstLeads(cr, ss, s);
    ReorderedByArrival(cr, anchors, ss, p, skew);
    ReorderedByArrival(cr, anchors, ss, q, skew);
    SameAccepted(cr, RingOf(cr, anchors, ss, skew), RingOf(cr, anchors, p, skew), id, r);
    SameAccepted(cr, RingOf(cr, anchors, ss, skew), RingOf(cr, anchors, q, skew), id, s);
    var x := OkIsAllowed(cr, RingOf(cr, anchors, p, skew), id);
    var y := OkIsAllowed(cr, RingOf(cr, anchors, q, skew), id);
    assert r in RingOf(cr, anchors, p, skew).records && s in RingOf(cr, anchors, q, skew).records;
    assert x == Some(r) && y == Some(s);
    forall eid: seq<byte>, t: uint64, role: uint32 ensures Allows(skew, r, eid, t, role) <==> Allows(skew, s, eid, t, role) {
      var was := KeyStatus(cr, RingOf(cr, anchors, ss, skew), id, eid, t, role);
      assert KeyStatus(cr, RingOf(cr, anchors, p, skew), id, eid, t, role).ok == was.ok;
      assert KeyStatus(cr, RingOf(cr, anchors, q, skew), id, eid, t, role).ok == was.ok;
    }
    AgreeIffAllowSame(skew, r, s);
  }

  lemma AnchorsOkIgnoresRecords(cr: Crypto, a: Ring, b: Ring, id: Id, eid: seq<byte>, t: uint64, role: uint32)
    requires a.anchors == b.anchors && AnchorOf(a.anchors, id).Some?
    ensures KeyStatus(cr, a, id, eid, t, role).ok == KeyStatus(cr, b, id, eid, t, role).ok
  {
    hide RevokedFrom;
  }

  /** Main result: the exact condition. When the keys that signed records are certified once, every order
      of the sightings says ok to the same queries about a key exactly when it is an anchor or its
      accepted records agree on subject, roles and window. */
  lemma OrderMattersUnlessAgreed(cr: Crypto, anchors: seq<Anchor>, ss: seq<Sighting>, skew: uint64, id: Id)
    requires |Distinct(CarrierOf(cr), ss)| <= MAX_RECORDS
    requires IssuersCertifiedOnce(RingOf(cr, anchors, ss, skew))
    ensures OkIgnoresOrder(cr, anchors, ss, skew, id)
            <==> AnchorOf(anchors, id).Some? || AcceptedAgree(cr, RingOf(cr, anchors, ss, skew), id)
  {
    hide KeyStatus, Feed, Distinct, CarrierOf, IssuersCertifiedOnce, Accepted, Agree;
    var kr := RingOf(cr, anchors, ss, skew);
    if AnchorOf(anchors, id).Some? {
      forall other: seq<Sighting>, eid: seq<byte>, t: uint64, role: uint32 | SameSightings(ss, other)
        ensures KeyStatus(cr, RingOf(cr, anchors, other, skew), id, eid, t, role).ok == KeyStatus(cr, kr, id, eid, t, role).ok
      {
        AnchorsOkIgnoresRecords(cr, RingOf(cr, anchors, other, skew), kr, id, eid, t, role);
      }
    } else if AcceptedAgree(cr, kr, id) {
      forall other: seq<Sighting> | SameSightings(ss, other)
        ensures forall eid: seq<byte>, t: uint64, role: uint32 ::
          KeyStatus(cr, RingOf(cr, anchors, other, skew), id, eid, t, role).ok == KeyStatus(cr, kr, id, eid, t, role).ok
      {
        AgreedOkIgnoresOrder(cr, anchors, ss, other, skew, id);
      }
    } else if OkIgnoresOrder(cr, anchors, ss, skew, id) {
      var r, s :| Accepted(cr, kr, id, r) && Accepted(cr, kr, id, s) && !Agree(skew, r, s);
      IgnoringOrderTheyAgree(cr, anchors, ss, skew, id, r, s);
    }
  }

  // ---- An input on which the order matters -----------------------------------------------------------------

  /** The two certificates of key 1 by anchor 9, for custody and for issuing. */
  function Certificate(roles: uint32): Sighting {
    Sighting(IssuedKey(1, roles, 9), 10)
  }

  function OneAnchor(): seq<Anchor> {
    [Anchor(Pub(9), IdOf(9), [])]
  }

  lemma TwoCertificates(x: uint32, y: uint32)
    requires x in {ROLE_CUSTODY, ROLE_ISSUE} && y in {ROLE_CUSTODY, ROLE_ISSUE} && x != y
    ensures Feed(SampleCrypto(), [Certificate(x), Certificate(y)]) == [KeyRecord(1, x, 9), KeyRecord(1, y, 9)]
  {
    hide IssuedKey, KeyRecord, Carried, Feed, SampleCrypto;
    IssuedKeyIsCarried(1, x, 9);
    IssuedKeyIsCarried(1, y, 9);
    DifferentRecordsDiffer(Certificate(x), Certificate(y), KeyRecord(1, x, 9), KeyRecord(1, y, 9));
    FeedOfDifferent(SampleCrypto(), [Certificate(x), Certificate(y)], [KeyRecord(1, x, 9), KeyRecord(1, y, 9)]);
  }

  /** The first accepted record decides: a key certified once for custody and once for issuing may sign
      custody records or may not, depending on which certificate arrived first. */
  lemma TwoKeyRecordsDependOnOrder()
    ensures var cr, custody, issue := SampleCrypto(), Certificate(ROLE_CUSTODY), Certificate(ROLE_ISSUE);
            && KeyStatus(cr, RingOf(cr, OneAnchor(), [custody, issue], 0), IdOf(1), [], 50, ROLE_CUSTODY).ok
            && KeyStatus(cr, RingOf(cr, OneAnchor(), [issue, custody], 0), IdOf(1), [], 50, ROLE_CUSTODY) == Refused(KeyLacksRole)
  {
    hide IssuedKey, KeyRecord, Feed, SampleCrypto, ChainOf, RevokedFrom;
    TwoCertificates(ROLE_CUSTODY, ROLE_ISSUE);
    TwoCertificates(ROLE_ISSUE, ROLE_CUSTODY);
    FirstWins(ROLE_CUSTODY, ROLE_ISSUE);
    FirstWins(ROLE_ISSUE, ROLE_CUSTODY);
    assert Overlaps(1, 1);
    assert !Overlaps(2, 1) by { assert !Overlaps(1, 0); }
  }

  lemma FirstWins(x: uint32, y: uint32)
    ensures var c := ChainOf(SampleCrypto(), Ring(OneAnchor(), [KeyRecord(1, x, 9), KeyRecord(1, y, 9)], 0), IdOf(1), 0);
            c.Good? && c.rec == Some(KeyRecord(1, x, 9))
  {
    hide RevokedFrom, KeyRecord, Pub, IdOf;
    var cr, kr := SampleCrypto(), Ring(OneAnchor(), [KeyRecord(1, x, 9), KeyRecord(1, y, 9)], 0);
    var r := kr.records[0];
    assert AnchorOf(kr.anchors, IdOf(9)) == Some(0) by { assert kr.anchors[0].id == IdOf(9); }
    assert AnchorOf(kr.anchors, IdOf(1)).None? by { assert IdOf(1)[0] != IdOf(9)[0]; }
    assert Overlaps(ALL_ROLES, ROLE_ISSUE) by { assert Overlaps(3, 1); }
    assert VerifiedByIssuer(cr, kr, r);
    RevokedFromIsEarliest(cr, kr, IdOf(9), 1);
    assert RevokedFrom(cr, kr, IdOf(9), 1) == NONE by {
      forall q | q in kr.records ensures !Revokes(cr, kr, q, IdOf(9), 1) { }
    }
    assert Judge(cr, kr, r, 0) == Ok;
  }
}
