/** Where the depth limit of flight/keyring.c is felt: the issuers of a key with the longest chain cannot
    revoke it, and such a key, given the revoke role, can revoke nothing by it. */
module KeyringDepth {
  import opened Wrappers
  import opened Bytes
  import opened CborReader
  import opened KeyringRules
  import opened KeyringSoundness
  import opened KeyringIngest
  import opened SampleRecords

  /** Rule 3 of spec/KEY-RECORDS.md lets every key in the issuing chain revoke. `revoked_from`
      looks for the chain one level deeper than `chain_of` found it, so for a key at the end of a
      chain of six records it finds none, and no one but the key itself and the anchors can
      revoke it. */
  lemma LongestChainIgnoresIssuers(cr: Crypto, kr: Ring, id: Id, signer: Id)
    requires OneKeyRecordPerId(kr) && AnchorOf(kr.anchors, id).None?
    requires ChainOf(cr, kr, id, 0).Good? && |ChainOf(cr, kr, id, 0).chain| == MAX_DEPTH + 1
    ensures MayRevoke(cr, kr, signer, id, 0) <==> signer == id || AnchorOf(kr.anchors, signer).Some?
  {
    hide Vouches, FirstAccepted;
    var path := AcceptedKeyIsVouchedFor(cr, kr, id, 0);
    if ChainOf(cr, kr, id, 1).Good? {
      var shorter := AcceptedKeyIsVouchedFor(cr, kr, id, 1);
      OnePathPerKey(cr, kr, id, path, shorter, 0, 1);
      assert false;
    }
  }

  /** In general an issuer in the chain, short of the anchor, may revoke exactly when the chain is
      found again one level deeper. */
  lemma IssuerMayRevokeIff(cr: Crypto, kr: Ring, id: Id, signer: Id)
    requires OneKeyRecordPerId(kr) && ChainOf(cr, kr, id, 0).Good?
    requires signer in ChainOf(cr, kr, id, 0).chain
    requires signer != id && AnchorOf(kr.anchors, signer).None?
    ensures MayRevoke(cr, kr, signer, id, 0) <==> ChainOf(cr, kr, id, 1).Good?
  {
    hide Vouches, FirstAccepted;
    if ChainOf(cr, kr, id, 1).Good? {
      var p := AcceptedKeyIsVouchedFor(cr, kr, id, 0);
      var q := AcceptedKeyIsVouchedFor(cr, kr, id, 1);
      OnePathPerKey(cr, kr, id, p, q, 0, 1);
    }
  }

  /** A chain ends at the anchor it answers to. */
  lemma {:induction false} AnchorEndsChain(cr: Crypto, kr: Ring, id: Id, depth: nat)
    requires ChainOf(cr, kr, id, depth).Good?
    ensures var c := ChainOf(cr, kr, id, depth); AnchorOf(kr.anchors, c.chain[|c.chain| - 1]) == Some(c.anchor)
    decreases Levels(depth)
  {
    hide RevokedFrom, FirstAccepted, InWindow, Overlaps, Verify, Vouches;
    if AnchorOf(kr.anchors, id).None? {
      AcceptedRecord(cr, kr, id, depth, kr.records, false, KeyUnknown);
      var issuer := ChainOf(cr, kr, id, depth).rec.value.issuer;
      AnchorEndsChain(cr, kr, issuer, depth + 1);
      var up := AcceptedKeyIsVouchedFor(cr, kr, issuer, depth + 1);
    }
  }

  /** Found at two depths, a key has the same chain, anchor and roles. */
  lemma SameAtBothDepths(cr: Crypto, kr: Ring, id: Id, d: nat, e: nat)
    requires OneKeyRecordPerId(kr) && ChainOf(cr, kr, id, d).Good? && ChainOf(cr, kr, id, e).Good?
    ensures ChainOf(cr, kr, id, d) == ChainOf(cr, kr, id, e)
  {
    hide Vouches, ChainOf;
    var p := AcceptedKeyIsVouchedFor(cr, kr, id, d);
    var q := AcceptedKeyIsVouchedFor(cr, kr, id, e);
    OnePathPerKey(cr, kr, id, p, q, d, e);
    AnchorEndsChain(cr, kr, id, d);
    AnchorEndsChain(cr, kr, id, e);
  }

  /** Nor may every key with the revoke role under the same anchor: exactly when both it and the key to be
      revoked are found again one level deeper. */
  lemma RoleMayRevokeIff(cr: Crypto, kr: Ring, id: Id, signer: Id)
    requires OneKeyRecordPerId(kr) && ChainOf(cr, kr, id, 0).Good? && ChainOf(cr, kr, signer, 0).Good?
    requires var c, s := ChainOf(cr, kr, id, 0), ChainOf(cr, kr, signer, 0);
             Overlaps(s.roles, ROLE_REVOKE) && s.anchor == c.anchor && signer !in c.chain
    requires signer != id && AnchorOf(kr.anchors, signer).None?
    ensures MayRevoke(cr, kr, signer, id, 0) <==> ChainOf(cr, kr, id, 1).Good? && ChainOf(cr, kr, signer, 1).Good?
  {
    hide FirstAccepted, Overlaps, ChainOf;
    if ChainOf(cr, kr, id, 1).Good? { SameAtBothDepths(cr, kr, id, 0, 1); }
    if ChainOf(cr, kr, signer, 1).Good? { SameAtBothDepths(cr, kr, signer, 0, 1); }
  }

  // ---- Where nothing else decides it, the length of the chain does ------------------------------------------

  /** No revocation of any of these keys on file verifies. */
  ghost predicate NoneRevoked(cr: Crypto, kr: Ring, ids: seq<Id>) {
    forall r :: r in kr.records && r.kind == 2 && r.target in ids ==> !VerifiedByIssuer(cr, kr, r)
  }

  lemma NeverRevoked(cr: Crypto, kr: Ring, id: Id, depth: nat)
    requires NoneRevoked(cr, kr, [id])
    ensures RevokedFrom(cr, kr, id, depth) == NONE
  {
    hide EarliestRevocation, MayRevoke, VerifiedByIssuer;
    if depth < MAX_DEPTH {
      RevokedFromIsEarliest(cr, kr, id, depth);
      forall r | r in kr.records ensures !Revokes(cr, kr, r, id, depth) {
      }
    }
  }

  /** Then the levels left do not matter to who vouches. */
  lemma {:induction false} VouchesAtAnyDepth(cr: Crypto, kr: Ring, id: Id, path: seq<Record>, d: nat, e: nat)
    requires Vouches(cr, kr, id, path, d) && NoneRevoked(cr, kr, Ids(id, path)[1..])
    ensures Vouches(cr, kr, id, path, e)
    decreases |path|
  {
    hide RevokedFrom, InWindow, Overlaps, VerifiedByIssuer;
    if path != [] {
      var ids, up := Ids(id, path)[1..], Ids(path[0].issuer, path[1..]);
      assert ids == up && up[0] == path[0].issuer;
      assert path[0].issuer in ids && forall i :: i in up[1..] ==> i in ids;
      NeverRevoked(cr, kr, path[0].issuer, d + 1);
      NeverRevoked(cr, kr, path[0].issuer, e + 1);
      VouchesAtAnyDepth(cr, kr, path[0].issuer, path[1..], d + 1, e + 1);
    }
  }

  /** Where no revocation of its issuers is on file, an accepted key is found again one level deeper exactly
      when its chain has at most six ids. */
  lemma FoundAgainIffShort(cr: Crypto, kr: Ring, id: Id)
    requires OneKeyRecordPerId(kr) && ChainOf(cr, kr, id, 0).Good?
    requires NoneRevoked(cr, kr, ChainOf(cr, kr, id, 0).chain[1..])
    ensures ChainOf(cr, kr, id, 1).Good? <==> |ChainOf(cr, kr, id, 0).chain| <= MAX_DEPTH
  {
    hide Vouches, ChainOf, OneKeyRecordPerId, NoneRevoked;
    var path := AcceptedKeyIsVouchedFor(cr, kr, id, 0);
    if |path| <= MAX_DEPTH - 1 {
      VouchesAtAnyDepth(cr, kr, id, path, 0, 1);
      VouchedForKeyIsAccepted(cr, kr, id, path, 1);
    }
    if ChainOf(cr, kr, id, 1).Good? {
      var shorter := AcceptedKeyIsVouchedFor(cr, kr, id, 1);
      OnePathPerKey(cr, kr, id, path, shorter, 0, 1);
    }
  }

  /** Then rule 3 fails for a key's issuers exactly when its chain has seven ids. */
  lemma IssuerMayRevokeIffShort(cr: Crypto, kr: Ring, id: Id, signer: Id)
    requires OneKeyRecordPerId(kr) && ChainOf(cr, kr, id, 0).Good?
    requires signer in ChainOf(cr, kr, id, 0).chain && signer != id && AnchorOf(kr.anchors, signer).None?
    requires NoneRevoked(cr, kr, ChainOf(cr, kr, id, 0).chain[1..])
    ensures MayRevoke(cr, kr, signer, id, 0) <==> |ChainOf(cr, kr, id, 0).chain| <= MAX_DEPTH
  {
    hide ChainOf, MayRevoke, OneKeyRecordPerId, NoneRevoked;
    IssuerMayRevokeIff(cr, kr, id, signer);
    FoundAgainIffShort(cr, kr, id);
  }

  /** And for a key with the revoke role exactly when its chain or that of the key to be revoked has. */
  lemma RoleMayRevokeIffShort(cr: Crypto, kr: Ring, id: Id, signer: Id)
    requires OneKeyRecordPerId(kr) && ChainOf(cr, kr, id, 0).Good? && ChainOf(cr, kr, signer, 0).Good?
    requires var c, s := ChainOf(cr, kr, id, 0), ChainOf(cr, kr, signer, 0);
             && Overlaps(s.roles, ROLE_REVOKE) && s.anchor == c.anchor && signer !in c.chain
             && NoneRevoked(cr, kr, c.chain[1..]) && NoneRevoked(cr, kr, s.chain[1..])
    requires signer != id && AnchorOf(kr.anchors, signer).None?
    ensures MayRevoke(cr, kr, signer, id, 0)
            <==> |ChainOf(cr, kr, id, 0).chain| <= MAX_DEPTH && |ChainOf(cr, kr, signer, 0).chain| <= MAX_DEPTH
  {
    hide ChainOf, MayRevoke, OneKeyRecordPerId, NoneRevoked, Overlaps;
    RoleMayRevokeIff(cr, kr, id, signer);
    FoundAgainIffShort(cr, kr, id);
    FoundAgainIffShort(cr, kr, signer);
  }

  lemma MiddleId(id: Id, path: seq<Record>, k: nat)
    requires k <= |path|
    ensures Ids(id, path)[k] == if k == 0 then id else Ids(path[0].issuer, path[1..])[k - 1]
  {
  }

  lemma VouchedTail(cr: Crypto, kr: Ring, id: Id, path: seq<Record>, depth: nat)
    requires Vouches(cr, kr, id, path, depth) && path != []
    ensures Vouches(cr, kr, path[0].issuer, path[1..], depth + 1)
  {
    hide RevokedFrom, InWindow, Overlaps, Verify, PubOf;
  }

  /** A key in the middle of a chain is vouched for by the rest of it. */
  lemma {:induction false} VouchedFromMiddle(cr: Crypto, kr: Ring, id: Id, path: seq<Record>, depth: nat, k: nat)
    requires Vouches(cr, kr, id, path, depth) && k <= |path|
    ensures Vouches(cr, kr, Ids(id, path)[k], path[k..], depth + k)
    decreases k
  {
    hide Vouches, Ids;
    MiddleId(id, path, k);
    if k == 0 {
      assert path[0..] == path;
    } else {
      VouchedTail(cr, kr, id, path, depth);
      VouchedFromMiddle(cr, kr, path[0].issuer, path[1..], depth + 1, k - 1);
      assert path[1..][k - 1..] == path[k..];
    }
  }

  /** So a key at the end of a chain of six records can revoke no key but itself, whatever its roles. */
  lemma LongestSignerRevokesOnlyItself(cr: Crypto, kr: Ring, id: Id, signer: Id)
    requires OneKeyRecordPerId(kr) && AnchorOf(kr.anchors, signer).None?
    requires ChainOf(cr, kr, signer, 0).Good? && |ChainOf(cr, kr, signer, 0).chain| == MAX_DEPTH + 1
    ensures MayRevoke(cr, kr, signer, id, 0) <==> signer == id
  {
    hide Vouches, FirstAccepted;
    var path := AcceptedKeyIsVouchedFor(cr, kr, signer, 0);
    if ChainOf(cr, kr, signer, 1).Good? {
      var shorter := AcceptedKeyIsVouchedFor(cr, kr, signer, 1);
      OnePathPerKey(cr, kr, signer, path, shorter, 0, 1);
      assert false;
    }
    if signer != id && ChainOf(cr, kr, id, 1).Good? && signer in ChainOf(cr, kr, id, 1).chain {
      var other := AcceptedKeyIsVouchedFor(cr, kr, id, 1);
      var k :| 0 <= k < |Ids(id, other)| && Ids(id, other)[k] == signer;
      VouchedFromMiddle(cr, kr, id, other, 1, k);
      OnePathPerKey(cr, kr, signer, path, other[k..], 0, 1 + k);
      assert false;
    }
  }

  /** At the last level the issuer's revocation is not consulted at all. */
  lemma DeepestRecordIgnoresRevocation(cr: Crypto, kr: Ring, r: Record)
    requires AnchorOf(kr.anchors, r.issuer).Some?
    ensures Judge(cr, kr, r, MAX_DEPTH - 1) == Ok <==> VerifiedByIssuer(cr, kr, r)
  {
    assert RevokedFrom(cr, kr, r.issuer, MAX_DEPTH) == NONE;
    assert Overlaps(ALL_ROLES, ROLE_ISSUE) by { assert Overlaps(3, 1); }
  }

  // ---- An input on which rule 3 fails ----------------------------------------------------------

  /** The number of the first of seven keys. */
  type First = k: int | 0 <= k < 250

  /** Key k + i certified by key k + i + 1. */
  function Link(k: First, i: nat): (r: Record)
    requires i < 6
    ensures r.kind == 1 && r.algOk && r.sig == Signature(k + i + 1) && |r.payload| <= MAX_PAYLOAD
    ensures r.pub == Pub(k + i) && r.keyid == IdOf(k + i) && r.roles == ALL_ROLES && r.subject == []
    ensures r.notBefore == 0 && r.notAfter == 100 && r.issuedAt == 50 && r.seenAt == 10 && r.issuer == IdOf(k + i + 1)
  {
    KeyRecord(k + i, ALL_ROLES, k + i + 1)
  }

  function SixLinks(k: First): (path: seq<Record>)
    ensures |path| == 6 && forall i :: 0 <= i < 6 ==> path[i] == Link(k, i)
  {
    seq(6, i requires 0 <= i < 6 => Link(k, i))
  }

  /** The first key certified by the second, and so on up to the sixth, certified by an anchor; and a
      revocation of the first signed by its own issuer, the second. */
  function LongRing(k: First): (kr: Ring)
    ensures |kr.records| == 7 && (forall i :: 0 <= i < 6 ==> kr.records[i] == Link(k, i)) && kr.records[6] == Revocation(k, k + 1)
    ensures kr.anchors == [Anchor(Pub(k + 6), IdOf(k + 6), [])] && kr.skew == 0
  {
    Ring([Anchor(Pub(k + 6), IdOf(k + 6), [])], SixLinks(k) + [Revocation(k, k + 1)], 0)
  }

  function LongSightings(k: First): (ss: seq<Sighting>)
    ensures |ss| == 7
  {
    seq(6, i requires 0 <= i < 6 => Sighting(IssuedKey(k + i, ALL_ROLES, k + i + 1), 10)) + [Sighting(IssuedRevocation(k, k + 1), 10)]
  }

  lemma LongSightingCarries(k: First, i: nat)
    requires i < 7
    ensures Carried(SampleCrypto(), LongSightings(k)[i]) == Some(Body(LongRing(k).records[i]))
    ensures LongSightings(k)[i].seen == LongRing(k).records[i].seenAt
  {
    hide IssuedKey, KeyRecord, Revocation, IssuedRevocation, Carried, SampleCrypto, LongRing;
    if i < 6 {
      IssuedKeyIsCarried(k + i, ALL_ROLES, k + i + 1);
      assert LongSightings(k)[i] == Sighting(IssuedKey(k + i, ALL_ROLES, k + i + 1), 10);
    } else {
      IssuedRevocationIsCarried(k, k + 1);
    }
  }

  lemma LongItemsDiffer(k: First, i: nat, j: nat)
    requires i < j < 7
    ensures !SameItem(LongRing(k).records[i], LongRing(k).records[j])
  {
    hide Link, Revocation, LongRing, IdOf, Pub, SampleCrypto, LongSightings, Carried, SameItem;
    var r, s := LongRing(k).records[i], LongRing(k).records[j];
    if j < 6 { assert r.keyid[0] != s.keyid[0]; } else { assert r.kind != s.kind; }
    LongSightingCarries(k, i);
    LongSightingCarries(k, j);
    DifferentRecordsDiffer(LongSightings(k)[i], LongSightings(k)[j], r, s);
  }

  /** The ring is the one those items, as issued, leave behind. */
  lemma LongRingIsFed(k: First)
    ensures Feed(SampleCrypto(), LongSightings(k)) == LongRing(k).records
  {
    hide LongSightings, LongRing, Carried, SampleCrypto, SameItem, Feed, Link, Revocation;
    var ss, rs := LongSightings(k), LongRing(k).records;
    forall i | 0 <= i < 7 ensures Carried(SampleCrypto(), ss[i]) == Some(Body(rs[i])) && ss[i].seen == rs[i].seenAt {
      LongSightingCarries(k, i);
    }
    forall i, j | 0 <= i < j < 7 ensures !SameItem(rs[i], rs[j]) {
      LongItemsDiffer(k, i, j);
    }
    FeedOfDifferent(SampleCrypto(), ss, rs);
  }

  lemma LongRingHolds(k: First, r: Record) returns (i: nat)
    requires r in LongRing(k).records
    ensures i <= 6 && r == (if i == 6 then Revocation(k, k + 1) else Link(k, i))
  {
    hide LongRing, Revocation, Link;
    i :| 0 <= i < 7 && LongRing(k).records[i] == r;
  }

  lemma LongRingOnFile(k: First, i: nat)
    requires i <= 6
    ensures AnchorOf(LongRing(k).anchors, IdOf(k + i)) == if i == 6 then Some(0) else None
    ensures PubOf(LongRing(k), IdOf(k + i)) == Some(Pub(k + i))
  {
    hide Pub, IdOf, Link, Revocation, LongRing;
    var kr, id := LongRing(k), IdOf(k + i);
    if i < 6 {
      assert id[0] != IdOf(k + 6)[0];
      assert kr.records[i] in kr.records && IsKeyRecordFor(kr.records[i], id);
      var r :| r in kr.records && IsKeyRecordFor(r, id) && r.pub == PubInRecords(kr.records, id).value;
      var j := LongRingHolds(k, r);
      assert IdOf(k + j)[0] == k + j && id[0] == k + i;
    }
  }

  lemma LongRingUnique(k: First)
    ensures OneKeyRecordPerId(LongRing(k))
  {
    hide LongRing, Link, Revocation, IdOf;
    forall a, b | a in LongRing(k).records && b in LongRing(k).records && a.kind == 1 && b.kind == 1 && a.keyid == b.keyid
      ensures a == b
    {
      var i := LongRingHolds(k, a);
      var j := LongRingHolds(k, b);
      assert a.keyid[0] == k + i && b.keyid[0] == k + j;
    }
  }

  lemma LongRingNeverRevokes(k: First, i: nat, depth: nat)
    requires 1 <= i <= 6
    ensures RevokedFrom(SampleCrypto(), LongRing(k), IdOf(k + i), depth) == NONE
  {
    hide Revokes, EarliestRevocation, LongRing, SampleCrypto, IdOf;
    if depth < MAX_DEPTH {
      RevokedFromIsEarliest(SampleCrypto(), LongRing(k), IdOf(k + i), depth);
      forall r | r in LongRing(k).records ensures !Revokes(SampleCrypto(), LongRing(k), r, IdOf(k + i), depth) {
        NotATarget(k, r, i, depth);
      }
    }
  }

  lemma NotATarget(k: First, r: Record, i: nat, depth: nat)
    requires r in LongRing(k).records && 1 <= i <= 6 && depth < MAX_DEPTH
    ensures !Revokes(SampleCrypto(), LongRing(k), r, IdOf(k + i), depth)
  {
    hide MayRevoke, PubOf, LongRing, Link, Revocation, IdOf, SampleCrypto;
    var j := LongRingHolds(k, r);
    assert IdOf(k + i)[0] != IdOf(k)[0];
  }

  /** Signed under a key, an item verifies under it. */
  lemma SampleVerifies(r: Record, i: byte)
    requires r.algOk && r.sig == Signature(i) && |r.payload| <= MAX_PAYLOAD
    ensures Verify(SampleCrypto(), r, Pub(i))
  {
    hide Pub;
  }

  lemma {:induction false} LongRingVouches(k: First, i: nat)
    requires i <= 6
    ensures Vouches(SampleCrypto(), LongRing(k), IdOf(k + i), SixLinks(k)[i..], i)
    decreases 6 - i
  {
    hide RevokedFrom, PubOf, LongRing, Link, Pub, IdOf, Verify, SampleCrypto, SixLinks, Revocation;
    LongRingOnFile(k, i);
    if i < 6 {
      LongRingVouches(k, i + 1);
      LongRingOnFile(k, i + 1);
      LongRingNeverRevokes(k, i + 1, i + 1);
      assert LongRing(k).records[i] in LongRing(k).records;
      SampleVerifies(Link(k, i), k + i + 1);
      var path := SixLinks(k)[i..];
      assert path[0] == Link(k, i) && path[1..] == SixLinks(k)[i + 1..];
      IssueIsAmongAll();
    }
  }

  lemma IssueIsAmongAll()
    ensures Overlaps(ALL_ROLES, ROLE_ISSUE) && Overlaps(ALL_ROLES, ROLE_CUSTODY)
  {
    assert Overlaps(3, 1);
  }

  lemma LongRingChain(k: First)
    ensures var c := ChainOf(SampleCrypto(), LongRing(k), IdOf(k), 0);
            c.Good? && c.rec == Some(Link(k, 0)) && c.roles == ALL_ROLES && |c.chain| == 7 && c.chain[1] == IdOf(k + 1)
  {
    hide ChainOf, Vouches, LongRing, OneKeyRecordPerId, SampleCrypto, Ids, Link, IdOf, SixLinks;
    LongRingVouches(k, 0);
    assert SixLinks(k)[0..] == SixLinks(k);
    LongRingUnique(k);
    VouchedForKeyIsAccepted(SampleCrypto(), LongRing(k), IdOf(k), SixLinks(k), 0);
    SecondId(IdOf(k), SixLinks(k));
  }

  lemma SecondId(id: Id, path: seq<Record>)
    requires path != []
    ensures Ids(id, path)[1] == path[0].issuer
  {
  }

  lemma IssuerMayNot(k: First, r: Record)
    requires r in LongRing(k).records
    ensures !Revokes(SampleCrypto(), LongRing(k), r, IdOf(k), 0)
  {
    hide MayRevoke, PubOf, LongRing, ChainOf, Link, Revocation, IdOf, SampleCrypto;
    var i := LongRingHolds(k, r);
    if i == 6 {
      LongRingChain(k);
      LongRingUnique(k);
      LongRingOnFile(k, 0);
      LongRingOnFile(k, 1);
      LongestChainIgnoresIssuers(SampleCrypto(), LongRing(k), IdOf(k), IdOf(k + 1));
      assert IdOf(k + 1)[0] != IdOf(k)[0];
    }
  }

  /** The key is accepted with its issuer in its chain, the issuer's verified revocation of it is on
      file, and the key is reported as not revoked: on a ring fed with items as issued. */
  lemma IssuersRevocationIgnored(k: First)
    ensures var cr, kr := SampleCrypto(), LongRing(k);
            && Feed(cr, LongSightings(k)) == kr.records
            && ChainOf(cr, kr, IdOf(k), 0).Good? && IdOf(k + 1) in ChainOf(cr, kr, IdOf(k), 0).chain
            && Revocation(k, k + 1) in kr.records && VerifiedByIssuer(cr, kr, Revocation(k, k + 1))
            && KeyStatus(cr, kr, IdOf(k), [], 60, ROLE_CUSTODY) == Status(true, Ok, false, 0)
  {
    hide FirstAccepted, RevokedFrom, EarliestRevocation, MayRevoke, PubOf, LongRing, Overlaps, ChainOf, Revokes,
         Link, Revocation, Pub, IdOf, Verify, SampleCrypto, Feed, LongSightings;
    var cr, kr := SampleCrypto(), LongRing(k);
    LongRingIsFed(k);
    LongRingChain(k);
    LongRingOnFile(k, 0);
    LongRingOnFile(k, 1);
    assert ChainOf(cr, kr, IdOf(k), 0).chain[1] == IdOf(k + 1);
    assert kr.records[6] in kr.records;
    SampleVerifies(Revocation(k, k + 1), k + 1);
    RevokedFromIsEarliest(cr, kr, IdOf(k), 0);
    forall r | r in kr.records ensures !Revokes(cr, kr, r, IdOf(k), 0) {
      IssuerMayNot(k, r);
    }
    IssueIsAmongAll();
  }

  // ---- Anchors ---------------------------------------------------------------------------------

  /** spec/KEY-RECORDS.md says that records do not revoke anchors. `revoked_from` makes no exception for
      them: an anchor in good standing is reported revoked exactly when some record on file revokes it,
      and that record may be signed by itself, by another anchor, or with the revoke role under it. */
  lemma AnchorIsRevokedIff(cr: Crypto, kr: Ring, id: Id, eid: seq<byte>, t: uint64, role: uint32)
    requires AnchorOf(kr.anchors, id).Some? && KeyStatus(cr, kr, id, eid, t, role).ok
    ensures KeyStatus(cr, kr, id, eid, t, role).revoked
            <==> exists r :: r in kr.records && r.effectiveFrom != NONE && Revokes(cr, kr, r, id, 0)
    ensures forall signer :: MayRevoke(cr, kr, signer, id, 0) <==>
              || signer == id || AnchorOf(kr.anchors, signer).Some?
              || (var s := ChainOf(cr, kr, signer, 1);
                  s.Good? && Overlaps(s.roles, ROLE_REVOKE) && s.anchor == AnchorOf(kr.anchors, id).value)
  {
    hide Revokes, EarliestRevocation, Overlaps;
    RevokedFromIsEarliest(cr, kr, id, 0);
  }

  /** An anchor with one record on file, its own verified revocation as issued, is accepted and reported
      revoked. */
  lemma AnchorRevokesItself(k: byte)
    ensures var cr := SampleCrypto();
            var kr := Ring([Anchor(Pub(k), IdOf(k), [1])], [Revocation(k, k)], 0);
            && Feed(cr, [Sighting(IssuedRevocation(k, k), 10)]) == kr.records
            && KeyStatus(cr, kr, IdOf(k), [1], 60, ROLE_CUSTODY) == Status(true, Ok, true, 20)
  {
    hide Feed, Carried, SameItem, IssuedRevocation, Revocation, Pub, IdOf, SampleCrypto, Verify;
    var cr, kr := SampleCrypto(), Ring([Anchor(Pub(k), IdOf(k), [1])], [Revocation(k, k)], 0);
    IssuedRevocationIsCarried(k, k);
    FeedOfDifferent(cr, [Sighting(IssuedRevocation(k, k), 10)], kr.records);
    assert AnchorOf(kr.anchors, IdOf(k)) == Some(0) by { assert kr.anchors[0].id == IdOf(k); }
    var r := Revocation(k, k);
    assert kr.records[0] == r && r in kr.records;
    SampleVerifies(r, k);
    assert Revokes(cr, kr, r, IdOf(k), 0);
    RevokedFromIsEarliest(cr, kr, IdOf(k), 0);
  }
}
