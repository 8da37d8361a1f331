/** Records that nobody trusted has signed change no answer of the key ring, however many there
    are and wherever among the genuine ones they arrived. */
module KeyringIntruder {
  import opened Wrappers
  import opened Bytes
  import opened CborReader
  import opened KeyringRules
  import opened KeyringSoundness

  function Without(rs: seq<Record>, junk: set<Record>): (kept: seq<Record>)
    ensures forall r :: r in kept <==> r in rs && r !in junk
  {
    if rs == [] then []
    else (if rs[0] in junk then [] else [rs[0]]) + Without(rs[1..], junk)
  }

  /** Two key records under one id hold the same public key, as ids that are hashes do. */
  ghost predicate OnePubPerId(kr: Ring) {
    forall a, b :: a in kr.records && b in kr.records && a.kind == 1 && b.kind == 1 && a.keyid == b.keyid ==> a.pub == b.pub
  }

  /** `full` is `clean` with the records of `junk` mixed in, and whoever made them holds no key of
      `trusted`: a set of ids that has the anchors and every id issued from within it. */
  ghost predicate Intrusion(cr: Crypto, clean: Ring, full: Ring, junk: set<Record>, trusted: set<Id>) {
    && clean == full.(records := Without(full.records, junk))
    && OnePubPerId(full)
    && (forall a :: a in full.anchors ==> a.id in trusted)
    && (forall r :: r in clean.records && r.kind == 1 && r.issuer in trusted && VerifiedByIssuer(cr, full, r) ==> r.keyid in trusted)
    && (forall f :: f in junk && f.issuer in trusted ==> !VerifiedByIssuer(cr, full, f))
  }

  /** Both turned down, or accepted alike. */
  predicate SameTrust(a: Chain, b: Chain) {
    (a.Bad? && b.Bad?) || a == b
  }

  lemma PubKept(cr: Crypto, clean: Ring, full: Ring, junk: set<Record>, trusted: set<Id>, id: Id)
    requires Intrusion(cr, clean, full, junk, trusted) && PubOf(clean, id).Some?
    ensures PubOf(full, id) == PubOf(clean, id)
  {
    hide VerifiedByIssuer;
  }

  /** What holds of a chain result before and after the intrusion. */
  ghost predicate ChainUnmoved(cr: Crypto, clean: Ring, full: Ring, trusted: set<Id>, id: Id, depth: nat) {
    var c := ChainOf(cr, clean, id, depth);
    && SameTrust(c, ChainOf(cr, full, id, depth))
    && (c.Good? ==> forall k :: k in c.chain ==> k in trusted && PubOf(clean, k).Some?)
  }

  lemma {:induction false} ChainUnmovedAt(cr: Crypto, clean: Ring, full: Ring, junk: set<Record>, trusted: set<Id>, id: Id, depth: nat)
    requires Intrusion(cr, clean, full, junk, trusted)
    ensures ChainUnmoved(cr, clean, full, trusted, id, depth)
    decreases Levels(depth), 2, 0
  {
    hide Intrusion, VerifiedByIssuer, FirstAccepted;
    if AnchorOf(full.anchors, id).Some? {
      AnchorsTrusted(cr, clean, full, junk, trusted, id);
    } else if depth < MAX_DEPTH {
      assert clean.records == Without(full.records, junk) && clean.anchors == full.anchors by {
        AnchorsTrusted(cr, clean, full, junk, trusted, id);
      }
      ScanUnmoved(cr, clean, full, junk, trusted, id, depth, full.records, false, KeyUnknown, false, KeyUnknown);
    } else {
      AnchorsTrusted(cr, clean, full, junk, trusted, id);
    }
  }

  lemma AnchorsTrusted(cr: Crypto, clean: Ring, full: Ring, junk: set<Record>, trusted: set<Id>, id: Id)
    requires Intrusion(cr, clean, full, junk, trusted)
    ensures clean == full.(records := Without(full.records, junk))
    ensures AnchorOf(full.anchors, id).Some? ==> id in trusted
  {
    hide VerifiedByIssuer;
  }

  /** What the loop of `chain_of` makes of the same records with and without the junk. */
  ghost predicate ScanAgrees(clean: Ring, trusted: set<Id>, c: Chain, d: Chain) {
    SameTrust(c, d) && (c.Good? ==> forall k :: k in c.chain ==> k in trusted && PubOf(clean, k).Some?)
  }

  lemma {:induction false} ScanUnmoved(cr: Crypto, clean: Ring, full: Ring, junk: set<Record>, trusted: set<Id>,
                    id: Id, depth: nat, rest: seq<Record>, f1: bool, l1: Reason, f2: bool, l2: Reason)
    requires Intrusion(cr, clean, full, junk, trusted)
    requires depth < MAX_DEPTH && AnchorOf(full.anchors, id).None? && l1 != Ok && l2 != Ok
    requires forall r :: r in rest ==> r in full.records
    ensures clean.anchors == full.anchors
    ensures forall r :: r in Without(rest, junk) ==> r in clean.records
    ensures ScanAgrees(clean, trusted,
              FirstAccepted(cr, clean, id, depth, Without(rest, junk), f1, l1),
              FirstAccepted(cr, full, id, depth, rest, f2, l2))
    decreases Levels(depth), 1, |rest|
  {
    hide Intrusion, VerifiedByIssuer, Judge, ChainOf, ScanAgrees, PubOf;
    AnchorsTrusted(cr, clean, full, junk, trusted, id);
    if rest == [] {
      BothRefused(clean, trusted, FirstAccepted(cr, clean, id, depth, [], f1, l1), FirstAccepted(cr, full, id, depth, [], f2, l2));
    } else {
      var r := rest[0];
      if r in junk {
        if IsKeyRecordFor(r, id) {
          JunkRejected(cr, clean, full, junk, trusted, r, depth);
          ScanUnmoved(cr, clean, full, junk, trusted, id, depth, rest[1..], f1, l1, true, Judge(cr, full, r, depth));
        } else {
          ScanUnmoved(cr, clean, full, junk, trusted, id, depth, rest[1..], f1, l1, f2, l2);
        }
        assert Without(rest, junk) == Without(rest[1..], junk);
      } else {
        assert Without(rest, junk)[0] == r && Without(rest, junk)[1..] == Without(rest[1..], junk);
        if IsKeyRecordFor(r, id) {
          JudgeUnmoved(cr, clean, full, junk, trusted, r, depth);
          var v1, v2 := Judge(cr, clean, r, depth), Judge(cr, full, r, depth);
          if v1 != Ok {
            ScanUnmoved(cr, clean, full, junk, trusted, id, depth, rest[1..], true, v1, true, v2);
          } else {
            AcceptedAgrees(cr, clean, full, trusted, r, id, depth);
          }
        } else {
          ScanUnmoved(cr, clean, full, junk, trusted, id, depth, rest[1..], f1, l1, f2, l2);
        }
      }
    }
  }

  lemma BothRefused(clean: Ring, trusted: set<Id>, c: Chain, d: Chain)
    requires c.Bad? && d.Bad?
    ensures ScanAgrees(clean, trusted, c, d)
  {
  }

  lemma AcceptedAgrees(cr: Crypto, clean: Ring, full: Ring, trusted: set<Id>, r: Record, id: Id, depth: nat)
    requires depth < MAX_DEPTH && r in clean.records && IsKeyRecordFor(r, id) && r.keyid in trusted
    requires ChainUnmoved(cr, clean, full, trusted, r.issuer, depth + 1)
    requires ChainOf(cr, clean, r.issuer, depth + 1).Good?
    ensures var c, d := ChainOf(cr, clean, r.issuer, depth + 1), ChainOf(cr, full, r.issuer, depth + 1);
            d.Good? && ScanAgrees(clean, trusted,
              Good(Some(r), c.anchor, r.roles, Prepend(id, c.chain)), Good(Some(r), d.anchor, r.roles, Prepend(id, d.chain)))
  {
    hide ChainOf;
  }

  lemma {:induction false} JunkRejected(cr: Crypto, clean: Ring, full: Ring, junk: set<Record>, trusted: set<Id>, f: Record, depth: nat)
    requires Intrusion(cr, clean, full, junk, trusted)
    requires depth < MAX_DEPTH && f in junk
    ensures Judge(cr, full, f, depth) != Ok
    decreases Levels(depth), 0, 0
  {
    hide VerifiedByIssuer, ChainOf, RevokedFrom;
    ChainUnmovedAt(cr, clean, full, junk, trusted, f.issuer, depth + 1);
  }

  /** A genuine record gets the same verdict; accepted, it was issued from within the trusted set. */
  lemma {:induction false} JudgeUnmoved(cr: Crypto, clean: Ring, full: Ring, junk: set<Record>, trusted: set<Id>, r: Record, depth: nat)
    requires Intrusion(cr, clean, full, junk, trusted)
    requires depth < MAX_DEPTH && r in clean.records
    ensures Judge(cr, clean, r, depth) == Ok <==> Judge(cr, full, r, depth) == Ok
    ensures Judge(cr, clean, r, depth) == Ok ==>
              && ChainUnmoved(cr, clean, full, trusted, r.issuer, depth + 1)
              && (r.kind == 1 ==> r.keyid in trusted)
    decreases Levels(depth), 0, 0
  {
    hide Intrusion, ChainOf, RevokedFrom, Verify, PubOf;
    AnchorsTrusted(cr, clean, full, junk, trusted, r.issuer);
    ChainUnmovedAt(cr, clean, full, junk, trusted, r.issuer, depth + 1);
    var c := ChainOf(cr, clean, r.issuer, depth + 1);
    if c.Good? {
      assert r.issuer == c.chain[0];
      PubKept(cr, clean, full, junk, trusted, r.issuer);
      RevocationUnmoved(cr, clean, full, junk, trusted, r.issuer, depth + 1);
      if r.kind == 1 && VerifiedByIssuer(cr, full, r) { IssuedWithin(cr, clean, full, junk, trusted, r); }
    }
  }

  lemma IssuedWithin(cr: Crypto, clean: Ring, full: Ring, junk: set<Record>, trusted: set<Id>, r: Record)
    requires Intrusion(cr, clean, full, junk, trusted)
    requires r in clean.records && r.kind == 1 && r.issuer in trusted && VerifiedByIssuer(cr, full, r)
    ensures r.keyid in trusted
  {
    hide VerifiedByIssuer;
  }

  lemma {:induction false} RevocationUnmoved(cr: Crypto, clean: Ring, full: Ring, junk: set<Record>, trusted: set<Id>, id: Id, depth: nat)
    requires Intrusion(cr, clean, full, junk, trusted)
    requires id in trusted && PubOf(clean, id).Some?
    ensures RevokedFrom(cr, clean, id, depth) == RevokedFrom(cr, full, id, depth)
    decreases Levels(depth), 1, 0
  {
    hide Revokes, EarliestRevocation, Intrusion;
    if depth < MAX_DEPTH {
      AnchorsTrusted(cr, clean, full, junk, trusted, id);
      forall r | r in full.records
        ensures Revokes(cr, full, r, id, depth) <==> r in clean.records && Revokes(cr, clean, r, id, depth)
      {
        RevokerUnmoved(cr, clean, full, junk, trusted, r, id, depth);
      }
      RevokedFromIsEarliest(cr, clean, id, depth);
      RevokedFromIsEarliest(cr, full, id, depth);
    }
  }

  lemma {:induction false} RevokerUnmoved(cr: Crypto, clean: Ring, full: Ring, junk: set<Record>, trusted: set<Id>, r: Record, id: Id, depth: nat)
    requires Intrusion(cr, clean, full, junk, trusted)
    requires id in trusted && PubOf(clean, id).Some? && depth < MAX_DEPTH && r in full.records
    ensures Revokes(cr, full, r, id, depth) <==> r in clean.records && Revokes(cr, clean, r, id, depth)
    decreases Levels(depth), 0, 1
  {
    hide Intrusion, MayRevoke, Verify, PubOf;
    SignerUnmoved(cr, clean, full, junk, trusted, r.issuer, id, depth);
    AnchorsTrusted(cr, clean, full, junk, trusted, id);
    if r in junk {
      JunkFails(cr, clean, full, junk, trusted, r);
    } else if PubOf(clean, r.issuer).Some? {
      PubKept(cr, clean, full, junk, trusted, r.issuer);
    }
  }

  lemma JunkFails(cr: Crypto, clean: Ring, full: Ring, junk: set<Record>, trusted: set<Id>, f: Record)
    requires Intrusion(cr, clean, full, junk, trusted) && f in junk
    ensures f.issuer in trusted ==> !VerifiedByIssuer(cr, full, f)
    ensures f !in clean.records
  {
    hide VerifiedByIssuer;
  }

  lemma AnchorIsOnFile(kr: Ring, id: Id)
    ensures AnchorOf(kr.anchors, id).Some? ==> PubOf(kr, id).Some?
  {
  }

  /** Who may revoke: the same signers, all of them trusted and on file before the intrusion. */
  lemma {:induction false} SignerUnmoved(cr: Crypto, clean: Ring, full: Ring, junk: set<Record>, trusted: set<Id>, signer: Id, id: Id, depth: nat)
    requires Intrusion(cr, clean, full, junk, trusted)
    requires id in trusted && PubOf(clean, id).Some? && depth < MAX_DEPTH
    ensures MayRevoke(cr, clean, signer, id, depth) <==> MayRevoke(cr, full, signer, id, depth)
    ensures MayRevoke(cr, full, signer, id, depth) ==> signer in trusted && PubOf(clean, signer).Some?
    decreases Levels(depth), 0, 0
  {
    hide ChainOf, PubOf, AnchorOf, Intrusion, Overlaps;
    ChainUnmovedAt(cr, clean, full, junk, trusted, id, depth + 1);
    ChainUnmovedAt(cr, clean, full, junk, trusted, signer, depth + 1);
    AnchorsTrusted(cr, clean, full, junk, trusted, signer);
    PubKept(cr, clean, full, junk, trusted, id);
    AnchorIsOnFile(clean, signer);
  }

  /** Main result. Adding records from outside the trusted set leaves every answer as it was: ok,
      revoked and revoked_from are the same, and so is the reason unless the key was refused for
      want of a chain, both with and without them. */
  lemma OutsidersAreInert(cr: Crypto, clean: Ring, full: Ring, junk: set<Record>, trusted: set<Id>,
                          id: Id, eid: seq<byte>, t: uint64, role: uint32)
    requires Intrusion(cr, clean, full, junk, trusted)
    ensures var a, b := KeyStatus(cr, clean, id, eid, t, role), KeyStatus(cr, full, id, eid, t, role);
            && a.ok == b.ok && a.revoked == b.revoked && a.revokedFrom == b.revokedFrom
            && (a == b || (ChainOf(cr, clean, id, 0).Bad? && ChainOf(cr, full, id, 0).Bad?))
  {
    hide ChainOf, RevokedFrom, Intrusion, InWindow, Overlaps, PubOf;
    AnchorsTrusted(cr, clean, full, junk, trusted, id);
    ChainUnmovedAt(cr, clean, full, junk, trusted, id, 0);
    if ChainOf(cr, clean, id, 0).Good? {
      assert id == ChainOf(cr, clean, id, 0).chain[0];
      RevocationUnmoved(cr, clean, full, junk, trusted, id, 0);
    }
  }

  /** In particular forged records, whose signatures fail under the key on file for their issuer,
      are inert, even where they put a public key on file for an id that had none. */
  lemma ForgeriesAreInert(cr: Crypto, clean: Ring, full: Ring, junk: set<Record>,
                          id: Id, eid: seq<byte>, t: uint64, role: uint32)
    requires clean == full.(records := Without(full.records, junk)) && OnePubPerId(full)
    requires forall f :: f in junk ==> !VerifiedByIssuer(cr, full, f)
    ensures var a, b := KeyStatus(cr, clean, id, eid, t, role), KeyStatus(cr, full, id, eid, t, role);
            a.ok == b.ok && a.revoked == b.revoked && a.revokedFrom == b.revokedFrom
  {
    hide VerifiedByIssuer, KeyStatus;
    var everyone := (set a | a in full.anchors :: a.id) + (set r | r in full.records :: r.keyid);
    assert Intrusion(cr, clean, full, junk, everyone);
    OutsidersAreInert(cr, clean, full, junk, everyone, id, eid, t, role);
  }
}
