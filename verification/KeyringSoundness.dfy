/** What an accepted key and a revocation time mean: the rules of spec/KEY-RECORDS.md as the
    recursion of flight/keyring.c decides them. */
module KeyringSoundness {
  import opened Wrappers
  import opened Arithmetic
  import opened Bytes
  import opened CborReader
  import opened KeyringRules

  // ---- A revocation time is a minimum --------------------------------------------------------

  /** T is the least effective time among the first n records that revoke the key, or NONE. */
  ghost predicate IsEarliest(cr: Crypto, kr: Ring, id: Id, depth: nat, n: nat, T: uint64)
    requires depth < MAX_DEPTH && n <= |kr.records|
  {
    && (forall r :: r in kr.records[..n] && Revokes(cr, kr, r, id, depth) ==> T <= r.effectiveFrom)
    && (T != NONE ==> exists r :: r in kr.records[..n] && Revokes(cr, kr, r, id, depth) && r.effectiveFrom == T)
  }

  lemma {:induction false} EarliestOfPrefix(cr: Crypto, kr: Ring, id: Id, depth: nat, n: nat)
    requires depth < MAX_DEPTH && n <= |kr.records|
    ensures IsEarliest(cr, kr, id, depth, n, EarliestRevocation(cr, kr, id, depth, n))
  {
    hide Revokes;
    if n > 0 {
      EarliestOfPrefix(cr, kr, id, depth, n - 1);
      assert kr.records[..n] == kr.records[..n - 1] + [kr.records[n - 1]];
      var T, r := EarliestRevocation(cr, kr, id, depth, n), kr.records[n - 1];
      assert r in kr.records[..n];
    }
  }

  /** Below the depth limit a key is revoked from the earliest effective time of the verified and
      permitted revocations of it: no later than any, and equal to one unless there are none. */
  lemma RevokedFromIsEarliest(cr: Crypto, kr: Ring, id: Id, depth: nat)
    requires depth < MAX_DEPTH
    ensures var T := RevokedFrom(cr, kr, id, depth);
            && (forall r :: r in kr.records && Revokes(cr, kr, r, id, depth) ==> T <= r.effectiveFrom)
            && (T != NONE ==> exists r :: r in kr.records && Revokes(cr, kr, r, id, depth) && r.effectiveFrom == T)
  {
    hide Revokes;
    EarliestOfPrefix(cr, kr, id, depth, |kr.records|);
    assert kr.records[..|kr.records|] == kr.records;
  }

  /** A revocation signed by any anchor bounds the revocation time from above, whatever else the
      ring holds and whichever anchor the key answers to. */
  lemma AnchorRevocationCounts(cr: Crypto, kr: Ring, r: Record, id: Id, depth: nat)
    requires depth < MAX_DEPTH
    requires r in kr.records && r.kind == 2 && r.target == id
    requires AnchorOf(kr.anchors, r.issuer).Some?
    requires Verify(cr, r, kr.anchors[AnchorOf(kr.anchors, r.issuer).value].pub)
    ensures RevokedFrom(cr, kr, id, depth) <= r.effectiveFrom
  {
    hide Verify;
    RevokedFromIsEarliest(cr, kr, id, depth);
    assert Revokes(cr, kr, r, id, depth);
  }

  // ---- An accepted key has a chain to an anchor -----------------------------------------------

  /** The key ids along a list of key records, ending at the issuer of the last. */
  function Ids(id: Id, path: seq<Record>): (ids: seq<Id>)
    ensures |ids| == |path| + 1 && ids[0] == id
    decreases |path|
  {
    if path == [] then [id] else [id] + Ids(path[0].issuer, path[1..])
  }

  /** The roles a key has by such a list: its record's, or every role for an anchor. */
  function RolesBy(path: seq<Record>): uint32 {
    if path == [] then ALL_ROLES else path[0].roles
  }

  /** `path` is a chain of key records on file from `id` to an anchor, in which each record is
      signed by its issuer, who may issue, was valid when it issued, and was not yet revoked when
      the record was first seen. */
  ghost predicate Vouches(cr: Crypto, kr: Ring, id: Id, path: seq<Record>, depth: nat)
    decreases |path|
  {
    if path == [] then AnchorOf(kr.anchors, id).Some?
    else
      var r := path[0];
      && AnchorOf(kr.anchors, id).None?
      && r in kr.records && IsKeyRecordFor(r, id)
      && Vouches(cr, kr, r.issuer, path[1..], depth + 1)
      && Overlaps(RolesBy(path[1..]), ROLE_ISSUE)
      && VerifiedByIssuer(cr, kr, r)
      && (|path| > 1 ==> InWindow(kr.skew, path[1], r.issuedAt))
      && (var T := RevokedFrom(cr, kr, r.issuer, depth + 1); T != NONE ==> r.seenAt < T)
  }

  /** The chain result that such a list stands for. */
  predicate Describes(c: Chain, id: Id, path: seq<Record>) {
    && c.Good?
    && c.rec == (if path == [] then None else Some(path[0]))
    && c.roles == RolesBy(path)
    && c.chain == Ids(id, path)
  }

  /** A key accepted at some depth is vouched for by a list of at most MAX_DEPTH - depth records,
      and the stored chain is exactly the ids along it: it is never cut at MAX_CHAIN. */
  lemma {:induction false} AcceptedKeyIsVouchedFor(cr: Crypto, kr: Ring, id: Id, depth: nat) returns (path: seq<Record>)
    requires ChainOf(cr, kr, id, depth).Good?
    ensures |path| <= Levels(depth)
    ensures Vouches(cr, kr, id, path, depth)
    ensures Describes(ChainOf(cr, kr, id, depth), id, path)
    decreases Levels(depth)
  {
    hide RevokedFrom, FirstAccepted, InWindow, Overlaps, Verify;
    if AnchorOf(kr.anchors, id).Some? {
      path := [];
    } else {
      AcceptedRecord(cr, kr, id, depth, kr.records, false, KeyUnknown);
      var r := ChainOf(cr, kr, id, depth).rec.value;
      var up := AcceptedKeyIsVouchedFor(cr, kr, r.issuer, depth + 1);
      path := [r] + up;
      assert path[1..] == up;
    }
  }

  /** The record that made the loop stop passed every test. */
  lemma {:induction false} AcceptedRecord(cr: Crypto, kr: Ring, id: Id, depth: nat, rest: seq<Record>, found: bool, last: Reason)
    requires depth < MAX_DEPTH && AnchorOf(kr.anchors, id).None? && last != Ok
    requires forall r :: r in rest ==> r in kr.records
    requires FirstAccepted(cr, kr, id, depth, rest, found, last).Good?
    ensures var c := FirstAccepted(cr, kr, id, depth, rest, found, last);
            && c.rec.Some?
            && Judge(cr, kr, c.rec.value, depth) == Ok
            && c.chain == Prepend(id, ChainOf(cr, kr, c.rec.value.issuer, depth + 1).chain)
            && c.anchor == ChainOf(cr, kr, c.rec.value.issuer, depth + 1).anchor
    decreases |rest|
  {
    hide Judge, ChainOf;
    if rest != [] {
      if !IsKeyRecordFor(rest[0], id) {
        AcceptedRecord(cr, kr, id, depth, rest[1..], found, last);
      } else if Judge(cr, kr, rest[0], depth) != Ok {
        AcceptedRecord(cr, kr, id, depth, rest[1..], true, Judge(cr, kr, rest[0], depth));
      }
    }
  }

  /** The answer "ok" for a key that is not an anchor: at most six records lead from the key to an
      anchor, the first for this node, in this role, and valid at this time. */
  lemma StatusOkIsSound(cr: Crypto, kr: Ring, id: Id, eid: seq<byte>, t: uint64, role: uint32) returns (path: seq<Record>)
    requires KeyStatus(cr, kr, id, eid, t, role).ok && AnchorOf(kr.anchors, id).None?
    ensures 1 <= |path| <= MAX_DEPTH && Vouches(cr, kr, id, path, 0)
    ensures ChainOf(cr, kr, id, 0).Good? && ChainOf(cr, kr, id, 0).chain == Ids(id, path)
    ensures path[0].subject == eid && Overlaps(path[0].roles, role) && InWindow(kr.skew, path[0], t)
  {
    hide Vouches, FirstAccepted;
    path := AcceptedKeyIsVouchedFor(cr, kr, id, 0);
  }

  // ---- The converse: a vouched-for key is accepted ----------------------------------------------

  /** At most one key record on file per key id. */
  ghost predicate OneKeyRecordPerId(kr: Ring) {
    forall a, b :: a in kr.records && b in kr.records && a.kind == 1 && b.kind == 1 && a.keyid == b.keyid ==> a == b
  }

  /** At most one key record on file for this id. */
  ghost predicate CertifiedOnce(kr: Ring, id: Id) {
    forall a, b :: a in kr.records && b in kr.records && IsKeyRecordFor(a, id) && IsKeyRecordFor(b, id) ==> a == b
  }

  lemma EachCertifiedOnce(kr: Ring, id: Id)
    requires OneKeyRecordPerId(kr)
    ensures CertifiedOnce(kr, id)
  {
  }

  /** The result when `r` is the only key record for this id. */
  function Decide(cr: Crypto, kr: Ring, r: Record, id: Id, depth: nat): Chain
    requires depth < MAX_DEPTH
  {
    match Judge(cr, kr, r, depth)
    case Ok =>
      var up := ChainOf(cr, kr, r.issuer, depth + 1);
      Good(Some(r), up.anchor, r.roles, Prepend(id, up.chain))
    case reason => Bad(reason)
  }

  lemma {:induction false} OnlyRecordDecides(cr: Crypto, kr: Ring, r: Record, id: Id, depth: nat, rest: seq<Record>, found: bool, last: Reason)
    requires depth < MAX_DEPTH && AnchorOf(kr.anchors, id).None? && last != Ok
    requires forall q :: q in rest ==> q in kr.records
    requires CertifiedOnce(kr, id) && r in kr.records && IsKeyRecordFor(r, id)
    requires r in rest || (found && last == Judge(cr, kr, r, depth))
    ensures FirstAccepted(cr, kr, id, depth, rest, found, last) == Decide(cr, kr, r, id, depth)
    decreases |rest|
  {
    hide Judge, ChainOf;
    if rest != [] {
      if !IsKeyRecordFor(rest[0], id) {
        OnlyRecordDecides(cr, kr, r, id, depth, rest[1..], found, last);
      } else {
        assert rest[0] == r;
        var verdict := Judge(cr, kr, r, depth);
        if verdict != Ok {
          OnlyRecordDecides(cr, kr, r, id, depth, rest[1..], true, verdict);
        }
      }
    }
  }

  lemma ChainOfOnlyRecord(cr: Crypto, kr: Ring, r: Record, id: Id, depth: nat)
    requires depth < MAX_DEPTH && AnchorOf(kr.anchors, id).None?
    requires CertifiedOnce(kr, id) && r in kr.records && IsKeyRecordFor(r, id)
    ensures ChainOf(cr, kr, id, depth) == Decide(cr, kr, r, id, depth)
  {
    hide FirstAccepted, Decide;
    OnlyRecordDecides(cr, kr, r, id, depth, kr.records, false, KeyUnknown);
  }

  /** With one key record per id, a key vouched for by a list short enough for the depth is
      accepted, with that list as its chain. */
  lemma {:induction false} VouchedForKeyIsAccepted(cr: Crypto, kr: Ring, id: Id, path: seq<Record>, depth: nat)
    requires OneKeyRecordPerId(kr)
    requires Vouches(cr, kr, id, path, depth) && |path| <= Levels(depth)
    ensures Describes(ChainOf(cr, kr, id, depth), id, path)
    decreases |path|
  {
    hide RevokedFrom, InWindow, Overlaps, Verify, OneKeyRecordPerId, PubOf;
    if path != [] {
      hide ChainOf;
      var r := path[0];
      VouchedForKeyIsAccepted(cr, kr, r.issuer, path[1..], depth + 1);
      EachCertifiedOnce(kr, id);
      ChainOfOnlyRecord(cr, kr, r, id, depth);
    }
  }

  /** So the list is determined by the ring: the same key accepted at two depths has one chain. */
  lemma {:induction false} OnePathPerKey(cr: Crypto, kr: Ring, id: Id, p: seq<Record>, q: seq<Record>, d: nat, e: nat)
    requires OneKeyRecordPerId(kr)
    requires Vouches(cr, kr, id, p, d) && Vouches(cr, kr, id, q, e)
    ensures p == q
    decreases |p|
  {
    hide RevokedFrom, InWindow, Overlaps, Verify, PubOf;
    if p != [] && q != [] {
      assert p[0] == q[0];
      OnePathPerKey(cr, kr, p[0].issuer, p[1..], q[1..], d + 1, e + 1);
      assert p == [p[0]] + p[1..] && q == [q[0]] + q[1..];
    }
  }

  // ---- What the status says -----------------------------------------------------------------------

  /** Main result: an accepted key, certified or an anchor, is reported revoked exactly when a verified revocation
      of it by a key permitted to revoke it is on file, and from the least effective time of any. */
  lemma StatusRevokedIff(cr: Crypto, kr: Ring, id: Id, eid: seq<byte>, t: uint64, role: uint32)
    requires KeyStatus(cr, kr, id, eid, t, role).ok
    ensures var st := KeyStatus(cr, kr, id, eid, t, role);
            && (st.revoked <==> exists r :: r in kr.records && r.effectiveFrom != NONE && Revokes(cr, kr, r, id, 0))
            && (st.revoked ==> exists r :: r in kr.records && Revokes(cr, kr, r, id, 0) && r.effectiveFrom == st.revokedFrom)
            && (st.revoked ==> forall r :: r in kr.records && Revokes(cr, kr, r, id, 0) ==> st.revokedFrom <= r.effectiveFrom)
            && (!st.revoked ==> st.revokedFrom == 0)
  {
    hide Revokes, ChainOf, EarliestRevocation, RevokedFrom, InWindow, Overlaps;
    RevokedFromIsEarliest(cr, kr, id, 0);
  }

  /** Vouched for as this node's key in this role at this time; or an anchor held under this node's name. */
  ghost predicate Entitled(cr: Crypto, kr: Ring, id: Id, eid: seq<byte>, t: uint64, role: uint32) {
    || (AnchorOf(kr.anchors, id).Some? && eid != [] && kr.anchors[AnchorOf(kr.anchors, id).value].eid == eid)
    || exists path: seq<Record> :: VouchesAs(cr, kr, id, path, eid, t, role)
  }

  ghost predicate VouchesAs(cr: Crypto, kr: Ring, id: Id, path: seq<Record>, eid: seq<byte>, t: uint64, role: uint32) {
    && 1 <= |path| <= MAX_DEPTH && Vouches(cr, kr, id, path, 0)
    && path[0].subject == eid && Overlaps(path[0].roles, role) && InWindow(kr.skew, path[0], t)
  }

  /** Main result: with one key record per id the answer is "ok" exactly for the keys entitled, and a key refused
      is not reported revoked. */
  lemma StatusOkIff(cr: Crypto, kr: Ring, id: Id, eid: seq<byte>, t: uint64, role: uint32)
    requires OneKeyRecordPerId(kr)
    ensures KeyStatus(cr, kr, id, eid, t, role).ok <==> Entitled(cr, kr, id, eid, t, role)
    ensures var st := KeyStatus(cr, kr, id, eid, t, role); !st.ok ==> st.reason != Ok && !st.revoked && st.revokedFrom == 0
  {
    hide Vouches, OneKeyRecordPerId, FirstAccepted, RevokedFrom, InWindow, Overlaps, VouchesAs;
    if KeyStatus(cr, kr, id, eid, t, role).ok && AnchorOf(kr.anchors, id).None? {
      var path := StatusOkIsSound(cr, kr, id, eid, t, role);
      AsVouched(cr, kr, id, path, eid, t, role);
    }
    if Entitled(cr, kr, id, eid, t, role) && !KeyStatus(cr, kr, id, eid, t, role).ok {
      var path: seq<Record> :| VouchesAs(cr, kr, id, path, eid, t, role);
      VouchedIsOk(cr, kr, id, path, eid, t, role);
    }
  }

  lemma AsVouched(cr: Crypto, kr: Ring, id: Id, path: seq<Record>, eid: seq<byte>, t: uint64, role: uint32)
    requires 1 <= |path| <= MAX_DEPTH && Vouches(cr, kr, id, path, 0)
    requires path[0].subject == eid && Overlaps(path[0].roles, role) && InWindow(kr.skew, path[0], t)
    ensures VouchesAs(cr, kr, id, path, eid, t, role)
  {
  }

  lemma VouchedIsOk(cr: Crypto, kr: Ring, id: Id, path: seq<Record>, eid: seq<byte>, t: uint64, role: uint32)
    requires OneKeyRecordPerId(kr) && VouchesAs(cr, kr, id, path, eid, t, role)
    ensures KeyStatus(cr, kr, id, eid, t, role).ok
  {
    hide Vouches, OneKeyRecordPerId, ChainOf, RevokedFrom, InWindow, Overlaps;
    VouchedForKeyIsAccepted(cr, kr, id, path, 0);
  }

  // ---- Why a key is refused -------------------------------------------------------------------------

  ghost predicate NoKeyRecord(kr: Ring, id: Id) {
    forall r :: r in kr.records ==> !IsKeyRecordFor(r, id)
  }

  /** The fault of a key record whose issuer is accepted. */
  ghost predicate Fault(cr: Crypto, kr: Ring, r: Record, depth: nat, reason: Reason) {
    && ChainOf(cr, kr, r.issuer, depth + 1).Good?
    && match reason
       case IssuerLacksIssueRole => !Overlaps(ChainOf(cr, kr, r.issuer, depth + 1).roles, ROLE_ISSUE)
       case RecordSignatureInvalid => !VerifiedByIssuer(cr, kr, r)
       case IssuerNotValidAtIssuance =>
         exists up :: up in kr.records && IsKeyRecordFor(up, r.issuer) && !InWindow(kr.skew, up, r.issuedAt)
       case IssuerRevoked =>
         depth + 1 < MAX_DEPTH && exists q :: q in kr.records && Revokes(cr, kr, q, r.issuer, depth + 1) && q.effectiveFrom <= r.seenAt
       case _ => false
  }

  /** A list of key records on file, each certifying the issuer of the one before, at the end of which the reason
      is true: the last record has this fault, or the last issuer is no anchor and is not certified at all, or
      not within the levels. */
  ghost predicate Blames(cr: Crypto, kr: Ring, id: Id, path: seq<Record>, depth: nat, reason: Reason)
    decreases |path|
  {
    && AnchorOf(kr.anchors, id).None?
    && if path == [] then
         || (reason == KeyUnknown && depth == 0 && NoKeyRecord(kr, id))
         || (reason == ChainNotAnchored && depth > 0 && NoKeyRecord(kr, id))
         || (reason == ChainTooLong && depth >= MAX_DEPTH)
       else
         && path[0] in kr.records && IsKeyRecordFor(path[0], id) && depth < MAX_DEPTH
         && (Blames(cr, kr, path[0].issuer, path[1..], depth + 1, reason)
             || (|path| == 1 && Fault(cr, kr, path[0], depth, reason)))
  }

  /** A record turned down at this depth is at the head of such a list. */
  ghost predicate Blamed(cr: Crypto, kr: Ring, id: Id, depth: nat, reason: Reason) {
    exists path: seq<Record> :: Blames(cr, kr, id, path, depth, reason)
  }

  lemma BlamedBy(cr: Crypto, kr: Ring, id: Id, path: seq<Record>, depth: nat, reason: Reason)
    requires Blames(cr, kr, id, path, depth, reason)
    ensures Blamed(cr, kr, id, depth, reason)
  {
    hide Blames;
  }

  lemma JudgedFault(cr: Crypto, kr: Ring, r: Record, depth: nat)
    requires depth < MAX_DEPTH && ChainOf(cr, kr, r.issuer, depth + 1).Good? && Judge(cr, kr, r, depth) != Ok
    ensures Fault(cr, kr, r, depth, Judge(cr, kr, r, depth))
  {
    hide ChainOf, EarliestRevocation, Revokes, VerifiedByIssuer, InWindow, Overlaps;
    if depth + 1 < MAX_DEPTH { RevokedFromIsEarliest(cr, kr, r.issuer, depth + 1); }
  }

  lemma BlamesRecord(cr: Crypto, kr: Ring, id: Id, r: Record, depth: nat)
    requires depth < MAX_DEPTH && AnchorOf(kr.anchors, id).None? && r in kr.records && IsKeyRecordFor(r, id)
    requires Judge(cr, kr, r, depth) != Ok
    requires ChainOf(cr, kr, r.issuer, depth + 1).Bad? ==>
               Blamed(cr, kr, r.issuer, depth + 1, ChainOf(cr, kr, r.issuer, depth + 1).reason)
    ensures Blamed(cr, kr, id, depth, Judge(cr, kr, r, depth))
  {
    hide ChainOf, RevokedFrom, VerifiedByIssuer, InWindow, Overlaps, Fault;
    var reason := Judge(cr, kr, r, depth);
    if ChainOf(cr, kr, r.issuer, depth + 1).Bad? {
      var up: seq<Record> :| Blames(cr, kr, r.issuer, up, depth + 1, reason);
      var path := [r] + up;
      assert path[1..] == up;
      BlamedBy(cr, kr, id, path, depth, reason);
    } else {
      JudgedFault(cr, kr, r, depth);
      BlamedBy(cr, kr, id, [r], depth, reason);
    }
  }

  lemma {:induction false} RefusalIsBlamed(cr: Crypto, kr: Ring, id: Id, depth: nat)
    requires ChainOf(cr, kr, id, depth).Bad?
    ensures Blamed(cr, kr, id, depth, ChainOf(cr, kr, id, depth).reason)
    decreases Levels(depth), 1, 0
  {
    hide FirstAccepted;
    if depth >= MAX_DEPTH {
      BlamedBy(cr, kr, id, [], depth, ChainTooLong);
    } else {
      LastRefusalIsBlamed(cr, kr, id, depth, kr.records, false, KeyUnknown);
    }
  }

  lemma {:induction false} LastRefusalIsBlamed(cr: Crypto, kr: Ring, id: Id, depth: nat, rest: seq<Record>, found: bool, last: Reason)
    requires depth < MAX_DEPTH && AnchorOf(kr.anchors, id).None? && last != Ok
    requires forall r :: r in rest ==> r in kr.records
    requires forall r :: r in kr.records && r !in rest && IsKeyRecordFor(r, id) ==> found
    requires found ==> Blamed(cr, kr, id, depth, last)
    requires FirstAccepted(cr, kr, id, depth, rest, found, last).Bad?
    ensures Blamed(cr, kr, id, depth, FirstAccepted(cr, kr, id, depth, rest, found, last).reason)
    decreases Levels(depth), 0, |rest|
  {
    hide Judge, ChainOf, Blamed, IsKeyRecordFor;
    if rest == [] {
      if !found { UncertifiedIsBlamed(cr, kr, id, depth); }
    } else {
      var r := rest[0];
      assert forall q :: q in kr.records && q !in rest[1..] ==> q == r || q !in rest;
      if IsKeyRecordFor(r, id) {
        if ChainOf(cr, kr, r.issuer, depth + 1).Bad? { RefusalIsBlamed(cr, kr, r.issuer, depth + 1); }
        BlamesRecord(cr, kr, id, r, depth);
        LastRefusalIsBlamed(cr, kr, id, depth, rest[1..], true, Judge(cr, kr, r, depth));
      } else {
        LastRefusalIsBlamed(cr, kr, id, depth, rest[1..], found, last);
      }
    }
  }

  lemma UncertifiedIsBlamed(cr: Crypto, kr: Ring, id: Id, depth: nat)
    requires depth < MAX_DEPTH && AnchorOf(kr.anchors, id).None? && NoKeyRecord(kr, id)
    ensures Blamed(cr, kr, id, depth, if depth > 0 then ChainNotAnchored else KeyUnknown)
  {
    hide NoKeyRecord;
    BlamedBy(cr, kr, id, [], depth, if depth > 0 then ChainNotAnchored else KeyUnknown);
  }

  /** What is wrong with a key that is accepted but not for this use; `r` vouches for it, or it is an anchor. */
  ghost predicate Unfit(kr: Ring, id: Id, eid: seq<byte>, t: uint64, role: uint32, reason: Reason) {
    if AnchorOf(kr.anchors, id).Some? then
      reason == KeyNotForThisNode && (eid == [] || kr.anchors[AnchorOf(kr.anchors, id).value].eid != eid)
    else exists r :: r in kr.records && IsKeyRecordFor(r, id) && UnfitBy(kr, r, eid, t, role, reason)
  }

  ghost predicate UnfitBy(kr: Ring, r: Record, eid: seq<byte>, t: uint64, role: uint32, reason: Reason) {
    match reason
    case KeyNotForThisNode => r.subject != eid
    case KeyLacksRole => !Overlaps(r.roles, role)
    case KeyNotYetValid => !InWindow(kr.skew, r, t) && t < r.notBefore
    case KeyExpired => !InWindow(kr.skew, r, t) && t >= r.notBefore
    case _ => false
  }

  /** Main result: a refusal gives a true reason. Either the key is accepted and not for this use, or somewhere up
      the key records on file, within the levels, is the fault named. */
  lemma RefusalIsTrue(cr: Crypto, kr: Ring, id: Id, eid: seq<byte>, t: uint64, role: uint32)
    requires !KeyStatus(cr, kr, id, eid, t, role).ok
    ensures var reason := KeyStatus(cr, kr, id, eid, t, role).reason;
            if ChainOf(cr, kr, id, 0).Bad? then Blamed(cr, kr, id, 0, reason) else Unfit(kr, id, eid, t, role, reason)
  {
    hide FirstAccepted, RevokedFrom, InWindow, Overlaps, Blamed;
    if ChainOf(cr, kr, id, 0).Bad? { RefusalIsBlamed(cr, kr, id, 0); }
  }

  // ---- Widening a window -----------------------------------------------------------------------

  /** The window is the record's own with the skew on either side, or what is left of it where its end wraps. */
  lemma WindowIs(skew: uint64, r: Record, t: uint64)
    ensures InWindow(skew, r, t) <==>
              r.notBefore <= t + skew && t <= (if r.notAfter + skew < TWO_64 then r.notAfter + skew else r.notAfter + skew - TWO_64)
  {
  }

  function Pow2(k: nat): (p: nat)
    ensures p > 0
  {
    if k == 0 then 1 else 2 * Pow2(k - 1)
  }

  predicate HasBit(a: nat, k: nat) {
    a / Pow2(k) % 2 == 1
  }

  lemma BitAbove(a: nat, k: nat)
    ensures HasBit(a, k + 1) <==> HasBit(a / 2, k)
  {
    Halves(a, Pow2(k));
  }

  lemma Halves(a: nat, p: nat)
    requires p > 0
    ensures a / (2 * p) == a / 2 / p
  {
    var q, r := a / 2 / p, a / 2 % p;
    assert a / 2 == q * p + r;
    var low := 2 * r + a % 2;
    assert a == q * (2 * p) + low && low < 2 * p;
    Quotient(a, 2 * p, q, low);
  }

  /** Roles overlap exactly when some bit is set in both. */
  lemma {:induction false} OverlapsIff(a: nat, b: nat)
    ensures Overlaps(a, b) <==> exists k: nat :: HasBit(a, k) && HasBit(b, k)
  {
    if a > 0 && b > 0 {
      OverlapsIff(a / 2, b / 2);
      if a % 2 == 1 && b % 2 == 1 {
        assert HasBit(a, 0) && HasBit(b, 0);
      } else if Overlaps(a, b) {
        var k: nat :| HasBit(a / 2, k) && HasBit(b / 2, k);
        BitAbove(a, k);
        BitAbove(b, k);
        assert HasBit(a, k + 1) && HasBit(b, k + 1);
      }
      if k: nat :| HasBit(a, k) && HasBit(b, k) {
        if k > 0 {
          BitAbove(a, k - 1);
          BitAbove(b, k - 1);
          assert HasBit(a / 2, k - 1) && HasBit(b / 2, k - 1);
        } else {
          assert a % 2 == 1 && b % 2 == 1;
        }
      }
    } else {
      forall k: nat ensures !(HasBit(a, k) && HasBit(b, k)) { assert 0 / Pow2(k) == 0; }
    }
  }

  /** Every record of a vouching list carries an Ed25519 signature of its payload that opens under the key on file
      for its issuer. */
  lemma {:induction false} VouchedIsSigned(cr: Crypto, kr: Ring, id: Id, path: seq<Record>, depth: nat, i: nat)
    requires Vouches(cr, kr, id, path, depth) && i < |path|
    ensures var r, pub := path[i], PubOf(kr, path[i].issuer);
            pub.Some? && r.algOk && |r.payload| <= MAX_PAYLOAD && cr.opens(r.sig, SignedMessage(r.payload), pub.value)
    decreases i
  {
    hide RevokedFrom, InWindow, Overlaps, SignedMessage, PubOf;
    if i > 0 { VouchedIsSigned(cr, kr, path[0].issuer, path[1..], depth + 1, i - 1); }
  }

  /** The skew is meant to widen a record's window. It does, at every time of the window, unless
      its end plus the skew wraps past 64 bits: a record without an end date then counts as expired. */
  lemma SkewWidensIffNoWrap(skew: uint64, r: Record)
    requires r.notBefore <= r.notAfter
    ensures (forall t: uint64 :: r.notBefore <= t <= r.notAfter ==> InWindow(skew, r, t)) <==> r.notAfter + skew < TWO_64
  {
    if r.notAfter + skew >= TWO_64 {
      assert !InWindow(skew, r, r.notAfter);
    }
  }
}
