/**
 The rules of flight/keyring.c, stated over the contents of a key ring.

 A ring holds operator anchors and every record received so far, unchecked. `ChainOf` decides
 whether a key counts and `RevokedFrom` from when it is revoked; each calls the other one level
 deeper, and the recursion stops at `MAX_DEPTH`.
 */
module KeyringRules {
  import opened Wrappers
  import opened Bytes
  import opened CborReader

  const MAX_RECORDS := 32
  const MAX_ANCHORS := 4
  const MAX_DEPTH := 6
  const MAX_CHAIN := MAX_DEPTH + 2
  /** "Not revoked". */
  const NONE: uint64 := 0xFFFF_FFFF_FFFF_FFFF

  const ROLE_CUSTODY: uint32 := 1
  const ROLE_ISSUE: uint32 := 2
  const ROLE_REVOKE: uint32 := 4
  const ALL_ROLES: uint32 := 7

  type Id = seq<byte>

  datatype Reason =
    | Ok | KeyUnknown | ChainNotAnchored | ChainTooLong
    | IssuerLacksIssueRole | RecordSignatureInvalid | IssuerNotValidAtIssuance
    | IssuerRevoked | KeyNotForThisNode | KeyLacksRole | KeyExpired | KeyNotYetValid

  datatype Anchor = Anchor(pub: seq<byte>, id: Id, eid: seq<byte>)

  datatype Ring = Ring(anchors: seq<Anchor>, records: seq<Record>, skew: uint64)

  // ---- Lookups ----------------------------------------------------------------------------

  /** Bitwise a & b != 0. */
  predicate Overlaps(a: nat, b: nat) {
    a > 0 && b > 0 && ((a % 2 == 1 && b % 2 == 1) || Overlaps(a / 2, b / 2))
  }

  /** The first anchor with this id. */
  function AnchorOf(anchors: seq<Anchor>, id: Id): (a: Option<nat>)
    ensures a.Some? ==> a.value < |anchors| && anchors[a.value].id == id
    ensures a.None? ==> forall b :: b in anchors ==> b.id != id
  {
    AnchorFrom(anchors, id, 0)
  }

  function AnchorFrom(anchors: seq<Anchor>, id: Id, i: nat): (a: Option<nat>)
    requires i <= |anchors|
    ensures a.Some? ==> i <= a.value < |anchors| && anchors[a.value].id == id
    ensures a.None? ==> forall k :: i <= k < |anchors| ==> anchors[k].id != id
    decreases |anchors| - i
  {
    if i == |anchors| then None
    else if anchors[i].id == id then Some(i)
    else AnchorFrom(anchors, id, i + 1)
  }

  predicate IsKeyRecordFor(r: Record, id: Id) {
    r.kind == 1 && r.keyid == id
  }

  function PubInRecords(rs: seq<Record>, id: Id): (p: Option<seq<byte>>)
    ensures p.Some? ==> exists r :: r in rs && IsKeyRecordFor(r, id) && r.pub == p.value
    ensures p.None? ==> forall r :: r in rs ==> !IsKeyRecordFor(r, id)
  {
    if rs == [] then None
    else if IsKeyRecordFor(rs[0], id) then Some(rs[0].pub)
    else PubInRecords(rs[1..], id)
  }

  /** The public key on file under an id: an anchor's, else the first key record's. */
  function PubOf(kr: Ring, id: Id): Option<seq<byte>> {
    match AnchorOf(kr.anchors, id)
    case Some(a) => Some(kr.anchors[a].pub)
    case None => PubInRecords(kr.records, id)
  }

  // ---- Signatures and windows --------------------------------------------------------------

  /** What is signed: the CBOR of ["Signature1", h'a10127', h'', payload] (section 4.4 of RFC 9052). */
  function SignedMessage(payload: seq<byte>): seq<byte>
    requires |payload| <= MAX_PAYLOAD
  {
    [0x84, 0x6a, 0x53, 0x69, 0x67, 0x6e, 0x61, 0x74, 0x75, 0x72, 0x65, 0x31, 0x43, 0xa1, 0x01, 0x27, 0x40]
    + (if |payload| < 24 then [0x40 + |payload|]
       else if |payload| < 256 then [0x58, |payload|]
       else [0x59, 0x01, 0x00])
    + payload
  }

  predicate Verify(cr: Crypto, r: Record, pub: seq<byte>) {
    r.algOk && |r.payload| <= MAX_PAYLOAD && cr.opens(r.sig, SignedMessage(r.payload), pub)
  }

  /** The signature verifies under the key on file for the issuer. */
  predicate VerifiedByIssuer(cr: Crypto, kr: Ring, r: Record) {
    PubOf(kr, r.issuer).Some? && Verify(cr, r, PubOf(kr, r.issuer).value)
  }

  /** The validity window widened by the skew; the upper bound is a 64-bit sum and can wrap. */
  predicate InWindow(skew: uint64, r: Record, t: uint64) {
    && (if r.notBefore > skew then r.notBefore - skew else 0) <= t
    && t <= (r.notAfter + skew) % TWO_64
  }

  // ---- The mutual recursion ------------------------------------------------------------------

  /** A rejected key, or an accepted one: the record that vouches for it (none for an anchor), the
      anchor it leads to, its roles, and the key ids from it to the anchor. */
  datatype Chain = Bad(reason: Reason) | Good(rec: Option<Record>, anchor: nat, roles: uint32, chain: seq<Id>)

  /** How many levels are left below `depth`. */
  function Levels(depth: nat): nat {
    if depth < MAX_DEPTH then MAX_DEPTH - depth else 0
  }

  /** The stored chain: at most MAX_CHAIN ids. */
  function Prepend(id: Id, chain: seq<Id>): seq<Id> {
    [id] + (if |chain| < MAX_CHAIN then chain else chain[..MAX_CHAIN - 1])
  }

  /** A chain result fits the ring: the vouching record is a key record for this id on file. */
  predicate Sensible(kr: Ring, id: Id, c: Chain) {
    && (c.Bad? ==> c.reason != Ok)
    && (c.Good? ==>
      && c.anchor < |kr.anchors|
      && (c.rec.None? ==> AnchorOf(kr.anchors, id) == Some(c.anchor))
      && (c.rec.Some? ==> c.rec.value in kr.records && IsKeyRecordFor(c.rec.value, id) && c.roles == c.rec.value.roles
                          && AnchorOf(kr.anchors, id).None?)
      && PubOf(kr, id).Some?
      && |c.chain| > 0 && c.chain[0] == id)
  }

  function ChainOf(cr: Crypto, kr: Ring, id: Id, depth: nat): (c: Chain)
    ensures Sensible(kr, id, c)
    decreases Levels(depth), 2, 0
  {
    match AnchorOf(kr.anchors, id)
    case Some(a) => Good(None, a, ALL_ROLES, [id])
    case None =>
      if depth >= MAX_DEPTH then Bad(ChainTooLong)
      else FirstAccepted(cr, kr, id, depth, kr.records, false, KeyUnknown)
  }

  /** The loop of `chain_of`: the records still to look at, whether any matched, and the last
      reason for turning one down. */
  function FirstAccepted(cr: Crypto, kr: Ring, id: Id, depth: nat, rest: seq<Record>, found: bool, last: Reason): (c: Chain)
    requires depth < MAX_DEPTH && AnchorOf(kr.anchors, id).None? && last != Ok
    requires forall r :: r in rest ==> r in kr.records
    ensures Sensible(kr, id, c)
    decreases Levels(depth), 1, |rest|
  {
    if rest == [] then Bad(if found then last else if depth > 0 then ChainNotAnchored else KeyUnknown)
    else if !IsKeyRecordFor(rest[0], id) then FirstAccepted(cr, kr, id, depth, rest[1..], found, last)
    else
      match Judge(cr, kr, rest[0], depth)
      case Ok =>
        var up := ChainOf(cr, kr, rest[0].issuer, depth + 1);
        Good(Some(rest[0]), up.anchor, rest[0].roles, Prepend(id, up.chain))
      case reason => FirstAccepted(cr, kr, id, depth, rest[1..], true, reason)
  }

  /** Why a key record does not count, or Ok. */
  function Judge(cr: Crypto, kr: Ring, r: Record, depth: nat): (reason: Reason)
    requires depth < MAX_DEPTH
    ensures reason == Ok ==> ChainOf(cr, kr, r.issuer, depth + 1).Good?
    decreases Levels(depth), 0, 0
  {
    match ChainOf(cr, kr, r.issuer, depth + 1)
    case Bad(reason) => reason
    case Good(rec, anchor, roles, chain) =>
      if !Overlaps(roles, ROLE_ISSUE) then IssuerLacksIssueRole
      else if !VerifiedByIssuer(cr, kr, r) then RecordSignatureInvalid
      else if rec.Some? && !InWindow(kr.skew, rec.value, r.issuedAt) then IssuerNotValidAtIssuance
      else
        var T := RevokedFrom(cr, kr, r.issuer, depth + 1);
        if T != NONE && !(r.seenAt < T) then IssuerRevoked else Ok
  }

  function RevokedFrom(cr: Crypto, kr: Ring, id: Id, depth: nat): uint64
    decreases Levels(depth), 1, 0
  {
    if depth >= MAX_DEPTH then NONE
    else EarliestRevocation(cr, kr, id, depth, |kr.records|)
  }

  /** T after the first n records of the loop of `revoked_from`. */
  function EarliestRevocation(cr: Crypto, kr: Ring, id: Id, depth: nat, n: nat): uint64
    requires depth < MAX_DEPTH && n <= |kr.records|
    decreases Levels(depth), 0, n
  {
    if n == 0 then NONE
    else
      var T := EarliestRevocation(cr, kr, id, depth, n - 1);
      var r := kr.records[n - 1];
      if Revokes(cr, kr, r, id, depth) && (T == NONE || r.effectiveFrom < T) then r.effectiveFrom else T
  }

  /** A verified revocation of this key by someone permitted to revoke it. */
  predicate Revokes(cr: Crypto, kr: Ring, r: Record, id: Id, depth: nat)
    requires depth < MAX_DEPTH
    decreases Levels(depth), 0, 0, 1
  {
    r.kind == 2 && r.target == id && VerifiedByIssuer(cr, kr, r) && MayRevoke(cr, kr, r.issuer, id, depth)
  }

  /** The key itself, any key in its issuing chain, any anchor, or a key with the revoke role
      under the same anchor. */
  predicate MayRevoke(cr: Crypto, kr: Ring, signer: Id, id: Id, depth: nat)
    requires depth < MAX_DEPTH
    decreases Levels(depth), 0, 0, 0
  {
    var target := ChainOf(cr, kr, id, depth + 1);
    if signer == id then PubOf(kr, id).Some?
    else
      || (target.Good? && signer in target.chain)
      || AnchorOf(kr.anchors, signer).Some?
      || (var s := ChainOf(cr, kr, signer, depth + 1);
          s.Good? && Overlaps(s.roles, ROLE_REVOKE) && target.Good? && s.anchor == target.anchor)
  }

  // ---- The query -------------------------------------------------------------------------------

  datatype Status = Status(ok: bool, reason: Reason, revoked: bool, revokedFrom: uint64)

  function Refused(reason: Reason): Status {
    Status(false, reason, false, 0)
  }

  /** May this key sign in `role` for node `eid` at time t, and if it is revoked, from when? */
  function KeyStatus(cr: Crypto, kr: Ring, id: Id, eid: seq<byte>, t: uint64, role: uint32): Status {
    match ChainOf(cr, kr, id, 0)
    case Bad(reason) => Refused(reason)
    case Good(rec, anchor, roles, chain) =>
      if rec.Some? && rec.value.subject != eid then Refused(KeyNotForThisNode)
      else if rec.Some? && !Overlaps(roles, role) then Refused(KeyLacksRole)
      else if rec.Some? && !InWindow(kr.skew, rec.value, t) then
        Refused(if t < rec.value.notBefore then KeyNotYetValid else KeyExpired)
      else if rec.None? && (kr.anchors[anchor].eid == [] || kr.anchors[anchor].eid != eid) then
        Refused(KeyNotForThisNode)
      else
        var T := RevokedFrom(cr, kr, id, 0);
        if T != NONE then Status(true, Ok, true, T) else Status(true, Ok, false, 0)
  }
}
