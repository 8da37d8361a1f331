/** The key ring of flight/keyring.c as the C keeps it: two fixed tables filled from the front, and
    queries that loop over them and leave them alone. */
module Keyring {
  import opened Codes
  import opened Wrappers
  import opened Bytes
  import opened CborReader
  import opened KeyringRules
  import opened KeyringIngest

  /** `chain_t`: the indices are -1 where there is no record, and all zero on refusal. */
  datatype ChainT = ChainT(ok: bool, reason: Reason, rec: int, anchor: int, roles: uint32, chain: seq<Id>)

  /** The struct says what the rule says, the vouching record being the one at index `rec`. */
  ghost predicate Represents(kr: Ring, out: ChainT, c: Chain) {
    match c
    case Bad(reason) => !out.ok && out.reason == reason
    case Good(rec, anchor, roles, chain) =>
      && out.ok && out.anchor == anchor && out.roles == roles && out.chain == chain
      && (rec.None? ==> out.rec == -1)
      && (rec.Some? ==> 0 <= out.rec < |kr.records| && kr.records[out.rec] == rec.value)
  }

  lemma PubFrom(rs: seq<Record>, id: Id, i: nat)
    requires i <= |rs|
    ensures PubInRecords(rs[i..], id) == if i == |rs| then None
                                         else if rs[i].kind == 1 && rs[i].keyid == id then Some(rs[i].pub)
                                         else PubInRecords(rs[i + 1..], id)
  {
    if i < |rs| { assert rs[i..][0] == rs[i] && rs[i..][1..] == rs[i + 1..]; }
  }

  class Keyring {
    const crypto: Crypto
    const anchors: array<Anchor>
    const records: array<Record>
    const skew: uint64
    var nAnchors: nat
    var nRecords: nat

    ghost predicate Valid()
      reads this
    {
      && anchors.Length == MAX_ANCHORS && records.Length == MAX_RECORDS
      && nAnchors <= MAX_ANCHORS && nRecords <= MAX_RECORDS
    }

    ghost function View(): Ring
      requires Valid()
      reads this, anchors, records
    {
      Ring(anchors[..nAnchors], records[..nRecords], skew)
    }

    constructor (crypto: Crypto, skew: uint64)
      ensures Valid() && View() == Ring([], [], skew)
      ensures this.crypto == crypto && fresh(anchors) && fresh(records)
    {
      this.crypto := crypto;
      this.skew := skew;
      anchors := new Anchor[MAX_ANCHORS](_ => Anchor([], [], []));
      records := new Record[MAX_RECORDS](_ => BlankRecord(false, [], []));
      nAnchors, nRecords := 0, 0;
    }

    /** An operator root key, held out of band; an `eid` that does not fit is refused. */
    method AddAnchor(pub: seq<byte>, eid: seq<byte>) returns (code: int)
      requires Valid()
      modifies this`nAnchors, anchors
      ensures Valid()
      ensures code == (if old(nAnchors) == MAX_ANCHORS then E_SPACE else if |eid| >= MAX_EID then E_STRING else 0)
      ensures View() == if code == 0
                        then old(View()).(anchors := old(View()).anchors + [Anchor(pub, crypto.keyId(pub), eid)])
                        else old(View())
    {
      if nAnchors >= MAX_ANCHORS { return E_SPACE; }
      anchors[nAnchors] := Anchor(pub, crypto.keyId(pub), []);
      if |eid| >= MAX_EID { return E_STRING; }
      anchors[nAnchors] := anchors[nAnchors].(eid := eid);
      nAnchors := nAnchors + 1;
      return 0;
    }

    method Add(item: seq<byte>, seen: uint64) returns (code: int)
      requires Valid()
      modifies this`nRecords, records
      ensures Valid()
      ensures AddItem(crypto, old(View()).records, item, seen) == Added(View().records, code)
      ensures View().anchors == old(View()).anchors
    {
      hide Assemble, ReadEnvelope;
      var r := new Reader(item);
      var parsed := ReadItem(crypto, r);
      if parsed.None? || r.i != |item| { return E_ARG; }
      var rec := parsed.value;
      var i := 0;
      while i < nRecords
        invariant 0 <= i <= nRecords
        invariant FirstSame(View().records, rec, 0) == FirstSame(View().records, rec, i)
      {
        if SameItem(records[i], rec) {
          if seen < records[i].seenAt { records[i] := records[i].(seenAt := seen); }
          return 0;
        }
        i := i + 1;
      }
      if nRecords >= MAX_RECORDS { return E_SPACE; }
      records[nRecords] := rec.(seenAt := seen);
      nRecords := nRecords + 1;
      return 1;
    }

    /** Records added before an error stay in the ring. */
    method Ingest(data: seq<byte>, seen: uint64) returns (code: int)
      requires Valid()
      modifies this`nRecords, records
      ensures Valid()
      ensures IngestBlock(crypto, old(View()).records, data, seen) == Added(View().records, code)
      ensures View().anchors == old(View()).anchors
    {
      hide ParseItem, AddItem;
      var r := new Reader(data);
      var ok, m, count := r.ReadHead();
      if !ok || m != 4 { return E_ARG; }
      var added, k := 0, 0;
      ghost var whole := IngestFrom(crypto, View().records, data, r.i, 0, count, seen, 0);
      while k < count
        invariant Valid() && 0 <= k <= count && r.p == data && r.i <= |data|
        invariant View().anchors == old(View()).anchors
        invariant whole == IngestFrom(crypto, View().records, data, r.i, k, count, seen, added)
      {
        var start := r.i;
        var tmp := ReadItem(crypto, r);
        if tmp.None? { return E_ARG; }
        var a := Add(data[start..r.i], seen);
        if a < 0 { return a; }
        added := added + a;
        k := k + 1;
      }
      return added;
    }

    // ---- Queries ------------------------------------------------------------------------

    method FindAnchor(id: Id) returns (a: int)
      requires Valid()
      ensures a == (match AnchorOf(View().anchors, id) case None => -1 case Some(k) => k as int)
    {
      var i := 0;
      while i < nAnchors
        invariant 0 <= i <= nAnchors
        invariant AnchorOf(View().anchors, id) == AnchorFrom(View().anchors, id, i)
      {
        if anchors[i].id == id { return i; }
        i := i + 1;
      }
      return -1;
    }

    method FindPub(id: Id) returns (p: Option<seq<byte>>)
      requires Valid()
      ensures p == PubOf(View(), id)
    {
      hide PubInRecords, AnchorOf;
      var a := FindAnchor(id);
      if a >= 0 { return Some(anchors[a].pub); }
      ghost var rs := View().records;
      assert rs[0..] == rs;
      var i := 0;
      while i < nRecords
        invariant 0 <= i <= nRecords == |rs|
        invariant PubInRecords(rs, id) == PubInRecords(rs[i..], id)
      {
        PubFrom(rs, id, i);
        assert rs[i] == records[i];
        if records[i].kind == 1 && records[i].keyid == id { return Some(records[i].pub); }
        i := i + 1;
      }
      PubFrom(rs, id, i);
      return None;
    }

    method FindChain(id: Id, depth: nat) returns (out: ChainT)
      requires Valid()
      ensures Represents(View(), out, ChainOf(crypto, View(), id, depth))
      decreases Levels(depth), 1
    {
      hide RevokedFrom, InWindow, Overlaps, Verify;
      out := ChainT(false, Ok, 0, 0, 0, []);
      var a := FindAnchor(id);
      if a >= 0 { return ChainT(true, Ok, -1, a, ALL_ROLES, [id]); }
      if depth >= MAX_DEPTH { return out.(reason := ChainTooLong); }
      ghost var kr := View();
      assert kr.records[0..] == kr.records;
      var found, last := false, KeyUnknown;
      var i := 0;
      while i < nRecords
        invariant 0 <= i <= nRecords && last != Ok && !out.ok
        invariant View() == kr && AnchorOf(kr.anchors, id).None?
        invariant ChainOf(crypto, kr, id, depth) == FirstAccepted(crypto, kr, id, depth, kr.records[i..], found, last)
      {
        var r := records[i];
        assert kr.records[i..][0] == r && kr.records[i..][1..] == kr.records[i + 1..];
        if r.kind == 1 && r.keyid == id {
          found := true;
          var up := FindChain(r.issuer, depth + 1);
          var verdict := JudgeRecord(r, up, depth);
          if verdict == Ok {
            return ChainT(true, Ok, i, up.anchor, r.roles, Prepend(id, up.chain));
          }
          last := verdict;
        }
        i := i + 1;
      }
      out := out.(reason := if found then last else if depth > 0 then ChainNotAnchored else KeyUnknown);
    }

    /** The tests on one key record, given its issuer's chain. */
    method JudgeRecord(r: Record, up: ChainT, depth: nat) returns (verdict: Reason)
      requires Valid() && depth < MAX_DEPTH
      requires Represents(View(), up, ChainOf(crypto, View(), r.issuer, depth + 1))
      ensures verdict == Judge(crypto, View(), r, depth)
      decreases Levels(depth), 0
    {
      hide ChainOf, RevokedFrom, InWindow, Overlaps, Verify;
      if !up.ok { return up.reason; }
      if !Overlaps(up.roles, ROLE_ISSUE) { return IssuerLacksIssueRole; }
      var pub := FindPub(r.issuer);
      if pub.None? || !Verify(crypto, r, pub.value) { return RecordSignatureInvalid; }
      if up.rec >= 0 && !InWindow(skew, records[up.rec], r.issuedAt) { return IssuerNotValidAtIssuance; }
      var T := FindRevocation(r.issuer, depth + 1);
      return if T != NONE && !(r.seenAt < T) then IssuerRevoked else Ok;
    }

    method FindRevocation(id: Id, depth: nat) returns (T: uint64)
      requires Valid()
      ensures T == RevokedFrom(crypto, View(), id, depth)
      decreases Levels(depth), 1
    {
      hide ChainOf, PubOf, Verify;
      if depth >= MAX_DEPTH { return NONE; }
      T := NONE;
      ghost var kr := View();
      var target := FindChain(id, depth + 1);
      var targetPub := FindPub(id);
      var i := 0;
      while i < nRecords
        invariant 0 <= i <= nRecords && View() == kr
        invariant T == EarliestRevocation(crypto, kr, id, depth, i)
      {
        var r := records[i];
        if r.kind == 2 && r.target == id {
          var signerPub := FindPub(r.issuer);
          if signerPub.Some? && Verify(crypto, r, signerPub.value) {
            var allowed := SignerAllowed(r.issuer, id, target, targetPub, depth);
            if allowed && (T == NONE || r.effectiveFrom < T) { T := r.effectiveFrom; }
          }
        }
        i := i + 1;
      }
    }

    method SignerAllowed(signer: Id, id: Id, target: ChainT, targetPub: Option<seq<byte>>, depth: nat) returns (allowed: bool)
      requires Valid() && depth < MAX_DEPTH && targetPub == PubOf(View(), id)
      requires Represents(View(), target, ChainOf(crypto, View(), id, depth + 1))
      ensures allowed == MayRevoke(crypto, View(), signer, id, depth)
      decreases Levels(depth), 0
    {
      hide ChainOf, PubOf;
      allowed := false;
      if signer == id {
        allowed := targetPub.Some?;
      } else {
        if target.ok {
          var k := 0;
          while k < |target.chain|
            invariant 0 <= k <= |target.chain|
            invariant allowed <==> signer in target.chain[..k]
          {
            if target.chain[k] == signer { allowed := true; }
            k := k + 1;
          }
          assert target.chain[..k] == target.chain;
        }
        if !allowed {
          var a := FindAnchor(signer);
          if a >= 0 { allowed := true; }
        }
        if !allowed {
          var s := FindChain(signer, depth + 1);
          allowed := s.ok && Overlaps(s.roles, ROLE_REVOKE) && target.ok && s.anchor == target.anchor;
        }
      }
    }

    method Query(pub: seq<byte>, eid: seq<byte>, t: uint64, role: uint32) returns (st: Status)
      requires Valid()
      ensures st == KeyStatus(crypto, View(), crypto.keyId(pub), eid, t, role)
    {
      hide ChainOf, RevokedFrom, InWindow, Overlaps;
      var id := crypto.keyId(pub);
      var c := FindChain(id, 0);
      if !c.ok { return Refused(c.reason); }
      if c.rec >= 0 {
        var r := records[c.rec];
        if r.subject != eid { return Refused(KeyNotForThisNode); }
        if !Overlaps(c.roles, role) { return Refused(KeyLacksRole); }
        if !InWindow(skew, r, t) { return Refused(if t < r.notBefore then KeyNotYetValid else KeyExpired); }
      } else if anchors[c.anchor].eid == [] || anchors[c.anchor].eid != eid {
        return Refused(KeyNotForThisNode);
      }
      var T := FindRevocation(id, 0);
      st := if T != NONE then Status(true, Ok, true, T) else Status(true, Ok, false, 0);
    }
  }
}
