/**
 Key records and revocations as an operator issues them and a ring takes them in, for the concrete inputs
 on which flight/keyring.c falls short of its rules. Keys are numbered; the signature of anything under a
 key is that key twice over.
 */
module SampleRecords {
  import opened Wrappers
  import opened Bytes
  import opened CborReader
  import opened KeyringRules
  import opened KeyringIngest
  import opened KeyRecords

  function Pub(i: byte): (p: seq<byte>)
    ensures |p| == 32 && p[0] == i
  {
    [i] + Zeros(31)
  }

  function IdOf(i: byte): (id: Id)
    ensures |id| == 16 && id[0] == i
  {
    Pub(i)[..16]
  }

  function SampleCrypto(): Crypto {
    Crypto((p: seq<byte>) => if |p| >= 16 then p[..16] else p, (s: seq<byte>, m: seq<byte>, p: seq<byte>) => s == p + p)
  }

  function Signature(i: byte): (s: seq<byte>)
    ensures |s| == 64
  {
    Pub(i) + Pub(i)
  }

  // ---- What is issued --------------------------------------------------------------------------------

  /** A key for no node in particular, valid from 0 to 100 and issued at 50. */
  function SampleKey(key: byte, roles: uint32, issuer: byte): (k: KeyFields)
    ensures k.Valid()
  {
    KeyFields([], Pub(key), roles, 0, 100, 50, IdOf(issuer), None)
  }

  function IssuedKey(key: byte, roles: uint32, issuer: byte): seq<byte> {
    KeyPayloadFits(SampleKey(key, roles, issuer));
    Sign1(EncodeMap(KeyPairs(SampleKey(key, roles, issuer))), Signature(issuer))
  }

  /** A revocation of a key from 20 on. */
  function Withdrawal(key: byte, signer: byte): (v: RevocationFields)
    ensures v.Valid()
  {
    RevocationFields(IdOf(key), 20, [], 50, IdOf(signer))
  }

  function IssuedRevocation(key: byte, signer: byte): seq<byte> {
    RevocationPayloadFits(Withdrawal(key, signer));
    Sign1(EncodeMap(RevocationPairs(Withdrawal(key, signer))), Signature(signer))
  }

  // ---- What a ring makes of it, seen at 10 --------------------------------------------------------------

  function KeyRecord(key: byte, roles: uint32, issuer: byte): (r: Record)
    ensures r.kind == 1 && r.algOk && r.sig == Signature(issuer) && |r.payload| <= MAX_PAYLOAD
    ensures r.subject == [] && r.pub == Pub(key) && r.keyid == IdOf(key) && r.roles == roles
    ensures r.notBefore == 0 && r.notAfter == 100 && r.issuedAt == 50 && r.seenAt == 10 && r.issuer == IdOf(issuer)
  {
    KeyPayloadFits(SampleKey(key, roles, issuer));
    KeyRecordOf(SampleCrypto(), SampleKey(key, roles, issuer), Signature(issuer)).(seenAt := 10)
  }

  function Revocation(key: byte, signer: byte): (r: Record)
    ensures r.kind == 2 && r.algOk && r.sig == Signature(signer) && |r.payload| <= MAX_PAYLOAD
    ensures r.target == IdOf(key) && r.effectiveFrom == 20 && r.seenAt == 10 && r.issuer == IdOf(signer)
  {
    RevocationPayloadFits(Withdrawal(key, signer));
    RevocationOf(Withdrawal(key, signer), Signature(signer)).(seenAt := 10)
  }

  /** An issued item carries its record. */
  lemma IssuedKeyIsCarried(key: byte, roles: uint32, issuer: byte)
    ensures Carried(SampleCrypto(), Sighting(IssuedKey(key, roles, issuer), 10)) == Some(Body(KeyRecord(key, roles, issuer)))
  {
    hide EncodeMap, Sign1, ParseItem, KeyPairs, Pub, IdOf;
    KeyPayloadFits(SampleKey(key, roles, issuer));
    KeyRecordReadsBackIff(SampleCrypto(), SampleKey(key, roles, issuer), Signature(issuer));
  }

  lemma IssuedRevocationIsCarried(key: byte, signer: byte)
    ensures Carried(SampleCrypto(), Sighting(IssuedRevocation(key, signer), 10)) == Some(Body(Revocation(key, signer)))
  {
    hide EncodeMap, Sign1, ParseItem, RevocationPairs, Pub, IdOf;
    RevocationPayloadFits(Withdrawal(key, signer));
    RevocationReadsBackIff(SampleCrypto(), Withdrawal(key, signer), Signature(signer));
  }

  /** Items that carry different records, the time seen apart, are different items. */
  lemma DifferentRecordsDiffer(a: Sighting, b: Sighting, r: Record, s: Record)
    requires Carried(SampleCrypto(), a) == Some(Body(r)) && Carried(SampleCrypto(), b) == Some(Body(s)) && Body(r) != Body(s)
    ensures !SameItem(r, s)
  {
    hide Carried, SampleCrypto;
    SameParse(SampleCrypto(), a, b);
  }

  lemma AddItemIsAdd(cr: Crypto, rs: seq<Record>, s: Sighting)
    requires Carried(cr, s).Some?
    ensures AddItem(cr, rs, s.item, s.seen) == AddRecord(rs, Carried(cr, s).value, s.seen)
  {
  }

  lemma ItemIgnoresTime(a: Record, b: Record)
    ensures SameItem(a, Body(b)) <==> SameItem(a, b)
  {
  }

  /** Sightings of different records, few enough, leave just those records, in order. */
  lemma {:induction false} FeedOfDifferent(cr: Crypto, ss: seq<Sighting>, rs: seq<Record>)
    requires |ss| == |rs| <= MAX_RECORDS
    requires forall i :: 0 <= i < |ss| ==> Carried(cr, ss[i]) == Some(Body(rs[i])) && ss[i].seen == rs[i].seenAt
    requires forall i, j :: 0 <= i < j < |rs| ==> !SameItem(rs[i], rs[j])
    ensures Feed(cr, ss) == rs
    decreases |ss|
  {
    hide Carried, SameItem, ParseItem;
    if ss != [] {
      var last := |ss| - 1;
      FeedOfDifferent(cr, ss[..last], rs[..last]);
      AddItemIsAdd(cr, rs[..last], ss[last]);
      assert FirstSame(rs[..last], Body(rs[last]), 0) == last by {
        forall i | 0 <= i < last ensures !SameItem(rs[..last][i], Body(rs[last])) {
          ItemIgnoresTime(rs[i], rs[last]);
        }
      }
      assert rs == rs[..last] + [rs[last]];
    }
  }
}
