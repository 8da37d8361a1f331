# Verified models of DTN custody, keyring, gateway and constellation code

A Dafny 4.11 project that models the protocol and bookkeeping logic of the repository and proves what
that logic is for. Each module follows one component; code that updates things in place is modelled by
classes, arrays and loops proved against specification functions, and the specification functions carry
the theorems.

| modules | component |
|---|---|
| `CborReader`, `KeyringRules`, `KeyringIngest`, `KeyringSoundness`, `KeyringDepth`, `KeyringIntruder`, `KeyringOrder`, `Keyring` | the offline key ring of flight/keyring.c |
| `KeyRecords`, `SampleRecords` | the operator's side of it in transport/bpv7/keyring.mjs, cose.mjs and cbor.mjs, and concrete records |
| `Merkle`, `StreamTree`, `MerkleProof`, `PayloadRoot` | Merkle roots and branches of flight/custody.c, bench/overhead.mjs and agent/lib/merkle.mjs |
| `Codes`, `Decimals`, `IdOrder`, `RecordWriter`, `FlightRecords`, `FlightBatch` | the canonical record writer and the three signed records of flight/custody.c |
| `Sha256` | the buffered hash of flight/sha256.c |
| `Framing`, `Tcpcl4Wire`, `Tcpcl4Session`, `Tcpcl4Link`, `Tcpcl4Octets`, `Tcpcl3Wire`, `Tcpcl3Transfer`, `Tcpcl3Link`, `Tcpcl3Late`, `Tcpcl3Settles`, `Tcpcl3Session` | the convergence layers of gateway/tcpcl4.mjs (RFC 9174) and gateway/tcpcl3.mjs (RFC 7242) |
| `Reassembly`, `Spool`, `GatewayPump`, `GatewaySends`, `GatewayRuns` | fragmentation, reassembly, the disk spool and the sender of gateway/gateway.mjs and gateway/spool.mjs |
| `Distances`, `Grid`, `CustodyBook`, `Routing`, `Simulate` | the simulator of constellation/sim.mjs |
| `LinkMatching`, `LinkSchedule` | link selection of constellation/orbits.mjs, link scheduling of constellation/optical-isl.mjs |
| `Arithmetic`, `Bytes`, `Wrappers` | quotients, octets, machine widths and `Option` |

Check everything with `dafny verify dfyconfig.toml`.

## Assumptions

What the code takes from elsewhere is a parameter of the models, so the theorems hold for any value of it:

- Signatures and hashes: the ring takes key ids and signature checks as functions (`Crypto`); the record
  writer takes content ids, signatures and leaf, node and hex functions (`Signer`, `Hashes`); the trees take
  the node hash; the streaming hash takes the block function. `OnlyOwnLeafVerifies` states the collision
  freedom it needs as a precondition.
- Clocks, random draws, candidate links, visibility and fades are inputs.
- Two sessions are joined by a stream of octets each way, which arrive in order and in any pieces and may be
  cut off at any octet; what has not arrived when a session is torn down is lost. That the gateway's runs over such
  sessions are runs of its sender (`GatewayPump`) is proved in `GatewayRuns`.
- In the simulator a satellite, a station and operations are different nodes, and a bundle's id is its
  injection number, of which the code takes a hash.

## What the proofs found

Where the code falls short of its documentation the code is modelled as it is, and the exact condition
proved:

- Issuers may revoke the keys they vouched for (spec/KEY-RECORDS.md, rule 3), but `revoked_from` looks for
  the chain one level deeper than `chain_of` found it, so for a key at the end of the longest chain they
  cannot (`LongestChainIgnoresIssuers`, `IssuersRevocationIgnored`). A key with the revoke role is looked up one
  level deeper too, so at the end of the longest chain it can revoke nothing but itself
  (`LongestSignerRevokesOnlyItself`). Unless an issuer is itself revoked, the length of the chains decides it:
  both hold exactly up to six ids (`IssuerMayRevokeIffShort`, `RoleMayRevokeIffShort`).
- spec/KEY-RECORDS.md says records do not revoke anchors. `revoked_from` has no such exception: an anchor
  can be revoked by itself, by another anchor or by a key with the revoke role under it
  (`AnchorIsRevokedIff`, `AnchorRevokesItself`).
- `revokeKey` writes a reason of any length, but flight/keyring.c refuses a payload of more than 256 octets, so
  a revocation with a long reason never takes effect aboard (`RevocationReadsBackIff`).
- The window's end plus the skew is added in 64 bits: a record without an end date counts as expired as soon
  as there is a skew (`SkewWidensIffNoWrap`).
- The answer can depend on arrival order when one id has two key records (`TwoKeyRecordsDependOnOrder`). With
  the signers certified once each, it does so exactly when two accepted records of the key differ in subject,
  roles or window (`OrderMattersUnlessAgreed`).
- A peer that announces a segment MRU of zero is sent one-octet segments (`SegmentsFit`).
- A fragment at an offset already held is ignored even when it is longer (`LongerAtSameOffsetIsIgnored`), so a set
  is complete exactly when the first fragments to arrive at each offset cover the payload
  (`CompletesExactlyWhenCovered`).
- Spool order is arrival order only below 10^12 (`NameOrderIsNumericIff`).
- `ck_root` counts leaves in `size_t`; when the sum wraps it hashes nothing and succeeds (`CountIsRightIff`,
  `HashPayload`).
- `verifyProof` is not given the number of leaves. It binds an index to its leaf exactly below that number: at
  every index from it on, some leaf of the tree verifies (`BindsExactlyBelowCount`, `SomeLeafVerifiesAnywhere`).
- Version 3 numbers no transfers, so octets of a send that has timed out can spoil the next one: its bundle may
  still come, and an acknowledgement of as many octets resolves a send whose bundle never arrives. A send may begin
  when of earlier ones no bundle is still to come, or just the same one and not twice, and no acknowledgement of as
  many octets would be heard before a refusal or a bundle (`MayBegin`). A run's sends are reliable, however it goes
  on without another, exactly when each began only when it might (`DependableIffCareful`); where the first send of a
  session, of a size the peer takes, times out before any octet arrives, another may begin exactly when that bundle
  was empty (`TimeoutThenBegin`). A sender that begins none after a timeout is safe (`PatientSendsAreReliable`), and
  the gateway's tears the session down.
- Over a version 3 session without acknowledgements a send resolves, and the gateway deletes the bundle from its
  spool, before anything has arrived. Of the two configurations, sessions that all acknowledge and sessions that
  need not, only the first keeps every bundle in all runs (`NothingIsLostIffAcknowledged`); a single run without
  acknowledgements may lose none (`OnlySessionsLoseBundles` says which it can).

## Model

| member | source | states |
|---|---|---|
| `KeyringIntruder.ForgeriesAreInert` | flight/keyring.c:151-244 | Records whose signature fails under the one public key on file for their issuer change no answer: ok, revoked and revoked_from of every query are the same with and without them, through the whole mutual recursion, even where they put a public key on file for an id that had none |
| `KeyringIntruder.OutsidersAreInert` | flight/keyring.c:169-244 | More generally, no set of records issued outside a trusted set of ids can change an answer; the reason too is the same unless the key has no chain either way |
| `KeyringSoundness.StatusOkIsSound` | flight/keyring.c:227-244 | "ok" for a key that is no anchor means at most six records lead from it to an anchor, each verified under its issuer, by an issuer with the issue role, inside the issuer's window and seen before the issuer's revocation; the stored chain is that list; the first record is for this node, role and time |
| `KeyringSoundness.AcceptedKeyIsVouchedFor` | flight/keyring.c:169-198 | The same at every depth of the recursion, with the list no longer than the levels left, so the stored chain is never cut at MAX_CHAIN |
| `KeyringSoundness.VouchedForKeyIsAccepted` | flight/keyring.c:169-198 | Conversely, with one key record per id, a key vouched for by a list short enough for the depth is accepted, and that list is its chain |
| `KeyringSoundness.OnePathPerKey` | flight/keyring.c:169-198 | With one key record per id there is at most one such list for a key, whatever the depth |
| `KeyringSoundness.RevokedFromIsEarliest` | flight/keyring.c:200-225 | Below the depth limit revoked_from is exactly the least effective time over the verified revocations of the key by signers permitted to revoke it, or none |
| `KeyringSoundness.AnchorRevocationCounts` | flight/keyring.c:208-222 | A verified revocation by any anchor bounds revoked_from above, whatever else the ring holds and whichever anchor the key answers to |
| `KeyringSoundness.SkewWidensIffNoWrap` | flight/keyring.c:162-165 | The skew admits every time of a record's own window exactly when its end plus the skew stays below 2^64 |
| `KeyringSoundness.StatusRevokedIff` | flight/keyring.c:240-243 | Every accepted key, certified or an anchor, is reported revoked exactly when a verified revocation by a key permitted to revoke it is on file, and from the least effective time of any such |
| `KeyringSoundness.StatusOkIff` | flight/keyring.c:227-244 | With one key record per id the answer is "ok" exactly for a key vouched for by at most six records, the first for this node, role and time, and for an anchor held under this node's name; a key refused is not reported revoked |
| `KeyringSoundness.RefusalIsTrue` | flight/keyring.c:151-239 | Whatever is on file, a refusal gives a true reason: either the key is accepted but not for this node, role or time, or up a list of key records on file from the key there is the fault named, or the list ends without an anchor or runs past the levels |
| `KeyringSoundness.VouchedIsSigned` | flight/keyring.c:132-146 | Each record of a vouching list carries a signature of its payload that opens under the key on file for its issuer |
| `KeyringSoundness.WindowIs` | flight/keyring.c:162-165 | The window is the record's own widened by the skew on both sides, or what is left of it where its end wraps |
| `KeyringSoundness.OverlapsIff` | flight/keyring.c:236 | Roles overlap exactly when some bit is set in both |
| `KeyringDepth.LongestChainIgnoresIssuers` | flight/keyring.c:200-219 | For a key at the end of a chain of six records only the key itself and the anchors can revoke: the chain is looked up one level too deep to be found, against rule 3 of the record specification |
| `KeyringDepth.IssuerMayRevokeIff` | flight/keyring.c:200-219 | An issuer in a key's chain, short of the anchor, may revoke it exactly when the chain is found again one level deeper |
| `KeyringDepth.IssuerMayRevokeIffShort` | flight/keyring.c:200-219 | Where no revocation of a key's issuers verifies, each issuer short of the anchor may revoke it exactly when its chain has at most six ids |
| `KeyringDepth.IssuersRevocationIgnored` | flight/keyring.c:99-244 | Six key records and a verified revocation by the key's own issuer, as `issueKey` and `revokeKey` write them and fed to a new ring: the key is reported accepted and not revoked |
| `KeyringDepth.RoleMayRevokeIff` | flight/keyring.c:200-219 | A key with the revoke role under the same anchor, not in the other key's chain, may revoke it exactly when both are found again one level deeper |
| `KeyringDepth.RoleMayRevokeIffShort` | flight/keyring.c:200-219 | Where no revocation of the issuers of either verifies, that is exactly when neither chain has more than six ids |
| `KeyringDepth.LongestSignerRevokesOnlyItself` | flight/keyring.c:200-219 | A key at the end of a chain of six records may revoke no key but itself, whatever its roles, against rule 3 |
| `KeyringDepth.AnchorIsRevokedIff` | flight/keyring.c:200-244 | An accepted anchor is reported revoked exactly when a verified revocation of it is on file by itself, another anchor, or a key with the revoke role under it, though the record specification says records do not revoke anchors |
| `KeyringDepth.AnchorRevokesItself` | flight/keyring.c:99-244 | An anchor reported revoked by its own record, issued and fed to a new ring |
| `KeyringDepth.DeepestRecordIgnoresRevocation` | flight/keyring.c:189-201 | At the last level an anchor-issued record is accepted exactly when it verifies; the anchor's own revocation is not consulted |
| `KeyringIngest.ArrivalOrderDoesNotMatter` | flight/keyring.c:99-115 | While the distinct records fit the table, it holds each of them at its earliest sighting: a function of the set of sightings, not of their order or repetition |
| `KeyringOrder.AnswersIgnoreTableOrder` | flight/keyring.c:169-244 | With every signer and the queried key certified at most once, the same records in another order answer the query alike, the reason included |
| `KeyringOrder.AnswersIgnoreArrivalOrder` | flight/keyring.c:99-244 | From the octets in: two orders of the same sightings, with any repeats, answer such a query alike |
| `KeyringOrder.ForgeriesDoNotBringOrder` | flight/keyring.c:99-244 | The same ok, revoked and revoked_from in every order when only the records outside a set of forgeries certify each key at most once, even with forged key records for the queried key |
| `KeyringOrder.OrderMattersUnlessAgreed` | flight/keyring.c:99-244 | With every signer certified once, all orders of the same sightings say ok to the same queries about a key exactly when it is an anchor or its accepted records agree on subject, roles and widened window, or allow nothing |
| `KeyringOrder.TwoKeyRecordsDependOnOrder` | flight/keyring.c:99-196 | Two certificates of one key, as `issueKey` writes them, sighted in the two orders: one order may sign custody records, the other lacks the role |
| `KeyRecords.KeyRecordReadsBackIff` | transport/bpv7/keyring.mjs:53-60 | A key record as `issueKey` encodes it is read back aboard as issued, roles in 32 bits and the subject up to a NUL, exactly when the subject has fewer than 64 octets, and is refused otherwise |
| `KeyRecords.RevocationReadsBackIff` | transport/bpv7/keyring.mjs:63-68 | A revocation as `revokeKey` encodes it is read back as issued exactly when its payload has at most 256 octets, and is refused otherwise |
| `KeyRecords.KeyPayloadFits` | flight/keyring.c:62-70 | A key record's payload never exceeds the 256 octets kept for it unless its subject is refused |
| `KeyRecords.SignedOctetsAgree` | transport/bpv7/cose.mjs:20-24 | What the operator signs and what flight/keyring.c checks are the same octets (section 4.4 of RFC 9052) |
| `KeyRecords.HeadReadsBack` | transport/bpv7/cbor.mjs:12-24 | A head in shortest form reads back wherever it is written and whatever follows (section 3 of RFC 8949) |
| `KeyRecords.LongHeadReadsBack` | flight/keyring.c:41-53 | A head whose argument follows in one, two, four or eight octets reads back too, whether or not it is the shortest |
| `KeyringIngest.IngestIsFold` | flight/keyring.c:117-130 | Ingesting a block is adding its items one by one, up to the first malformed one or the one that finds no room |
| `KeyringIngest.AddedIff` | flight/keyring.c:99-115 | A record is added exactly when it is not on file and there is room; a duplicate is found even in a full table |
| `KeyringIngest.IngestedCount` | flight/keyring.c:117-130 | Ingesting returns the number of records the table has grown by, or an error: the block is malformed, or the table is full |
| `KeyringIngest.CutItemIsWhole` | flight/keyring.c:122-126 | An item cut out of its block parses again to the same record and is used up exactly, so adding it never fails on the second parse |
| `CborReader.ParseItemLocal` | flight/keyring.c:41-97 | A successful parse depends only on the octets it consumes: moved to any place in any buffer they give the same record |
| `CborReader.SameItemSameRecord` | flight/keyring.c:62-106 | Items with the same verdict, signature and payload are the same record, which is what the duplicate test relies on |
| `CborReader.ReadItem` | flight/keyring.c:62-97 | The cursor-driven parser reads exactly what the item grammar says and never leaves its buffer, also on failure |
| `CborReader.Reader.ReadHead` | flight/keyring.c:41-53 | The head of a CBOR item (section 3 of RFC 8949) is read within the buffer, and fails exactly where there is none |
| `Keyring.Keyring.AddAnchor` | flight/keyring.c:27-37 | An anchor is appended, or refused for want of room or for too long a name and then nothing changes |
| `Keyring.Keyring.Add` | flight/keyring.c:99-115 | The table afterwards and the code returned are those of adding the item, in place |
| `Keyring.Keyring.Ingest` | flight/keyring.c:117-130 | The table afterwards and the code returned are those of ingesting the block; what came before an error stays |
| `Keyring.Keyring.FindChain` | flight/keyring.c:169-198 | The loop over the table finds the chain the rules define, the index of the vouching record included; the ring is unchanged |
| `Keyring.Keyring.FindRevocation` | flight/keyring.c:200-225 | The loop over the table finds the revocation time the rules define |
| `Keyring.Keyring.Query` | flight/keyring.c:227-244 | The status struct is the answer the rules define |
| `StreamTree.CloseIsRoot` | bench/overhead.mjs:142-153 | Closing the binary counter over any leaves is the root of the layer-by-layer tree with the odd last node paired with itself, for every number of leaves: what the benchmark notes call checked at eight sizes and not proven |
| `StreamTree.PendingIsFullSubtree` | bench/overhead.mjs:137-141 | After n leaves pending[l] is set exactly when bit l of n is, and is then the root of the last complete run of 2^l leaves |
| `StreamTree.PendingLength` | bench/overhead.mjs:137-141 | Above its top entry the counter has only zero bits of n |
| `StreamTree.StreamTree.Add` | bench/overhead.mjs:137-141 | The carry loop leaves the counter of the leaves with the new one at their end |
| `StreamTree.StreamTree.GetRoot` | bench/overhead.mjs:142-153 | `root` returns the root of the tree over all leaves added so far, or nothing when there are none |
| `Merkle.ReduceLayer` | flight/custody.c:66 | One layer reduced in place equals the layer of the tree, though it overwrites the array it reads |
| `Merkle.Reduce` | flight/custody.c:65-67 | The loop over layers leaves the root of the tree in the first slot and touches nothing past the leaves |
| `PayloadRoot.ChunksRebuild` | flight/custody.c:58-63 | The chunks join to the payload, all but the last are full, and none is empty unless the payload is |
| `PayloadRoot.CountIsRightIff` | flight/custody.c:60 | The leaf count is the number of chunks exactly when the payload is empty or its length plus the chunk size less one stays below 2^64; when it wraps the count is zero |
| `PayloadRoot.ChunkAt` | flight/custody.c:63 | The i-th chunk is the slice the hashing loop takes |
| `PayloadRoot.HashPayload` | flight/custody.c:58-69 | The root is the tree's over the chunks' leaf hashes whenever the count does not wrap, and stale scratch when it does; success exactly when the arguments are good and the leaves fit |
| `MerkleProof.OwnBranchVerifies` | agent/lib/merkle.mjs:41-65 | A leaf verifies with its own branch at its own index, in a tree of any size |
| `MerkleProof.OnlyOwnLeafVerifies` | agent/lib/merkle.mjs:57-65 | A leaf accepted at an index below the count is the leaf at that index, whatever the branch, if hashes do not collide |
| `MerkleProof.SomeLeafVerifiesAnywhere` | agent/lib/merkle.mjs:57-65 | At every index, however large, some leaf of the tree verifies by some branch |
| `MerkleProof.BindsExactlyBelowCount` | agent/lib/merkle.mjs:57-65 | The root binds an index to one leaf exactly when the index is below the number of leaves, if hashes do not collide |
| `MerkleProof.MakeProof` | agent/lib/merkle.mjs:41-52 | The loop collects the branch: one sibling per layer, the duplicated last node its own |
| `MerkleProof.VerifyProof` | agent/lib/merkle.mjs:57-65 | Accepts exactly when the branch folds to the root in the directions the index gives |
| `RecordWriter.TextReadsBack` | flight/custody.c:73-93 | A parser recovers every field of a record's canonical text |
| `RecordWriter.TextIsUnambiguous` | flight/custody.c:73-93 | No two lists of accepted fields share a text |
| `RecordWriter.RecordOutIsWhole` | flight/custody.c:73-93 | Success means every value was acceptable and the whole text and its NUL fitted; the buffer then holds all of it, never a truncated prefix |
| `RecordWriter.RecordErrorIs` | flight/custody.c:73-93 | The error a record ends with is that of the last value refused, whether or not there was room, else want of space |
| `RecordWriter.SafeIffUnescaped` | flight/custody.c:79-83 | The strings accepted are exactly those of printable ASCII that JSON writes as they are (section 7 of RFC 8259) |
| `RecordWriter.Writer.Put` | flight/custody.c:73-78 | Appends the string and a NUL, or sets the error when it does not fit, and does nothing once an error is set |
| `RecordWriter.Writer.KStr` | flight/custody.c:84-87 | Writes the quoted field, or refuses a string with a control character, a quote or a backslash |
| `RecordWriter.Writer.KNum` | flight/custody.c:88-93 | Writes the number in decimal, or refuses one above 2^53 - 1 |
| `FlightRecords.WriteCustody` | flight/custody.c:132-147 | Code 0 exactly when every field is acceptable, the content fits its work buffer and the record fits the caller's, which then holds the whole record |
| `FlightRecords.CustodyTextCommits` | flight/custody.c:132-147 | Accepted custody records with one text are one record: the signed text commits to every field |
| `FlightRecords.CustodySays` | flight/custody.c:132-147 | A reader of an accepted record's text finds each key once, in ascending order (section 3.2.3 of RFC 8785), and under each the value meant; the id is that of the record without id, signature and key, and is what is signed |
| `FlightRecords.WriteManifest` | flight/custody.c:115-130 | The same for manifests |
| `FlightRecords.ManifestTextCommits` | flight/custody.c:115-130 | The signed text of a manifest commits to every field |
| `FlightRecords.ManifestSays` | flight/custody.c:115-130 | The same of a manifest |
| `FlightBatch.Compact` | flight/custody.c:156-163 | The in-place sort, compaction and hashing leave the distinct ids in order at the front of the caller's array and their leaf hashes in the scratch array; an unprintable id is refused |
| `FlightBatch.WriteBatch` | flight/custody.c:151-179 | Success exactly when the batch is acceptable and fits; the buffer then holds the record of the root over the sorted distinct ids and their number |
| `FlightBatch.BatchDependsOnSet` | flight/custody.c:156-166 | Acceptance, count and root depend on the set of ids alone; the count is the number of distinct ids |
| `FlightBatch.BatchTextCommits` | flight/custody.c:167-178 | The signed text of a batch commits to the contact, the count and the root |
| `FlightBatch.BatchSays` | flight/custody.c:167-178 | The same of a batch record |
| `FlightBatch.AcceptedBatchSays` | flight/custody.c:151-179 | An accepted batch has an interval and at least one id; its record, read back, gives the number of distinct ids and the root over them in strictly ascending order |
| `IdOrder.CanonicalDependsOnSet` | flight/custody.c:156-163 | Sorting and dropping repeats gives one list per set of ids |
| `IdOrder.QSort` | flight/custody.c:156 | The array is sorted in place by the order of strcmp |
| `Sha256.HashPieces` | flight/sha256.c:34-57 | However a message is split into updates, the digest is the block function folded over the message padded as a whole (section 5.1.1 and section 6.2 of FIPS 180-4) |
| `Sha256.Context.Update` | flight/sha256.c:39-47 | Feeding more octets: the state is that of all octets so far, and n is their number modulo 64 |
| `Sha256.Context.Final` | flight/sha256.c:49-57 | The digest of everything fed in; the pad loop ends after the standard's number of zeros |
| `Sha256.LengthFieldExact` | flight/sha256.c:50-54 | The length field is the true length in bits exactly below 2^61 octets |
| `Sha256.PaddedMessage` | flight/sha256.c:49-55 | What is hashed is the message, 0x80, zeros, and its true length in bits (below 2^61 octets, else modulo 2^64) in eight octets, most significant first, in as few whole blocks as hold that (section 5.1.1 of FIPS 180-4) |
| `Sha256.PaddingCommits` | flight/sha256.c:49-55 | Two messages that are hashed as the same blocks are the same message |
| `Sha256.InitialState` | flight/sha256.c:34-37 | The initial words are the first 32 bits of the fractions of the square roots of the first eight primes (section 5.3.3 of FIPS 180-4) |
| `Sha256.DigestWords` | flight/sha256.c:56 | The digest holds the words of the last state in order, each most significant octet first |
| `Tcpcl4Wire.StreamReadsBack` | gateway/tcpcl4.mjs:65-171 | A contact header and any encodable messages, back to back and cut into any pieces, are heard as sent, up to the first oversized segment |
| `Tcpcl4Wire.PiecesDoNotMatter` | gateway/tcpcl4.mjs:93-171 | For any octets at all, the pieces they arrive in make no difference to what the parser yields |
| `Tcpcl4Wire.ParseExtend` | gateway/tcpcl4.mjs:102-170 | More octets never change a finished parse |
| `Tcpcl4Wire.SegmentReadsBack` | gateway/tcpcl4.mjs:78-143 | A segment reads back whole, or as oversized exactly when its data exceeds the receiver's limit |
| `Tcpcl4Wire.SessInitReadsBack` | gateway/tcpcl4.mjs:69-127 | SESS_INIT reads back with every field |
| `Tcpcl4Wire.ExtendedSegmentReadsBack` | gateway/tcpcl4.mjs:128-143 | Extension items a peer puts into a first segment are passed over, and an oversized segment is reported before any of its data has come |
| `Tcpcl4Wire.ExtendedSessInitReadsBack` | gateway/tcpcl4.mjs:114-127 | So are those of a SESS_INIT |
| `Tcpcl4Wire.Parser.Receive` | gateway/tcpcl4.mjs:247-252 | Pushing a piece and parsing until nothing is complete yields all it completes and leaves the rest in the buffer |
| `Tcpcl4Wire.Parser.Parse` | gateway/tcpcl4.mjs:102-170 | The incremental parser takes off its buffer exactly the next item, or leaves it alone when more is needed |
| `Framing.ChunkingDoesNotMatter` | gateway/tcpcl4.mjs:247-252 | For every incremental parser, feeding a stream piece by piece is parsing it whole |
| `Tcpcl3Wire.SdnvReadsBackIff` | gateway/tcpcl3.mjs:20-35 | A number reads back wherever it is written and whatever follows exactly below 2^70; a larger one is refused as too long (section 2 of RFC 6256) |
| `Tcpcl3Wire.ProperPrefixNeedsMore` | gateway/tcpcl3.mjs:27-35 | Every proper prefix of an encoding asks for more |
| `Tcpcl3Wire.SdnvIsPrefixFree` | gateway/tcpcl3.mjs:20-26 | No encoding begins another |
| `Tcpcl3Wire.WriteSdnv` | gateway/tcpcl3.mjs:20-26 | The loop writes the septets, high bit set on all but the last |
| `Tcpcl3Wire.ReadSdnvLoop` | gateway/tcpcl3.mjs:27-35 | The loop reads as the definition says, never past the buffer |
| `Tcpcl3Wire.PiecesDoNotMatter` | gateway/tcpcl3.mjs:43-92 | A version 3 stream may arrive in any pieces |
| `Tcpcl3Wire.ContactHeaderReadsBack` | gateway/tcpcl3.mjs:37-60 | The contact header reads back, whatever follows |
| `Tcpcl3Wire.ContactHeaderRefused` | gateway/tcpcl3.mjs:47-60 | A header without the magic, or with a node id of more than 1024 octets, is refused as soon as that shows |
| `Tcpcl3Wire.ShutdownReadsBack` | gateway/tcpcl3.mjs:81-88 | A peer's shutdown is taken off whole, with or without a reason and a delay (section 6.1 of RFC 7242) |
| `Tcpcl3Wire.MessageReadsBack` | gateway/tcpcl3.mjs:63-91 | Data segments, acknowledgements, refusals, keepalives and shutdowns as the session writes them read back, an oversized segment as such |
| `Tcpcl3Wire.StreamReadsBack` | gateway/tcpcl3.mjs:37-211 | A contact header and any such messages, back to back and cut into any pieces, are heard as sent, up to the first oversized segment |
| `Tcpcl3Wire.Parser.Parse` | gateway/tcpcl3.mjs:47-91 | The parser takes off its buffer exactly the next item, or leaves it alone when more is needed |
| `Tcpcl3Link.CarefulSendsAreReliable` | gateway/tcpcl3.mjs:124-227 | In every run of two acknowledging version 3 sessions joined by a stream of octets each way, whose sends each began only when nothing on its way could spoil it: each resolved send's bundle has been emitted by the peer, later sends' later, and since the last began the peer has emitted nothing, or just its bundle |
| `Tcpcl3Link.PatientSendsAreReliable` | gateway/tcpcl3.mjs:124-227 | A run in which no send begins after one timed out is such a run |
| `Tcpcl3Late.DependableIffCareful` | gateway/tcpcl3.mjs:124-227 | For every history of such a pair: however it breaks off and goes on without another send the sender may rely on what resolves, exactly when each send began with no bundle of an earlier one still to come, or just the same and not twice, and no acknowledgement of as many octets to be heard before a refusal or a bundle |
| `Tcpcl3Late.CarelessSendSpoils` | gateway/tcpcl3.mjs:124-227 | In any state any run has reached, a send begun otherwise has a continuation without further sends in which the sender is deceived; where an acknowledgement fits, the send resolves though the peer has emitted nothing since it began |
| `Tcpcl3Late.TimeoutThenBegin` | gateway/tcpcl3.mjs:187-211 | For all limits and all bundles: after the first send of a session, of a size the peer takes, has timed out at once, another is safe to begin exactly when the first bundle was empty |
| `Tcpcl3Settles.IdleSendsHaveResolved` | gateway/tcpcl3.mjs:124-211 | The other half: in every run that begins no send after one timed out, once both ends are idle and up and never were cut off, every send of a bundle the peer takes has resolved, but for a last one that timed out |
| `Tcpcl3Transfer.TransferOutcome` | gateway/tcpcl3.mjs:148-211 | Whatever a receiver held, a whole transfer yields acknowledgements of growing numbers of octets; the last says all exactly when the bundle is emitted as sent, and otherwise it is a refusal and nothing is emitted |
| `Tcpcl3Session.Session.Receive` | gateway/tcpcl3.mjs:130-173 | The message handler does to the session what the rules say: replies, state, bundles |
| `Tcpcl3Session.Session.Start` | gateway/tcpcl3.mjs:189-208 | A send that starts waits for all its octets and writes the bundle's segments, none for an empty bundle |
| `Tcpcl4Session.SegmentsFit` | gateway/tcpcl4.mjs:364-385 | Every segment of a transfer is within the peer's segment MRU exactly when that is not zero or the bundle is empty |
| `Tcpcl4Session.SegmentsCarryBundle` | gateway/tcpcl4.mjs:376-383 | The data of the segments joins to the bundle |
| `Tcpcl4Session.HandleKeepsBounded` | gateway/tcpcl4.mjs:296-317 | Whatever the peer sends, rxBytes is the number of octets held of each transfer and stays within transferMru (section 5.2 of RFC 9174), and so is any bundle handed up |
| `Tcpcl4Session.TransferSettles` | gateway/tcpcl4.mjs:296-385 | One transfer to a receiver of any limit and in any state: the bundle is handed up, and its send resolves, exactly when it is within the limit; else it is refused and the send given up |
| `Tcpcl4Session.UnexpectedIsRejected` | gateway/tcpcl4.mjs:256-301 | A message that makes no sense changes nothing and is rejected by the type it has on the wire |
| `Tcpcl4Session.TermIsAnsweredOnce` | gateway/tcpcl4.mjs:333-338 | A SESS_TERM is answered by a reply, and a reply by nothing |
| `Tcpcl4Session.Session.OnMessage` | gateway/tcpcl4.mjs:254-345 | The message handler does to the session what the protocol rules say: answers, state, bundles and resolved sends |
| `Tcpcl4Session.Session.ReceiveSegment` | gateway/tcpcl4.mjs:296-317 | A segment is kept and acknowledged, completes its bundle, or is refused above transferMru |
| `Tcpcl4Session.Session.Send` | gateway/tcpcl4.mjs:364-385 | A send is refused at once, or starts one transfer under a new id with all its segments written |
| `Tcpcl4Session.Session.TearDown` | gateway/tcpcl4.mjs:398-408 | Tearing down fails every pending send and closes the session |
| `Tcpcl4Octets.SendResolvesOnlyIfEmitted` | gateway/tcpcl4.mjs:247-408 | In every run of two sessions joined by a stream of octets each way, whatever pieces arrive, with any sends, closes and timeouts, also between the messages of one piece, and connections dying at any octet, each end has emitted exactly the first of the bundles the other sent, in order and once each, and a send has resolved only if its bundle is among them |
| `Tcpcl4Octets.IdleEndHasEverything` | gateway/tcpcl4.mjs:247-408 | An end that is up and never was cut off, with no octet on its way and nothing whole in its parser, has emitted everything sent to it, and its parser holds nothing |
| `Tcpcl4Octets.IdleSendsHaveResolved` | gateway/tcpcl4.mjs:247-408 | The other half of the first: in every run, once both ends are idle and up and never were cut off, every send has resolved but those that timed out |
| `Tcpcl4Link.QuietLinkHasResolved` | gateway/tcpcl4.mjs:247-408 | The same over whole messages; and no transfer is ever refused between two such sessions |
| `Tcpcl4Octets.OctetRunIsLinkRun` | gateway/tcpcl4.mjs:93-408 | Every run over octets is a run over whole messages with the same sends, resolutions and bundles: what the parser holds and what is on the wire are always the encoding of the messages on their way, or the beginning of it once cut |
| `Tcpcl4Octets.OnData` | gateway/tcpcl4.mjs:247-252 | Receiving a piece handles every message it completes, in order, until the session is closed, and keeps the rest |
| `Tcpcl4Octets.LoopIsTurns` | gateway/tcpcl4.mjs:247-252 | That loop is so many single steps of the runs above, after which the session is closed or nothing whole is left |
| `Reassembly.RebuiltIsOriginal` | gateway/gateway.mjs:213-240 | In every run of fragments of any payloads, overlapping, repeated and in any order, what an arrival completes is the payload it was cut from, and the octets held stay within the limit (section 5.9 of RFC 9171) |
| `Reassembly.LastMissingCompletes` | gateway/gateway.mjs:213-240 | The fragments of one bundle in any order, with repeats and with anything of other bundles in between, each finding room and before those held go stale: everything waits until the last missing one, which rebuilds the bundle |
| `Reassembly.CompletesExactlyWhenLast` | gateway/gateway.mjs:213-240 | From any reassembly state, a fragment completes its bundle exactly when it is the last one missing |
| `Reassembly.CompletesExactlyWhenCovered` | gateway/gateway.mjs:213-240 | For pieces of one payload cut in any way, overlapping, repeated and in any order, with anything of other bundles in between, each finding room if it needs any and before those held go stale: the set completes, into that payload, exactly with the arrival after which the first pieces at each offset cover it |
| `Reassembly.OfferKeepsAccounts` | gateway/gateway.mjs:220-236 | partialBytes stays the sum of the parts held, is never negative and never exceeds the limit |
| `Reassembly.ArrivalCountsIff` | gateway/gateway.mjs:224-227 | An arriving fragment adds its octets to those covered exactly when its offset is new or they were covered already |
| `Reassembly.StaleSetsAreDropped` | gateway/gateway.mjs:216-220 | An arriving fragment leaves no set held whose first fragment came longer ago than the lifetime, of any bundle, and leaves the live sets of other bundles as they are |
| `Reassembly.RebuiltWithinOneLifetime` | gateway/gateway.mjs:213-240 | In every run, whatever is rebuilt is made of parts of one bundle that all arrived within one lifetime of the first of its set |
| `Reassembly.StaleSetIsForgotten` | gateway/gateway.mjs:220-223 | A fragment of a bundle whose set has gone stale fares as if none had been held, also for the room there is |
| `Reassembly.ThrownIff` | gateway/gateway.mjs:216-226 | What is turned down and why: a fragment not within its total, one whose live set has another total, one at a new offset when the octets of the live sets leave no room |
| `Reassembly.LongerAtSameOffsetIsIgnored` | gateway/gateway.mjs:224-227 | A concrete pair: after a shorter fragment at the same offset a longer one is ignored, and the set stays incomplete though what arrived covers the payload |
| `Reassembly.MakeBundles` | gateway/gateway.mjs:76-86 | One bundle when the payload fits, else fragments of maxPayload octets from offset 0 on (section 5.8 of RFC 9171) |
| `Reassembly.FragmentAt` | gateway/gateway.mjs:78-82 | Which octets the i-th fragment carries |
| `Reassembly.FragmentOf` | gateway/gateway.mjs:78-82 | Every octet of the payload is in some fragment |
| `Reassembly.SweepCoverage` | gateway/gateway.mjs:230-233 | The sweep over sorted offsets finds a gap exactly when an octet is missing |
| `Reassembly.CopyParts` | gateway/gateway.mjs:234-235 | Copying the parts in order rebuilds the whole, later offsets on top |
| `Reassembly.Reassembler.Reassemble` | gateway/gateway.mjs:213-240 | The object's fields and answer afterwards are those of the reassembly rules |
| `Spool.NameOrderIsNumericIff` | gateway/spool.mjs:16-27 | The order of names is the order of numbers up to a limit exactly when the limit is below 10^12 |
| `Spool.NameReadsBack` | gateway/spool.mjs:12-17 | A name gives its number back and is one the directory filter lets through |
| `Spool.Spool.constructor` | gateway/spool.mjs:9-14 | Restarting, numbering goes on after the highest number waiting, or from one |
| `Spool.Spool.Add` | gateway/spool.mjs:16-22 | The bundle waits under the next number; all others wait unchanged |
| `Spool.Spool.AddInterrupted` | gateway/spool.mjs:16-19 | A crash before the rename leaves what waits unchanged |
| `Spool.Spool.List` | gateway/spool.mjs:25-27 | Exactly the waiting bundles, in the order of their names, which is ascending by number while no number has thirteen digits |
| `Spool.Spool.Done` | gateway/spool.mjs:31-34 | Exactly that bundle is gone |
| `GatewayPump.NothingIsLost` | gateway/gateway.mjs:267-295 | Over any run of adds, connects, link drops, failed sends, crashes and restarts whose sessions acknowledge, with fewer than 10^12 adds, every bundle added is in the spool or was delivered, and the peer's log is the added sequence in order with only immediate repeats |
| `GatewayPump.NothingIsLostIffAcknowledged` | gateway/tcpcl3.mjs:187-211 | No run loses a bundle exactly when every session acknowledges; else the send of a version 3 session resolves before the bundle arrives, and one run that loses it is given |
| `GatewayPump.OnlySessionsLoseBundles` | gateway/gateway.mjs:267-295 | Whatever the sessions, a bundle added is in the spool, delivered, on its way, or was on its way when a session ended, and bundles arrive in the order added |
| `GatewayPump.RunKeeps` | gateway/gateway.mjs:267-295 | The invariant behind them holds in every reachable state: exactly the bundles from some index on are waiting, the next to be sent is the first of them, and those before are accounted for in order |
| `GatewaySends.SendIsArriveThenAck` | gateway/gateway.mjs:282-285 | While the pump awaits a send over version 4, every step of the session link is the arrival of its bundle at the peer, or the resolution of the send after that, or nothing to the pump: the steps `GatewayPump` takes |
| `GatewaySends.SendIsPick` | gateway/gateway.mjs:280-282 | A send begun when none is under way is the pump's only one, and nothing has arrived of it |
| `GatewaySends.V3SendIsArriveThenAck` | gateway/gateway.mjs:282-292 | The same over version 3 with acknowledgements, as long as none was begun after another timed out |
| `GatewaySends.V3SendIsPick` | gateway/gateway.mjs:280-282 | The same of beginning a send over version 3: once the one before has resolved none has timed out |
| `GatewayRuns.GatewayRunIsPumpRun` | gateway/gateway.mjs:267-295 | Every run of the gateway over sessions of octets of either version, with reconnects, refused sends, crashes and restarts, is a run of the pump over sessions that acknowledge, with the same spool and the same arrivals |
| `GatewayRuns.NothingIsLostOverOctets` | gateway/gateway.mjs:267-295 | So in every such run, with fewer than 10^12 adds, every bundle added is in the spool or was emitted by the peer, and what the peer emitted over all sessions is the added sequence in order with only immediate repeats |
| `GatewayRuns.QuietSendHasSettled` | gateway/gateway.mjs:280-285 | The pump is not left waiting: once nothing is on its way over a connection, the send it awaits has resolved, timed out, or was of a bundle version 3 never acknowledges |
| `GatewayPump.OldestIsFirst` | gateway/spool.mjs:25-27 | The first file by name is the earliest bundle still waiting |
| `Distances.Distances` | constellation/sim.mjs:106-112 | The search numbers every satellite with its exact hop distance from the nearest one that sees a station, -1 exactly where there is no route |
| `Distances.CloserNeighbour` | constellation/sim.mjs:202-203 | Over symmetric links a satellite with a route always has a neighbour exactly one hop closer |
| `Distances.DistancesAreUnique` | constellation/sim.mjs:106-112 | The route table is determined by the links and the stations seen |
| `Grid.Adjacency` | constellation/sim.mjs:72-93 | The links built are exactly those of the grid's rule, each entered at both ends; the numbers of the cross-plane optical ones are collected |
| `Grid.LinkedIff` | constellation/sim.mjs:76-92 | Two satellites are linked exactly when they are next to each other around one plane, or in the same slot of neighbouring planes, outside the bands, where the link has not failed; optical ones only within range |
| `Grid.BandsAre` | constellation/sim.mjs:78 | At the start the bands take the first three slots and, around the far side, five or, of an odd number, six |
| `Grid.BandsMove` | constellation/sim.mjs:78 | In the next epoch a slot is where the one after it was |
| `Grid.PassesIff` | constellation/sim.mjs:96-101 | A station that is up passes under one slot, a slot further each epoch, of its own plane and of the next |
| `Grid.CrossLinksAreCrossings` | constellation/sim.mjs:90 | Among up to 65,536 satellites a pair's number is in that set exactly when the two are linked across planes |
| `Grid.Stations` | constellation/sim.mjs:94-101 | Each satellite sees the last of the stations passing under it, as each overwrites the one before |
| `Grid.Topology` | constellation/sim.mjs:72-103 | The grid's links are symmetric and in range, as routing needs, and its cross-plane set is that of the rule |
| `CustodyBook.TakeKeepsBooks` | constellation/sim.mjs:171-182 | Taking a bundle over keeps every record free of repeats with an interval exactly spanning its times, one open per link, and open and signed records together holding every hop made, once |
| `CustodyBook.EveryHopInOneRecord` | constellation/sim.mjs:139-182 | With all records signed, a bundle that crossed a link so many times is in exactly that many records for it |
| `CustodyBook.HopsAreIds` | constellation/sim.mjs:181 | hopEvents is the number of ids in the records |
| `CustodyBook.NoLoopNoSplit` | constellation/sim.mjs:177 | A record is closed early only for a bundle it already holds |
| `Routing.MoveLowersRank` | constellation/sim.mjs:197-212 | Every hop the simulator takes leaves one hop less to operations |
| `Routing.OnlyStuckWithoutRoute` | constellation/sim.mjs:199-213 | A satellite with no hop to take is one without a route |
| `Routing.UpIff` | constellation/sim.mjs:157-162 | A contact between satellites lasts while they are linked, one with a station while the satellite sees it, and one with an application or operations for ever |
| `Routing.HopKeeps` | constellation/sim.mjs:215-218 | A hop keeps the books, the fleet and the birth-epoch hop counts; without optical contacts it never closes a record |
| `Routing.InjectKeeps` | constellation/sim.mjs:184-189 | An injection keeps them too: its number is new |
| `Simulate.Simulation.Take` | constellation/sim.mjs:171-182 | The open records, signed records and hop counter afterwards |
| `Simulate.Simulation.Route` | constellation/sim.mjs:196-214 | The next node: operations, a station seen, a neighbour one hop closer that is acquired and has capacity, or none; none only where there is no route or no such neighbour |
| `Simulate.Simulation.PickLink` | constellation/sim.mjs:202-211 | Without optical links one is always found; otherwise none only if every closer neighbour is unacquired or full, and the two wait counters say which |
| `Routing.WaitStoresOne` | constellation/sim.mjs:214 | A wait adds one to the ticks bundles have spent in storage |
| `Simulate.Simulation.Tick` | constellation/sim.mjs:191-219 | Each bundle takes a hop or waits, all at the tick's time; an optical link carries no more than its capacity in a tick and nothing while being acquired, and every bundle with a route comes a hop closer unless each link that would bring it closer is being acquired or has carried all it can; in RF every bundle with a route does |
| `Simulate.Simulation.ClockTicks` | constellation/sim.mjs:185-192 | Ticks follow each other at equal intervals from the start on, across epochs |
| `Simulate.Simulation.ClockAdvances` | constellation/sim.mjs:192 | A later tick, of this epoch or another, is at a later time |
| `Simulate.Simulation.Ticks` | constellation/sim.mjs:191-220 | In RF a bundle at distance d with at least d + 2 ticks left in the epoch is delivered in it |
| `Simulate.Simulation.CloseContacts` | constellation/sim.mjs:163-168 | Exactly the contacts whose link is down are signed, the others stay open in order |
| `Simulate.Simulation.BeginEpoch` | constellation/sim.mjs:148-190 | What is signed, what must be acquired, and how many bundles have been injected by then |
| `Simulate.Simulation.Epoch` | constellation/sim.mjs:148-224 | Optical: open contacts are all up. No cross-plane link that came up with the epoch carries anything before its acquisition time is over. RF: one receipt per node and previous hop, and the deliveries promised |
| `Simulate.Simulation.Run` | constellation/sim.mjs:148-225 | After a run every hop of every bundle is in exactly one signed record, no record holds a bundle twice, hopEvents is the total of ids, every bundle injected is in flight or done under its own number, the hops were made in the order of their times, as many were injected as asked for, and storedTicks is the total the bundles waited |
| `Simulate.Simulation.Evidence` | constellation/sim.mjs:229-231 | How many delivered bundles crossed an epoch, waited, or took more hops than the shortest route at their start; the last kind are among the first: delivered in its birth epoch a bundle takes exactly minHops hops |
| `LinkMatching.ChosenIsUnique` | constellation/orbits.mjs:106-114 | Keeping every old link still possible, staying within the terminals, and leaving a candidate out only where an end is taken by old links or earlier candidates: these leave one choice of links |
| `LinkMatching.UnlinkedHasSaturatedEnd` | constellation/orbits.mjs:106-114 | A candidate left out has an end whose terminals are all on old links or on links no longer than it |
| `LinkMatching.Orbits.Select` | constellation/orbits.mjs:100-114 | The two greedy passes choose links with those guarantees, and the adjacency lists hold exactly them, both ways; the byte-sized counters are exact up to 255 terminals |
| `LinkMatching.Orbits.Topology` | constellation/orbits.mjs:67-139 | An epoch's topology is worked out once; asking again changes nothing |
| `LinkMatching.Stations` | constellation/orbits.mjs:118-130 | Each satellite serves the first station that has it among its two highest |
| `LinkMatching.HighestIff` | constellation/orbits.mjs:118-126 | A station's two highest are exactly the satellites at or above the mask with at most one other ahead: higher, or as high with a lower index |
| `LinkMatching.AtMostTwoEach` | constellation/orbits.mjs:127-128 | No station uses more than two satellites, no satellite serves two stations |
| `LinkSchedule.UpIntervals` | constellation/optical-isl.mjs:63-76 | The intervals are in order and disjoint, and the link is up exactly where no fade falls |
| `LinkSchedule.FadesInOrder` | constellation/optical-isl.mjs:66-72 | Each fade begins after the one before is over, or past the end |
| `LinkSchedule.Link.Send` | constellation/optical-isl.mjs:90-102 | A transmission begins at the earliest moment the link is free and stays up long enough, inside one up interval and after all others; None exactly when there is no such moment; resent counts the intervals passed over too short |
| `LinkSchedule.Peak` | constellation/optical-isl.mjs:235 | The sweep's peak is the greatest number held at any time, and is reached |
| `LinkSchedule.HeldIsDifference` | constellation/optical-isl.mjs:235 | What is held at a time is the arrivals up to it less the departures up to it |
| `LinkSchedule.SortCounts` | constellation/optical-isl.mjs:235 | Sorting the two lists separately changes no count |

## Left out

- Ed25519, the SHA-256 rounds, base64, hex and COSE internals: functions of the model's parameters.
- TLS, certificates, the handshake, and when keepalives, SESS_TERM and timeouts come: a session starts
  established, and each of these is a step that may come at any time.
- `Number()` rounding of 64-bit MRUs and acknowledgements above 2^53: lengths are exact.
- The half-closed socket after SESS_TERM or SHUTDOWN: what is still written counts as sent and may be cut.
- Version 3 sessions without acknowledgements: a send is a step of `GatewayPump`, without octets.
- Ingress receipts, EID parsing, UDP and HTTP ingress and delivery to local services.
- The blocks of a bundle other than its payload: one opaque value carried along.
- Reassembly keys: a tuple of source and creation time instead of a joined string.
- Reassembly.MakeBundles: requires a positive `maxPayload`, with which alone the loop ends.
- GatewayPump.NothingIsLost: one gateway process on the spool directory; files of others and disk errors are not
  modelled, and octets of a session that was torn down do not arrive later.
- Tcpcl3Link.CarefulSendsAreReliable: the queue of sends is an arbitrary choice of the next bundle whenever none is
  waiting; both ends ask for acknowledgements. It speaks of one end's sends, whatever the other does; the ends are
  alike (`EndsAreAlike`).
- GatewayRuns.NothingIsLostOverOctets: as for NothingIsLost; version 3 sessions without acknowledgements are not
  among its connections.
- Spool.Spool.Add: sequence numbers below 2^53, up to which a JavaScript number counts exactly; the same holds
  for the interrupted add.
- Spool.Spool.AddInterrupted: see the line above.
- KeyRecords.KeyRecordReadsBackIff: numbers of up to 64 bits; `issueKey` throws above 2^53 unless given a BigInt.
- Null pointers passed to the C functions, and ids that are null in `ck_batch`.
- KeyringIngest.ArrivalOrderDoesNotMatter: requires the distinct records to fit the 32 places; a full
  table keeps the first comers.
- FlightBatch.Compact: `qsort` is a method that sorts the array, not the library's algorithm.
- Simulate.Simulation.Run: keyAt, receipts' bytes, contact ids and the sample receipt are left out.
- Simulate.Simulation.Tick: capacity is stated for each directed link; links whose numbers coincide, which takes
  more than 65,536 satellites, share it.
- Simulate.Simulation.Evidence: blackouts and link statistics are left out, and so are link lengths in Grid.
- `verifyAll`, path assembly and the reports of the simulators.
- LinkMatching.Orbits.Select: candidates come sorted, and elevations given, by the geometry, which is not modelled, nor are the
  statistics kept beside the topology.
- LinkSchedule.Link.Send: real numbers instead of floating point, so sums are exact.
- The receipts, batches and audit of constellation/optical-isl.mjs around the scheduler.
- contact-plans/, ground/, bench/ timing, BSV and ARC scripts, the cFS app and the radio bridge: field
  mappings and plumbing that would only add easy members.
