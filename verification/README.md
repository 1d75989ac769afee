# CryptoCampus: verified core

A Dafny model of the parts of CryptoCampus whose correctness rests on state, races and arithmetic, with proofs of
what each is for. `dafny verify dfyconfig.toml` verifies the whole project.

The model keeps the program's branches, bounds and constants and abstracts three things.

* **Cryptographic primitives** are function values (digest, key derivation, authenticated cipher, curve library).
  What a theorem needs of them is a named hypothesis in its `requires` (`GoodDigest`, `Lawful`, ...). Tamper evidence
  assumes nothing: equal tail hashes give equal contents *or* two rows with a digest collision. The one primitive the
  repository implements itself, SM3, is modelled to the bit.
* **The database** is a sequence of committed states. Where transactions race, every SELECT reads an earlier state of its
  own (the engine in `server/app/db/session.py` opens no snapshot), and the transaction commits against the current one,
  where only unique constraints arbitrate; `Issuance` interleaves single steps. Requests in `KeyCustody`, and in
  `DropLifecycle` unless a result speaks of statements, are atomic. Process-local locks are absent on purpose: results
  about races hold for workers in separate processes. The locks matter in one place, the final tally of a vote:
  `VoteTally` proves what the constraints alone guarantee of it, exactly when it is complete, and that a lock or one
  snapshot makes it so.
* **Time** is an integer that each request brings along.

Where code and its own comments differ, the code is followed. Results that say "exactly when" are if-and-only-if;
where a natural wish is false of the code there is a lemma with a concrete input and the exact condition
(`VoteTally.LateBallotIsMissed` with `CompleteIffNoBallotBetween`, `ProviderLock.WriterTimeoutStrandsReader` with
`CoveredIffNobodyStranded`, `DropLifecycle.InterleavedSuccessWedges` with `InterleavingKeepsInvIff`,
`AdminAudit.GenesisRowIsEndless` with `EndlessIff`, `DerSignature.NonMinimalAccepted` with `ReencodeIffMinimal`,
`Base64.StrayPaddingIgnored` with `CanonicalIff`).

| file | content |
|---|---|
| `Bytes`, `Text`, `Modular` | big-endian numbers, length prefixes, UTF-8, timestamps, residues |
| `HashChain` | linked lists of rows, for any hash and row type |
| `RevocationLog`, `HoleGovernance` | the public revocation chain, and racing withdrawals |
| `AdminAudit` | the administrator chain: append, tail by set difference, verifying walk |
| `VoteTally`, `VoteResults` | ballots, snapshots, settlement; the signed encoding of a result |
| `BlindSignature`, `BlindClient` | the protocol in a cyclic group; the C entry points and their buffers |
| `CommitmentStore`, `Issuance` | one-time commitments; issuing signatures under races, rollbacks and crashes |
| `Sm3`, `Sm3Example`, `DerSignature` | the streaming hash, and the standard's first example; raw and DER signatures |
| `Base64`, `Pem`, `KeyringBackup` | the backup file, layer by layer |
| `KeyCustody` | register, login and its lockout, change, rotate, export, import, certificates and the unlock cache |
| `DropLifecycle` | a drop's statuses, cooldown, expiry, burning and wiping |
| `ProviderLock` | the writer-preferring monitor |

## Model

| member | source | states |
|---|---|---|
| Bytes.BigEndianRoundTrip | server/app/services/revocation_log.py:53-55 | a number that fits its width is read back from its big-endian bytes |
| Bytes.LengthPrefixSelfDelimiting | server/app/services/revocation_log.py:53-55 | a length-prefixed value can be read back whatever follows it |
| Text.Utf8Injective | server/app/services/revocation_log.py:73-75 | different strings have different UTF-8 encodings |
| Text.StripIsStripped | server/app/services/revocation_log.py:40-50 | stripping leaves no outer whitespace, and changes nothing when there is none |
| Text.CanonicalUtcInjective | server/app/services/revocation_log.py:31-37 | different instants have different canonical timestamps |
| HashChain.LinkedUnique | server/app/services/revocation_log.py:173-192 | a bag of rows has at most one arrangement that is a list linked from genesis |
| HashChain.LinkedExtend | server/app/services/hole_governance.py:186-214 | a row with a new hash, chained to the tail, keeps the list linked exactly when its hash is not genesis |
| RevocationLog.EncodingInjective | server/app/services/revocation_log.py:58-83 | equal encodings have equal fields, reasons up to outer whitespace |
| RevocationLog.EncodableIff | server/app/services/revocation_log.py:58-83 | an entry can be encoded exactly with a predecessor of 32 bytes, a serial number of at least 16 and a reason of 1 to 500 characters besides outer whitespace |
| RevocationLog.IndexRows | server/app/services/revocation_log.py:116-171 | the first pass indexes every row by predecessor, or no arrangement of the bag is linked with valid columns |
| RevocationLog.WalkFromGenesis | server/app/services/revocation_log.py:177-188 | the walk ends with a linked list of rows of the bag; its cycle branch is dead |
| RevocationLog.OrderAndVerifyRows | server/app/services/revocation_log.py:104-212 | a list is returned exactly when some arrangement is linked, valid and rehashes; it is a permutation of the rows |
| RevocationLog.OrderAndVerifyChain | server/app/services/revocation_log.py:104-212 | the answer is the one intact arrangement of the rows, if there is one |
| RevocationLog.OrderedLogCanonical | server/app/services/revocation_log.py:104-212 | the answer depends on the bag only, not on the order the rows arrive in |
| RevocationLog.IntactUnique | server/app/services/revocation_log.py:181-212 | two intact arrangements of one bag are equal |
| RevocationLog.IntactExtend | server/app/services/hole_governance.py:186-214 | appending keeps the log intact exactly when the row is good and its hash is not genesis |
| RevocationLog.TailHashFixesLog | server/app/services/revocation_log.py:194-210 | two accepted logs with one tail hash have equal length and contents, or exhibit a digest collision |
| HoleGovernance.CommittingReadIsCurrent | server/app/models/audit.py:12-17 | the unique predecessor lets only an attempt that read the current log commit |
| HoleGovernance.CommitKeepsLogIntact | server/app/services/hole_governance.py:180-247 | a committed withdrawal leaves the log intact exactly when the digest has 32 bytes and is not genesis |
| HoleGovernance.CommitSafe | server/app/services/hole_governance.py:139-247 | a committed withdrawal, however stale each of its three reads, keeps the invariant and hits a published post |
| HoleGovernance.RacingWithdrawalsSafe | server/app/services/hole_governance.py:135-311 | in every run the log is intact and append-only, and withdrawn posts and rows match one to one by serial number, which are unique on both sides |
| HoleGovernance.WithdrawalIdempotent | server/app/services/hole_governance.py:158-167 | once a post is withdrawn, every later request, whichever states it reads, answers with the same row and appends nothing |
| HoleGovernance.IntegrityErrorIff | server/app/services/hole_governance.py:150-178 | a post seen published is refused as an integrity error exactly when it is withdrawn between the read of the post and the lookup of its row |
| HoleGovernance.OnlyByOperators | server/app/services/hole_governance.py:139-178 | an attempt that appends or is answered with a row had an active operator who may withdraw and a reason of 1 to 500 characters, whatever states it read |
| HoleGovernance.AloneWithdraws | server/app/services/hole_governance.py:139-247 | undisturbed, a request without authority changes nothing; of a hole post with a proper serial number, a withdrawn one is answered with its row and a published one withdrawn by the next row of the log, unless that row's hash is in use |
| HoleGovernance.HoleContentGovernanceService.WithdrawPost | server/app/services/hole_governance.py:135-311 | under any interference an answer needs an operator who may withdraw, is the post's own row, and keeps the invariant; undisturbed, an authorised request succeeds, and answer and state are fully determined |
| HoleGovernance.HoleContentGovernanceService.AttemptWithdraw | server/app/services/hole_governance.py:139-302 | one attempt answers rightly or asks for another; alone, it asks only when the unique constraints reject its row |
| HoleGovernance.HoleContentGovernanceService.Decide | server/app/services/hole_governance.py:123-214 | one attempt's three reads, others committing in between, yield the first failing check, the existing row, or the row to append |
| AdminAudit.EncodeInjective | server/app/services/admin_audit.py:30-61 | equal encodings have equal predecessor and equal columns |
| AdminAudit.ColumnsEncode | server/app/models/admin_audit.py:17-35 | whatever fits the columns of the table can be encoded |
| AdminAudit.TailIsLast | server/app/services/admin_audit.py:80-94 | on any ordering of a linked log the set difference finds its last row |
| AdminAudit.IndexByPrev | server/app/services/admin_audit.py:142-147 | every row is indexed by its predecessor, or two share one and no arrangement is linked |
| AdminAudit.VerifyChain | server/app/services/admin_audit.py:136-178 | for any rows: a list comes back exactly when some arrangement is linked and rehashes, and is a permutation; the walk runs forever exactly when `Loops` holds, and then there is no arrangement |
| AdminAudit.EndlessIffRepeats | server/app/services/admin_audit.py:152-171 | the walk over n rows runs forever exactly when two of its first n + 1 rounds have the same hash |
| AdminAudit.EndlessIff | server/app/services/admin_audit.py:152-171 | with distinct row hashes it runs forever exactly when one of its first n rows has the genesis value for its hash |
| AdminAudit.GenesisRowIsEndless | server/app/services/admin_audit.py:152-171 | one row that names genesis and hashes to it makes the walk endless |
| AdminAudit.StaleRejected | server/app/models/admin_audit.py:12-15 | an append that read a stale table is rejected |
| AdminAudit.AppendAddsIff | server/app/services/admin_audit.py:96-134 | an append adds a row exactly when it read the current table, the columns can be encoded after the last hash and their digest is no row's hash; the row names that hash and carries that digest |
| AdminAudit.AppendIntactIff | server/app/services/admin_audit.py:96-134 | an append leaves the log intact exactly when nothing was added or the new hash is not genesis |
| AdminAudit.TableIntact | server/app/services/admin_audit.py:96-134 | every table built by appends, stale or not, is intact and append-only if no digest is genesis |
| AdminAudit.IntactReads | server/app/services/admin_audit.py:136-178 | an intact table, read in any order, lets the walk end and has one arrangement |
| AdminAudit.AdminAuditChainService.Append | server/app/services/admin_audit.py:96-134 | exactly the new row is added, or nothing when encoding or a constraint fails |
| AdminAudit.AdminAuditChainService.Verify | server/app/services/admin_audit.py:136-178 | an intact table passes, and comes back in order, however the query orders it |
| AdminAudit.TailHashFixesAudit | server/app/services/admin_audit.py:152-171 | two accepted chains with one tail hash agree in every column, or exhibit a digest collision |
| VoteTally.TotalCountsBallots | server/app/services/vote_ballots.py:230-248 | when ballots name listed options, the option counts add up to the number of ballots |
| VoteTally.CountIs | server/app/services/vote_settlement.py:166-183 | the grouped count of an option is the number of ballots for it |
| VoteTally.SubmitCountIsCurrent | server/app/models/vote.py:262-263 | the (vote, version) constraint admits only a count of exactly the current ballots |
| VoteTally.SubmitSafe | server/app/services/vote_ballots.py:165-293 | a submission commits safely however stale its reads, each from a state of its own |
| VoteTally.SettleSafe | server/app/services/vote_settlement.py:122-250 | a settlement commits safely however stale its reads, publishes, and counts every ballot exactly when none was committed between its count and its look at the versions |
| VoteTally.CompleteIffNoBallotBetween | server/app/services/vote_settlement.py:166-194 | in every run a published tally counts all ballots, then and ever after, exactly when none was committed between the two SELECTs of the settlement that published it |
| VoteTally.PublishedBySome | server/app/services/vote_settlement.py:116-250 | every published vote was published by one settlement of the run |
| VoteTally.LateBallotIsMissed | server/app/services/vote_settlement.py:166-194 | a run whose published tally counts none of one ballot |
| VoteTally.OneStateSettlesAll | server/app/services/vote_settlement.py:116-194 | when settlements take count and version from one state, every published tally counts all ballots |
| VoteTally.RepairChangesNothing | server/app/services/vote_settlement.py:136-152 | the branch that repairs a vote record runs only when the vote is published between its two reads, and writes what is there |
| VoteTally.RepairNeverNeeded | server/app/services/vote_settlement.py:136-152 | with both reads from one state that branch never runs |
| VoteTally.TallyIsSerial | server/app/services/vote_ballots.py:158-329 | in every interleaving snapshot k tallies the first k ballots, versions are 1..N and one final, which tallies a prefix, and nothing is rewritten |
| VoteTally.PublishedIsFinal | server/app/services/vote_settlement.py:116-286 | after publication nothing changes: one final snapshot, the latest, tallying a prefix of the ballots, returned by settling again |
| VoteTally.NoEarlySettlement | server/app/services/vote_settlement.py:154-164 | before the deadline a settlement is refused or finds the vote published, whatever states it reads; it writes nothing |
| VoteTally.LatestIsLast | server/app/services/vote_result_verification.py:34-39 | the highest version is the last snapshot committed |
| VoteTally.SnapshotsValidate | server/app/models/vote.py:297-313 | every snapshot ever committed passes `validate_counts` |
| VoteTally.AcceptedOnce | server/app/services/vote_ballots.py:126-139 | an accepted key is backed, then and later, by exactly one ballot with that request, its serial number consumed |
| VoteTally.BallotSubmittedBySome | server/app/services/vote_ballots.py:158-293 | every ballot in any committed state was cast by a submission of the run that passed every check: a public, open vote with that option, before its deadline, and a credential that verifies |
| VoteTally.SubmitAloneIsRight | server/app/services/vote_ballots.py:126-293 | undisturbed and under a new key, a submission is accepted exactly when the vote is public, open, offers the option and has not closed, and the credential verifies and is unspent; it then adds that ballot and spends the credential |
| VoteTally.SettleAloneIsRight | server/app/services/vote_settlement.py:116-250 | undisturbed, an unknown vote is not found, an unpublished one is refused before its deadline and unchanged, and from the deadline on is settled now by a final snapshot that counts every ballot |
| VoteTally.CurrentSubmitAdmitted | server/app/services/vote_ballots.py:165-293 | a submission that passes the checks and is undisturbed meets every unique constraint |
| VoteTally.TallyServices.Submit | server/app/services/vote_ballots.py:99-329 | "accepted" means one ballot with that key, and a taken key decides the answer under any interference; undisturbed, what `SubmitAloneIsRight` says, and answer and state are fully determined |
| VoteTally.TallyServices.AttemptSubmit | server/app/services/vote_ballots.py:162-329 | one attempt, others committing between any two of its statements, answers rightly or asks for another; alone, it always answers |
| VoteTally.TallyServices.CommitSubmit | server/app/services/vote_ballots.py:194-293 | all rows of a submission are inserted, or none when a unique constraint is met |
| VoteTally.TallyServices.SettleOne | server/app/services/vote_settlement.py:103-286 | the answer is the final snapshot or a refusal of an unpublished vote; while the vote's lock keeps others out, a tally it publishes is complete; undisturbed, what `SettleAloneIsRight` says, and answer and state are fully determined |
| VoteResults.EncodeVoteResult | server/app/services/vote_results.py:22-91 | encodes exactly the results with valid distinct options, 64-bit counts and total equal to their sum, in the fixed layout |
| VoteResults.LayoutInjective | server/app/services/vote_results.py:82-91 | equal encodings mean the same vote, options in order, counts, total and time |
| BlindSignature.BlindedLog | bridge/src/cc_client.c:263-272 | R' is k + alpha + beta d in the exponent |
| BlindSignature.AnswersIff | bridge/src/cc_bridge.c:1636-1645 | exactly one scalar answers a challenge for a given point and key |
| BlindSignature.BlindSignAnswers | bridge/src/cc_bridge.c:1610-1660 | the signer answers exactly for a scalar and a key in range, and s' - c'd is the scalar modulo n |
| BlindSignature.FullVerifyIff | bridge/src/cc_bridge.c:1717-1786 | full verification accepts exactly when s is in range and s - cd is the log of R' |
| BlindSignature.FullVerifyEquation | bridge/src/cc_bridge.c:1432-1437 | full verification accepts exactly when s is in range and s minus the digest of x and the message, times d, is the log of R' modulo n |
| BlindSignature.BlindResultIs | bridge/src/cc_client.c:249-301 | blinding with scalars in range fails exactly when R' is zero, and else yields c + beta, the state and R' |
| BlindSignature.BlindedChallenge | bridge/src/cc_client.c:281-290 | the challenge handed to the signer is the digest of the x coordinate of R' followed by the message, plus beta, modulo n, for scalars in range |
| BlindSignature.FinishIs | bridge/src/cc_bridge.c:1610-1713 | signing and unblinding give k + alpha + beta d + cd modulo n |
| BlindSignature.Completeness | bridge/src/cc_bridge.c:1333-1336 | for all keys, nonces and blinding scalars in range: blinding fails exactly when R' is zero, and both verifiers accept exactly when s is not zero |
| BlindSignature.XVerifyIff | bridge/src/cc_client.c:375-447 | x-only verification accepts (x, s) exactly when full verification accepts a point with that x, and that point is unique |
| BlindSignature.XVerifyEquation | bridge/src/cc_client.c:416-440 | x-only verification accepts (x, s) exactly when s is in range and the point with log s minus the digest of x and the message, times d, is not zero and has that x |
| BlindSignature.OneMessagePerSignature | bridge/src/cc_bridge.c:1425-1437 | for a prime order, one signature accepted for two messages exhibits two digests that agree modulo n |
| BlindSignature.PerfectBlindness | bridge/src/cc_bridge.c:1337-1340 | each signer view and each valid signature are linked by exactly one pair (alpha, beta), which the client admits exactly when both are nonzero |
| BlindClient.FirstScalarIff | bridge/src/cc_bridge.c:1360-1371 | rejection sampling yields the first draw in range before any failure of the generator |
| BlindClient.RandScalar | bridge/src/cc_bridge.c:1360-1371 | at most sixteen draws, with that outcome |
| BlindClient.BlindCommit | bridge/src/cc_bridge.c:1450-1495 | the buffers hold the drawn k and a point that decodes to [k]G, exactly when a draw was in range |
| BlindClient.Blind | bridge/src/cc_client.c:198-322 | success fills the three buffers with the blinding; any failure leaves all of them zero |
| BlindClient.EncodeMessage | bridge/src/cc_client.c:177-196 | the parts are concatenated; a length beyond 32 bits or the capacity is refused and writes nothing |
| BlindClient.MessageInjective | server/app/schemas/credential.py:53-55 | with the four service names and a period of fixed width the message determines its parts, whatever the serial number's length |
| CommitmentStore.BlindCommitmentStore.Create | server/app/services/commitment_store.py:40-73 | lapsed records go, the new one is stored; an invalid engine answer changes nothing |
| CommitmentStore.BlindCommitmentStore.Get | server/app/services/commitment_store.py:75-84 | returns the record exactly while it lives; a lapsed one is dropped |
| CommitmentStore.BlindCommitmentStore.Consume | server/app/services/commitment_store.py:86-110 | handed out, and removed, exactly when the record is live and made for this user, service and period; each refusal has its own condition, and only a mismatch leaves the record |
| CommitmentStore.BlindCommitmentStore.Cleanup | server/app/services/commitment_store.py:112-118 | exactly the live records remain; the test on consumed records never matters |
| Issuance.ConsumedIsProper | server/app/services/commitment_store.py:96-110 | what is handed out was made for this user, service and period and has not lapsed |
| Issuance.RunSafe | server/app/services/vote_credentials.py:123-281 | every step of every interleaving keeps the invariant and only adds to history |
| Issuance.NonceUsedOnce | server/app/services/credential_issuance.py:134-172 | each commitment and each scalar reaches the signer at most once, before it lapses and for the user, service and period it was made for |
| Issuance.SpentForever | server/app/services/commitment_store.py:108-110 | a commitment that has left the store, by use (rolled back or not) or by age, is never handed out again |
| Issuance.OneSignaturePerKey | server/app/services/vote_credentials.py:123-281 | all signatures handed out for one key are one, for one pair of hashes, from one call of the signer for that key |
| Issuance.OneSignaturePerVote | server/app/services/vote_credentials.py:123-140 | in every run two signatures handed to one user for one vote are the same one, for the same hashes |
| Issuance.OneSignaturePerCredential | server/app/services/credential_issuance.py:112-130 | in every run two signatures handed to one user for one service, period and idempotency key are the same one, for the same request |
| Issuance.AloneAnswers | server/app/services/vote_credentials.py:123-281 | undisturbed, a request for something handed out before gets that signature or, with other hashes, a conflict; any other is decided by its commitment, the quota, the key and the signer, whatever was issued to others |
| Issuance.IssuanceService.Issue | server/app/services/vote_credentials.py:123-281 | an issued signature is the stored one for the request, and a conflict means that the same thing was signed for other hashes; undisturbed, what `AloneAnswers` says, and answer, store and table are fully determined |
| Issuance.IssuanceService.SignAndCommit | server/app/services/credential_issuance.py:150-230 | quota, key, signer and commit in order; a conflict answers from the table |
| Sm3.ExpandW | bridge/src/sm3.c:49-52 | the first schedule holds the standard's words W |
| Sm3.Compress | bridge/src/sm3.c:44-75 | in place, the state becomes the compression function of state and block |
| Sm3.Context.constructor | bridge/src/sm3.c:31-42 | a fresh context has absorbed nothing |
| Sm3.Context.Update | bridge/src/sm3.c:77-91 | the context afterwards is that of the longer message; the buffer is never full between calls |
| Sm3.Context.Final | bridge/src/sm3.c:93-108 | writes the one-shot digest of everything fed, and stops on a block boundary |
| Sm3.HashChunks | bridge/src/sm3.c:77-108 | however a message is split into updates, the digest is that of the whole |
| Sm3.PaddedInjective | bridge/src/sm3.c:93-105 | different messages, of any length, give different padded messages |
| Sm3.LengthIsRecordedIff | bridge/src/sm3.c:94-105 | the last eight octets of the padding hold the bit length modulo 2^64, and the bit length itself exactly below 2^61 octets |
| Sm3Example.DigestOfAbc | bridge/src/sm3.c:5-108 | the digest of "abc" is the one in appendix A.1 of GM/T 0004-2012, worked through by its words and registers |
| DerSignature.RawRoundTrip | bridge/src/cc_bridge.c:70-114 | every raw signature encodes to a minimal DER of 8 to 72 bytes and decodes to itself |
| DerSignature.ReencodeIffMinimal | bridge/src/cc_bridge.c:53-114 | re-encoding an accepted DER restores it exactly when it was minimal |
| DerSignature.NonMinimalAccepted | bridge/src/cc_bridge.c:84-114 | a padded INTEGER, a wrong outer length and trailing bytes are let through together |
| DerSignature.MinimalAccepted | bridge/src/cc_bridge.c:84-114 | a minimal DER is accepted exactly when both values are below 2^256 |
| DerSignature.AlignKeepsValue | bridge/src/cc_bridge.c:99-105 | the decoder keeps the value of each INTEGER, minimal or not |
| DerSignature.IntToDer | bridge/src/cc_bridge.c:53-68 | writes the INTEGER at an offset, 3 to 35 bytes, and nothing else |
| DerSignature.RawSigToDer | bridge/src/cc_bridge.c:70-82 | never fails, and writes the encoding |
| DerSignature.DerSigToRaw | bridge/src/cc_bridge.c:84-114 | succeeds exactly on what the decoder accepts, with its value |
| Base64.DecodeEncode | server/app/services/keyring_backup.py:193 | strict decoding inverts encoding |
| Base64.SymbolsAreTheAlphabet | server/app/services/keyring_backup.py:193 | sextets are written with the alphabet of RFC 4648, table 1 |
| Base64.CanonicalIff | server/app/services/keyring_backup.py:208 | an accepted text is the canonical one exactly when leftover bits are zero and no padding follows a complete group |
| Base64.StrayPaddingIgnored | server/app/services/keyring_backup.py:208 | padding after complete groups is accepted and changes nothing, so decoding is not one-to-one |
| Pem.LinesConcat | server/app/services/keyring_backup.py:204 | the split lines put end to end are the text without CR and LF |
| Pem.SplitWrap | server/app/services/keyring_backup.py:204 | nonempty lines wrapped with any mixture of LF, CR and CR LF split back into themselves |
| Pem.AnyWrapping | server/app/services/keyring_backup.py:204-210 | any cutting of a Base64 text into lines is read as that text, within the size limit |
| Pem.RewrapSame | server/app/services/keyring_backup.py:200-210 | what is read from framed armour depends only on the text without line terminators |
| Pem.DearmourInverts | server/app/services/keyring_backup.py:192-210 | `_from_pem` undoes `_to_pem` for every container that fits |
| Pem.PemSize | server/app/services/keyring_backup.py:192-198 | the exact size of the armour |
| KeyringBackup.ReadIffPacked | server/app/services/keyring_backup.py:158-178 | reading accepts exactly the packings of k nonempty fields |
| KeyringBackup.UnpackIffPacked | server/app/services/keyring_backup.py:146-189 | unpacking accepts exactly the images of packing, and inverts it |
| KeyringBackup.UnpackMaterial | server/app/services/keyring_backup.py:162-189 | the loop returns the one material that packs to the payload, or none exists |
| KeyringBackup.ReadContainerIff | server/app/services/keyring_backup.py:211-226 | containers are read exactly when they are valid images, and read back as written |
| KeyringBackup.MaterialFits | server/app/services/keyring_backup.py:128-144 | valid material within its length fields always fits 256 KiB |
| KeyringBackup.ExportSucceedsIff | server/app/services/keyring_backup.py:49-78 | export succeeds exactly when every field and the password are within their bounds and the engine does its part |
| KeyringBackup.ImportExport | server/app/services/keyring_backup.py:49-111 | importing an export with the same password and user restores the material |
| KeyringBackup.ImportRewrapped | server/app/services/keyring_backup.py:200-226 | rewrapping the lines does not change the import |
| KeyringBackup.ImportAuthentic | server/app/services/keyring_backup.py:80-111 | import yields a material exactly when it is valid, the user's, and what the backup seals for that user |
| KeyringBackup.ImportBackup | server/app/services/keyring_backup.py:80-111 | the method computes that import |
| KeyCustody.ParseIffPacked | server/app/services/keyring.py:302-312 | parsing a wrapped key accepts exactly the packings |
| KeyCustody.WrapOpens | server/app/services/password_change.py:70-104 | a wrapped key opens under its password, and under none to anything else |
| KeyCustody.ChangedKept | server/app/services/password_change.py:57-106 | the row after a change wraps the same key under the new password |
| KeyCustody.LoginOpensIff | server/app/services/login.py:72-98 | a login opens the key only on an active, unlocked account with the password whose hash is stored; another password there, and nothing else, is counted, and the fifth locks |
| KeyCustody.HolderLogsIn | server/app/services/login.py:92-124 | the holder, with the password last set, gets in, and to the right key |
| KeyCustody.ChangeNeedsPassword | server/app/services/password_change.py:57-106 | a change needs the current password, and the new one authenticates afterwards |
| KeyCustody.HolderChanges | server/app/services/password_change.py:57-106 | the holder can change to any other acceptable password |
| KeyCustody.RotationNeedsPassword | server/app/services/keyring.py:98-175 | a rotation needs the password, the active identity certificate and a key that fits it; the new certificate is then active, the old one is not, and no other changes |
| KeyCustody.HolderRotates | server/app/services/keyring.py:98-175 | the holder of an active identity certificate can rotate |
| KeyCustody.ImportNeedsPassword | server/app/services/keyring.py:229-268 | an import needs the password, the active certificate and a backup of this very row whose wrapped key opens to the key of its public key; it writes that wrapped key alone |
| KeyCustody.HolderImports | server/app/services/keyring.py:229-268 | a backup of the row as it is imports for its holder |
| KeyCustody.ExportIff | server/app/services/keyring.py:193-227 | an export is made exactly with the password and the active certificate, when the codec makes one of the row |
| KeyCustody.ImportChangesNothing | server/app/services/keyring.py:246-268 | a successful import of an honest backup leaves the row as it was |
| KeyCustody.RunSafe | server/app/services/keyring.py:98-270 | every run keeps the custody invariant, and abandoned salts never return |
| KeyCustody.CustodyHolds | server/app/services/login.py:99-116 | in every run the wrapped key opens under the current password to the key of the stored public key, and every cache entry is that key |
| KeyCustody.ChangeKeepsKey | server/app/services/password_change.py:57-106 | after a change the new password opens the same key, with the same public key and certificate and a new salt |
| KeyCustody.OldBackupRejected | server/app/services/keyring.py:249-255 | a backup exported before a change or rotation is rejected ever after, with any password |
| KeyCustody.FreshBackupRestores | server/app/services/keyring.py:193-270 | a backup made with the current password imports, restores the row, and goes on record as exported |
| KeyCustody.PrivateKeyUnlockCache.Put | server/app/security/key_cache.py:19-24 | stores the entry unless the user id or the key is empty |
| KeyCustody.PrivateKeyUnlockCache.Get | server/app/security/key_cache.py:26-34 | returns the key exactly while the entry lives; a lapsed one is removed |
| KeyCustody.PrivateKeyUnlockCache.ExpiresAt | server/app/security/key_cache.py:36-44 | the same for the deadline |
| KeyCustody.OneActiveCertificate | server/app/services/keyring.py:151-173 | in every run a user has at most one active certificate, the one in the row, for the key pair the row wraps |
| KeyCustody.FrozenHasNoKey | server/app/services/account_lifecycle.py:45-101 | in every run only active accounts have a key in the cache |
| KeyCustody.RotatesOncePerKey | server/app/services/keyring.py:27-44 | in every run a rotation key goes through a second time only when 2048 rotations are on record |
| KeyCustody.LockoutRateBound | server/app/services/login.py:87-98 | in a window of w seconds without a login at most 5 + floor(w / 10 min) wrong passwords are counted for a user |
| KeyCustody.AccountService.Login | server/app/services/login.py:72-220 | tokens are issued only on an active, unlocked account with the matching password; a holder is let in and the key cached for fifteen minutes; another password is counted and caches nothing; the whole row and cache, and which answer |
| KeyCustody.AccountService.Change | server/app/services/password_change.py:41-106 | success needs the password, and a holder with fresh salts succeeds; the whole row and cache after a change, or neither touched |
| KeyCustody.AccountService.Rotate | server/app/services/keyring.py:98-175 | success needs the password and the certificate, and a holder with an unused key succeeds; the whole row, cache, certificate table and store of used keys after a rotation, or none touched |
| KeyCustody.AccountService.ImportFile | server/app/services/keyring.py:229-271 | success needs the password and the user's active certificate, and a holder with a backup of the row succeeds; the whole row and cache after an import, or neither touched |
| DropLifecycle.LifecycleInvariant | server/app/services/drop.py:399-722 | available means at most four failures and no cooldown, cooling down means five and a deadline, ended means all eight columns empty, destroyed also no code hash and no idempotency rows, and a drop that has not ended keeps its envelope and access code |
| DropLifecycle.EndedForever | server/app/services/drop_destruction.py:59-260 | an ended drop stays ended and wiped, whatever requests follow |
| DropLifecycle.ExtractionIff | server/app/services/drop.py:463-520 | the plaintext is returned exactly when the drop is readable, the key usable, the code the drop's and the envelope opens; a failure is recorded exactly when only the code is wrong |
| DropLifecycle.ExtractionLeaves | server/app/services/drop.py:600-696 | afterwards a burn-after-read drop is consumed and wiped and any other is as before, with the counter at zero and the key bound to the request |
| DropLifecycle.MetadataIff | server/app/services/drop.py:399-442 | the metadata are shown exactly while the drop can be read, and spend nothing |
| DropLifecycle.CooldownRateBound | server/app/services/extract_cooldown.py:46-135 | a window of length W without a successful extraction records at most 5 (floor(W / 10 min) + 1) failures |
| DropLifecycle.RateBoundIsTight | server/app/services/extract_cooldown.py:68-118 | the bound is attained for every whole number of cooldowns, by requests within the window and without a success |
| DropLifecycle.KeyBoundToRequest | server/app/services/drop.py:483-498 | an idempotency key answered with plaintext never answers a different request |
| DropLifecycle.BurnAfterReadOnce | server/app/services/drop_destruction.py:70-91 | however statements interleave, one request at most reads a burn-after-read drop, which is ended and wiped from then on |
| DropLifecycle.InterleavingKeepsInvIff | server/app/services/extract_cooldown.py:68-135 | however statements interleave, the invariant holds throughout exactly when no success is counted during a cooldown and no key stored after the wipe |
| DropLifecycle.InterleavedSuccessWedges | server/app/services/extract_cooldown.py:127-135 | a success between another request's fifth failure and its answer leaves a cooldown without a deadline |
| DropLifecycle.WedgedStaysWedged | server/app/services/extract_cooldown.py:46-66 | such a drop never changes again, except to end, and is never read |
| DropLifecycle.Drop.GuardAttempt | server/app/services/extract_cooldown.py:46-66 | the guard refuses during a cooldown and lifts one that is over |
| DropLifecycle.Drop.NoteFailure | server/app/services/extract_cooldown.py:68-125 | the three guarded updates and whether one recorded a failure |
| DropLifecycle.Drop.ExtractOnce | server/app/services/drop.py:469-696 | one extraction, in the order of its checks: the plaintext exactly with the drop's code on a readable drop, and a failure exactly for a wrong code there |
| DropLifecycle.Drop.AdminWipe | server/app/services/admin_drop_governance.py:61-80 | all eight columns, the code hash and the idempotency rows are wiped once; a second call changes nothing |
| DropLifecycle.SweepExpired | server/app/services/drop_destruction.py:154-185 | exactly the selected rows still live are wiped, and their number is returned |
| ProviderLock.FieldsCount | server/app/crypto/locks.py:18-70 | in every run, timeouts included, the three fields count the waiting writers, the readers inside and the writer inside |
| ProviderLock.WriterExcludesAll | server/app/crypto/locks.py:27-70 | in every run, timeouts included, a writer holds the lock alone |
| ProviderLock.ReaderEntersOnlyPastWriters | server/app/crypto/locks.py:31-38 | a reader enters only when no writer holds the lock or waits |
| ProviderLock.CoveredIffNobodyStranded | server/app/crypto/locks.py:27-70 | in every run, timeouts included, somebody will still wake every sleeper all the way through exactly when no step strands a reader |
| ProviderLock.FreeLockSleepersAreCovered | server/app/crypto/locks.py:40-70 | while no waiting writer times out, a lock nobody holds has no sleeping writer, and a sleeping reader only beside a writer who is awake |
| ProviderLock.IdleLockHasNoSleeper | server/app/crypto/locks.py:40-70 | so an idle lock has no sleeper |
| ProviderLock.WriterTimeoutStrandsReader | server/app/crypto/locks.py:55-63 | one writer timeout can leave a reader asleep on an idle lock |
| ProviderLock.ProviderOperationLock.ReaderTurn | server/app/crypto/locks.py:28-38 | one turn of the reader's wait loop is the monitor's step |
| ProviderLock.ProviderOperationLock.WriterTurn | server/app/crypto/locks.py:54-63 | one turn of the writer's wait loop is the monitor's step |

## Left out

- Foreign code: openHiTLS, curve formulas, X.509, SM4-GCM, HKDF; they are function values with hypotheses.
- Routes, schemas, sessions, tokens, mail, the web client, benchmarks and inspection records: wiring without state worth proving.
- Passwords are their UTF-8 bytes; limits on their number of characters and the policy for new ones are the callers'.
- Values of the wrong Python type and null C pointers: the model is typed, so the branches that test for them are gone.
- UUID parsing: identifiers are opaque, or a parser given as a function (`VoteResults`) or already sixteen bytes (`AdminAudit`).
- Timestamps before the year 1000, which `strftime` does not pad on every platform; the model pads them.
- Process-local locks: left out so that the race results hold across processes; where their exclusion matters it is a hypothesis (`Locked` in `VoteTally.TallyServices.SettleOne`).
- Audit rows written beside withdrawals, ballots, settlements and issues: they commit or fail with their transaction.
- `list_entries` paging and `settle_due`: loops that call the modelled functions.
- Quotas: `Issuance` takes the outcome of a reservation as an input.
- Serial-number and hex helpers of the bridge: single-branch conversions.
- Big-number buffers inside the C functions: scalars are numbers, and only the callers' byte buffers are arrays.
- Failures of the C allocator and of single point operations, which make a call fail without touching the scheme.
- Constant-time comparison and memory clearing: equality and nothing.
- Base64.Decode: models the strict decoder as CPython's `binascii` writes it, which tolerates padding after a complete group; a release that rejects it accepts less.
- RevocationLog.WalkFromGenesis: takes an index built by the first pass; other indexes cannot reach it.
- AdminAudit.VerifyChain: stops a walk that would run forever one round after the rows are used up and returns `RunsForever`; the code walks on.
- HoleGovernance.RacingWithdrawalsSafe: assumes digests of 32 bytes that are never all zero; `CommitKeepsLogIntact` shows both are needed.
- VoteTally.PublishedIsFinal: promises the tally of a prefix of the ballots, not of all, which is false of the code (`LateBallotIsMissed`); `CompleteIffNoBallotBetween` says when it is all.
- VoteTally.TallyIsSerial: for the same reason says of the final snapshot that it tallies the first `total` ballots.
- KeyCustody.OldBackupRejected: is stated for honest backups, those that import only as something exported.
- Role changes, account deletion and the sessions a freeze revokes: only the status column and the cache follow an administrator.
- The platform CA: issuing a certificate is its record in the table, or a refusal when the serial number is taken.
- DropLifecycle.LifecycleInvariant: is stated for whole requests; `InterleavingKeepsInvIff` says when interleaved statements keep it.
- Creating a drop: code generation and sealing; only the row it inserts is modelled.
- Issuance.IssuanceService.Issue: starts after the request's own validation; a payload without a commitment id reaches only the mock engine.
