# Henosis control-plane proofs

Henosis is a governed control plane. Its guarantees live in small state machines kept in SQLite tables:
an audit ledger with a hash chain and a witness, a task store with dependencies and path leases, an approval
store with one-use authorizations, and a few supporting algorithms. This project models those state machines
and proves, for every input, every run or every interleaving, what they keep.

Each database transaction is one atomic step on maps and sequences. Where the program awaits between
transactions (the witness call, the two-phase sweep, the compare-exchange loop) the steps of all callers
interleave freely. Clock readings, identifiers drawn at random, the digest, signatures, identifier parsers
and content patterns are arguments; nothing is assumed about them except what a contract says.

| files | content |
|---|---|
| `Base`, `Encoding`, `Identifiers` | byte text, big-endian words, length-prefixed fields, which texts are identifiers |
| `AuditChain`, `CanonicalJson`, `JsonParser` | records, digest preimage, chain verification, the two canonical JSON printers and the reader that inverts them |
| `AuditLedger`, `ResolutionRecord`, `AuditContracts`, `AuditStore`, `LedgerMigration` | the ledger's transactions, what a recorded conclusion says, what callers may rely on, the store object, the principal-column migration |
| `WitnessProtocol`, `WitnessProgress`, `WitnessSolo` | the witnessed protocol over all interleavings, what its calls answer when they commit or fail, and what an undisturbed call achieves |
| `TaskGraph`, `Tasks`, `Dependencies`, `Leases`, `StaleSweep`, `TaskStore` | dependency graphs, the task transactions, deadlock freedom, lease exclusion, the interleaved sweep, the store object |
| `Approvals`, `TokenText`, `LazyExpiry`, `OneUse`, `ApprovalStore`, `ApprovalTrail` | approval rows, token identities, refinement of lazy by eager expiry, one use per request, the store object, where each consumption comes from |
| `Scrub`, `ScrubExact`, `MediatorCapacity` | secret scrubbing and exactly which secrets it removes, the permit counter and bounded executor |
| `Backfill`, `ImportFacts` | the legacy import and what it guarantees |
| `JsonTrees`, `OutputFilter`, `ScopeGate` | the Eidolon tree walks |

Where a promise does not hold of the code as written, the model keeps the code, shows an input that breaks the
promise, and proves the exact condition under which it holds:

- a heartbeat revives a lapsed lease, so two tasks can hold one path (`Leases.RevivalOverlaps`); a run is exclusive
  throughout exactly when, at each heartbeat, a conflict check of the task's own paths would be empty or what the
  heartbeat extends has lapsed already (`Leases.ExclusionExactly`);
- callers choose an approval's `created_at`, and a stamp older than an earlier row of the same request lets the
  request be consumed twice (`OneUse.LateStampsHappen`, `OneUse.LateStampLosesOneUse`); one use holds exactly
  when each inserted row is stamped newer than the earlier rows of its request (`OneUse.OneUseExactly`);
- an operation can strand a blocked task, which then stays stranded until somebody touches it
  (`Dependencies.StrandingHappens`, `Dependencies.StrandedUntilTouched`); which operations can is exactly
  characterised (`Dependencies.DisciplineIsExact`);
- the import checks neither cycles nor owners (`ImportFacts.CyclicImportHappens`,
  `ImportFacts.TwoOwnerImportHappens`); the imported graph is sound exactly when the legacy graph is
  (`ImportFacts.ImportIsCoherentExactly`). A dry run can predict too many edges (`ImportFacts.DryRunMiscounts`); it
  is right exactly when no pending edge repeats (`ImportFacts.DryRunPredicts`);
- an absent and an empty retry key share a digest preimage (`AuditChain.EmptyKeyCollidesWithAbsentKey`), so
  chain binding needs the validation that rejects the empty key;
- a secret can survive scrubbing (`Scrub.SixBytesCanLeak`, `ScrubExact.OverlappingSecretsLeak`); no output keeps any
  form of it exactly when it is not empty, does not overlap the marker, and has no base64 or lower-case hex form inside
  the marker (`ScrubExact.ScrubExactly`), which from seven bytes on is just the overlap
  (`ScrubExact.LongSecretsExactly`).

## Model

| member | source | states |
|---|---|---|
| Encoding.FieldsInjective | crates/henosis-audit/src/lib.rs:2000-2009 | equal concatenations of length-prefixed fields, of equal count and 64-bit lengths, come from equal fields |
| Encoding.FieldsReadBack | crates/henosis-audit/src/lib.rs:2000-2009 | a reader that takes eight bytes of length, highest byte first, and then that many bytes gives every field back in order |
| AuditChain.PreimageInjective | crates/henosis-audit/src/lib.rs:1945-1972 | two records in machine range have equal digest preimages if and only if they agree on all eleven hashed fields |
| AuditChain.PreimageReadsBack | crates/henosis-audit/src/lib.rs:1945-1972 | the preimage names its domain and then, in this order, exactly tenant, sequence, event, principal, action, phase, request hash, payload, predecessor, time and key, with the numbers read as big-endian words |
| AuditChain.EmptyKeyCollidesWithAbsentKey | crates/henosis-audit/src/lib.rs:1968-1971 | an absent and an empty retry key give one preimage, and validation rejects the empty one |
| Identifiers.IdentifiersMean | crates/henosis-audit/src/lib.rs:1845-1850 | for every text of Unicode characters: valid exactly when its UTF-8 has at most 512 bytes, some character is not white space and none is a control character |
| AuditChain.ReceiptBytesBindEveryField | crates/henosis-audit/src/lib.rs:1988-1998 | two receipts have equal signed bytes if and only if they agree on every field but the signature |
| AuditChain.ReceiptReadsBack | crates/henosis-audit/src/lib.rs:1988-1998 | the signed receipt bytes read back, in order, as tenant, sequence, event digest, key and time |
| AuditChain.CheckpointReadsBack | crates/henosis-audit/src/lib.rs:1975-1985 | the signed checkpoint bytes read back, in order, as tenant, sequence, event, predecessor, digest and origin key |
| AuditChain.SignatureDomainsAreDisjoint | crates/henosis-audit/src/lib.rs:1975-1998 | no bytes are both a checkpoint and a receipt to sign |
| AuditChain.LinkedMeans | crates/henosis-audit/src/lib.rs:1491-1530 | linked means positions from 1, a first predecessor of 64 zero digits, each later predecessor the digest of the row before, and each digest that of its own preimage |
| AuditChain.VerifyAcceptsLinked | crates/henosis-audit/src/lib.rs:1491-1530 | verification succeeds exactly on streams contiguous from 1 with matching predecessor and own digests, and counts every row |
| AuditChain.VerifyTenantIn | crates/henosis-audit/src/lib.rs:1491-1530 | the loop with its running predecessor reports the first fault, or accepts exactly the linked streams |
| AuditChain.ChainBinding | crates/henosis-audit/src/lib.rs:1491-1530 | two verifying streams with one head digest have equal length and agree on every row up to receipts, or else exhibit a digest collision between their own rows |
| CanonicalJson.CanonicalTextIsMeaning | crates/henosis-audit/src/lib.rs:1924-1941 | two well-formed values print alike if and only if they denote the same JSON value, object order aside |
| CanonicalJson.PutIsSelfDelimiting | crates/henosis-audit/src/lib.rs:1924-1941 | a printed value determines its own end: equal texts with any tails give equal values and equal tails |
| CanonicalJson.MeaningDeterminesCanonical | crates/henosis-audit/src/lib.rs:1929-1941 | values with one meaning have one canonical form, whatever their key order |
| JsonParser.ParseInverts | crates/henosis-audit/src/lib.rs:1924-1926 | a JSON reader (RFC 8259) applied to a printed value with any tail that may follow it gives back the value and the tail |
| JsonParser.KeyOrder | crates/henosis-audit/src/lib.rs:1929-1941 | keys are ordered by their bytes: at the first difference the smaller byte wins, and a prefix comes first |
| JsonParser.CanonicalTextReadsBack | crates/henosis-audit/src/lib.rs:1924-1941 | canonical text reads as a value with the same meaning whose keys ascend in byte order at every level |
| CanonicalJson.WriteCanonicalJson | crates/henosis-approval/src/lib.rs:324-384 | the depth-bounded writer appends exactly the audit printer's text, and fails exactly when a node lies deeper than 128 |
| AuditLedger.AppendInKeeps | crates/henosis-audit/src/lib.rs:1383-1460 | an append keeps the chain linked and retry keys unique, and returns a row of the new stream saying what was asked |
| AuditLedger.ApplyKeeps | crates/henosis-audit/src/lib.rs:462-970 | every transaction keeps the ledger coherent and only extends it |
| AuditLedger.ReachableLedger | crates/henosis-audit/src/lib.rs:481-803 | in every run each execution points at its own intent, completed rows have a matching outcome event, each resolution points at the event that records its own verdict and evidence about an indeterminate row, and every earlier state survives in every later one |
| AuditLedger.ReachableStreamVerifies | crates/henosis-audit/src/lib.rs:986-991 | every reachable stream verifies with exactly its length |
| AuditLedger.ResolvedStaysIndeterminate | crates/henosis-audit/src/lib.rs:735-850 | once resolved, an execution never changes again, and its conclusion can only become final |
| AuditLedger.RetryReturnsOriginal | crates/henosis-audit/src/lib.rs:1383-1443 | an identical retry at any later state returns the original event and leaves the chain unchanged |
| AuditLedger.BlockedChainCannotGrow | crates/henosis-audit/src/lib.rs:1615-1626 | while a stream is blocked no transaction adds an event |
| AuditLedger.BlockClearsOnlyOnVerifiedHead | crates/henosis-audit/src/lib.rs:924-970 | a block clears only by recovery, on a verifying chain whose head is the expected one under a valid receipt |
| AuditLedger.BlockPersists | crates/henosis-audit/src/lib.rs:875-895 | nothing but recovery clears a block |
| AuditContracts.AppendMeets | crates/henosis-audit/src/lib.rs:462-479 | an append succeeds exactly on valid input, an open stream and no contradicting event; a retry returns the recorded event and writes nothing, a new event goes to the end |
| AuditStorage.AuditStore.Append | crates/henosis-audit/src/lib.rs:462-479 | the store method meets that contract on the tenant's rows, keeps the ledger invariant and touches no other tenant |
| AuditContracts.ClaimMeets | crates/henosis-audit/src/lib.rs:481-533 | a first claim acquires unless blocked or contradicted and writes row and intent together; a repeated one reports the stored row, a changed request is refused, and neither writes |
| AuditStorage.AuditStore.ClaimExecution | crates/henosis-audit/src/lib.rs:481-533 | the store method meets that contract, keeps the ledger invariant and touches no other tenant |
| AuditContracts.CompleteMeets | crates/henosis-audit/src/lib.rs:539-621 | only a claimed row completes, together with its outcome event; a completed row is replayed for the same result only, an indeterminate one never completes, a failure writes nothing |
| AuditStorage.AuditStore.CompleteExecution | crates/henosis-audit/src/lib.rs:539-621 | the store method meets that contract, keeps the ledger invariant and touches no other tenant |
| AuditStorage.AuditStore.MarkExecutionIndeterminate | crates/henosis-audit/src/lib.rs:626-669 | succeeds exactly on a stored row of that request that is not completed, which is then indeterminate; repeating changes nothing, a failure writes nothing |
| AuditContracts.BeginMeets | crates/henosis-audit/src/lib.rs:735-803 | a reservation stands for the given conclusion about an indeterminate row, next to an event whose payload reads as an object naming that verdict ("executed" or "not_executed"), evidence, request hash and intent sequence; an existing conclusion is returned as it is, a different one refused |
| ResolutionRecord.EventStatesConclusion | crates/henosis-audit/src/lib.rs:1778-1812 | read as JSON, the recorded payload maps `decision` to the verdict word, `evidence_sha256`, `target_request_hash` and a numeral `intent_sequence` to those of the row, and the request digest is over an object naming target, verdict and evidence |
| ResolutionRecord.DecimalReadsBack | crates/henosis-audit/src/lib.rs:1805-1812 | the decimal text of a number reads as that number |
| ResolutionRecord.ResolutionKeysDiffer | crates/henosis-audit/src/lib.rs:1758-1776 | conclusions about different executions have different retry keys, within a tenant and across tenants, unless the digest collides |
| AuditStorage.AuditStore.BeginExecutionResolution | crates/henosis-audit/src/lib.rs:735-803 | the store method meets that contract, keeps the ledger invariant and touches no other tenant |
| AuditStorage.AuditStore.FinalizeExecutionResolution | crates/henosis-audit/src/lib.rs:806-850 | succeeds exactly on the reserved conclusion, with a receipt where one is required, and then changes nothing but its finality |
| AuditStorage.AuditStore.MarkStreamAmbiguous | crates/henosis-audit/src/lib.rs:875-895 | afterwards writers are refused with the given reason, and no event, execution or resolution has changed |
| AuditStorage.AuditStore.AttachWitnessReceipt | crates/henosis-audit/src/lib.rs:897-921 | succeeds exactly on a signed receipt for an event with that digest and no other receipt, and changes only that event's receipt |
| AuditContracts.RecoverMeets | crates/henosis-audit/src/lib.rs:924-970 | recovery succeeds exactly on a stream with a block record that verifies as a whole and has the expected head under a valid receipt, and then only opens it |
| AuditStorage.AuditStore.RecoverWitnessedStream | crates/henosis-audit/src/lib.rs:924-970 | the verification loop and head checks meet that contract and touch no other tenant |
| AuditStorage.AuditStore.VerifyTenant | crates/henosis-audit/src/lib.rs:986-991 | accepts exactly the linked stream of the tenant |
| WitnessProtocol.EveryInterleaving | crates/henosis-audit/src/lib.rs:1016-1157 | the protocol invariant holds after every interleaving of the steps of append, claim, complete, resolve and recover calls with each other and with every public store call |
| WitnessProtocol.AtMostOneAcquired | crates/henosis-audit/src/lib.rs:1037-1060 | each retry key of a principal is acquired at most once |
| WitnessProgress.ClaimAnswersExactly | crates/henosis-audit/src/lib.rs:1037-1060 | in every interleaving a committing claim answers `Acquired` exactly when that step entered the key, with the row it entered, and `Existing` only with the row stored before, writing nothing |
| WitnessProgress.EveryRowWasAcquired | crates/henosis-audit/src/lib.rs:1037-1060 | in every interleaving each stored execution that no direct call settled was acquired by a caller that was told so |
| WitnessProgress.CommitMeets | crates/henosis-audit/src/lib.rs:1031-1157 | every committing step obeys the contract of the plain store transaction and answers its result |
| WitnessProgress.OutcomesHaveTheirExecution | crates/henosis-audit/src/lib.rs:1062-1089 | in every interleaving a completion about to record its outcome finds the stored execution of that key for that very request |
| WitnessProgress.FailuresWriteNothing | crates/henosis-audit/src/lib.rs:1016-1157 | a call that fails at any step leaves the rows as that step found them, and reports the transport exactly when the witness was asked and did not answer |
| WitnessProgress.OnlyItsOwnReceiptCounts | crates/henosis-audit/src/lib.rs:1128-1157 | for an unwitnessed event only a signed receipt naming its tenant, sequence, digest and the configured key goes on; any other name is a mismatch, a right name without signature an invalid signature |
| WitnessSolo.AloneAppend | crates/henosis-audit/src/lib.rs:1031-1035 | left alone with a working witness, an append answers what the plain append answers, with its record under a valid receipt |
| WitnessSolo.AloneClaim | crates/henosis-audit/src/lib.rs:1037-1060 | left alone, a claim answers exactly what the plain claim answers (a first claim on an open, uncontradicted stream is `Acquired`) and leaves the same rows up to receipts |
| WitnessSolo.AloneComplete | crates/henosis-audit/src/lib.rs:1062-1089 | left alone, a completion the plain store accepts ends in that completed row |
| WitnessSolo.AloneResolve | crates/henosis-audit/src/lib.rs:1092-1101 | left alone, a conclusion that can be reserved becomes final, and any other is refused with the same error |
| WitnessSolo.AloneRecover | crates/henosis-audit/src/lib.rs:1104-1120 | left alone, recovery opens every blocked stream that has events, counting them all |
| WitnessSolo.AloneRecoverRefused | crates/henosis-audit/src/lib.rs:1104-1120 | without a block record or without events, recovery is refused before the witness is asked |
| WitnessProtocol.RepliesAreWitnessed | crates/henosis-audit/src/lib.rs:1031-1157 | every append, acquired claim, completion and finalized conclusion ever returned has its own event on the chain under a valid receipt (the record, the intent, the outcome of that request, the event whose payload reads as that verdict and evidence), except for keys a direct store call settled |
| WitnessProtocol.HarmlessRunsExceptNothing | crates/henosis-audit/src/lib.rs:1123-1125 | without direct claims, completions or conclusions no key is excepted |
| WitnessProtocol.ReceiptsAreWriteOnce | crates/henosis-audit/src/lib.rs:897-921 | a receipt once attached stays the same in every continuation |
| WitnessProtocol.BlockClearsOnlyByRecovery | crates/henosis-audit/src/lib.rs:1104-1120 | in every interleaving a block clears only at the commit of a recovery call, on the row that call had witnessed, which is then the head of a verifying chain |
| WitnessProtocol.BlockedStreamCannotGrow | crates/henosis-audit/src/lib.rs:1615-1626 | in every interleaving a blocked stream does not grow |
| LedgerMigration.MigrationRestoresReachable | crates/henosis-audit/src/lib.rs:1293-1348 | after every run in which a key names one principal, dropping the principal column and migrating restores every row |
| LedgerMigration.MigratedRowsAreBound | crates/henosis-audit/src/lib.rs:1293-1348 | whatever the legacy rows, a successful migration keeps each once under its own intent event's principal and invents none |
| LedgerMigration.RefusedExactly | crates/henosis-audit/src/lib.rs:1293-1348 | the migration is refused exactly when some row has no intent event of its key and request hash at its sequence |
| TaskGraph.AddKeepsAcyclic | crates/henosis-chiasm/src/store.rs:1334-1340 | an edge whose target does not reach its source closes no cycle |
| TaskGraph.AddClosesCycle | crates/henosis-chiasm/src/store.rs:1334-1340 | an edge whose target reaches its source does close one |
| TaskStore.Reaches | crates/henosis-chiasm/src/store.rs:1267-1311 | the breadth-first search terminates and is true exactly when a path of edges inside the boundary leads to the needle |
| Dependencies.AddRestExact | crates/henosis-chiasm/src/store.rs:1320-1351 | a batch is accepted exactly when its targets are in the boundary and the resulting graph is acyclic; a reported cycle is really closed |
| Dependencies.ScopedReach | crates/henosis-chiasm/src/store.rs:1267-1311 | from inside a boundary the restricted search misses no path of the whole graph |
| Dependencies.ReachableGraph | crates/henosis-chiasm/src/store.rs:1320-1351 | in every run the graph is acyclic, free of duplicates, and every edge joins tasks of one boundary |
| Dependencies.DisciplineIsExact | crates/henosis-chiasm/src/store.rs:1449-1517 | an operation leaves no blocked task stranded if and only if it passes a guard the caller can check |
| Dependencies.NoTaskStranded | crates/henosis-chiasm/src/store.rs:1449-1517 | in every guarded run each blocked task has a dependency that will still wake it |
| Dependencies.DeadlockFree | crates/henosis-chiasm/src/store.rs:1449-1517 | while a task is incomplete and no unblock call is outstanding, some incomplete task is not blocked |
| Dependencies.StrandedUntilTouched | crates/henosis-chiasm/src/store.rs:1449-1517 | a blocked task without a dependency stays so in every continuation in which nobody updates, deletes or re-links it |
| Dependencies.StrandingHappens | crates/henosis-chiasm/src/store.rs:1414-1437 | a run that strands a task by removing its last dependency |
| Leases.LeaseExclusion | crates/henosis-chiasm/src/store.rs:1006-1091 | with stamps that may commit out of order, at any time at or after all stamps no two tasks hold active leases on one path, in every run whose heartbeats are safe |
| Leases.ExclusionExactly | crates/henosis-chiasm/src/store.rs:826-871 | a run is exclusive throughout if and only if every heartbeat in it is safe |
| Leases.NoRevivalsAreSafe | crates/henosis-chiasm/src/store.rs:822-871 | heartbeats that land on no lapsed unreleased lease are safe |
| Leases.HeartbeatSafeExactly | crates/henosis-chiasm/src/store.rs:826-871 | whatever its stamp, a heartbeat keeps exclusion at the latest stamp if and only if what it extends has lapsed already or a conflict check of the task's own unreleased paths would be empty |
| Leases.RevivalOverlaps | crates/henosis-chiasm/src/store.rs:822-824 | a run in which reviving a lapsed lease puts two tasks on one path |
| StaleSweep.SweepFollowsLog | crates/henosis-chiasm/src/store.rs:882-997 | for every run between selection and commit, the sweep stales a task exactly when the sweep instant minus the selected heartbeat exceeds interval times grace (nanoseconds against seconds) and no accepted operation since deleted it or left it another stamp or status; the stale task holds no unreleased lease and nothing else changed |
| StaleSweep.FreshHeartbeatIsSafe | crates/henosis-chiasm/src/store.rs:909-945 | a sweep at or before the selected heartbeat stales nothing when interval and grace are not negative |
| StaleSweep.SilenceGrows | crates/henosis-chiasm/src/store.rs:909-945 | a row that would be staled at one instant would be staled at every later one |
| StaleSweep.HeartbeatSavesTask | crates/henosis-chiasm/src/store.rs:826-997 | with stamps after the selected one, any accepted heartbeat or claim between selection and commit saves the task |
| StaleSweep.UpdateSavesTask | crates/henosis-chiasm/src/store.rs:909-945 | a task whose last accepted status change left another status is not staled |
| StaleSweep.RowFollowsLog | crates/henosis-chiasm/src/store.rs:826-997 | a task's presence, heartbeat and status are what the accepted operations since any earlier point say |
| TaskStore.ClaimsAgreeWithConflicts | crates/henosis-chiasm/src/store.rs:1110-1148 | claiming a batch is refused exactly when the conflict check of the same paths at the same instant reports something |
| TaskStore.ClaimedOnce | crates/henosis-chiasm/src/store.rs:757-817 | claiming the next task makes a queued unassigned task of the boundary the claimer's active task with a first heartbeat, and no second claimer gets it |
| TaskStore.LeaseEnd | crates/henosis-chiasm/src/store.rs:96-110 | a lease ends its TTL after the claim, clamped to a hundred years either way |
| TaskStore.UnblockableMeans | crates/henosis-chiasm/src/store.rs:1449-1517 | a dependent is woken exactly when it is blocked, in the boundary, and each of its dependencies is a completed task of the boundary |
| TaskStore.ChiasmStore.Create | crates/henosis-chiasm/src/store.rs:292-329 | exactly the new row is added, no edge touches it yet, and a used identifier changes nothing |
| TaskStore.ChiasmStore.Update | crates/henosis-chiasm/src/store.rs:409-483 | the given fields are written and every other field, task, edge and lease stays; outside the boundary nothing changes |
| TaskStore.ChiasmStore.Delete | crates/henosis-chiasm/src/store.rs:485-510 | removes the task, every edge at either end and its leases |
| TaskStore.ChiasmStore.AddDependencies | crates/henosis-chiasm/src/store.rs:1320-1351 | the loop over the search commits the whole batch exactly when the result is acyclic and in the boundary, and otherwise changes nothing |
| TaskStore.ChiasmStore.RemoveDependency | crates/henosis-chiasm/src/store.rs:1414-1440 | removes exactly that edge, and says whether it was there |
| TaskStore.ChiasmStore.CheckAndUnblock | crates/henosis-chiasm/src/store.rs:1449-1517 | activates exactly the blocked dependents whose every dependency is complete |
| TaskStore.ChiasmStore.CreateClaims | crates/henosis-chiasm/src/store.rs:1006-1091 | adds one lease per path in order or, on the first conflict, nothing |
| TaskStore.ChiasmStore.CheckConflicts | crates/henosis-chiasm/src/store.rs:1110-1148 | reports exactly the active leases of other tasks on the given paths |
| TaskStore.ChiasmStore.RecordHeartbeat | crates/henosis-chiasm/src/store.rs:826-871 | the task is stamped, exactly its unreleased leases are extended whether lapsed or not, and nothing else changes |
| TaskStore.ChiasmStore.ReleaseClaims | crates/henosis-chiasm/src/store.rs:1229-1264 | releases and counts exactly the task's unreleased leases |
| TaskStore.ChiasmStore.MarkStaleCandidates | crates/henosis-chiasm/src/store.rs:909-997 | one compare-and-set per candidate in order, returning exactly the tasks silent beyond interval times grace whose row still matched |
| LazyExpiry.StepRefines | crates/henosis-approval/src/lib.rs:266-278 | on a table and on its eagerly expired copy every operation answers alike, the count of `expire` aside, and leaves tables that again differ only in lapsed rows |
| LazyExpiry.ExpireCountIsTheGap | crates/henosis-approval/src/lib.rs:650-653 | that count is exactly the number of rows by which the lazy table is behind, and the eager store has none left |
| LazyExpiry.LazyRefinesEager | crates/henosis-approval/src/lib.rs:454-706 | in every run under a monotone clock the store answers exactly like one that expires every row at every tick |
| Approvals.ListIsComplete | crates/henosis-approval/src/lib.rs:563-580 | a listing holds each row of the tenant exactly once, newest first |
| TokenText.TokensAreUuids | crates/henosis-approval/src/lib.rs:220-237 | a token identity is accepted exactly when it is the lower-case hyphenated text of sixteen bytes whose seventh has high half 4 |
| ApprovalTrail.EveryRowIsDocumented | crates/henosis-approval/src/lib.rs:454-706 | in every run each row was asked for by a creation with its very fields, and was approved or denied by the decision it names |
| ApprovalTrail.ConsumptionIsAuthorized | crates/henosis-approval/src/lib.rs:656-706 | in every run each consumption uses a row that a creation requested and a decision approved for exactly the tenant, principal, token, hash and policy presented, before its deadline |
| OneUse.AtMostOneLive | crates/henosis-approval/src/lib.rs:420-425 | in every run, whatever the clocks, each binding has at most one pending or approved row |
| OneUse.CorruptNeedsCollision | crates/henosis-approval/src/lib.rs:507-540 | with an unused identifier the conflict-without-active-row error is unreachable |
| OneUse.RunEvolves | crates/henosis-approval/src/lib.rs:454-706 | identities and deadlines never change, and a denied, expired or consumed row never changes again |
| OneUse.ReachableOrder | crates/henosis-approval/src/lib.rs:472-492 | in every run stamped in order, all rows of a binding but the last are expired and later rows are newer |
| OneUse.OneUseEver | crates/henosis-approval/src/lib.rs:656-706 | in every run stamped in order, each seven-field binding is consumed at most once |
| OneUse.TerminalForever | crates/henosis-approval/src/lib.rs:472-492 | once a binding is denied or consumed, every later creation returns that very row |
| OneUse.ClockStampsInOrder | crates/henosis-approval/src/lib.rs:454-492 | a monotone clock with no stamp before it stamps in order |
| OneUse.ClockedOneUse | crates/henosis-approval/src/lib.rs:454-706 | with `created_at` equal to a monotone clock each binding is consumed at most once |
| OneUse.OneUseExactly | crates/henosis-approval/src/lib.rs:472-492 | after an orderly run, an insertion keeps one use in every orderly continuation if and only if its stamp is newer than the binding's earlier rows |
| OneUse.LateStampLosesOneUse | crates/henosis-approval/src/lib.rs:472-492 | after any late insertion there is an orderly continuation that consumes the binding twice |
| OneUse.LateStampsHappen | crates/henosis-approval/src/lib.rs:472-492 | such a late insertion is reachable under a monotone clock |
| ApprovalStorage.ApprovalStore.CreateOrGetPending | crates/henosis-approval/src/lib.rs:454-545 | invalid input is refused exactly by the stated limits; the answer is an unexpired row of the binding, live or newest; a row is added only under a new identifier where the binding has no live row and its newest is expired, and nothing changes on error |
| ApprovalStorage.ApprovalStore.Lookup | crates/henosis-approval/src/lib.rs:547-561 | finds a row exactly when the tenant has it, and never shows a lapsed row as live |
| ApprovalStorage.ApprovalStore.ListRows | crates/henosis-approval/src/lib.rs:563-580 | each row of the tenant once, newest first, with lapsed live rows shown as expired |
| ApprovalStorage.ApprovalStore.DecideRow | crates/henosis-approval/src/lib.rs:583-647 | decides exactly the pending unexpired row of the tenant, recording verdict, time, actor and reason; a lapsed pending row is expired, every other row stays |
| ApprovalStorage.ApprovalStore.ExpireRows | crates/henosis-approval/src/lib.rs:650-653 | afterwards the tenant has no lapsed live row, only lapsed rows of that tenant changed, and the count is the number of changed rows |
| ApprovalStorage.ApprovalStore.ConsumeApproved | crates/henosis-approval/src/lib.rs:656-706 | succeeds exactly when an approved unexpired row of that identifier has the claim's tenant, principal, token, hash and policy; that row becomes consumed, a lapsed one expired, every other row stays |
| Scrub.ReplaceAllBytes | crates/henosis-credential-store/src/resolve.rs:221-237 | the index loop computes leftmost non-overlapping replacement; an empty needle changes nothing |
| Scrub.ReplaceIsSplitAndJoin | crates/henosis-credential-store/src/resolve.rs:221-237 | the same stretches joined by the needle are the input and joined by the marker the output |
| Scrub.StretchesAreClean | crates/henosis-credential-store/src/resolve.rs:221-237 | no stretch between replaced occurrences holds the needle |
| Scrub.ReplacementIsFree | crates/henosis-credential-store/src/resolve.rs:221-237 | replacing a needle that does not overlap the marker removes it, and replacing anything else does not bring it back |
| Scrub.Base64RoundTrip | crates/henosis-credential-store/src/resolve.rs:275-287 | the base64 form decodes to the secret (section 4 of RFC 4648) |
| Scrub.HexRoundTrip | crates/henosis-credential-store/src/resolve.rs:275-287 | the hex form, of either case and with its own letters only, decodes to the secret (section 8 of RFC 4648) |
| ScrubExact.ScrubSecret | crates/henosis-credential-store/src/resolve.rs:275-287 | the four passes over raw, base64, lower-case and upper-case hex form remove every form of a removable secret from every output, and leave an output without any form as it is |
| ScrubExact.FormsDecode | crates/henosis-credential-store/src/resolve.rs:275-287 | the four forms decode to the secret, and each hex form keeps to its own letters |
| ScrubExact.ScrubExactly | crates/henosis-credential-store/src/resolve.rs:275-287 | for every secret, no output keeps any form of it if and only if it is not empty, its raw form does not overlap the marker and the marker holds neither its base64 nor its lower-case hex form |
| ScrubExact.LongSecretsExactly | crates/henosis-credential-store/src/resolve.rs:275-287 | from seven bytes on, the overlap of raw form and marker alone decides |
| ScrubExact.BracketOutput | crates/henosis-credential-store/src/resolve.rs:275-287 | for a secret with an opening bracket, an output in which only the last pass finds anything and puts the marker where the bracket was |
| ScrubExact.OverlappingSecretsLeak | crates/henosis-credential-store/src/resolve.rs:275-287 | two concrete overlapping secrets that some output keeps |
| Scrub.SixBytesCanLeak | crates/henosis-credential-store/src/resolve.rs:275-287 | a six-byte secret whose raw form does not overlap the marker but whose base64 form survives |
| MediatorCapacity.EveryInterleaving | crates/henosis-component-host/src/lib.rs:492-617 | in every interleaving the counter equals the number of live permits and is at most the limit |
| MediatorCapacity.QueueNeverFull | crates/henosis-component-host/src/lib.rs:584-617 | a permit holder always finds room in the queue, so only a dead receiver can refuse it |
| MediatorCapacity.NoUnderflow | crates/henosis-component-host/src/lib.rs:541-548 | no step wraps the counter: it moves by at most one and stays within the limit |
| MediatorCapacity.NothingLeaks | crates/henosis-component-host/src/lib.rs:535-548 | with nothing in flight the counter is zero |
| MediatorCapacity.RefusalIsJustified | crates/henosis-component-host/src/lib.rs:514-533 | a call is refused only if at some instant of the run every slot really was taken |
| MediatorCapacity.ExchangeGrants | crates/henosis-component-host/src/lib.rs:514-533 | an exchange that finds the counter it observed below the limit gives a permit |
| MediatorCapacity.CallCompletes | crates/henosis-component-host/src/lib.rs:584-617 | with a free slot, a free worker and an empty queue, an undisturbed call is granted, sent, executed and answered, and the executor is as before |
| MediatorCapacity.FirstInFirstOut | crates/henosis-component-host/src/lib.rs:549-617 | over every interleaving jobs leave the queue in the order in which they entered it, and none is lost or added |
| MediatorCapacity.FullMeansRefused | crates/henosis-component-host/src/lib.rs:514-533 | with every slot taken an undisturbed call is refused and leaves no trace |
| MediatorCapacity.PermitReturns | crates/henosis-component-host/src/lib.rs:543-548 | a permit not handed to a worker returns at once |
| MediatorCapacity.ShutdownReturns | crates/henosis-component-host/src/lib.rs:543-583 | once the receiver is gone, dropping the queued jobs returns exactly their permits and no worker takes another |
| Backfill.BackfillFromKleos | crates/henosis-chiasm/src/backfill.rs:350-553 | a dry run returns its counts and the tables untouched; a real run is the import function, with errors leaving the tables as they were |
| ImportFacts.DryRunPredicts | crates/henosis-chiasm/src/backfill.rs:350-553 | a real run succeeds exactly when pending edges have known ends, then reports the dry run's counts, edges included exactly when no pending edge repeats |
| ImportFacts.ReportIsTheGrowth | crates/henosis-chiasm/src/backfill.rs:350-553 | the report counts what the tables grew by: owners, tasks, history and edges; known owners keep their principals |
| ImportFacts.HistoryCopied | crates/henosis-chiasm/src/backfill.rs:494-516 | the notes of the imported tasks are appended in order, each under its task's new identifier |
| ImportFacts.DryRunMiscounts | crates/henosis-chiasm/src/backfill.rs:409-430 | a repeated legacy edge makes the dry run predict more edges than the real run inserts |
| ImportFacts.RerunChangesNothing | crates/henosis-chiasm/src/backfill.rs:350-553 | importing the same source again changes nothing and reports nothing to do |
| ImportFacts.SourcesNeverCollide | crates/henosis-chiasm/src/backfill.rs:350-553 | a run leaves other sources' maps, tasks and edges alone, and tasks of different sources never share an identifier |
| ImportFacts.EmptyImportIsCopy | crates/henosis-chiasm/src/backfill.rs:467-540 | into an empty store clean legacy tasks are copied field by field and edges one to one |
| ImportFacts.CopyKeepsCycles | crates/henosis-chiasm/src/backfill.rs:518-540 | the copy has a cycle exactly when the legacy graph has one |
| ImportFacts.ImportIsCoherentExactly | crates/henosis-chiasm/src/backfill.rs:518-540 | the imported store satisfies the dependency invariant if and only if the legacy graph is acyclic and no edge joins two owners |
| ImportFacts.CyclicImportHappens | crates/henosis-chiasm/src/backfill.rs:518-540 | a cyclic legacy graph is imported with its cycle |
| ImportFacts.TwoOwnerImportHappens | crates/henosis-chiasm/src/backfill.rs:518-540 | an edge between tasks of two owners is imported across the boundary |
| OutputFilter.Filter | crates/henosis-eidolon/src/output_filter.rs:141-173 | the in-place worklist terminates and equals the recursive redaction on every JSON value |
| OutputFilter.RedactIdempotent | crates/henosis-eidolon/src/output_filter.rs:141-173 | filtering twice is filtering once whenever the content scrubber is idempotent |
| OutputFilter.QuietPasses | crates/henosis-eidolon/src/output_filter.rs:141-173 | exactly the results in which no text changes under the scrubber and each field with a secret name holds the marker pass unchanged |
| OutputFilter.NothingSensitiveSurvives | crates/henosis-eidolon/src/output_filter.rs:141-173 | in a filtered result every nested field whose lowered name contains a sensitive pattern holds the marker |
| OutputFilter.SecretsDoNotFlow | crates/henosis-eidolon/src/output_filter.rs:141-173 | results that differ only below sensitive fields filter to the same value |
| ScopeGate.ScopeViolation | crates/henosis-eidolon/src/gate.rs:65-126 | finds nothing exactly when no nested identity field names a foreign or invalid identifier, and otherwise returns such a field |
| ScopeGate.SpellingIsIrrelevant | crates/henosis-eidolon/src/gate.rs:47-58 | separators anywhere and ASCII case do not change which identity a key addresses |
| ScopeGate.IdentityKeysExactly | crates/henosis-eidolon/src/gate.rs:47-58 | a key addresses the tenant exactly when it spells "tenant" or "tenantid", the principal exactly when it spells "principal" or "principalid", up to separators and ASCII case |
| ScopeGate.ViolationRule | crates/henosis-eidolon/src/gate.rs:65-126 | null, objects and arrays never violate, a text must parse to the caller's own identifier, any other scalar under an identity key violates |

## Left out

- SQLite, the connection mutex and its poisoning: a transaction is one atomic step, unique indexes and foreign keys are guards.
- SHA-256, Ed25519, HMAC, HKDF, AES-GCM and UUID generation: the digest is any function, a signature is a predicate, identifiers are arguments.
- HTTP transport and the witness service: only that a call fails or returns a receipt for the submitted head.
- The metadata payload schema of audit events (crates/henosis-audit/src/lib.rs:1853-1921): payloads enter as canonical text; the key and value lists would only add easy members.
- Uniqueness of event identifiers across tenants: a ledger is modelled per tenant, and event identifiers are drawn fresh.
- WitnessProtocol.RepliesAreWitnessed: completions and conclusions of keys that a direct store call settled without a witness are excepted, because the store answers those without a receipt by design.
- Task titles, summaries, plans, outputs, feedback and history rows of the task store: they influence no decision.
- Which queued task `claim_next` selects: the task is an argument, and claiming it is a step of every run.
- `release_claims` also filters on the lease's own principal column, which always equals its task's owner; the model uses the task.
- Overflow of the calendar in `ts_plus` beyond its clamp, and rounding of the overdue comparison, which is modelled over reals.
- LazyExpiry.StepRefines: does not equate the count returned by `expire`, because an eager store has nothing left to count; LazyExpiry.ExpireCountIsTheGap says what it counts.
- TaskStore.ChiasmStore.MarkStaleCandidates: runs its candidates without other callers in between, because a sequential method has none; StaleSweep.SweepFollowsLog is stated for each commit of a sweep with arbitrary operations before it.
- Unicode lower-casing of field names and the content pattern list of the output filter: functions supplied to the model.
- The injection and drift checks of the Eidolon gate, and the text of violation messages.
- `InvocationBudget`, limit validators, Wasmtime, fuel, epochs and guest memory in the component host.
- Child processes, pipes and timeouts of command execution in the credential store.
- Acyclicity after importing into a non-empty task store: the import does not look for cycles there.
- Row decoding and timestamp text of the legacy database: its rows enter parsed.
- Event emission on the Axon bus, which never changes an outcome.
- henosis-cognition, crucible, hephaestus, broca, soma and the desktop application.
