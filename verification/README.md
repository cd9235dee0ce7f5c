# AuthClaw: a verified model

A Dafny model of the stateful cores of the AuthClaw gateway, with proofs of what they promise over every
run, every chunking and every interleaving. `dafny verify dfyconfig.toml` checks the whole project. Automatic induction is
switched off in every lemma, so no proof rests on it.

Code that changes state step by step is modelled as a class or a method with loops, and its contract equates
the new state with a specification function (`Step`, `Run`, `Turn`, ...); the properties are then proved of
that function. A row below that names a method cites the statements it follows; a row that names a lemma
cites the code the property is about.

## What is modelled

**Streaming redaction** (`StreamRedaction`, `MatchRedaction`, `SsnRedaction`, `BearerRedaction`, from `redaction.py`).
The generator keeps a suffix of the text back so that identifiers cut in two by a chunk boundary are still caught. The
full-text redactor is a parameter with a contract, `Sound`: its output is clean, up to its first replacement it copies
its input, and sensitive strings are short, free of the marker and trigger the scan. The output is then clean for
every chunking when the holdback is at least one less than the longest identifier. If the redactor also works from
left to right (`LeftToRight`), the output of every chunking is the redaction of the whole text at once: the full-text
redactor stays the source of truth. A redactor that replaces every match of a pattern of fixed length meets both
contracts when matches trigger the scan, and then the bound is exact: every chunking is safe, and every chunking
equals one-shot redaction, if and only if the holdback is at least one less than the length of a match. Two instances
show both halves of the scan: ddd-dd-dddd, which four digits announce, with the bound 10, and "bearer" in either case
with a blank and n letters, which only a hint announces, with the bound 6 + n. The environment variable is clamped to
64..4096 and cannot get below it, but the `holdback_chars` argument is not clamped and can, also with negative values.
The text kept back is not bounded by the holdback: where redaction shrinks it to the holdback or below, the unredacted
text stays, and only its redaction is bounded.

**Human approval** (`Approval`, `ApprovalSafety`, `ApprovalOutcomes`, `ApprovalEffects`, from `approval_store.py` and
`main.py`). Each handler is cut where it awaits its request body, and any number of approvals, rejections, executions,
reads and forced expiries interleave at those points. At most one execution ever starts, and it is the one the latest
approval authorised. This does not rest on the status: `approve_request` checks the status before it awaits the body
and does not look again, so an executed record can become approved again (`ExecutedCanBeApprovedAgain`), and a
completed rejection is final if and only if no approval is in flight or the deadline has passed
(`RejectionIsFinalIff`). What it rests on is the use mark of the execution token. The first write-through after the
compare-and-set replaces the claimed row, mark and all, by a record that does not hold the mark yet; the segment
restores it before another one can run. What each segment leaves behind in every reachable state is stated field by
field in `ApprovalEffects`.

**Hash chains** (`HashChain`, `AuditLog`, `AuditCreation`, `AuditOrder`, `AuditVerdicts`, `AuditUnfiltered`,
`AuditRuns`, `DocumentAudit`, `OverlappingDocumentAudits`, from `verify_audit.py` and
`document_processing/auditor.py`). With an ideal hash, a chain's last digest commits to every protected column of its
whole history, what can be made of a chain's rows and still verifies is a prefix, and a row altered with its hash
columns kept is the one that is reported. Creation of an audit block inserts a row, commits it without hashes, looks
up the tenant's newest earlier hash and commits the hashes; creations interleave between any two of these steps, may
crash and may roll back. A tenant with no creation under way has a log that verifies if and only if every row looked
up when the tenant's row in front of it was hashed already, whatever other tenants do. Second commits in insertion
order are not enough: two look-ups that come before either commit leave a broken link (`CrossedLookUpsBreakTheLog`),
and what was out of turn once stays so. At any other moment the log verifies if and only if the look-ups of the hashed
rows were in turn and no unfinished row follows a hashed one; an unfinished first row is taken for a legacy row and
skipped. Creating one block at a time per tenant is enough. Verifying without a tenant filter is a different check:
for the audit log it also needs all hashed rows to be of one tenant and no gap between their ids, so a rolled-back
insert reads as a deleted record; for a document every row must have looked up when the row in front of it was
committed, and must have no tenant or the same one.

**Event delivery** (`EventPipeline`, `EventRetries`, from `services/event_pipeline.py`). Attempts between two retry
resets are bounded, however often an event is recorded again; deliveries were accepted by every enabled sink;
checkpoints equal a recount; a retry pass gives every event of its batch all attempts anew. "Delivered" is not final:
a delivered event recorded again with no attempt left becomes a dead letter (`DeliveredEventBecomesDeadLetter`).

**Policy versions** (`PolicyHistory`, `PolicyEffects`, `OverlappingUpdates`, from `main.py`). Stored rules never
change, versions only grow, rollback restores and no tenant touches another's policies, as long as operations come one
after the other. They read a version and write later without a lock: for every interleaving, stored rules stay if and
only if changes that read the same version write the same rules, and numbers are never used twice if and only if no
update or rollback is overtaken between its read and its write. Of two overlapping updates the first to write is lost,
in the row and in the history (`FirstOfTwoUpdatesIsLost`). Seeded default policies are stored without a version row,
so their first update cannot be undone; approving a policy marks its version row approved but not the policy
(`ApprovedDraftStaysDraft`).

**Findings of a page** (`PageRedaction`, `FindingSelection`, `FindingCoverage`, from
`document_processing/intelligence.py` and `services/sensitive_data_detection.py`). Findings are selected so that they
do not overlap, and spliced from right to left, which equals one simultaneous substitution. The selection can lose
text: of three findings in a row with rising confidence only the last is kept, and the text of the first, although
detected, is not replaced (`RisingChainUncoversTheFirst`). Every finding is kept or overlaps a kept one if and only if
no finding takes over from the one it beats behind the end of an earlier one that only the beaten one covered.

**Smaller algorithms.** Base64url and signed export packages (`Base64Url`, `SignedExport`), the memory rate limiter
(`RateLimiter`), the time and exits of the Gemini retry loop (`ProviderRetry`), the compliance scores and their change
log (`ScoreJournal`, `OverlappingScores`), and cosine search (`CosineSimilarity`, `VectorSearch`). Verification of a
package takes the key from its own manifest: under a given key exactly the exports made with it verify, but every
other key is accepted as well. In the retry loop an invalid key (401 or 403) raises a ValueError that the last handler
of the same try block catches and retries, so the caller sees a RuntimeError after all attempts; the branch for other
HTTP errors would raise a ValueError too, but tests the truth of an error response, which is false. The score change
log is an exact journal when calculations of a tenant do not overlap; for every interleaving of them it is exact if
and only if each calculation that recorded a change had seen the change recorded last, and the score saved last is the
one recorded last.

## Assumptions

- Approval: one process with one cached object per record, persists that succeed, segments that run without interruption
  and at one instant of the clock; the gateway call of an execution is a further switch point, since reads and forced
  expiry run in other threads. An authenticated request and its tenant check are one flag, `admitted`.
- Chains: digests are free terms, so they collide only for equal data; a text that is nobody's digest is `Foreign`.
  A query sees what is committed when it runs, and ids are given in the order of the inserts; each insert, commit, look-up
  and commit of the hashes is one step.
- Signed packages: `Signs` and `Unforgeable` state what is assumed of the signature scheme and the digest; `SchemeExists`
  shows that this can be met.
- Delivery: sinks answer by an oracle, one reply per attempt, and one operation runs at a time.
- Policies: in `PolicyHistory` each operation is one step; in `OverlappingUpdates` its read and its writing transaction are
  two, for one policy that is not deleted. Parsing serialised rules gives them back; `acceptable` is the lifecycle
  validation.
- Retry loop: time passes only in requests and sleeps, and a request lasts no longer than the timeout it is given.
- Page redaction: a finding's span starts no later than it ends. Search: `norm` is the square root where `IsNorm` holds.
- Characters: lower-casing maps every character by itself, to any text; which characters are digits is a parameter, too.
  Arithmetic on scores, times and vectors is exact, over `real`.

## Model

| member | source | states |
|---|---|---|
| StreamRedaction.StreamNeedsRedactionScan | redaction.py:429-439 | the two loops with early exit answer exactly: some hint occurs in the lower-cased text, or it has at least four digits |
| StreamRedaction.NeedsScanIfSpelled | redaction.py:429-439 | a text is scanned when, from some position on, its characters lower-case to those of a hint one by one, or when it holds digits at four places |
| StreamRedaction.NeedsScanOnlyIfSpelled | redaction.py:429-439 | and only then, where every character has a single lower-case character |
| StreamRedaction.NeedsScanOfPart | redaction.py:429-439 | the scan is monotone: a text is scanned whenever one of its parts would be, so it cannot miss a part that triggers it |
| StreamRedaction.EffectiveHoldback | redaction.py:416-421 | an explicit argument other than 0 is taken as it is; otherwise the configured number clamped to 64..4096, or 256 without one; never zero |
| StreamRedaction.StreamRedactSensitiveTokens | redaction.py:442-480 | the generator's pieces concatenate to the specified output of its chunks, and no empty piece is yielded |
| StreamRedaction.RunIsGuarded | redaction.py:451-475 | after every chunk no identifier starts in what was yielded, and a full holdback is pending once anything was yielded |
| StreamRedaction.StreamOutputIsClean | redaction.py:442-480 | for every chunking the concatenated output holds no sensitive string, also across pieces, given a sound redactor and a holdback of at least the longest identifier less one |
| StreamRedaction.StreamIsOneShot | redaction.py:442-480 | for every chunking the output is the redaction of the whole input, given a sound redactor that works from left to right |
| StreamRedaction.StreamIsTransparent | redaction.py:442-480 | on text the redactor leaves alone, output equals input for every chunking and every holdback |
| StreamRedaction.PendingOrItsRedactionFits | redaction.py:469-475 | after every chunk the pending text, or its redaction, is no longer than the holdback |
| MatchRedaction.PatternIsSound | redaction.py:407-413 | replacing every match of a pattern of fixed length meets the redactor's contract, when matches trigger the scan |
| MatchRedaction.PatternIsLeftToRight | redaction.py:407-413 | it works from left to right: its work is final, and clean text can be cut before its last characters, one fewer than a match has |
| MatchRedaction.LeavesAloneIff | redaction.py:407-413 | it is the identity on exactly the texts that hold no match |
| MatchRedaction.CleanStreamPassesThrough | redaction.py:442-480 | text without a match passes through unchanged for every chunking and every holdback, negative ones included |
| MatchRedaction.SmallHoldbackLeaks | redaction.py:452-475 | with a smaller holdback any match fed one character at a time comes out whole |
| MatchRedaction.StreamIsSafeIff | redaction.py:442-480 | all chunkings are safe if and only if the holdback is at least the length of a match less one |
| MatchRedaction.StreamIsOneShotIff | redaction.py:442-480 | every chunking yields exactly the redaction of the whole text if and only if the holdback is at least that |
| SsnRedaction.PendingCanExceedHoldback | redaction.py:469-475 | any identifier sent as one chunk at holdback 10 stays pending, longer than the holdback |
| SsnRedaction.SsnIsSound | redaction.py:424-439 | a redactor for ddd-dd-dddd meets the contract, by the four-digit rule of the scan |
| SsnRedaction.SsnStreamIsSafeIff | redaction.py:442-480 | for that redactor all chunkings are safe, and equal the redaction of the whole text, if and only if the holdback is at least 10 |
| SsnRedaction.ShippedStreamIsSafeIff | redaction.py:416-421 | with the shipped hints and holdback rule, exactly the explicit arguments below 10 other than 0 are unsafe |
| BearerRedaction.BearerTriggersScan | redaction.py:429-431 | "bearer" in upper, lower or mixed case with a blank and any letters triggers the scan, without a digit |
| BearerRedaction.BearerIsSound | redaction.py:424-439 | a redactor for it meets the contract, by the hints of the scan alone |
| BearerRedaction.BearerStreamIsSafeIff | redaction.py:442-480 | for it all chunkings are safe, and equal the redaction of the whole text, if and only if the holdback is at least 6 plus the number of letters |
| BearerRedaction.ShippedStreamHidesBearers | redaction.py:416-421 | with the shipped hints and the default holdback, no chunking lets one of up to 250 letters out |
| Approval.ApprovalService.constructor | approval_store.py:286-346 | a created record is pending, written through, and has its created event and first comment |
| Approval.ApprovalService.Store | approval_store.py:30-38 | assigning a field persists the whole record: row and record are equal afterwards |
| Approval.ApprovalService.AppendAudit | approval_store.py:395-450 | one audit event is appended; a comment is also stored in the record |
| Approval.ApprovalService.GetApproval | approval_store.py:67-105 | reading a pending record at or after its deadline expires it, and changes nothing else |
| Approval.ApprovalService.BeginApprove | main.py:1258-1303 | the checks before the await: only pending and approved records get past them |
| Approval.ApprovalService.EndApprove | main.py:1303-1376 | the rest of the handler, on whatever status the record has by then: refusals, MFA outcomes, and the approval field by field |
| Approval.ApprovalService.BeginReject | main.py:1418-1429 | rejection awaits its body before it checks any status |
| Approval.ApprovalService.EndReject | main.py:1429-1459 | rejection of a record that is not expired, approved or executed by then |
| Approval.ApprovalService.BeginExecute | main.py:1500-1511 | execution awaits its body before any check |
| Approval.ApprovalService.EndExecute | main.py:1511-1594 | replay, transfer, expiry, missing body and MFA refusals, in this order, before the claim |
| Approval.ApprovalService.UseToken | main.py:1596-1653 | the compare-and-set on the row and the field-by-field write-through that follows it |
| Approval.ApprovalService.EndExecution | main.py:1677-1723 | the claimed execution ends as executed or failed, with its event |
| Approval.ApprovalService.TestExpireApproval | main.py:1774-1783 | forced expiry puts the deadline in the past and the status back to pending |
| ApprovalSafety.StepKeepsInv | main.py:1258-1783 | every segment of every handler keeps the protocol's invariant |
| ApprovalSafety.AtMostOneExecution | main.py:1515-1653 | over every interleaving at most one execution starts, exactly the claimed ones start, and no more end than start |
| ApprovalSafety.TokenStaysUsed | approval_store.py:30-38 | once the token is used, no later whole-record write clears it in the record or in its row, and nobody claims again |
| ApprovalSafety.WinningClaim | main.py:1515-1653 | the winning claim is made by the actor of the latest approval, before both deadlines, with another MFA counter than the approval's, and the events created, approved, executing, executed come in that order |
| ApprovalOutcomes.StepKeepsClosed | main.py:1258-1594 | past its deadline, or decided with no approval in flight, a record stays so under every segment, and nothing is claimed |
| ApprovalOutcomes.CanStillExecuteIff | main.py:1258-1376 | an unexecuted record can still be executed if and only if its deadline lies ahead and it is pending, approved, or has an approval waiting for its body |
| ApprovalOutcomes.LeavesExecutedIff | main.py:1303-1364 | a segment takes a record out of "executed" exactly when it forces expiry or completes an approval checked earlier |
| ApprovalOutcomes.ExecutedCanBeApprovedAgain | main.py:1272-1364 | a run in which an executed record is approved again, with still one execution |
| ApprovalEffects.NewRecordExpiresAt | approval_store.py:286-346 | a new record is pending, and a read expires it exactly from the given minutes after its creation on |
| ApprovalEffects.ReadOutcome | approval_store.py:67-105 | in every reachable state a read expires a pending record at or after its deadline, with one event, and otherwise changes nothing |
| ApprovalEffects.ForcedExpiryOutcome | main.py:1774-1783 | forced expiry leaves the record pending with its deadline five minutes ago, so that the next read expires it |
| ApprovalEffects.StartOutcomes | main.py:1258-1511 | an approval waits for its body exactly when it is admitted and the record, once read, is pending or approved; rejections and executions wait whenever they are admitted |
| ApprovalEffects.ApproveOutcome | main.py:1303-1376 | in every reachable state an approval goes through if and only if its body is well formed and brings, where MFA is required, a code the last approval did not use; the record then shows it field by field |
| ApprovalEffects.RejectOutcome | main.py:1418-1459 | in every reachable state a well-formed rejection leaves the record rejected by its actor, with exactly one more event, if and only if it is not expired, approved or executed by then; otherwise record, row and events stay |
| ApprovalEffects.RejectionIsFinalIff | main.py:1258-1459 | after a completed rejection of an unexecuted record no continuation ever starts an execution, if and only if no approval is waiting for its body or the deadline has passed |
| ApprovalEffects.ExecuteOutcome | main.py:1500-1653 | in every reachable state an execution starts if and only if the record is approved by the same actor, its token unused, both deadlines ahead and the code not that of the approval; the claim shows what it rests on |
| ApprovalEffects.RefusedExecution | main.py:1511-1594 | the refusals of an execution in the handler's order, each with its event or none |
| ApprovalEffects.CompletionOutcome | main.py:1677-1723 | a running execution ends as executed, with its time, or as failed, with one event |
| HashChain.HeadCommits | verify_audit.py:274-298 | two chains with the same last digest are equal, block by block |
| HashChain.DepthIsPosition | document_processing/auditor.py:9-34 | a chain's last digest is as many hashes deep as the chain is long, so positions differ without row ids |
| HashChain.OnlyPrefixesVerify | document_processing/auditor.py:91-159 | a selection of a chain's blocks, in any order and with repetitions, is a chain if and only if it is a prefix |
| AuditLog.VerifyAuditChain | verify_audit.py:301-427 | the verdict names the first faulty row after the legacy rows and its first fault, or counts all rows as checked |
| AuditLog.VerdictIsChaining | verify_audit.py:301-427 | for a tenant the log is accepted if and only if its active part is a chain, and then every active row was checked |
| AuditLog.RootIsHead | verify_audit.py:77-90 | the chain root of an accepted log is the digest of its last row |
| AuditLog.RootCommitsToHistory | verify_audit.py:77-90 | two accepted logs with the same root have equally many chained rows and agree in id, query, response, decision, time, risk level and approval status of each, None counting as the empty text |
| AuditLog.FaultIsNamed | verify_audit.py:359-421 | a rejected log: every row in front of the reported one follows on the row before it, and the reason given is the first that applies of missing metadata, a gap between ids, a broken link and a hash mismatch |
| AuditLog.HashedFieldsIff | verify_audit.py:274-298 | two rows hash the same fields if and only if they agree in every protected column |
| AuditLog.AlteredRowIsReported | verify_audit.py:403-421 | replacing a chained row of an accepted log by another with the same hash columns is reported at that row, as a hash mismatch, if and only if they differ in a protected column |
| AuditLog.OnlyPrefixesOfLogVerify | verify_audit.py:380-421 | deleting, repeating or swapping chained rows is reported unless a prefix is left |
| AuditCreation.AuditStore.InsertRow | verify_audit.py:533-602 | the insert takes the next id; its row has no hashes and is not visible yet |
| AuditCreation.AuditStore.EndInsert | verify_audit.py:604-604 | the first commit makes the row visible, a roll-back never does and leaves its id unused |
| AuditCreation.AuditStore.LookUpPrevious | verify_audit.py:606-622 | the creation keeps the newest hash among its tenant's visible rows with a smaller id, or the genesis value |
| AuditCreation.AuditStore.FinishRow | verify_audit.py:624-649 | the second commit writes the hashes made of what the look-up found, however old that is |
| AuditCreation.PreviousHashIsNewest | verify_audit.py:606-622 | the look-up answers with the newest row that meets its condition, and with the genesis value if there is none |
| AuditCreation.RunKeepsStoreInv | verify_audit.py:533-649 | over every run a hashed row carries the hash of its own fields and of what it found, which is the hash of an earlier row of its tenant or the genesis value |
| AuditCreation.RowsCarryTheirEntries | verify_audit.py:533-602 | however creations interleave, the i-th inserted entry stands in the row with the i-th id, column by column |
| AuditOrder.ChainedIffNoneLinksPast | verify_audit.py:400-421 | rows that link to earlier ones of them, or to nothing, are a chain if and only if none links past another |
| AuditOrder.HashedRowsChainIff | verify_audit.py:533-649 | after every run, a tenant's hashed rows are a chain if and only if each looked up when those in front of it were hashed already |
| AuditOrder.OutOfTurnIsFinal | verify_audit.py:606-649 | once look-ups were out of turn they stay so under every continuation |
| AuditOrder.InTurnIffNeighboursSaw | verify_audit.py:606-649 | only the hashed row directly in front matters: a row that saw it saw all before it |
| AuditVerdicts.LogVerifiesIffLookUpsInOrder | verify_audit.py:533-649 | a tenant with no creation under way has a log that verifies if and only if every row looked up when the tenant's row in front of it was hashed already; all its rows since the chain began are then counted |
| AuditVerdicts.LogVerifiesAnyTimeIff | verify_audit.py:334-427 | at any moment of any run a tenant's log is accepted if and only if the look-ups of its hashed rows were in turn and no unfinished row follows a hashed one; while they are in turn, missing metadata is the only fault reported |
| AuditVerdicts.SerialisedIsInTurn | verify_audit.py:533-649 | creating one block at a time per tenant puts its look-ups in turn, whatever other tenants interleave |
| AuditVerdicts.SerialisedLogVerifies | verify_audit.py:359-427 | serialised creations leave a log that verifies, with all its rows since the chain began checked |
| AuditVerdicts.OtherTenantsStep | verify_audit.py:614-622 | a step of another tenant's creation changes nothing that a tenant's verification or look-up reads |
| AuditRuns.CrossedLookUpsBreakTheLog | verify_audit.py:606-649 | two creations that both look up before either is hashed, with second commits in insertion order, leave a broken link at row 2, at rest |
| AuditRuns.CrossedCommitsBreakTheLog | verify_audit.py:606-649 | so do two creations of one tenant that commit crosswise |
| AuditRuns.UnfinishedFirstRowIsSkipped | verify_audit.py:334-347 | after a crash of the first of two creations the log is accepted with one row checked |
| AuditUnfiltered.UnfilteredLogVerifiesIff | verify_audit.py:310-398 | at any moment of any run the unfiltered check succeeds if and only if all hashed rows are of one tenant, no id between them is missing, their look-ups were in turn and no unfinished row follows a hashed one |
| AuditUnfiltered.TwoTenantsFailUnfiltered | verify_audit.py:310-398 | once two tenants have a hashed row, the unfiltered check fails, whatever else happened |
| AuditUnfiltered.RolledBackInsertFailsUnfiltered | verify_audit.py:389-398 | so it does once an insert between two hashed rows was rolled back |
| AuditRuns.OwnLogsVerifyTogetherTheyFail | verify_audit.py:310-398 | two tenants with one finished block each: both own logs are accepted, the unfiltered check fails |
| AuditRuns.RolledBackInsertLooksDeleted | verify_audit.py:389-398 | a block, a rolled-back insert and a block: the tenant's log is accepted, the unfiltered check reports a missing record between 1 and 3 |
| DocumentAudit.AuditTable.CreateDocumentAudit | document_processing/auditor.py:36-89 | the new row links to the newest row that matches document and tenant |
| DocumentAudit.AuditTable.VerifyDocumentAuditChain | document_processing/auditor.py:91-159 | valid if and only if the matching rows are a chain; otherwise the row at which the chain breaks first is reported, as broken link or as mismatch |
| DocumentAudit.RowsCarryTheirEntries | document_processing/auditor.py:36-89 | the i-th row carries the fields of the i-th creation |
| DocumentAudit.AlteredRowIsReported | document_processing/auditor.py:9-34 | a row of a chain altered in any field, with its hash columns kept, is where the chain breaks first, and its link is still right |
| DocumentAudit.FirstBadRowIsUnique | document_processing/auditor.py:110-159 | a chain breaks first at one row only, so that is the row reported |
| DocumentAudit.TenantChainVerifies | document_processing/auditor.py:36-89 | every sequence of creations leaves a chain that verifies for every document and real tenant |
| DocumentAudit.AppendedLinks | document_processing/auditor.py:42-55 | a new row links to its document's newest row if and only if it has no tenant or that row has the same one |
| DocumentAudit.UnfilteredChainVerifiesIff | document_processing/auditor.py:91-105 | without a tenant filter a document verifies if and only if no row with a tenant follows one under another label |
| OverlappingDocumentAudits.FoundIsNewestSeen | document_processing/auditor.py:42-55 | a creation found the newest of the rows that were committed and matched when it looked up, or the genesis value when there was none |
| OverlappingDocumentAudits.DocumentVerifiesIff | document_processing/auditor.py:36-159 | however creations overlap, a document's rows, of one tenant or of all, verify if and only if each looked up when the row in front of it was committed already, and has no tenant or the same one |
| OverlappingDocumentAudits.WithoutOverlapIsCreate | document_processing/auditor.py:36-89 | the steps of one creation with nothing in between append the row that a creation as one step appends |
| OverlappingDocumentAudits.TwoAtOnceBreakTheChain | document_processing/auditor.py:42-87 | two creations for one document and tenant that both look up before either inserts leave a chain that fails |
| DocumentAudit.TwoTenantsBreakTheDocument | document_processing/auditor.py:91-105 | one document audited under two tenants: each tenant's chain verifies, the document's does not |
| EventPipeline.Pipeline.RecordAndDeliver | services/event_pipeline.py:31-63 | insert as queued, or update the payload of a known event, then deliver |
| EventPipeline.Pipeline.DeliverEvent | services/event_pipeline.py:65-144 | attempts from the persisted count up to the maximum or the first success, the settled record, the dead letter, the refreshed checkpoint |
| EventPipeline.Pipeline.Try | services/event_pipeline.py:79-90 | the delivery loop makes exactly the specified attempts |
| EventPipeline.Pipeline.RefreshCheckpoint | services/event_pipeline.py:176-222 | only the stream's checkpoint changes, to an exact recount with the age of the oldest pending record |
| EventPipeline.Pipeline.OldestDeadLetters | services/event_pipeline.py:147-159 | the batch holds the dead letters least recently updated, each once, as many as the limit allows |
| EventPipeline.Pipeline.RetryDeadLetters | services/event_pipeline.py:146-174 | a pass resets and delivers its batch in order; retried equals delivered plus failed, and delivered counts the batch's deliveries |
| EventPipeline.OperationKeepsInv | services/event_pipeline.py:31-174 | every operation keeps the pipeline's invariant |
| EventPipeline.AttemptsAreBounded | services/event_pipeline.py:75-91 | between two retry resets an event is attempted at most max_attempts times, and the stored count is the true one |
| EventPipeline.RecordsAreHonest | services/event_pipeline.py:79-144 | a delivery time means an attempt that Kafka, if enabled, and ClickHouse, if enabled, both took; a dead letter has its row with the same count; nothing stays queued |
| EventPipeline.CheckpointsAreExact | services/event_pipeline.py:176-222 | after every operation a stream's checkpoint counts its dead letters, which are all that is pending, and shows the age of the oldest of them and the time of the stream's latest delivery |
| EventPipeline.RecordedAgainStaysDeliveredIff | services/event_pipeline.py:48-92 | a known event recorded again ends as delivered if and only if an attempt it has left is accepted; with none left it becomes a dead letter |
| EventPipeline.DeliveredEventBecomesDeadLetter | services/event_pipeline.py:48-92 | a run in which an event that was delivered is recorded again and becomes a dead letter, although every sink accepts |
| EventPipeline.RetryPassAccounts | services/event_pipeline.py:160-174 | a pass splits its batch into deliveries and dead letters, and the dead letters afterwards are those before less the deliveries |
| EventRetries.TakenIff | services/event_pipeline.py:79-90 | attempts end with the first one taken: an event is taken if and only if one of the replies to the attempts it has left is taken by every enabled sink |
| EventRetries.DeliveryOutcome | services/event_pipeline.py:65-144 | what one delivery leaves behind: the record, its dead letter or none, its stream's checkpoint, and nothing else |
| EventRetries.IngestOutcome | services/event_pipeline.py:31-63 | a new event keeps its stream and payload, a known one takes the new payload; it ends up delivered if and only if one of the attempts it has left is taken |
| EventRetries.RetryPassOutcome | services/event_pipeline.py:146-174 | in a retry pass an event of the batch ends up delivered if and only if one of the first max_attempts replies from its turn on is taken, is dead-lettered otherwise, and gets at least one attempt |
| EventRetries.WholeBatchIsDelivered | services/event_pipeline.py:146-174 | if the sinks take every attempt of a pass, its whole batch is delivered and none of it stays a dead letter |
| PolicyHistory.PolicyStore.PersistPolicyVersion | main.py:2509-2561 | insert, or on conflict update with times once set kept |
| PolicyHistory.PolicyStore.CreatePolicy | main.py:2973-3047 | version 1 with its row |
| PolicyHistory.PolicyStore.UpdatePolicy | main.py:3068-3148 | the next version of the tenant's own policy, or not found |
| PolicyHistory.PolicyStore.PublishPolicy | main.py:3286-3344 | publication of acceptable rules |
| PolicyHistory.PolicyStore.ApprovePolicyChange | main.py:3428-3466 | approval of the current version's row only |
| PolicyHistory.PolicyStore.ArchivePolicy | main.py:3488-3516 | archival of the policy and its version row |
| PolicyHistory.PolicyStore.RollbackPolicy | main.py:3521-3579 | the error cases in order, and the stored rules as a new version |
| PolicyHistory.PolicyStore.DeletePolicy | main.py:3170-3214 | the policy goes, and its versions with it |
| PolicyHistory.StepKeepsInv | main.py:2973-3579 | every operation keeps: stored versions lie between 1 and the current one, and the current version's row has the current rules |
| PolicyHistory.VersionsAreImmutable | main.py:2509-2561 | over every run a stored version keeps its rules, author and times once set, and the current version never falls |
| PolicyHistory.OnlyUpdateAndRollbackAdvance | main.py:3068-3148 | a successful update or rollback stores the next number, unused before, with the current rules; nothing else changes number or rules |
| PolicyHistory.RollbackRestores | main.py:3521-3579 | a rollback succeeds exactly for stored, acceptable rules of that tenant, makes them current and keeps the old version; otherwise nothing changes |
| PolicyHistory.RollbackSucceedsIff | main.py:3521-3579 | in every reachable state a tenant's rollback succeeds if and only if its target lies between 1 and the current version, has acceptable rules, and is not an unstored first version |
| PolicyHistory.RollbackReturnsToThePast | main.py:3521-3579 | whatever happened since, rolling back to a version that was current and stored at some moment brings back the rules of that moment, unless validation refuses them |
| PolicyHistory.SeededDefaultsCannotBeRestored | main.py:5857-5870 | a seeded policy updated once cannot be rolled back to its defaults |
| PolicyHistory.ApprovedDraftStaysDraft | main.py:3428-3466 | a policy created as draft and approved: the version row says approved, the policy draft |
| PolicyEffects.TenantsAreIsolated | main.py:2973-3579 | over every run, operations of other tenants leave a tenant's policies and version rows exactly as they were |
| PolicyEffects.DeleteOutcome | main.py:3170-3214 | a delete succeeds if and only if the policy exists and is that tenant's; it then takes exactly that policy and its versions, and otherwise changes nothing |
| PolicyEffects.CreateOutcome | main.py:2973-3047 | a new policy takes the next id as version 1, published unless another status is asked for, with a version row |
| PolicyEffects.SeedOutcome | main.py:5857-5870 | a seeded policy is a published version 1 without a version row |
| PolicyEffects.UpdateOutcome | main.py:3068-3148 | an update succeeds exactly for the tenant's own policy and puts the given rules at the next version, with the status asked for or the one it had |
| PolicyEffects.PublishOutcome | main.py:3286-3344 | a publication succeeds exactly for the tenant's own policy with acceptable rules; policy and version row are then published |
| PolicyEffects.ApproveOutcome | main.py:3428-3466 | an approval marks the current version's row of the tenant's own policy, and nothing else |
| PolicyEffects.ArchiveOutcome | main.py:3488-3516 | archiving marks the tenant's own policy and its current version's row, if there is one |
| PolicyEffects.RollbackOutcome | main.py:3521-3579 | the refusals of a rollback in order; one that succeeds publishes the stored rules as the next version |
| OverlappingUpdates.ViewIsStart | main.py:2973-3579 | every state that operations one after the other reach is one from which changes may start to overlap |
| OverlappingUpdates.StoredRulesStayIff | main.py:2521-2543 | however changes of a policy overlap, stored rules never change if and only if all updates and rollbacks that read the same version write the same rules |
| OverlappingUpdates.NumbersAreUnusedIff | main.py:3068-3148 | every update and rollback takes an unused number if and only if none is overtaken between its read and its write |
| OverlappingUpdates.NoneOvertakenIsSafe | main.py:3068-3148 | then stored rules stay, whatever they are, and the version never falls |
| OverlappingUpdates.FirstOfTwoUpdatesIsLost | main.py:3068-3148 | of two updates that read the same version the first to write is in neither the row nor the history afterwards |
| OverlappingUpdates.VersionCanFall | main.py:3068-3148 | a late writer takes the version back from 3 to 2 |
| OverlappingUpdates.WithoutOverlapIsStep | main.py:3068-3579 | read and write with nothing in between are one operation of the policy history |
| FindingSelection.Dedupe | services/sensitive_data_detection.py:275-292 | whatever findings are reported, those kept are ascending; with spans that start no later than they end they do not overlap, later ones at the same start are empty, each turn keeps the better of the two that overlap, and a finding is dropped only for another that it overlaps and does not beat |
| FindingSelection.OverlapIff | services/sensitive_data_detection.py:275-292 | findings with text overlap if and only if they share a position |
| FindingSelection.SortedOutright | services/sensitive_data_detection.py:275-292 | the sort keeps all findings: by start, those that start together the longer first, of equal spans the more certain first |
| FindingSelection.BetterOfTwo | services/sensitive_data_detection.py:284-291 | of two that overlap the more confident is kept, of equally confident ones the longer, of equally long ones the earlier |
| FindingSelection.BothOfTwo | services/sensitive_data_detection.py:284-291 | two that are apart are both kept |
| FindingCoverage.AllCoveredIff | services/sensitive_data_detection.py:275-292 | every finding with text is kept or overlaps a kept one if and only if no finding takes over from the one it beats behind the end of an earlier one that only the beaten one covered |
| FindingCoverage.WithoutChainAllAreCovered | services/sensitive_data_detection.py:275-292 | without three findings in such a row, seen from the findings alone, every finding is kept or overlaps a kept one that it does not beat |
| FindingCoverage.RisingChainUncoversTheFirst | services/sensitive_data_detection.py:284-291 | of three findings in a row with rising confidence only the last is kept, and it does not overlap the first |
| FindingCoverage.DetectedTextCanStay | services/sensitive_data_detection.py:284-291 | such findings exist: [0,5), [4,10), [9,15) with confidence 0.5, 0.6, 0.7 |
| PageRedaction.RedactPage | document_processing/intelligence.py:66-95 | for any findings the page is the right-to-left splicing and the metadata lists all of them by ascending start; for findings that fit the text and one another it is one simultaneous substitution over the original text |
| PageRedaction.OrderedIff | document_processing/intelligence.py:77-95 | the sorted findings are in order if and only if each fits the text and each two are apart, the later of two at one start being empty |
| PageRedaction.SplicingIsSubstitution | document_processing/intelligence.py:77-80 | splicing ordered findings from right to left equals one pass from left to right |
| PageRedaction.OrderIsUnique | document_processing/intelligence.py:77-95 | for findings with text the result does not depend on the order in which they arrive |
| PageRedaction.OutsideIsKept | document_processing/intelligence.py:80-80 | every character outside the findings is kept, at its computed place |
| PageRedaction.OutsideStaysInOrder | document_processing/intelligence.py:80-80 | kept characters stay in order |
| PageRedaction.ReplacementIsPlaced | document_processing/intelligence.py:77-80 | every replacement stands where its finding stood, moved by the findings in front of it |
| PageRedaction.RedactedLength | document_processing/intelligence.py:77-80 | the text grows by what the replacements are longer than their findings |
| Base64Url.RepaddingRestores | verify_audit.py:32-38 | padding by -length mod 4 restores exactly what stripping removed, for all byte strings |
| Base64Url.RoundTrip | verify_audit.py:32-38 | decoding inverts encoding, for all byte strings |
| Base64Url.EncodedIsStandard | verify_audit.py:32-34 | the alphabet of Table 2 of RFC 4648 |
| Base64Url.GroupIsNumber | verify_audit.py:32-34 | three bytes and their four characters stand for the same number of 24 bits |
| Base64Url.StandardVectors | verify_audit.py:32-34 | test vectors of section 10 of RFC 4648, and two bytes that need '-' and '_' |
| SignedExport.CreatedPackageVerifies | verify_audit.py:93-162 | a created package verifies by object, by text, and by both |
| SignedExport.ManifestCarriesTheExport | verify_audit.py:93-126 | the manifest of an export carries its descriptive fields, the digest of its payload, the key and a signature, and nothing else |
| SignedExport.RefusalsAreNamed | verify_audit.py:127-162 | no manifest or signature, no payload, and another payload are refused, each with its own reason |
| SignedExport.OnlyThePayloadVerifies | verify_audit.py:127-162 | another payload verifies against the same manifest if and only if it is the same object |
| SignedExport.ExactlyTheExportsVerify | verify_audit.py:127-162 | under a key, in any form and with any signature, a package is accepted if and only if it shows an export made with that key, payload and every field, with a signature that verifies |
| SignedExport.EveryKeyIsAccepted | verify_audit.py:140-151 | the key comes from the manifest: for every key and payload there is an accepted package with the descriptive fields of any other |
| RateLimiter.Limiter.ConsumeToken | main.py:252-261 | count, evict, answer: the new table, the grant and the remaining tokens |
| RateLimiter.TableHoldsLiveCounts | main.py:252-257 | eviction never changes a live count: the table holds exactly the calls of the current and the previous window |
| RateLimiter.AtMostTwoEntries | main.py:255-257 | at most two entries per tenant |
| RateLimiter.ExactGrantsPerWindow | main.py:252-261 | a tenant gets exactly min(limit, calls) grants per window |
| RateLimiter.GrantsPerMinute | main.py:233-261 | in every minute of the clock a tenant is granted its calls, up to the limit and no further |
| RateLimiter.AtMostTwiceTheLimitPerMinute | main.py:233-261 | at most twice the limit in any 60 seconds |
| RateLimiter.TwiceTheLimitIsReached | main.py:233-261 | twice the limit is reached within two seconds, for every limit |
| ProviderRetry.Handle | providers/gemini_provider.py:158-272 | what the try block and its handlers do with one reply |
| ProviderRetry.Generate | providers/gemini_provider.py:112-278 | the loop ends as the specified turns do |
| ProviderRetry.GenerateIsBounded | providers/gemini_provider.py:112-278 | at most three requests; less than two seconds over the timeout; the loop never runs out of attempts; an answer only from the last response, when that is no HTTP error; never a ValueError |
| ProviderRetry.ReplyOutcome | providers/gemini_provider.py:158-272 | what each reply leads to on each attempt: an answer, the end, or another attempt after a sleep of known length |
| ProviderRetry.AnsweredIff | providers/gemini_provider.py:112-278 | the call returns an answer if and only if a request that is sent meets a status that is no HTTP error, and then that one |
| ProviderRetry.RecoversAfterOverload | providers/gemini_provider.py:158-272 | unavailable twice, then well: the third request is answered, after sleeps of two and four seconds |
| ProviderRetry.RateLimitIsWaitedFor | providers/gemini_provider.py:158-272 | a delay named with a rate limit is waited for, and a second more, and the next request is answered |
| ProviderRetry.TwoSecondsOverIsApproached | providers/gemini_provider.py:209-219 | the two seconds are approached as closely as one likes |
| ProviderRetry.RefusedKeyIsRetried | providers/gemini_provider.py:191-201 | an upstream that answers 401 or 403, however slowly, is asked again until attempts or time are used up, and the caller sees a RuntimeError |
| ProviderRetry.InstantRefusalsTakeSixSeconds | providers/gemini_provider.py:264-272 | with instant replies and time to spare that is three requests in six seconds |
| ScoreJournal.ScoreStore.PersistControlScore | services/compliance_evidence_engine.py:390-451 | upsert of the score, and a change row exactly when the snapshot has another score or none |
| ScoreJournal.ScoreStore.CalculateScores | services/compliance_evidence_engine.py:254-302 | every control scored and persisted against the scores read at the start |
| ScoreJournal.EvidenceNeverHelps | services/compliance_evidence_engine.py:282-286 | a new evidence row, wherever it lands, never raises a score, and changes it only for its own control and with a negative impact |
| ScoreJournal.UntouchedScoresHundred | services/compliance_evidence_engine.py:282-286 | a control without negative evidence of its own scores 100 |
| ScoreJournal.ScoreStep | services/compliance_evidence_engine.py:282-286 | each negative row of its own, wherever it stands, takes its impact off the score, down to zero |
| ScoreJournal.JournalIsExact | services/compliance_evidence_engine.py:390-451 | over every sequence of calculations a control's change rows are the transitions of its score history, and the stored score is the last one |
| ScoreJournal.RunKeepsJournal | services/compliance_evidence_engine.py:428-450 | entries chain previous to current from none, consecutive scores differ, the last is the stored score |
| ScoreJournal.PersistKeepsJournalIff | services/compliance_evidence_engine.py:390-451 | with overlapping calculations, persisting keeps the journal if and only if the score read at the start is still stored |
| ScoreJournal.OverlappingCalculationsBreakTheJournal | services/compliance_evidence_engine.py:270-274 | two overlapping first calculations both record a first score |
| OverlappingScores.JournalIsExactIff | services/compliance_evidence_engine.py:254-302 | for every interleaving of any calculations a control's journal is exact if and only if each calculation that recorded a change had seen the change recorded last, and the score saved last is the one recorded last |
| OverlappingScores.UpToDateRunsAreExact | services/compliance_evidence_engine.py:254-302 | it is enough that no calculation saves a control that another saved since it began |
| OverlappingScores.WrongTurnIsFinal | services/compliance_evidence_engine.py:428-450 | a change recorded against an outdated score is never repaired |
| OverlappingScores.JournalCanRecover | services/compliance_evidence_engine.py:390-451 | a run whose journal is wrong for a while and right again after a later save |
| ScoreJournal.WeightIsTheControls | services/compliance_evidence_engine.py:555-559 | the weight looked up by id is the control's own |
| ScoreJournal.ShippedCatalogIsWellFormed | services/compliance_evidence_engine.py:14-150 | the shipped catalog lists no control twice and has positive weights |
| ScoreJournal.FrameworkScoreIsBetween | services/compliance_evidence_engine.py:304-309 | a framework score lies between the lowest and highest score of its controls |
| ScoreJournal.ControlCountsByWeight | services/compliance_evidence_engine.py:304-309 | when all other controls score zero, the framework gets the control's share of the total weight |
| ScoreJournal.WeightedTotalIsSum | services/compliance_evidence_engine.py:304-309 | the total weight adds up the weights of the framework's own controls |
| ScoreJournal.RoundIsNearest | services/compliance_evidence_engine.py:304-309 | rounding goes to the nearest integer, and from the middle to the even one |
| ScoreJournal.EvidenceNeverHelpsAFramework | services/compliance_evidence_engine.py:282-309 | new evidence never raises a framework score |
| CosineSimilarity.DotProduct | rag/vector_store.py:41-43 | the sums of products |
| CosineSimilarity.CosineIsBounded | rag/vector_store.py:35-46 | the similarity lies in [-1, 1], for vectors of any lengths |
| CosineSimilarity.CosineIsOneIff | rag/vector_store.py:35-46 | it is 1 exactly when one vector is the other stretched to its length |
| CosineSimilarity.LawOfCosines | rag/vector_store.py:35-46 | the similarity of two vectors of one length, none of them zero, is fixed by their lengths and the distance between them; in every other case it is 0 |
| CosineSimilarity.CosineIgnoresLength | rag/vector_store.py:35-46 | rescaling a vector by a positive factor changes no similarity |
| VectorSearch.SearchSimilarity | rag/vector_store.py:78-105 | the loop skips unusable rows, and the answer is the slice of the stable descending sort |
| VectorSearch.HitsAreBounded | rag/vector_store.py:92-101 | every hit has a score between -1 and 1 |
| VectorSearch.HitOfRow | rag/vector_store.py:78-101 | every usable row, and no other, is a hit, in row order, with its similarity |
| VectorSearch.SortedByRank | rag/vector_store.py:103-104 | the sort puts each hit at its rank: the earlier ones that score as well and the later ones that score better |
| VectorSearch.RanksAreDistinct | rag/vector_store.py:103-104 | no two hits share a rank |
| VectorSearch.TopK | rag/vector_store.py:103-105 | min(k, n) hits in descending order, exactly those ranked below k, none left out beating one returned; for a negative k all but the last -k |

## Left out

- async_stream_redact_sensitive_tokens: the same statements as the generator modelled here, over an async iterator.
- The regular expressions, word boundaries and the mask, hash and synthetic actions of the full redactor: it is a parameter with a contract.
- The one letter whose lower case depends on its neighbours, the Greek sigma at the end of a word; it is in no hint.
- Bulk reload of approval records, several processes with separate caches, and persist errors that are swallowed.
- One-time codes, binding hashes, token texts, audit blocks and log events of the approval handlers; an approval comment that is not a string.
- The approval list and history endpoints, and tenants of approval records beyond the access check.
- Topics, tenants, error texts, retry times and the pauses between delivery attempts of the event pipeline, and its metrics report.
- Two pipeline operations at the same moment.
- Deletion, archiving and the status columns of a policy whose changes overlap.
- Names, types, severities, change approvals, simulation and rejection of policies, and the checks on submitted policy types.
- Snippets and user fields of page metadata, and the detectors that report findings.
- Base64 text with characters outside the alphabet, which the program's decoder skips and this one rejects.
- The counts kept by Redis in the rate limiter, and its event log.
- Headers, bodies and the parsing of answers and of retry delays in the Gemini provider; statuses are integers.
- The mapping of source events to controls, evidence counts, statuses, reasons and reports of the compliance engine.
- The query behind the vector search and embedding generation; floating-point rounding.
- The agent graph, OPA and Rego, document parsers and chunkers, connectors, monitoring, authentication and the front end: input and output, or easy members.
