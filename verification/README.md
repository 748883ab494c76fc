# Vapor RMM: verified models of its stateful protocols

Vapor RMM manages fleets of machines: a Go server, agents on the endpoints, one SQL
database. This project models the parts of it that keep state across calls, as small Dafny
modules, and proves what those parts keep over whole runs, including runs with crashes,
restarts and interleaved callers. Where a property that a comment or document of the
repository claims is false of the code, the model keeps the code, and the exact condition
under which the property holds is proved beside runs that break it.

| modules | what they cover |
|---|---|
| `AuditRecord`, `AuditChain`, `AuditTable`, `AuditBackfill`, `AuditLog`, `AuditRuns`, `AuditStatements`, `AuditRetention`, `AuditFaults` | the tamper-evident audit log: append, verify, backfill, range compaction, what each stores row by row, retention over whole runs, and what happens to a rejected chain |
| `DeviceDedup`, `DedupPass` | collapsing duplicate devices when every statement commits alone |
| `AgentTokens`, `TokenStore`, `TokenRuns`, `RegistrationRuns`, `DeviceCap`, `AgentProtocol`, `ProtocolRefinement` | agent tokens: rotation, proof of possession, the one-time bypass, pruning, the device cap, and the agent's side |
| `AiCost` | the daily cost cap: concurrent reservation, reconciliation, the database fallback |
| `Placeholders` | rewriting SQL placeholders |
| `Gates`, `AlertGate`, `ConflictWebhook`, `RateLimit` | three windowed limiters and what their forgetting may not change |
| `KillSwitch` | the kill-scope grammar, what one switch stops, cache against table |
| `Ordering`, `Sequences`, `Numbers`, `Options` | sorting by a weak order, sequence regrouping, larger and smaller, optional values |

State that the program updates in place is a class whose methods are proved against
functions of the old state; concurrency is a state machine whose steps are single SQL
statements or single critical sections, and theorems quantify over all its runs. A keyed
hash is a free constructor, so that a signature determines what was signed. A token stands
for its own hash. Times are integers.

## Findings

- The audit compactor signs its record over the stored signature of the row below and
  bridges to the stored signature of the last deleted row. The appender and the verifier
  continue from `end_sig` after a compaction record. The two rules differ exactly on
  compaction records, so a compaction keeps the chain verified exactly when the deleted rows
  are one stretch, the row below it is no compaction record, and its last row is none unless
  nothing survives above (`CompactExact`). Under a clock that never goes back this has a
  simple form, over every run from a legacy table and for any number of passes: a pass leaves
  a verified chain exactly when the chain does not start with a compaction record, holds
  nothing above it, or has the record and the row above it on one side of the cutoff
  (`EveryPassExact`). A first pass is always safe (`FirstPass`); a second one breaks the chain
  exactly when the first one's record and the oldest row left are parted by its cutoff
  (`PassesExact`). A rejected chain stays rejected until the tenant's own next pass
  (`VerdictUntilPass`), and verifies again exactly when what that pass leaves untouched was in
  order (`AnyPassExact`, over every run; after one rejected pass in terms of times alone:
  `SecondPassExact`). The comment at `packages/server/internal/events/audit_chain.go:299-301`
  promises that a later second call bridges the new gap. With the appender's head rule in
  the compactor every contiguous deletion is safe (`CorrectedCompactExact`).
- The same file's comment says rows are deleted after the record is inserted (lines
  287-289); the code deletes first. A pass that stops in between is noticed exactly when a
  row is left above the deleted ones; if it took the chain to its top, the rows are gone
  without a trace and the verifier says OK (`InterruptedExact`, and over runs with anything
  appended since `InterruptedRun`). Running the pass again while some of its rows are left
  repairs the chain exactly when the pass was allowed in the first place, and after the last
  delete it repairs nothing (`RerunRun`); any later pass that takes a row hides the hole
  (`LaterPassRun`).
- The backfill walks rows by time and gives an unsigned one the slot of its place in the walk.
  The current code signs every row it inserts; unsigned rows on the migrated table take a
  binary from before the chain that is run on it once more. Above a chain that a first pass
  has compacted and that still has older rows, such rows are signed over the record instead
  of the top row, and the next start leaves a rejected chain (`LateRowsBreak`); for any chain,
  exactly when it is not rejected: `BackfillOntoChain`.
- Payload fields are joined with `|` and not escaped: text moved across a bar between the
  details and the address keeps every signature (`BarShiftAccepted`). What edits are accepted
  in general, exactly: `AlterationExact`.
- The token pruner's comment (`packages/server/internal/auth/auth.go:1277-1281`) calls a
  re-registration between its cache delete and its row delete harmless. It is not: the row
  delete removes the new row (`PruneRace`). That and a rotation whose transaction rolls back
  are the only steps that can part cache and table (`StepSynced`).
- The database writes of a rotation are called best-effort behind the cache
  (`packages/server/internal/auth/auth.go:1131-1136`), but proof of possession reads the table
  alone. One rotation that is answered and not stored leaves the agent with a token that works
  until the server restarts and shows possession of nothing (`LostCommitStrands`). The pruner
  goes by the cache, where the replaced token is superseded: 61 seconds later it deletes the
  row that the table still holds active (`RollbackPrunesRow`), and then the latch decides. The
  agent is out for good exactly when the latch is spent or closed by then
  (`LostCommitForGood`).
- A rotation whose answer is lost can be repaired for 60 seconds, while the server's cache
  refuses heartbeats with the replaced token only after them
  (`RefusedHeartbeatsComeTooLate`); two lost rotations in a row shut the agent out at once
  (`TwoLostRotationsLockOut`). An active row goes as well once its token is dead in the cache,
  for its age or because of a rotation that was rolled back, and from then on the one-time
  latch decides: so a lockout is for good exactly when the latch is spent or closed by the
  time the row can be gone (`ForGoodExactly`), and an agent that has lost nothing is out as
  well once its row has gone with the latch spent (`IdleAgentLosesRow`).
- On Postgres a rotation keeps the legacy flag of a row it revives; on SQLite it resets it
  (`StepGuards` names this among the three things that end a device's protection).
- The device cap of a tenant is checked before the handler looks for the device and before it
  takes the lock (`packages/server/internal/handlers/agent.go:80-92`). So a tenant at its cap is
  frozen: not even a device it has, with its current token, is let in to rotate it
  (`FullTenantFrozen`). And requests side by side pass the check together: with at most so many
  between check and lock, the cap and one more for each beyond the first is exactly the most
  devices there can be (`CapRaceExactly`); one after another they keep to it (`CapKept`).
- A run whose audit row cannot be written gives its reservation back on top of what
  reconciliation gave back, so the counter can go below zero and the cap be exceeded
  (`LostRowBreaksCap`). From then on, and only then, runs can exceed it without any further
  fault (`CapExactly`).
- Routes share one entry per client address, and the limiter of the `/api` group with its
  minute keeps restarting the hour of the sign-up route: two sign-ups pass every 61 seconds
  against a limit of 5 an hour (`SharedKeyBreaksBound`). For any route, whatever maxima the
  routes beside it have, what passes in a stretch is bounded by its own maximum and the
  shortest window on the key (`WithinLimit`), and the bound is reached (`LimitMet`). Twice its
  maximum holds exactly for stretches up to that window and one tick, or short of two of them
  when the maximum is one; an hour beside a minute is far too long (`TwiceMaxExactly`).
- The registration-conflict webhook always reports a count of 1, because a firing restarts
  the bucket; the comment at `packages/server/internal/handlers/agent.go:232-236` expects the
  size of the burst (`Trigger`).
- The cache of the kill switches and a row come apart only through a call that changes the row
  while a reload or another call on the scope is under way: exactly that step breaks the
  invariant under which an idle cache agrees (`StepSettling`, `SettledRunsAgree`), and each such
  step can end with the two apart (`OvertakenParts`). A reload overtaken by a kill undoes it in
  the cache (`StaleReloadRevives`), and so do two overlapping calls on one scope, with no
  reload involved (`OverlappingCallsPart`).

## Model

| member | source | states |
|---|---|---|
| `AuditRecord.SplitJoin` | packages/server/internal/events/audit_chain.go:38-43 | splitting a canonical payload at bars gives back its fields when no field contains a bar |
| `AuditRecord.PayloadInjective` | packages/server/internal/events/audit_chain.go:38-43 | two rows without bars in their fields and with one payload differ at most in signature and slot |
| `AuditRecord.PayloadReads` | packages/server/internal/events/audit_chain.go:32-43 | such a row's payload, split at the bars, is its columns in the fixed order |
| `AuditRecord.BarShiftKeepsPayload` | packages/server/internal/events/audit_chain.go:38-43 | with bars the payload is ambiguous: text moves between details and address unseen |
| `AuditRecord.BridgeSigDeeper` | packages/server/internal/events/audit_chain.go:45-47 | a signature is never the predecessor or the end signature it covers |
| `AuditChain.VerdictIffGood` | packages/server/internal/events/audit_chain.go:241-285 | the verifier says OK exactly for chains in which every row links to its predecessor's head, and then counts every row |
| `AuditChain.VerdictStopsAt` | packages/server/internal/events/audit_chain.go:241-285 | the first row that does not link is the one named, with the rows before it as verified and the right reason |
| `AuditChain.AppendExact` | packages/server/internal/events/events.go:191-220 | an append keeps a verified chain verified exactly unless it poses as a compaction record without an end signature |
| `AuditChain.AppendIntact` | packages/server/internal/events/events.go:191-220 | ordinary appends keep the chain intact, from a compaction record's end signature too |
| `AuditChain.AlterationExact` | packages/server/internal/events/audit_chain.go:248-283 | an edit that keeps the signature is accepted exactly when it keeps the payload, an end signature where one is due, and the head for a row above |
| `AuditChain.AlterationCaught` | packages/server/internal/events/audit_chain.go:248-283 | changing any row's payload is reported at that row |
| `AuditChain.BarShiftAccepted` | packages/server/internal/events/audit_chain.go:248-283 | an edit that moves text across a bar is accepted |
| `AuditChain.DeletionExact` | packages/server/internal/events/audit_chain.go:248-283 | removing rows is accepted exactly when nothing follows them or they did not move the head; so removing a suffix is always accepted |
| `AuditChain.DeletionCaught` | packages/server/internal/events/audit_chain.go:248-283 | on a chain only the writers touched, a deletion below a survivor is reported at that survivor |
| `AuditChain.CompactionExact` | packages/server/internal/events/audit_chain.go:302-389 | for either head rule, the three conditions under which a compaction leaves a verified chain, both directions |
| `AuditChain.CompactExact` | packages/server/internal/events/audit_chain.go:302-389 | the compactor as written keeps the verdict exactly on bridgeable chains |
| `AuditChain.CorrectedCompactExact` | packages/server/internal/events/audit_chain.go:59-83 | with the head rule of the appender it keeps the verdict exactly when the deleted rows are contiguous |
| `AuditChain.CompactIntact` | packages/server/internal/events/audit_chain.go:302-389 | a compaction that keeps the verdict keeps everything later operations rely on |
| `AuditChain.SecondCompactionExact` | packages/server/internal/events/audit_chain.go:349-366 | a pass over a chain that starts with a compaction record is safe exactly when record and next row are both old or both young |
| `AuditChain.RemnantExact` | packages/server/internal/events/audit_chain.go:373-386 | rows gone without a record: a pass over the rows right above closes the hole, exactly when it is bridgeable itself |
| `AuditChain.ScheduledRetentionBreaks` | packages/server/internal/handlers/policies.go:182-187 | a retention pass that reaches a survivor before the last record is rejected by the verifier |
| `AuditTable.AppendedChain` | packages/server/internal/events/events.go:191-220 | an insert adds one row on top of its tenant's chain and changes no other chain |
| `AuditTable.AppendedKeyed` | packages/server/internal/events/events.go:191-220 | appends keep ids unique and slots distinct per tenant |
| `AuditTable.CompactedTableChain` | packages/server/internal/events/audit_chain.go:302-389 | the deletes and the insert produce the compacted chain of that tenant and touch no other |
| `AuditTable.CompactedTableKeyed` | packages/server/internal/events/audit_chain.go:373-386 | a compaction keeps ids unique and slots distinct, its record taking the first deleted slot |
| `AuditTable.CompactedCount` | packages/server/internal/events/audit_chain.go:376-389 | the count reported is the rows deleted, one row stands for them, and every refusal changes nothing |
| `AuditBackfill.BackfillResumes` | packages/server/internal/events/audit_chain.go:95-162 | stopping the backfill after any update and starting again reaches the rows of an undisturbed walk |
| `AuditBackfill.BackfillFixed` | packages/server/internal/events/audit_chain.go:95-162 | a table with every row signed and numbered is left alone |
| `AuditBackfill.BackfillExact` | packages/server/internal/events/audit_chain.go:95-162 | after a backfill a chain whose slots keep the order of the walk, gaps included, verifies exactly when every signature already there was right |
| `AuditBackfill.BackfillOntoChain` | packages/server/internal/events/audit_chain.go:99-155 | unsigned rows newer than a verified chain: it verifies afterwards exactly when the row walked last is its top and no slot in use lies above the new ones |
| `AuditBackfill.LegacyBackfillVerifies` | packages/server/internal/events/audit_chain.go:95-162 | rows from before the chain existed end up verified and intact |
| `AuditLog.Log.LoadLastState` | packages/server/internal/events/audit_chain.go:59-83 | the head to chain from and the highest slot of the tenant's chain |
| `AuditLog.Log.Append` | packages/server/internal/events/events.go:191-220 | the table after an append, for any tenant, a taken id included: what was passed, column by column, on top of the tenant's rows |
| `AuditLog.Log.Verify` | packages/server/internal/events/audit_chain.go:241-285 | the loop reports the verdict on the tenant's chain |
| `AuditLog.Log.Compact` | packages/server/internal/events/audit_chain.go:302-389 | the in-place compaction with all four outcomes: which rows go, and which of them its record names and counts |
| `AuditLog.Log.BuildRecord` | packages/server/internal/events/audit_chain.go:344-369 | the bridging record that the chain lemmas are about, with the ids, the number and the cutoff it stores |
| `AuditLog.Log.DeleteAll` | packages/server/internal/events/audit_chain.go:376-380 | row-by-row deletes remove exactly the listed ids |
| `AuditLog.Log.StampRow` | packages/server/internal/events/audit_chain.go:125-155 | one update exchanges one row and yields the head after it |
| `AuditLog.Log.Backfill` | packages/server/internal/events/audit_chain.go:95-162 | the walk leaves the stamped rows, each filled in as its rank demands, and counts the rows that lacked a signature or a slot |
| `AuditStatements.AppendStores` | packages/server/internal/events/events.go:191-220 | an append with a fresh id adds one row, every argument in its own column, one slot above the tenant's highest row and signed over it, or first in the chain; with a taken id none |
| `AuditStatements.CompactStores` | packages/server/internal/events/audit_chain.go:302-389 | each outcome of a pass from the rows alone: exactly the tenant's older rows go, and the record names the lowest and the highest of them, their number and the cutoff, carries the highest one's signature, stands in the lowest one's slot and is signed over the row right below |
| `AuditStatements.BackfillStores` | packages/server/internal/events/audit_chain.go:95-162 | the walk changes only what is missing: the slot is the row's rank by time and id within its tenant, the signature covers the row ranked before it |
| `AuditRuns.LegacyHealthy` | packages/server/internal/events/audit_chain.go:95-162 | the first start turns a legacy table into a healthy one |
| `AuditRuns.RestartHealthy` | packages/server/internal/events/audit_chain.go:95-162 | later starts leave a healthy table as it is, compaction records included |
| `AuditRuns.EveryRunVerifies` | packages/server/internal/events/audit_chain.go:241-285 | every run of restarts, appends and allowed compactions over any tenants leaves every chain verified with every row counted, under both head rules |
| `AuditRuns.DisallowedCompactionFails` | packages/server/internal/events/audit_chain.go:302-389 | outside the guard a compaction of a healthy table always leaves a rejected chain |
| `AuditRuns.InterruptedExact` | packages/server/internal/events/audit_chain.go:373-386 | a pass that stops before its insert leaves an accepted chain exactly when nothing was deleted yet or nothing is left above; the second case erases rows unnoticed |
| `AuditRuns.InterruptedCompactionCaught` | packages/server/internal/events/audit_chain.go:373-386 | otherwise it is reported at the first row above |
| `AuditRuns.RerunExact` | packages/server/internal/events/audit_chain.go:302-389 | running the pass again while rows are left repairs the chain exactly when the pass was bridgeable |
| `AuditRuns.RerunTooLate` | packages/server/internal/events/audit_chain.go:302-389 | once all its rows are deleted, running it again changes nothing and the chain stays rejected |
| `AuditRuns.LaterPassHides` | packages/server/internal/events/audit_chain.go:302-389 | a later pass over the rows above the hole makes the chain verify again, exactly when it is bridgeable |
| `AuditFaults.RunStored` | packages/server/internal/events/audit_chain.go:302-389 | every run of starts, appends, passes inside and outside the guard and passes that stop keeps ids and slots distinct and every row signed and numbered |
| `AuditFaults.AnyPassExact` | packages/server/internal/events/audit_chain.go:302-389 | after any such run from a legacy table, exactly when the next pass leaves a verified chain, told from the rows it does not take |
| `AuditFaults.VerdictUntilPass` | packages/server/internal/events/audit_chain.go:241-285 | a verdict, good or bad, stands until the tenant's own next pass, whatever is appended and whatever happens to others |
| `AuditFaults.SecondPassExact` | packages/server/internal/events/audit_chain.go:299-301 | a pass outside the guard and the next one, over runs under a clock: exactly when the second makes the chain verify again, from times alone |
| `AuditFaults.InterruptedChain` | packages/server/internal/events/audit_chain.go:373-380 | the deletes of a stopped pass take exactly the first of the selected rows out of the tenant's chain |
| `AuditFaults.StoppedStores` | packages/server/internal/events/audit_chain.go:373-380 | which rows a pass that stops after k deletes has deleted: the k lowest of those due, and none if an end is unsigned |
| `AuditFaults.InterruptedRun` | packages/server/internal/events/audit_chain.go:373-386 | over runs, with anything appended since: a stopped pass is noticed exactly when it left a row in its stretch or above |
| `AuditFaults.RerunRun` | packages/server/internal/events/audit_chain.go:302-389 | the rerun later: with rows left it gives a verified chain exactly when the pass was allowed, with none left it changes nothing |
| `AuditFaults.LaterPassRun` | packages/server/internal/events/audit_chain.go:302-389 | any later pass that takes a row gives a verified chain again if the stopped one was allowed |
| `AuditRetention.LegacyRegular` | packages/server/internal/events/audit_chain.go:95-162 | the first start leaves every chain of a legacy table in the order of its times and without records |
| `AuditRetention.RunRegular` | packages/server/internal/events/audit_chain.go:302-389 | under a clock that never goes back every allowed run of appends, restarts and passes keeps each chain chronological above at most one record, at its bottom |
| `AuditRetention.EveryPassExact` | packages/server/internal/events/audit_chain.go:299-301 | after any clocked run from a legacy table, with any passes of any tenants, exactly when the next pass leaves a verified chain: no record at the bottom, nothing above it, or record and next row on one side of the cutoff |
| `AuditRetention.FirstPass` | packages/server/internal/events/audit_chain.go:312-386 | a tenant's first pass is always allowed, after any clocked run, and leaves its record below the younger rows, also when none are left |
| `AuditRetention.PassesExact` | packages/server/internal/events/audit_chain.go:299-301 | two passes with anything allowed before and between them: the first one's record is the bottom from then on, and exactly when the second leaves a verified chain |
| `AuditRetention.LateRowsBreak` | packages/server/internal/events/audit_chain.go:99-155 | after a first pass that left rows, later rows of a binary from before the chain make the next start leave a rejected chain |
| `AuditRetention.ShortestRuns` | packages/server/internal/events/audit_chain.go:349-366 | from the empty table, two appends and two passes fail exactly when the second cutoff lies between survivor and record |
| `AuditRetention.IdleRuns` | packages/server/internal/events/audit_chain.go:349-366 | a chain compacted to its record, one append and a second pass fail exactly when the second cutoff lies between record and appended row |
| `AuditRetention.RetentionExamples` | packages/server/internal/events/audit_chain.go:349-366 | two concrete failing runs under a retention of eight days, one for each wrong signature |
| `DeviceDedup.WinnerUnique` | packages/server/internal/db/dedup_devices.go:107-114 | the winner of a key is determined |
| `DeviceDedup.CanonDeduped` | packages/server/internal/db/dedup_devices.go:67-160 | the normal form has exactly one device for every key there was |
| `DeviceDedup.CanonKeepsLatest` | packages/server/internal/db/dedup_devices.go:107-114 | a device stays exactly when no other of its tenant, host and address was created later, or at the same time with an id earlier in byte order |
| `DeviceDedup.CanonChildrenMove` | packages/server/internal/db/dedup_devices.go:130-146 | every listed child row ends on a device that is left, of the same tenant, host and address; all other rows stay as they are |
| `Ordering.TextBeforeMeans` | packages/server/internal/db/dedup_devices.go:111 | byte order: a proper prefix, or the smaller character at the first difference |
| `DeviceDedup.SecondPassIdle` | packages/server/internal/db/dedup_devices.go:54-61 | a second pass changes nothing and finds no duplicates |
| `DeviceDedup.StatementKeepsCanon` | packages/server/internal/db/dedup_devices.go:130-146 | every single statement keeps the normal form |
| `DeviceDedup.StatementFollows` | packages/server/internal/db/dedup_devices.go:130-146 | no statement loses, adds or dangles a child row of a listed table, or moves it to a device with another key |
| `DeviceDedup.EveryStateOfTrace` | packages/server/internal/db/dedup_devices.go:105-149 | both hold at every committed state of a pass, wherever it stops, and unique indexes keep holding |
| `DeviceDedup.CrashRestartConfluent` | packages/server/internal/db/dedup_devices.go:105-149 | stop after any statement and run again: the result is that of an undisturbed pass |
| `DeviceDedup.CollidesIffClash` | packages/server/internal/db/dedup_devices.go:132-141 | merging violates a unique index exactly when two rows of one table agree on its other columns and sit on devices of one key |
| `DeviceDedup.IndexBroken` | packages/server/internal/db/dedup_devices.go:132-141 | an index is violated exactly by two rows that agree on its columns; rows without a device never are |
| `DeviceDedup.RefusedRepointCollides` | packages/server/internal/db/dedup_devices.go:132-141 | a refused statement proves such a clash |
| `DeviceDedup.RefusedExactly` | packages/server/internal/db/dedup_devices.go:132-141 | a statement is refused exactly when a row of the loser and a row of the winner agree on the other columns of the index |
| `DeviceDedup.DedupedDoesNotCollide` | packages/server/internal/db/dedup_devices.go:132-141 | without duplicates there is none |
| `DeviceDedup.ResolvedRestartConfluent` | packages/server/internal/db/dedup_devices.go:132-141 | a stopped pass, the rows in its way removed, and a second pass reach what removing them first would have reached |
| `DeviceDedup.CanonCount` | packages/server/internal/db/dedup_devices.go:184-196 | the normal form drops exactly as many devices as there are duplicates |
| `DedupPass.Connection.Repoint` | packages/server/internal/db/dedup_devices.go:132-141 | one update: committed, refused by an index, or skipped because the table is missing |
| `DedupPass.Connection.MoveChildren` | packages/server/internal/db/dedup_devices.go:130-142 | after the inner loop no listed row points at the loser, unless an index refused |
| `DedupPass.Connection.MergeLoser` | packages/server/internal/db/dedup_devices.go:130-147 | a loser goes only after its children have moved |
| `DedupPass.Connection.MergeKey` | packages/server/internal/db/dedup_devices.go:105-149 | one set of duplicates becomes one device and no other key is touched |
| `DedupPass.Connection.MergeAll` | packages/server/internal/db/dedup_devices.go:79-149 | the nested loops leave no duplicates or stop at a real conflict |
| `DedupPass.Connection.CreateIndex` | packages/server/internal/db/dedup_devices.go:151-159 | the unique index can be created exactly when no duplicates are left |
| `DedupPass.Connection.Deduplicate` | packages/server/internal/db/dedup_devices.go:67-160 | the pass succeeds exactly when merging collides with no index; then the latest device of each tenant, host and address is left, its children are on it, and total minus distinct keys is reported; every committed state is journaled |
| `AgentTokens.RotationCommutes` | packages/server/internal/auth/auth.go:1135-1212 | cache and table rotate alike: projecting commutes with rotating |
| `AgentTokens.RotationActivates` | packages/server/internal/auth/auth.go:1135-1149 | after a rotation the token is its owner's only active one; no deadline already set and no other owner changes |
| `AgentTokens.RotationKeepsOneActive` | packages/server/internal/auth/auth.go:1135-1149 | one active token per owner, kept |
| `AgentTokens.RotationRemembers` | packages/server/internal/auth/auth.go:1167-1212 | the server remembers the token and the one it replaced; registering the current token again forgets the previous one |
| `AgentTokens.FirstRotationRemembers` | packages/server/internal/auth/auth.go:1167-1188 | an owner's first token has no previous one |
| `AgentTokens.AcceptedIffPossessed` | packages/server/internal/auth/auth.go:917-955 | accepted exactly for the current token or the previous one strictly inside 60 seconds |
| `AgentTokens.JudgeTells` | packages/server/internal/auth/auth.go:896-955 | all five verdicts from the row and the device, each exactly; the two grace verdicts by whether the device was seen since the rotation |
| `TokenStore.OnlyPossessionAdmits` | packages/server/internal/handlers/agent.go:134-229 | a device with one active token that is no legacy row is admitted exactly on possession, and its latch is not touched |
| `TokenStore.AdmissionExact` | packages/server/internal/handlers/agent.go:134-229 | with one active token, legacy or not: admitted exactly on possession or, on a legacy row, through the open latch, which only the latter spends |
| `TokenStore.VerdictExactly` | packages/server/internal/auth/auth.go:896-955 | no prior token exactly without an active row; otherwise a newest active row decides, and tells which verdict |
| `TokenStore.LegacyExactly` | packages/server/internal/auth/auth.go:1041-1057 | the legacy flag is that of a newest active row, and false without one |
| `TokenStore.Store.RegisterAgentToken` | packages/server/internal/auth/auth.go:1109-1219 | the cache loop and the transaction, committed or rolled back |
| `TokenStore.Store.VerifyAgentPoP` | packages/server/internal/auth/auth.go:896-955 | the verdict on the owner's newest active row; what each verdict says of it is `VerdictExactly` |
| `TokenStore.Store.ActiveTokenIsLegacy` | packages/server/internal/auth/auth.go:1041-1057 | whether the owner's newest active row is a legacy one |
| `TokenStore.Store.AcquireLegacyBypass` | packages/server/internal/auth/auth.go:1086-1096 | wins exactly when the latch was unused and sets it |
| `TokenStore.Store.Admit` | packages/server/internal/handlers/agent.go:136-180 | admitted on possession or by spending the latch, which is spent only then |
| `TokenStore.Store.Recognise` | packages/server/internal/handlers/agent.go:120-245 | new device, refreshed device or conflict, and the device table after each |
| `TokenStore.Store.Register` | packages/server/internal/handlers/agent.go:68-257 | the whole handler: the cap before all else, a refusal changes nothing, success is for the device with the request's tenant, host and address, and rotates for it |
| `TokenStore.Store.PruneCache` | packages/server/internal/auth/auth.go:1262-1274 | the cache keeps exactly its live tokens and the rest are listed |
| `TokenStore.Store.PruneRows` | packages/server/internal/auth/auth.go:1275-1287 | exactly the listed rows go |
| `TokenStore.Store.LoadAgentTokens` | packages/server/internal/auth/auth.go:1223-1251 | the cache after start-up is the table |
| `TokenRuns.StepSynced` | packages/server/internal/auth/auth.go:1109-1290 | cache and table stay in step through every event except, exactly, deleting the row of a token that is cached again and a rotation that changes the cache and rolls back |
| `TokenRuns.RunAheadIsLost` | packages/server/internal/auth/auth.go:1131-1219 | after a rolled-back rotation, over every run that does not register it again: the new token never gets a row and works exactly while the server has not restarted and it is alive |
| `TokenRuns.ReplacedRowExactly` | packages/server/internal/auth/auth.go:1131-1287 | over every run without another stored rotation the replaced token's row stays, and stays active, exactly as long as the pruner has not deleted it, which takes more than 60 seconds or its expiry |
| `TokenRuns.RollbackPrunesRow` | packages/server/internal/auth/auth.go:1257-1290 | and 61 seconds after the rotation the pruner can leave its owner without any active row |
| `TokenRuns.EveryRunTransparent` | packages/server/internal/auth/auth.go:1223-1290 | at every point of a run without those two events a restart authenticates the same tokens at all later times |
| `TokenRuns.NoReregistrationNoClobber` | packages/server/internal/auth/auth.go:1277-1287 | the first of them cannot occur when no token is registered while its delete is pending |
| `TokenRuns.DeletesOnce` | packages/server/internal/auth/auth.go:1275-1287 | each hash taken from the cache is deleted once |
| `TokenRuns.ClobberedIsLost` | packages/server/internal/auth/auth.go:1277-1287 | after such a delete a working token is lost at the next restart |
| `TokenRuns.PruneRace` | packages/server/internal/auth/auth.go:1257-1290 | a run that does it, for any token, owner and start |
| `TokenRuns.EveryRunOneActive` | packages/server/internal/auth/auth.go:1135-1212 | one active token per owner in cache and table over every run |
| `TokenRuns.DeadlineHonoured` | packages/server/internal/auth/auth.go:777-797 | through rotations, stored or rolled back, prunes and restarts a superseded token authenticates exactly until its deadline or expiry |
| `TokenRuns.GraceWithinSupersede` | packages/server/internal/auth/auth.go:932-935 | what the grace branch would accept still authenticates, and what is refused as superseded the grace branch refuses too |
| `RegistrationRuns.AtMostOneBypass` | packages/server/internal/auth/auth.go:1086-1096 | under every interleaving the latch records every grant, so a device gets at most one |
| `RegistrationRuns.UndisturbedAdmission` | packages/server/internal/handlers/agent.go:134-195 | the interleaved steps of one request for a known device, undisturbed, are the handler's admission |
| `RegistrationRuns.EnrollExactly` | packages/server/internal/handlers/agent.go:120-255 | a new device is enrolled exactly when there is none of its tenant, host and address, with what the locked section stores for it |
| `RegistrationRuns.StepGuards` | packages/server/internal/handlers/agent.go:134-257 | a device's protection outlives exactly the steps that do not drop its row, register its token for another device or revive a legacy row on Postgres |
| `RegistrationRuns.ThroughOnlyByPossession` | packages/server/internal/handlers/agent.go:134-229 | every request for a protected device that gets through presented the current token or the previous one in its window |
| `RegistrationRuns.NoRebindingWithoutPossession` | packages/server/internal/handlers/agent.go:134-257 | no interleaving of registrations rebinds a protected device unless some request did |
| `RegistrationRuns.GraceVerdictOverRuns` | packages/server/internal/auth/auth.go:923-955 | over every run since a rotation the token it replaced is taken for a crash recovery until the device has been seen later than the rotation, and for a late acknowledgement from then on |
| `DeviceCap.OthersDoNotCount` | packages/server/internal/handlers/agent.go:80-92 | whether the limit refuses a request does not depend on devices of other tenants |
| `DeviceCap.EnrolledCounts` | packages/server/internal/handlers/agent.go:80-257 | a new device raises the count by one for its tenant and by none for another; no other answer changes any count |
| `DeviceCap.FirstDeviceEnrolls` | packages/server/internal/handlers/agent.go:80-257 | the first device of a tenant is registered, whatever the cap |
| `DeviceCap.CapKept` | packages/server/internal/handlers/agent.go:80-257 | over any sequence of requests served one after another a tenant within its cap stays within it |
| `DeviceCap.FullTenantFrozen` | packages/server/internal/handlers/agent.go:80-135 | from a tenant at its cap no request is let in any more, with or without possession, and nothing about its devices changes |
| `DeviceCap.OneIdEach` | packages/server/internal/handlers/agent.go:120-245 | two requests that succeed, anything between them, get one id exactly when they name the same tenant, host and address |
| `DeviceCap.CapRaceExactly` | packages/server/internal/handlers/agent.go:80-120 | with a bounded number of requests between check and lock, the exact largest number of devices a capped tenant can reach |
| `AgentProtocol.StandingIsTally` | packages/agent/main.go:540-634 | over every run, pruning and rolled-back transactions included: one lost rotation puts the agent one behind, a second, one lost after a bypass, or one the server fails to store sets it adrift, any other stored acceptance brings it in step, deleting the active row leaves it unbound |
| `AgentProtocol.AcceptedWhen` | packages/server/internal/handlers/agent.go:134-195 | an attempt that gets to the check is accepted exactly: in step always, one behind inside 60 seconds, and otherwise only by the open latch, without an active row or with a legacy one |
| `AgentProtocol.CrashIsRestart` | packages/agent/main.go:617-631 | a crash between saving and switching is a completed registration followed by a restart, with a configured token too |
| `AgentProtocol.InTimeKeepsRow` | packages/server/internal/auth/auth.go:1116-1287 | an agent whose token every prune finds alive in the cache, and that does not register one being pruned, keeps its row |
| `AgentProtocol.ForGoodExactly` | packages/server/internal/auth/auth.go:1109-1290 | an agent that is shut out stays so in every future exactly when its latch is spent or closed by the time its active row can be gone, by its end in the cache or in the table |
| `AgentProtocol.OutwaitWorks` | packages/server/internal/auth/auth.go:1257-1290 | by that time the pruner can have taken the row, after a restart of the server if the cache keeps its token longer |
| `AgentProtocol.GoneNotBefore` | packages/server/internal/auth/auth.go:1257-1290 | and as long as nothing is accepted it is never gone earlier |
| `AgentProtocol.WayBackWorks` | packages/server/internal/handlers/agent.go:177-195 | otherwise waiting for the row to go and registering brings it back in step |
| `AgentProtocol.IdleAgentLosesRow` | packages/server/internal/auth/auth.go:1265-1287 | an agent with no loss at all is out for good once its row has gone with the latch spent |
| `AgentProtocol.LockoutHolds` | packages/agent/main.go:576-584 | while its row stands, nothing a shut-out agent does, restarts included, changes what the server remembers; on a legacy row with the latch unspent, under an unchanged cutoff |
| `AgentProtocol.TwoLostRotationsLockOut` | packages/agent/main.go:540-634 | two lost rotating registrations with nothing accepted in between shut the agent out, whatever the time between them and even if its row goes meanwhile |
| `AgentProtocol.OneLostRotation` | packages/agent/main.go:540-634 | after one loss the next attempt that arrives decides: inside 60 seconds while the row stands, by the latch once it is gone |
| `AgentProtocol.LostCommitShutsOut` | packages/server/internal/auth/auth.go:1131-1219 | one rotation that is answered and not stored sets the agent adrift and shuts it out, exactly unless its row is a legacy one and the latch open |
| `AgentProtocol.LostCommitForGood` | packages/server/internal/auth/auth.go:1131-1287 | it is out in every future exactly when the latch is spent or closed 61 seconds later, when the pruner has taken the row |
| `AgentProtocol.LostCommitStrands` | packages/server/internal/auth/auth.go:777-797 | until something is accepted its token is taken by the cache exactly for its lifetime or until the server restarts, and never shows possession |
| `AgentProtocol.RefusedHeartbeatsComeTooLate` | packages/agent/main.go:637-669 | an agent that registers again only because the server's cache refuses its replaced token, through any prunes and restarts, is let in by the latch alone, and only once the active row is gone |
| `AgentProtocol.FirstAnswerLost` | packages/agent/main.go:144-223 | a lost first answer is harmless while the agent runs and, on a row that is no legacy one, shuts it out once it restarts |
| `AgentProtocol.ConfiguredTokenFallsBack` | packages/agent/main.go:183-189 | after a rotation and a restart a token from the environment is accepted, whatever is refused or pruned meanwhile, for 60 seconds while the rotated row stands and through the latch once it is gone |
| `AgentProtocol.Agent.constructor` | packages/agent/main.go:144-223 | token precedence, and the discarding of a state file from another host |
| `AgentProtocol.StateFileExactly` | packages/agent/main.go:170-181 | a state file is used exactly when it was saved on this host, or it or the host has no name to tell by |
| `AgentProtocol.Agent.RegisterWithServer` | packages/agent/main.go:540-634 | save before switch: every failure keeps token and file, success leaves them equal |
| `AgentProtocol.HeartbeatLoop` | packages/agent/main.go:637-669 | registration is attempted exactly after five failed heartbeats with no reset among the last four turns |
| `ProtocolRefinement.SweepNeedsEnd` | packages/server/internal/auth/auth.go:1265-1273 | after any run the pruner takes the active token no earlier than its end in the cache or, after a restart, in the table |
| `ProtocolRefinement.HandlingRefines` | packages/server/internal/handlers/agent.go:134-247 | the register handler admits an attempt exactly when the agent's protocol model accepts it, and leaves the rows, the cache and the latch that model expects |
| `ProtocolRefinement.RunRefines` | packages/server/internal/auth/auth.go:1109-1290 | over every run of the agent, the pruner and restarts of the server, on either database, with legacy rows, rolled-back rotations and anything going on for other devices: the protocol allows what happens, and server tables, cache and protocol model agree |
| `ProtocolRefinement.AdmittedExactly` | packages/server/internal/auth/auth.go:896-955 | after any run the handler lets the agent in exactly as its standing says, which is told from what was accepted, lost and dropped |
| `AiCost.Meter.ReserveCost` | packages/server/internal/ai/cost.go:65-92 | granted exactly under the cap, at no cap or for nothing; a refusal leaves the counter |
| `AiCost.Meter.ReleaseCost` | packages/server/internal/ai/cost.go:98-108 | gives back positive amounts only |
| `AiCost.Meter.Run` | packages/server/internal/ai/run.go:229-276 | a recorded run nets the smaller of actual cost and estimate, panics and errors included; an unrecorded one nets minus the overestimate |
| `AiCost.CostNotNegative` | packages/server/internal/ai/run.go:502-516 | costs are not negative when tokens and rates are not |
| `AiCost.CostExactly` | packages/server/internal/ai/run.go:502-516 | prompt tokens at the input rate and output tokens at the output rate, per thousand and cut off; an embedding pays for its own prompt tokens only |
| `AiCost.EveryRunBalanced` | packages/server/internal/ai/cost.go:77-108 | the counter is the sum of its runs' charges under every interleaving, at any cap |
| `AiCost.EveryRunUnderCap` | packages/server/internal/ai/cost.go:77-88 | accepted commitments exceed the cap by no more than what was given back twice |
| `AiCost.CapHolds` | packages/server/internal/ai/cost.go:77-88 | without such double releases they never exceed it |
| `AiCost.CapExactly` | packages/server/internal/ai/run.go:243-265 | no future free of double releases exceeds the cap, exactly when nothing has been given back twice so far |
| `AiCost.EffectiveCap` | packages/server/internal/ai/cost.go:77-88 | a run is let in exactly when commitments stay within the cap plus everything given back twice |
| `AiCost.UndisturbedReserve` | packages/server/internal/ai/cost.go:65-92 | the interleaved steps of one reservation, undisturbed, are the reservation of the meter, no cap included |
| `AiCost.UndisturbedRun` | packages/server/internal/ai/run.go:229-265 | and those of the rest of a run net what the meter's run nets |
| `AiCost.LostRowBreaksCap` | packages/server/internal/ai/run.go:243-265 | one lost audit row lets twice the cap through, at every cap |
| `AiCost.FallbackBound` | packages/server/internal/ai/cost.go:125-158 | recorded spend stays within the cap plus one estimate per further concurrent call, and within the cap when calls are sequential |
| `AiCost.FallbackBoundMet` | packages/server/internal/ai/cost.go:125-158 | a run that reaches the cap plus, for each further call, the smaller of cap and largest estimate |
| `AiCost.FallbackBoundExact` | packages/server/internal/ai/cost.go:125-158 | that is the least upper bound of the recorded spend when no cost is negative, for every cap, width and largest positive estimate |
| `Placeholders.Rewrite` | packages/server/internal/db/db.go:37-57 | the loop computes the rewriting, and does nothing on SQLite |
| `Placeholders.MarksAreNumbered` | packages/server/internal/db/db.go:37-57 | the query is its pieces with marks between them; the result is the same pieces with a dollar sign and a decimal after each, and the one after the i-th piece reads i |
| `Placeholders.DecimalReads` | packages/server/internal/db/db.go:51 | digit by digit from the left, a decimal reads as the number written, without leading zeros |
| `Placeholders.MarkersDiffer` | packages/server/internal/db/db.go:51 | different numbers have different marks |
| `Placeholders.PiecesCut` | packages/server/internal/db/db.go:44-50 | the pieces are cut at exactly the marks with an even number of single quotes before them |
| `Placeholders.PiecesSettled` | packages/server/internal/db/db.go:37-57 | no piece holds an unquoted mark |
| `Placeholders.Idempotent` | packages/server/internal/db/db.go:37-57 | rewriting twice is rewriting once, for every string |
| `Placeholders.RoundTrip` | packages/server/internal/db/db.go:37-57 | a query without unquoted dollar signs can be recovered |
| `Placeholders.DollarCollides` | packages/server/internal/db/db.go:37-57 | with one it may not be |
| `Gates.GatedMeans` | packages/server/internal/handlers/alerts.go:61-75 | firings of a key are at least a window apart and everything held back follows one by less |
| `Gates.GatedUnique` | packages/server/internal/handlers/alerts.go:61-75 | requests determine decisions, whatever is forgotten and whenever |
| `Gates.MirrorForgets` | packages/server/internal/events/events.go:261-272 | forgetting windows that are over goes unnoticed |
| `AlertGate.Gate.ShouldEmit` | packages/server/internal/handlers/alerts.go:50-76 | emits exactly when the key was not emitted within five minutes |
| `AlertGate.Gate.Collect` | packages/server/internal/handlers/alerts.go:67-73 | forgets exactly the windows that are over |
| `ConflictWebhook.Limiter.Prune` | packages/server/internal/events/events.go:261-272 | takes out exactly the windows that are over and counts them |
| `ConflictWebhook.Limiter.MakeRoom` | packages/server/internal/events/events.go:367-388 | there is room for a new key unless the map is full of other keys' live windows |
| `ConflictWebhook.Limiter.Trigger` | packages/server/internal/events/events.go:363-401 | fires exactly when no counted firing is recent, always with count 1, uncounted only when the map is crowded; the map never outgrows its limit |
| `RateLimit.Limiter.Allow` | packages/server/internal/auth/auth.go:721-740 | decides as the history without pruning would |
| `RateLimit.Limiter.Prune` | packages/server/internal/auth/auth.go:64-77 | removes exactly the windows that are over and changes no decision |
| `RateLimit.WindowMeans` | packages/server/internal/auth/auth.go:721-740 | the key's entry: when its window ends, and how many requests have come since it began, the refused ones included |
| `RateLimit.WithinLimit` | packages/server/internal/auth/auth.go:721-740 | what a route lets through in a stretch of any length, from its own maximum and the shortest window on its key |
| `RateLimit.LimitMet` | packages/server/internal/auth/auth.go:721-740 | a history that reaches it, for every window, maximum, length and start |
| `RateLimit.LessThanTwiceMax` | packages/server/internal/auth/auth.go:721-740 | less than twice a route's maximum in any stretch of its window, when no route on the key has a shorter one |
| `RateLimit.TwiceMaxExactly` | packages/server/internal/auth/auth.go:721-740 | twice a route's maximum bounds what it lets through in a stretch exactly up to the shortest window on the key and one tick, or short of two of them when the maximum is one |
| `RateLimit.SharedKeyBreaksBound` | packages/server/internal/handlers/signup.go:31-32 | behind the group's limiter of 60 a minute, two sign-ups pass every 61 seconds against 5 an hour, from any history and for any number of times |
| `KillSwitch.WellFormedIffConstructed` | packages/server/internal/handlers/ai.go:1412-1436 | the checker accepts exactly `global` and what the scope constructors build from usable ids |
| `KillSwitch.OneSwitchStops` | packages/server/internal/ai/killswitch.go:40-71 | for usable ids one switch stops exactly its own calls in addition |
| `KillSwitch.Switchboard.IsKilled` | packages/server/internal/ai/killswitch.go:53-71 | true exactly when some relevant scope is on; no capability skips two |
| `KillSwitch.Switchboard.SetKill` | packages/server/internal/ai/killswitch.go:76-101 | the cache moves only with the stored row |
| `KillSwitch.Switchboard.LoadAll` | packages/server/internal/ai/killswitch.go:105-132 | the cache is rebuilt to equal the table |
| `KillSwitch.StepSettling` | packages/server/internal/ai/killswitch.go:76-132 | exactly one kind of step breaks the invariant that pending writes carry the row's value: a call that changes the row while a reload or another call on the scope is under way |
| `KillSwitch.SettledRunsAgree` | packages/server/internal/ai/killswitch.go:76-132 | over every run without such a step, cache and row agree at the scope whenever nothing is under way |
| `KillSwitch.OvertakenParts` | packages/server/internal/ai/killswitch.go:76-132 | and every such step can end with them apart |
| `KillSwitch.WritesOnce` | packages/server/internal/ai/killswitch.go:76-132 | each call and each reload writes the cache once |
| `KillSwitch.ReloadSettles` | packages/server/internal/ai/killswitch.go:106-132 | a reload that reads after the scope's last store and writes last settles it |
| `KillSwitch.StaleReloadRevives` | packages/server/internal/ai/killswitch.go:76-132 | a reload overtaken by a call undoes it in the cache, at any scope and from any state |
| `KillSwitch.OverlappingCallsPart` | packages/server/internal/ai/killswitch.go:76-101 | so do two overlapping calls on one scope |

## Left out

- Cryptography: the keyed hash and the token hash are injective by construction; secrets, timing and bcrypt are not part of this model.
- JSON encoding of a compaction record's details: it is one opaque symbol of the payload, and ordinary details that happen to parse as one are not modelled.
- AuditLog.Log.Append: the path where loading the chain head fails and the row is written anyway is not modelled.
- AuditRuns.EveryRunVerifies: rows posing as compaction records are outside it, since no caller of the append writes that action; SQL failures during backfill are covered by `BackfillResumes` only.
- Listing all tenants for a verification of every chain: one loop around the single-tenant verifier.
- RegistrationRuns.NoRebindingWithoutPossession: removal of devices by an administrator is not an event, and neither is the dedup pass.
- TokenStore.Store.Register: the registration secret, an unreadable device cap, device attributes other than tenant, host, address and last-seen time, audit rows and webhooks are left out, and statements are assumed to succeed.
- DeviceCap.FullTenantFrozen: removal of devices by an administrator, which makes room again, is not an event.
- Tokens stored in plain text before hashing, and their migration.
- AgentProtocol.StandingIsTally: the agent keeps one identity (tenant, host name, hardware address) and makes one request at a time; removal of its device or tokens by an administrator is not an event.
- ProtocolRefinement.RunRefines: the statements of a handled request other than the rotation's transaction are assumed to succeed, and a token just generated is not yet known to the server.
- AuditBackfill.BackfillOntoChain: when the top of the chain is walked last and holds the slot that the first unsigned row gets, two rows share it and the order of the query is open.
- AuditRetention.EveryPassExact: for one server whose clock does not go back; its runs end at the first rejected pass, and `AuditFaults.AnyPassExact` goes on from there.
- AgentProtocol.HeartbeatLoop: sleeping and backoff times are left out; the loop runs over a given list of turns.
- AiCost.Meter.Run: the gates before the reservation, 64-bit overflow, the change of the counter's key at midnight UTC, and Redis failing between two commands are left out.
- RateLimit.Limiter.Allow and AlertGate.Gate.ShouldEmit: the Redis variants are left out.
- Placeholders.Rewrite: a char stands for one byte; comments, double-quoted names and dollar quoting are not recognised, as in the source.
- Tables that refer to devices but are missing from the dedup list, such as `ai_rollback_probes`: the pass does not touch them and nothing is claimed about them.
- Redis publish and subscribe, several server nodes with separate caches, HTTP, TLS, mail, the dashboard, the command line tool, inventory and patch collectors: input and output without state of their own.
