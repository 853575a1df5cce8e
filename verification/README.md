# A family ledger and its sync server, as Dafny proofs

This project models the two stateful cores of the expenses app and its small
algorithms, and proves what they are for.

**The record server** (Go, `backend/`). Rows, blobs, per-family sequence counters,
usage counters, snapshots and migration records form one value, `Db`; the open
database is the class `Database`, whose methods are the queries. Each handler is a
method that works step by step on it and rolls back on error, proved against a
specification on values. Every handler runs in one transaction of a single-writer
database, so `Server` puts them together as a state machine; its theorems are about
whole runs. `Convergence` adds a pulling and pushing device, `SnapshotRuns` the round
trip through snapshots, `History` a log that says where every version and every byte
comes from.

**The ledger** (TypeScript, `src/services/balance.service.ts`). Balances are stored
and moved by every operation. `Ledgers.Ledger` is that database; `LedgerRows`
says what each operation stores and when it goes through; `LedgerLaws` and `Flows` prove that the stored balances are sums over the stored transactions, that
money is conserved, and that an edited transfer is a reverted one applied anew.

**Algorithms.** The amount evaluator against its grammar, the mortgage payment
against monthly amortisation, the AAD encoding and its parser, the last-write-wins
merge as a join, and the fast edit-distance test against the true distance.

## Reading order

| file | contents |
|---|---|
| `Wrappers`, `Sequences`, `BigEndian`, `Numbers` | options, results, bytes, sets of elements, big-endian integers, rounded amounts |
| `Tables`, `Records`, `Push`, `Pull`, `Snapshots`, `Migrations`, `Cursor` | tables, queries and the handlers |
| `Invariants`, `Server` | what holds in every state, how states follow each other, the state machine |
| `Flush`, `Convergence`, `SnapshotRuns`, `History`, `Timestamps` | theorems across operations and over runs |
| `Exchange`, `Replies` | one push and its readers; what the answer to a batch says |
| `Cleanup` | the nightly jobs over runs |
| `Ledger`, `LedgerLaws`, `LedgerRows`, `Flows`, `Integrity` | the ledger and its laws |
| `Lww`, `Aad`, `AmountGrammar`, `AmountLexer`, `MathParser`, `AmountValues`, `DebtPayments`, `EditDistance` | algorithms |

## Choices

- A timestamp is its text with its reading as an instant, if it has one (section 5.6
  of RFC 3339); a JSON column is a map, or text that is none. SHA-256 is an arbitrary
  function.
- Identifiers the server generates are counters, so a fresh one is never in use.
- Queries without an order list their rows in any order; Go maps are visited in any
  order. Loops over them pick arbitrarily.
- Money is whole minor units. Where the source uses floating point the model uses
  exact reals, in the evaluator extended by infinities and not-a-number.
- A device is a map from record id to row and a cursor; it may fail on any row, and
  may start over from the beginning.
- Formatted times are never empty text, and the migrate handler stores an empty
  deletion time as NULL (`backend/internal/family/handlers.go:485-488`); so no row has
  an empty deletion time, which readers would take for "not deleted".
- Ledger invariants speak of runs whose callers pass stored rows to single-row reverts
  and edits; what happens otherwise is stated exactly by `RevertKeepsIff` and
  `ReplaceKeepsIff`.

## Where code and documentation differ

The code is what is modelled.

- `Upsert` computes the last-write-wins merge to validate timestamps only and stores
  the incoming map; the comment at `backend/internal/records/service.go:202-204`
  speaks of a merge of the two. They agree exactly if no field is dropped, taken back or
  respelled (`StoredIsMergeIff`); an accepted push can do so (`AcceptedPushCanTurnBack`).
- `RestoreSnapshot` takes a snapshot id without entries for a snapshot of nothing:
  every record of the family becomes a tombstone (`RestoringNothingErasesAll`). The
  handler answers 404 for an unknown date (`backend/internal/snapshot/handlers.go:99-113`),
  so the service sees a missing id only if the snapshot is pruned between that lookup
  and the transaction.
- A migrated record stays on devices of the old family
  (`MigratedRecordStaysBehind`), and a snapshot that contains it can no longer be
  restored there (`RestorableIff`).
- `src/db/models.ts:80-84` says the principal of a debt payment is set on the OUT leg
  only; `getBalanceDelta` reads it from the IN leg, where the form also writes it.
- A trailing operator is stripped with white space behind it, but white space
  elsewhere makes an amount malformed (`src/services/math-parser.ts:28`).
- `replaceTransfer` does not require the two new legs to share a group id, while
  `applyTransfer` does; an edit that makes use of it leaves a group without two legs
  (`GroupsStayWholeIff`, `MismatchedEditBreaksGroups`). The application's own callers pass
  a shared id (`src/components/transactions/TransactionInput.tsx:2554`, `2652`).
- The digest text of a map does not determine the map in general; `TellsApartIff` says
  over which bytes it does. Timestamps contain neither '=' nor newline, so it does for the
  application's maps unless a field name contains a newline.

## Model

| member | source | states |
|---|---|---|
| Tables.Database.InsertBlob | backend/internal/records/service.go:136-144 | a blob is stored under a fresh id, or nothing happens when the family does not exist |
| Tables.Database.AdvanceFamilySeq | backend/internal/records/service.go:146-150 | returns the family counter and leaves it one higher; no family, no change |
| Tables.Database.InsertRecordMeta | backend/internal/records/service.go:158-173 | inserts exactly when the id is globally new, the foreign keys exist and (family, seq) is free |
| Tables.Database.UpdateRecordMeta | backend/internal/records/service.go:241-253 | writes the listed columns only, if blob and editor exist and (family, seq) is free: type, author and family stay |
| Tables.Database.UpdateRecordMetaFamily | backend/internal/family/service.go:583-596 | writes the listed columns and moves the row to the new family, under the same constraints there |
| Records.Upsert | backend/internal/records/service.go:93-256 | answers and leaves the tables as the specification `Decide`/`After` says; conflicts, rejections and unreadable timestamps write nothing |
| Server.UpsertNeverFailsInside | backend/internal/records/service.go:93-256 | in every reachable state an upsert by a known user in a known family never meets an infrastructure error: the unique sequence index and the foreign keys cannot refuse it |
| Server.AcceptedUpsertKeeps | backend/internal/records/service.go:202-255 | an accepted upsert keeps every structural invariant, follows the state before it, and adds exactly its bytes to its family |
| Exchange.PushedIsWhatIsPulled | backend/internal/records/service.go:93-256 | after an accepted push every reader sees the bytes, timestamps and deletion mark pushed, by the pusher, at the version and sequence number answered; type and author are those of the first push; no other row of any family shows anything new |
| Exchange.ConflictShowsTheRow | backend/internal/records/service.go:178-200 | a conflict is answered exactly when the record is there at another version, and shows what a pull would show |
| Exchange.RebasedPushIsAccepted | src/services/sync/engine.ts:457-600 | pushing again on the version a conflict has shown gets through exactly if the timestamps are readable |
| Invariants.NextSeqIsFree | backend/internal/records/service.go:146-150 | the number the counter hands out is never in use in its family |
| Invariants.WriteNextKeeps | backend/internal/records/service.go:146-175 | a write at the next sequence number keeps the structure and is above everything a reader has seen |
| Push.PushOne | backend/internal/sync/push.go:203-285 | once the quota is met everything is refused with reason "quota"; a refused record leaves no blob, sequence number or row; an accepted one charges exactly its bytes |
| Push.PushRecordInTx | backend/internal/sync/push.go:203-285 | the loop body refines `PushOne`, with the counter still uncharged |
| Push.PushAllInTx | backend/internal/sync/push.go:199-284 | the loop over the batch: answers in order, accepted bytes summed, the counter in the table still uncharged; the first error ends it |
| Push.PostPush | backend/internal/sync/push.go:178-326 | the whole transaction: tables and answer are those of the batch specification; an error rolls everything back; 413 only if nothing was accepted and the quota was met |
| Push.BatchIsOneByOne | backend/internal/sync/push.go:199-284 | a batch that commits leaves exactly the tables of its records pushed one at a time up to the first the quota turns away, with the same answers; everything from there on is refused with reason "quota" |
| Push.CutExists | backend/internal/sync/push.go:199-220 | the first record the quota turns away, or the end of the batch, always exists |
| Push.EveryRecordAnsweredOnce | backend/internal/sync/push.go:181-284 | accepted and conflicting ids together are the ids of the batch, with multiplicity |
| Push.UsageRisesByAcceptedBytes | backend/internal/sync/push.go:276-291 | the usage counter of the family rises by the sum of the accepted blob sizes and no other counter moves |
| Server.PushAbortsIff | backend/internal/sync/push.go:260-306 | a push by a known user in a known family is rolled back exactly if one of its records, reached within the quota, meets a timestamp the merge has to read and cannot |
| Replies.PushIsExplained | backend/internal/sync/push.go:178-326 | a push that is not rolled back, told from what readers see before each turn: a record is taken, at the version after the one it names and under the next number, unless the quota of 200 MiB was met by then, its row is there at another version, or it is not there and the id is another family's or it names a parent; only the second kind of conflict shows anything, and that is what a pull of the row would show; the reply lists these answers in the order of the batch |
| Replies.QuotaExceededIff | backend/internal/sync/push.go:276-306 | the answer is 413 exactly if some record is too much for the family as the push found it and every record before it is stale |
| Replies.ErrorAnswersIff | backend/internal/sync/push.go:287-300 | 500 for an unknown family alone, 400 exactly for a record within the quota with an unreadable timestamp; errors and 413 leave the tables as they were |
| Timestamps.StoredIsMergeIff | backend/internal/records/service.go:202-251 | after an accepted update the row holds the pushed map; that is the last-write-wins merge with the old one if and only if every old field is pushed again, unchanged or with a later time |
| Timestamps.AcceptedPushCanTurnBack | backend/internal/records/service.go:202-251 | in a valid state a push can be accepted that takes one field's time back and drops another |
| Timestamps.EveryStateIsReadable | backend/internal/records/service.go:125-128 | accepted pushes store readable timestamps only, and snapshots and restores keep them: without unreadable ones brought by a migration every stored map is readable in every state of every run |
| Timestamps.PushNeverRollsBack | backend/internal/sync/push.go:149-163 | along such runs a push by a known user, whose own timestamps the handler has let pass, is never rolled back |
| Server.RunKeeps | backend/internal/sync/push.go:191-293 | a push keeps all invariants, the 200 MiB cap included |
| Lww.MergeUpdatedAtMap | backend/internal/records/lww.go:26-55 | succeeds exactly if every compared timestamp is readable; the result is a function of the two maps although the loop visits keys in any order; hasWinner iff some field is new or strictly later |
| Lww.WinnerIffChanged | backend/internal/records/lww.go:26-55 | hasWinner exactly when the merge changes the current map |
| Lww.MergeIsJoin | backend/internal/records/lww.go:26-55 | on instants one merge is the pointwise join |
| Lww.FoldIsLatest | backend/internal/records/lww.go:26-55 | folding merges leaves for each field the latest instant found anywhere |
| Lww.FoldIgnoresOrderAndRepetition | backend/internal/records/lww.go:26-55 | two lists of maps with the same elements, in any order and repetition, leave the same instants |
| Pull.FetchSince | backend/internal/db/queries.sql:304-320 | the first rows above the cursor in sequence order, each joined with its blob, none missing; fewer than asked only at the end |
| Pull.GetPull | backend/internal/sync/pull.go:39-114 | errors exactly for an unreadable cursor or a limit outside 1..500; otherwise a page of the next rows, hasMore exactly if a row lies above it, and the cursor of its last row |
| Pull.ApplyPrefixKeepsSynced | src/services/sync/engine.ts:634-676 | applying any prefix of a page, the cursor moving with it, leaves the device with every row up to its cursor |
| Pull.LastPageCompletes | src/services/sync/engine.ts:686-694 | after a page without hasMore the device has the whole family view |
| Pull.ServerKeepsSynced | backend/internal/sync/pull.go:66-109 | whatever the server does meanwhile, rows up to the device cursor are unchanged or have moved above it |
| Cursor.CursorRoundTrip | backend/internal/sync/cursor.go:12-43 | decoding undoes encoding for every signed 64-bit sequence number >= 0; what a negative one encodes to is rejected |
| Cursor.PaddedCursorRoundTrip | backend/internal/sync/cursor.go:24-31 | the padded spelling is accepted and means the same |
| Cursor.RawRoundTrip | backend/internal/sync/cursor.go:12-16 | unpadded base64url, section 5 of RFC 4648, is read back for every byte string |
| Convergence.Replica.ApplyPage | src/services/sync/engine.ts:634-696 | rows are applied one by one up to the first that fails; the cursor is that of the last applied row, or the server's own after a whole page |
| Convergence.Replica.PullSince | src/services/sync/engine.ts:616-700 | on a quiet server: without a failing row the device ends with the whole family, all pages but the last are full and (pages - 1) * 500 is at most the rows above the cursor; with one it stops in sync right before it |
| Convergence.PageKeepsInSync | src/services/sync/engine.ts:634-696 | a page or any prefix of one, and the cursor text it leaves (through encode and decode), keep the device in sync and never move it back |
| Convergence.ClientStaysInSync | backend/internal/sync/pull.go:66-109 | over every interleaving of pushes, snapshots, restores, migrations, prunes and reconciles with one device's own pushes and pages of any size, from its cursor or from the start, applied wholly or in part: the device always has every row up to its cursor exactly as the server has it |
| Convergence.AnyPageKeepsInSync | src/services/sync/engine.ts:1375-1393 | a page asked for from the start, as after a restore, with rows and stored cursor kept, leaves the device in sync too |
| Convergence.PullConverges | backend/internal/sync/pull.go:66-114 | when a page without hasMore has been applied, the replica contains the family table of that moment; it equals it exactly if no id the device ever received has left the family |
| Convergence.NoStrangersWithoutMigration | backend/internal/sync/pull.go:66-114 | without a migration out of the family no received id ever leaves it, so the replica equals the table |
| Convergence.MigratedRecordStaysBehind | backend/internal/family/service.go:579-597 | over a history: a device that had a record when it migrated away holds the same old row in every later state, whatever it pulls, until the record is back in the family |
| Convergence.RestoreReachesTheClient | src/services/sync/engine.ts:616-700 | snapshot, any events but a migration out of the family, restore before expiry, then pulls from whatever cursor or from the start: the device's undeleted rows are exactly the records live at the snapshot, with the same bytes, type, timestamps, author and editor |
| Flush.FastForward | src/services/sync/engine.ts:341-358 | after a push the cursor moves to the last accepted number exactly if the sorted numbers follow it without a gap |
| Flush.FastForwardIff | src/services/sync/engine.ts:341-358 | the cursor moves exactly when the family counter stood right above it before the push; after the top row has migrated away a device may have seen every row and still not move |
| Flush.FastForwardIsSafe | src/services/sync/engine.ts:341-358 | when the cursor moves, no row is skipped: the device is in sync at the new cursor |
| Flush.PushTakesNext | backend/internal/sync/push.go:276-284 | accepted records take consecutive sequence numbers from the counter on, in answer order; every other row is the old one |
| Flush.OwnRowsLand | src/services/sync/engine.ts:341-358 | after its push the device holds every accepted record as the server stores it, and its other rows as before |
| Convergence.Replica.FlushBatchOnce | src/services/sync/engine.ts:282-358 | server and device after one flush are as specified |
| Snapshots.CreateSnapshot | backend/internal/snapshot/service.go:46-119 | existing snapshot of the day: its id and no change; otherwise one snapshot with one entry per live record, or nothing |
| SnapshotRuns.SnapshotCanBeTaken | backend/internal/snapshot/service.go:84-107 | in every reachable state taking a snapshot of a known family cannot fail on a constraint |
| SnapshotRuns.TakenContent | backend/internal/snapshot/service.go:84-107 | a snapshot holds the bytes, type, timestamps, author and editor of exactly the live records |
| Cleanup.SnapshotIsTaken | backend/internal/snapshot/service.go:46-119 | a new snapshot is the family's of that date, expires 30 days later, and has one entry per live record with every column of its row |
| Snapshots.RestoreEntries | backend/internal/snapshot/restore.go:74-125 | puts every entry back at a sequence number of its own, in whatever order the query lists them; succeeds exactly if `CanRestore` allows it |
| Snapshots.TombstoneOthers | backend/internal/snapshot/restore.go:127-164 | every live record the snapshot lacks becomes a tombstone with its own content; never fails in a structured state |
| Snapshots.RestoreSnapshot | backend/internal/snapshot/restore.go:45-175 | exactly the planned rows are written, each at a distinct sequence number above the old counter; the cursor returned is the last number used, 0 if nothing was written; a failure changes nothing |
| Server.RestoreKeeps | backend/internal/snapshot/restore.go:45-175 | a restore keeps all invariants; what it writes is above every number a reader can have seen |
| SnapshotRuns.RestorableIff | backend/internal/snapshot/restore.go:74-123 | in a reachable state a restore goes through exactly when no record of the snapshot has moved to another family |
| SnapshotRuns.RestoredContent | backend/internal/snapshot/restore.go:74-164 | after a restore the live content of the family is exactly the saved content |
| SnapshotRuns.RestoreWrites | backend/internal/snapshot/restore.go:74-164 | column by column: an entry's row gets the saved content, a live row without an entry only the deletion mark, both the next version and a number above the old counter; no other row and no other table changes |
| SnapshotRuns.ErasedRow | backend/internal/snapshot/restore.go:137-164 | a live record the snapshot lacks is marked deleted at the time of the restore |
| SnapshotRuns.RestoringNothingErasesAll | backend/internal/snapshot/restore.go:54-64 | restoring an id that has no entries turns every live record of the family into a tombstone |
| SnapshotRuns.SavedContentStays | backend/internal/snapshot/prune.go:24-33 | as long as a snapshot exists its entries and the bytes they name do not change |
| SnapshotRuns.SnapshotRoundTrip | backend/internal/snapshot/restore.go:45-175 | over every run between taking and restoring: restored exactly if no snapshot record has left the family, and then the live content is exactly that of the moment of taking; otherwise nothing changes |
| SnapshotRuns.UnexpiredSnapshotRoundTrip | backend/internal/snapshot/service.go:46-119 | before expiry, with no migration out of the family, the round trip always succeeds |
| Snapshots.PruneExpiredSnapshots | backend/internal/snapshot/prune.go:13-22 | removes the snapshots expired before now, with their entries |
| Cleanup.ExpiredGo | backend/internal/snapshot/prune.go:13-22 | exactly the snapshots that expired before now go; nothing else changes |
| Cleanup.SnapshotLivesIff | backend/internal/snapshot/prune.go:13-22 | over a run, a snapshot is there exactly until the first nightly job that runs more than 30 days after it was taken |
| Snapshots.PruneOrphanBlobs | backend/internal/snapshot/prune.go:24-33 | removes the blobs named by no row and no entry |
| Cleanup.PruneKeepsTheNamed | backend/internal/snapshot/prune.go:24-33 | the blobs left are exactly those of before that a row or an entry names, unchanged; nothing else changes |
| Cleanup.PruneThenReconcile | backend/internal/records/quota.go:26-32 | in any run, a prune and a reconcile leave each counter at the bytes of the blobs that some row or entry names |
| Server.PruneOrphansKeeps | backend/internal/snapshot/prune.go:24-33 | pruning never takes a blob a row or an entry needs; usage may then exceed the stored bytes, never fall short |
| Snapshots.ReconcileUsage | backend/internal/records/quota.go:30-32 | sets each counter to the stored bytes of its family |
| Server.ReconcileKeeps | backend/internal/records/quota.go:26-32 | after reconciling each counter equals the stored bytes and has not risen |
| Migrations.MoveRecord | backend/internal/family/service.go:515-600 | one record moved as specified: updated in place if it is the source's, inserted if new, refused if another family has the id |
| Migrations.MigrateSolo | backend/internal/family/service.go:459-669 | fails with the tables unchanged, or commits what the specification says |
| Migrations.MigrationEffect | backend/internal/family/service.go:459-669 | a first migration that succeeds: every listed record is in the target with the content sent, at consecutive new numbers, with type and author of the row it had; the caller has left the source; the target is charged; no row or counter of a third family, and no row not listed, has changed |
| Server.MigrationIsIdempotent | backend/internal/family/service.go:475-489 | any time after a migration has committed, a call with its id changes nothing: the same caller gets the stored result, another one is refused, and so is a call that names one family twice |
| Migrations.MoveAllSucceedsIff | backend/internal/family/service.go:513-600 | the records move exactly if there are none, or the target exists, each id is listed once and is new or the source's own, every editor is known, and so is the author of each new one; the sequence index never stands in the way |
| Server.MigrationSucceedsIff | backend/internal/family/service.go:459-669 | a first migration goes through exactly if the caller exists and is a member of the target or invited to it (an invite of the target for his address, letter by letter up to ASCII case), the families differ, the records are movable and their bytes fit the target's quota; the sent author counts for new ids alone |
| Server.MigrationFailsWith | backend/internal/family/service.go:459-669 | and why it does not: same family; no right to enter; the first record that does not fit has an id taken outside the source or earlier in the list; or the bytes exceed 200 MiB |
| Server.MigrationKeeps | backend/internal/family/service.go:602-642 | a migration keeps all invariants, the quota included |
| Server.Serve | backend/internal/db/tx.go:9-31 | each handler takes exactly the step of the state machine that its event names |
| Server.StepKeeps | backend/internal/db/open.go:32-35 | every step keeps every invariant and follows the state before it |
| Server.EveryStateIsValid | backend/internal/snapshot/restore.go:37-38 | in every state of every run: counters above all sequence numbers, numbers distinct per family, blobs of rows and entries present, stored bytes <= usage <= 200 MiB; and each state follows every earlier one (a row is untouched, or has a higher version and a number above the old counter; type and author never change) |
| History.LogTellsTheTables | backend/internal/records/service.go:178-255 | in every state of every run: a record's version is the number of its accepted writes, each accepted push named the version just before it, and bytes, editor and timestamps of every row and every snapshot entry were supplied together by one single push or migrated record of that id |
| History.NoLostUpdate | backend/internal/records/service.go:178-200 | of all pushes of one record naming the same parent version at most one is ever accepted, over whole runs and across families |
| History.RestoreKeepsTold | backend/internal/snapshot/restore.go:109-122 | a restore mixes nothing: each row it writes shows one entry or keeps its own content |
| Ledgers.Ledger.GetMinDisplayOrder | src/services/balance.service.ts:54-58 | the least display order of a day, 1 for an empty day |
| Ledgers.Ledger.ApplyTransaction | src/services/balance.service.ts:60-110 | row and balance change together or not at all; the rows and accounts handed to sync are the stored ones, and cover every row that changed |
| Ledgers.Ledger.RevertTransaction | src/services/balance.service.ts:112-149 | the balance is taken back and the row deleted together, or nothing changes; what is handed to sync is current and complete |
| Ledgers.Ledger.ReplaceTransaction | src/services/balance.service.ts:151-237 | an edit within an account or across two reposts the balances and replaces the row, or changes nothing; what is handed to sync is current and complete |
| Ledgers.Ledger.ApplyTransfer | src/services/balance.service.ts:239-339 | both balances and both rows, also of one account, or nothing; refused when the legs' group ids differ; what is handed to sync is current and complete |
| Ledgers.Ledger.RevertRecords | src/services/balance.service.ts:356-375 | the loop over a group: accounts kept in memory always equal the stored ones |
| Ledgers.Ledger.RevertTransfer | src/services/balance.service.ts:341-392 | takes back all legs of a group or none; an empty group is an error; what is handed to sync is current and complete |
| Ledgers.Ledger.ReplaceTransfer | src/services/balance.service.ts:394-527 | two legs out, two legs in, over one set of accounts in memory; every account handed to sync equals the stored row at commit |
| Ledgers.Ledger.AdjustBalance | src/services/balance.service.ts:529-557 | sets the balance and nothing else |
| LedgerLaws.NewRowIsFirst | src/services/balance.service.ts:71-78 | a row just applied stands before every other row of its day |
| LedgerLaws.EditedRowPlace | src/services/balance.service.ts:204-218 | an edited row keeps its key and creation time; it keeps its place in the day, or comes first in its new one |
| LedgerLaws.NewLegsPlace | src/services/balance.service.ts:299-318 | the IN leg of a new transfer comes first in its day, the OUT leg before every older row of its own |
| LedgerRows.ApplyStores | src/services/balance.service.ts:60-110 | the new row has every column of the transaction passed, creation and update time now, and the place before the first row of its day (0 on an empty day); no other row changes, and of the accounts only the balance and time of its own |
| LedgerRows.RevertStores | src/services/balance.service.ts:112-149 | exactly the row with the key passed goes; only its account's balance and time change |
| LedgerRows.ReplaceStores | src/services/balance.service.ts:204-218 | an edit stores every column of the new transaction, date included, under the old key; nothing of the old row stays but its creation time and, within one day, its place |
| LedgerRows.ApplyPairStores | src/services/balance.service.ts:299-318 | both legs are stored with every column passed, as of now, the OUT leg first and the IN leg before it |
| LedgerRows.RevertPairStores | src/services/balance.service.ts:341-392 | exactly the rows of the group go; only the balances and times of their accounts change |
| LedgerRows.ReplacePairStores | src/services/balance.service.ts:394-527 | the rows of the group are gone and both new legs stored, each with the creation time of the first old leg of its direction, or now if there is none |
| LedgerRows.AdjustStores | src/services/balance.service.ts:529-557 | the balance is the one passed, as of now; no row changes |
| LedgerRows.SucceedsIff | src/services/balance.service.ts:60-557 | each operation goes through exactly if every account it needs exists and is not archived, the keys asked for are free, the group ids agree where they must, and the group has the legs it needs |
| LedgerRows.ErrorIsTrue | src/services/balance.service.ts:60-557 | a failure says what is really the matter: the missing account, an archived one, differing groups, the number of legs, a taken or missing key |
| LedgerLaws.Perform | src/services/balance.service.ts:60-557 | each operation takes exactly the step of its kind |
| LedgerLaws.ApplyKeeps | src/services/balance.service.ts:33-110 | a new transaction moves the balance by exactly what its row adds to the sum |
| LedgerLaws.RevertShifts | src/services/balance.service.ts:112-149 | a revert leaves the sums off by the difference between the stored row and the one passed |
| LedgerLaws.PairKeeps | src/services/balance.service.ts:259-318 | both legs keep balances and sums together, also in one account |
| LedgerLaws.StepKeeps | src/services/balance.service.ts:60-557 | every operation but a manual change keeps balances equal to sums |
| LedgerLaws.BalanceIsDerived | src/services/balance.service.ts:33-557 | over every run whose callers pass stored rows, each balance is what was set by hand plus the signed effects of the account's stored transactions |
| LedgerLaws.RevertKeepsIff | src/services/balance.service.ts:112-149 | a caller with a stale copy keeps that true exactly if the copy has the effect of the stored row |
| LedgerLaws.ReplaceKeepsIff | src/services/balance.service.ts:151-237 | an edit by a caller with a stale copy keeps it true exactly if the copy has the effect of the stored row |
| Flows.EditIsRevertThenApply | src/services/balance.service.ts:394-527 | editing a two-legged transfer has the outcome, balances, keys, rows and display orders of reverting it and applying the new legs, up to creation times, as long as the new legs share a group; if they do not, applying would refuse where the edit goes on |
| Flows.EditKeepsCreation | src/services/balance.service.ts:489-507 | edited legs keep the creation times of the legs they replace |
| Flows.NetWorthIsConserved | src/services/balance.service.ts:33-52 | net worth is what was set by hand plus incomes minus expenses minus the interest parts of debt payments; transfers of equal legs neither make nor lose money |
| Flows.InterestOfSplit | src/services/debt-payment.service.ts:14-26 | the interest part that net worth loses by a debt payment is the one the payment split computes |
| Flows.StepKeepsRefs | src/services/integrity.service.ts:31-39 | no operation leaves a row without its account |
| Flows.GroupsStayWholeIff | src/services/integrity.service.ts:15-29 | an operation keeps every transfer group at two legs exactly if it fails or its caller keeps the rule: a single row neither joins nor leaves a group, two new legs share one that is unused but for the legs they replace; so an edit whose new legs carry different group ids, if it goes through, breaks one |
| Flows.MismatchedEditBreaksGroups | src/services/balance.service.ts:394-527 | such an edit can go through: two legs of one group become one leg each of two groups |
| Integrity.CountOrphanedTransferLegs | src/services/integrity.service.ts:17-29 | counts the groups in use that do not have two legs |
| Integrity.CountOrphanedAccountRefs | src/services/integrity.service.ts:32-39 | counts the rows whose account is missing |
| Integrity.CheckDatabaseIntegrity | src/services/integrity.service.ts:41-92 | reports unreadable tables, then groups without two legs, then rows without their account, with the counts; a semantic check that throws ends the checks without a finding |
| Integrity.CheckAlwaysPasses | src/services/integrity.service.ts:41-92 | along every run whose callers keep the rule on groups the check passes |
| DebtPayments.PaymentIsLeast | src/services/debt-payment.service.ts:28-38 | paid monthly, interest first, the computed payment clears any loan within a term of any number of months; one minor unit less leaves debt after every month of it; zero rate included |
| DebtPayments.PaymentThreshold | src/services/debt-payment.service.ts:28-38 | a whole payment clears the loan in time exactly if it reaches the computed one |
| DebtPayments.SplitIsExact | src/services/debt-payment.service.ts:14-26 | interest and principal add up to the payment, and both lie within it |
| DebtPayments.PrincipalIsPaidIffAboveInterest | src/services/debt-payment.service.ts:14-26 | principal is paid exactly if the payment exceeds the rounded interest |
| DebtPayments.InterestIsAccrued | src/services/debt-payment.service.ts:14-26 | the interest part is the amount owed times the rate, to the nearest minor unit, or the whole payment if that is less |
| DebtPayments.SplitFollowsTheLoan | src/services/debt-payment.service.ts:14-26 | paying the principal part off leaves what one month of the amortisation leaves, to the nearest minor unit, as long as the payment covers the interest |
| MathParser.Tokenize | src/services/math-parser.ts:32-53 | finds the lexemes of the text, or gives up where a character fits none |
| MathParser.MulDivPass | src/services/math-parser.ts:67-89 | leaves the evaluated terms of the expression's unique parse, with their signs between |
| MathParser.AddSubPass | src/services/math-parser.ts:91-106 | evaluates that list to the value of the parse |
| MathParser.EvaluateRaw | src/services/math-parser.ts:18-111 | computes what the text means: the value of its unique reading by the term/factor grammar, rounded after every operation, or null |
| MathParser.NullIff | src/services/math-parser.ts:18-111 | null exactly if the stripped text is no expression or divides by a literal zero |
| MathParser.SumsAreExact | src/services/math-parser.ts:91-108 | no rounding happens in a tree of sums and differences of amounts that are whole in minor units |
| MathParser.TypedSumsAreExact | src/services/math-parser.ts:18-111 | text of plus and minus signs between numbers within the currency's decimals evaluates to the signed total of their digits, in minor units |
| AmountValues.TextHasValue | src/services/math-parser.ts:67-111 | any text without a zero divisor evaluates to the value of its tree in real arithmetic: products, quotients, sums and differences exact, each rounded to the nearest minor unit (halves upwards) before the next |
| AmountValues.ProductOfTwo | src/services/math-parser.ts:74-84 | a*b is the exact product of the two numbers in minor units, rounded |
| AmountValues.QuotientOfTwo | src/services/math-parser.ts:74-84 | a/b is the exact quotient in minor units, rounded, for any divisor but zero |
| AmountValues.SignsAreRead | src/services/math-parser.ts:24-25 | a text spelled with the typographic signs of the key pad is the one spelled with * / and - |
| AmountValues.TrailingOperatorGoes | src/services/math-parser.ts:27-28 | one operator at the end is dropped, with the white space behind it |
| AmountValues.ScaleIs | src/services/math-parser.ts:21-22 | two decimals unless a number from 0 on is given, which is cut to a whole one |
| MathParser.EvaluateExpression | src/services/math-parser.ts:113-117 | the value if it lies in 0..99999999999, else null |
| MathParser.IsAmountOverLimit | src/services/math-parser.ts:119-122 | true exactly for a value above the limit |
| AmountGrammar.ParseSound | src/services/math-parser.ts:67-106 | every alternating list has a tree that is written with it |
| AmountGrammar.GrammarUnambiguous | src/services/math-parser.ts:67-106 | a lexeme list has at most one tree, so precedence and left association are forced by the text |
| AmountLexer.LexSound | src/services/math-parser.ts:32-53 | rendering undoes lexing |
| AmountLexer.LexComplete | src/services/math-parser.ts:32-53 | lexing undoes rendering whenever no two numbers are adjacent |
| AmountLexer.WellFormedIffLexes | src/services/math-parser.ts:32-65 | the lexer and the alternation test decide well-formedness |
| AmountLexer.LiteralIsWholeInMinor | src/services/math-parser.ts:45 | a literal with no more decimals than the currency is a whole number of minor units, the one its digits spell |
| AmountValues.DigitsArePositional | src/services/math-parser.ts:45 | the digits of a literal count by powers of ten |
| Aad.LengthPrefixed | backend/internal/crypto/aad.go:86-92 | four big-endian length bytes (truncated to 32 bits) and the content |
| Aad.UpdatedAtMapDigest | backend/internal/crypto/aad.go:94-113 | the hash of the map's canonical text, whatever the iteration order |
| Aad.CanonicalTextIsUnique | backend/internal/crypto/aad.go:97-110 | a map has one canonical text |
| Aad.LessIsAscending | backend/internal/crypto/aad.go:97-102 | keys are listed in ascending byte order: the first byte that differs decides, and a key comes before those it begins |
| Aad.CanonicalTextIsInjective | backend/internal/crypto/aad.go:104-110 | over legible bytes, equal texts come from equal maps: read from the front, or from the back as with timestamps for values |
| Aad.TellsApartIff | backend/internal/crypto/aad.go:104-110 | for any two sets of bytes that keys and values may contain, all maps have different texts if and only if '=' is not in keys and newline not in values, or newline not in keys and '=' not in values, or neither is in keys and no byte is in both |
| Aad.EqualsSignInKeyCollides | backend/internal/crypto/aad.go:104-110 | moving an '=' between key and value keeps the text, so it may stand in keys or in values but not in both |
| Aad.NewlineInValueCollides | backend/internal/crypto/aad.go:104-110 | with a newline in a value a map of one key and a map of two have one text |
| Aad.NewlineInKeyCollides | backend/internal/crypto/aad.go:104-110 | with a newline in a key a map of one key and a map of two have one text |
| Aad.NewlineMovesBetweenLines | backend/internal/crypto/aad.go:104-110 | a newline allowed in both can move from the front of a key to the end of the value before it |
| Aad.SerializeAad | backend/internal/crypto/aad.go:36-84 | the encoding, or an error exactly for a nonce that is not 24 bytes |
| Aad.ParseUndoesEncode | backend/internal/crypto/aad.go:41-92 | a parser reads every field back |
| Aad.EncodeIsInjective | backend/internal/crypto/aad.go:36-84 | equal encodings agree on every field and on the digest |
| Aad.EncodingDeterminesInput | backend/internal/crypto/aad.go:36-113 | with a hash that tells the two texts apart, over legible bytes, the encoding determines the input |
| BigEndian.Be64RoundTrip | backend/internal/sync/cursor.go:13-14 | eight big-endian bytes are read back |
| EditDistance.LevenshteinAtMost1 | src/utils/currency-search.ts:59-84 | true exactly if the recursive Levenshtein distance is at most 1, for all strings; terminates through its argument swap |
| EditDistance.LevForcedEdit | src/utils/currency-search.ts:68-82 | at the first mismatch the one edit is forced |

## Left out

- PostPush: the checks on a request before the transaction (UUIDs, record types, blob
  length and suite byte, timestamp formats), headers, events and Web Push.
- FetchSince: order and completeness are promised for tables with distinct sequence
  numbers, which every reachable state has.
- GetPull: the same condition; JSON and base64 of the answer are not modelled.
- RestoreSnapshot: success is characterised for structured tables, which every
  reachable state has; the barrier event and the audit row are not modelled.
- MigrateSolo: the audit row; request limits checked by its HTTP handler.
- PullSince: one call against tables nobody writes meanwhile; interleaving is the
  subject of `ClientStaysInSync`. Decryption and local writes are a set of rows that fail.
- FlushBatchOnce: the outbox table, retries and conflict resolution; the device's own
  rows enter its replica as the server stored them.
- ReadCursor: the browser's decoder reads a cursor above 2^63 as a number where this
  one counts it as unreadable; no such cursor is ever handed out.
- NetWorthIsConserved: transfers between currencies have legs of unequal amounts and
  are excluded; so are transfer rows touched by the single-row operations.
- CheckDatabaseIntegrity: the eight table reads at the start are one parameter.
- PaymentIsLeast: exact reals; terms that are not a whole number of months.
- PaymentThreshold: the same.
- EvaluateRaw: exact reals instead of IEEE doubles, so sums that lose precision there
  are exact here; a minus sign never occurs in a literal.
- LessIsAscending: the order of bytes, as on the server; the client sorts UTF-16 units,
  which puts characters beyond U+FFFF before some others.
- LevenshteinAtMost1: strings are sequences of Dafny characters; the source compares
  UTF-16 units.
- The columns created_at and last_modified_at, and category, note, currency and other
  columns the ledger only copies.
- Sequence numbers and versions are unbounded; where a cursor is encoded, runs are
  assumed to stay within the signed 64-bit column.
- Leaving or purging a family and purging an account delete rows physically and are not
  steps of the runs; sign-up, new families, memberships and invites are (`Elsewhere`).
- Sign-in, sessions, re-authentication, allowlist and administration.
- Balance corrections for transactions pulled from other devices
  (`src/services/sync/engine.ts:765-900`).
- Storage errors of the browser; the ledger operations fail on their own conditions only.
- `calculateTermSaved` (logarithms) and `filterCurrencies` (a plain filter).
- User interface, stores, backups, exports and schema history.
