# Verified core of Nami Mail

This project models the parts of the Nami Mail server in which local state must survive crashes, provider
rebuilds and concurrent change, and proves what they keep. Each module holds a specification (functions over
values), the code it specifies (a method or class wherever the source changes state, proved equal to the
specification), and theorems about the specification over every input or every run.

| topic | modules | main results |
|---|---|---|
| crash-safe database conversion | `DatabaseEncryption`, `ConversionSafety` | when exactly the mail survives a run of interrupted starts under any keys; one uninterrupted start finishes |
| writes that hit the right message | `MailboxGeneration`, `GenerationRuns`, `FlagsOutbox`, `FlagsAcceptance`, `FlagsDelivery` | when exactly STOREs land on the message they are meant for; grouped STOREs equal one per entry; retries converge while messages move |
| streaming backup | `Backup` | every row accounted for exactly once, whatever the provider, the archive or the transfer does |
| keyset pagination | `MessagePages`, `MessageCursor`, `Utf8`, `Base64Url` | no row skipped or repeated while mail arrives; the cursor text round-trips |
| search mirror | `SqlLike`, `SearchMirror` | the FTS join equals the plain scan after any run of writes, deletes and rebuilds, with the exact condition on batch deletes |
| image cache | `ImageCleanup`, `ImageIndex` | quota and age rules; when exactly entries stay stored under interleaved calls and deferred write-back |
| stored payloads | `StoredPayload`, `PayloadMigration`, `PayloadCache` | the migration preserves meaning and is idempotent; the LRU agrees with a fresh decrypt |
| badges | `Badges` | each sidebar count equals its list, with the exact condition where it does not |
| outbound attachments | `AttachmentFiles`, `AttachmentLinks` | when exactly a file survives interrupted starts; link-counted lifetimes |
| source-event backfill | `RagBackfill` | covered, never twice, within budget; when `exhausted` is wrong |
| body limits | `BodyLimits` | the longest well-formed UTF-8 prefix that fits |

`CrashTrace`, `Keyset`, `Sequences`, `TextOrder` and `Optional` are shared: playing a list of file actions up
to a crash, ORDER BY with LIMIT, filtering loops, SQLite's BINARY collation, and an optional value.

## What is taken as given

- A rename is atomic, and one file action is one step; a process may die before any of them.
- Encryption is ideal: a sealed file or envelope opens only with the key (and associated data) it was sealed
  with, and no plaintext file opens with a key. SQLite opens a zero-byte file as an empty database.
- One statement or transaction of SQLite, and one synchronous stretch of JavaScript, is one step. The account
  write slot named in `mailbox-generation.ts` lines 72-75 serializes the mail steps of one account.
- The schema's primary keys and UNIQUE constraints hold, rowids are positive, and ids are not NULL. Page limits are
  positive, as the routes require.
- A session that was handed some other store because the mail was missing from it does not happen to write the
  very bytes of the missing mail (`WritesNoOldMail`).
- What a provider, a clock, a file system call or the archive's receiver answers is arbitrary at every step
  unless a precondition says otherwise.
- Texts are sequences of Unicode scalar values, except in `BodyLimits`, where they are UTF-16 code units.
  LIKE is modelled on texts without NUL.
- A UID keeps its message within one UIDVALIDITY value, and a rebuilt mailbox gets a value it never had
  (section 2.3.1.1 of RFC 3501). Flag names are non-empty and hold neither a comma nor a NUL.

## Where the code and its comments disagree

The model follows the code in each case.

- `database-encryption.ts` lines 198-202: the rename that quarantines the staged copy may fail and the failure
  is swallowed, while the start goes on as if the copy were safe. `OrdinaryLeftExactly` and
  `MailLostExactlyByFailedQuarantine` state exactly what that leads to and when it costs the mail.
- `database-encryption.ts` line 217 says a zero-byte main file is adopted from the staged copy; line 205 treats
  it as already sealed and drops the copy. The code reaches that state by its own steps, through a failed
  quarantining rename and a session that never writes (`ZeroByteMainExactly`), and the next start that holds the
  copy's key then loses the mail (`TwoStartsLoseTheMail`).
- `sync.ts` lines 760-771: the folder reset keeps rows with a confirmed pending destination, and a folder whose
  generation was never recorded, or was forgotten while the folder was not listed, is not reset at all, so a row can keep a UID of the old generation under the new
  one (`PendingRowSurvivesReset`, `FirstSyncKeepsMovedInRow`, `ForgottenFolderKeepsPendingRow`,
  `OneRowIsMisdirected`). `StoresLandRightExactly` is the exact condition.
- `agent-rag-worker.ts` line 1090 compares with the budget after the row loop has spent it, so `exhausted` can
  be set with rows left (`ExhaustedWronglyExactlyWhenCutShort`).
- `runtime.ts` line 525 cleans up outbound attachments before line 656 builds the application, which migrates
  them; `outbound-attachments.ts` line 695 deletes backups unconditionally (`CleanupFirstSurvivesExactly`).
- `image-cache-index.ts` lines 288-290 promise that an unreadable index is never replaced by an empty one; when
  the first reads of a process fail, its first insert does replace it (`FirstReadsFailing`; `KeptOnDiskExactly` is the
  exact condition).
- `folder-counts.ts` lines 103-107 say the effective mailbox is always a folder path; where it is a spelling of
  INBOX without a folder row, badge and list differ (`InboxBadgeIsItsListExactly`,
  `BadgeMissesAMessageWithoutItsFolder`).
- `db.ts` lines 71-74: the rollback they speak of needs a caller inside a transaction, and `routes/accounts.ts`
  line 410 deletes an account outside one; a throw there leaves messages that no search finds
  (`FailedBatchDeleteHidesItsScope`).
- `message-storage.ts` lines 554-556: the number of unreadable rows in the error is capped at 50
  (`VerifyEncryptedPayloads`).
- `message-storage.ts` lines 625-626 say unreadable rows are reported rather than thrown; the sweep throws when
  there is any, after the rewrite has been committed, although its message says the file was left untouched
  (`MigrateMessageStorage`).
- `message-body-limits.ts` line 55 says the notice cannot be swallowed by a partial tag; with two tags open it can
  (`CutLeavesATagExactlyIfTwoWereOpen`).

## Model

| member | source | states |
|---|---|---|
| DatabaseEncryption.StoreFiles.Recover | apps/server/src/database-encryption.ts:170-223 | Recovery of an interrupted conversion, dying after any file action, leaves the disk and verdict of `RecoverTrace`/`RecoverVerdict` |
| DatabaseEncryption.StoreFiles.ZeroOverwrite | apps/server/src/database-encryption.ts:313-327 | The chunked overwrite from offset 0, with partial writes, passes through exactly the disks of `ZeroTrace` and ends all zero |
| DatabaseEncryption.StoreFiles.FoldLog | apps/server/src/database-encryption.ts:246-261 | Checkpointing makes the main file the committed log image and drops the log, or the process dies before it |
| DatabaseEncryption.StoreFiles.SealCopy | apps/server/src/database-encryption.ts:349-357 | Copying and sealing the staging file; a failed seal or verification takes the copy away and leaves the original alone |
| DatabaseEncryption.StoreFiles.Install | apps/server/src/database-encryption.ts:363-366 | Deleting the original, its log, and renaming the sealed copy, in that order |
| DatabaseEncryption.StoreFiles.EncryptPlaintextStore | apps/server/src/database-encryption.ts:329-369 | The whole conversion leaves the disk of its action list at the point it reached, and the matching outcome |
| DatabaseEncryption.StoreFiles.EnsureDatabaseEncrypted | apps/server/src/database-encryption.ts:375-395 | One start of the application equals `Boot`: recovery first, then the verdict on the main file |
| ConversionSafety.ZeroTraceDestroysHeaderFirst | apps/server/src/database-encryption.ts:313-327 | No partly zeroed original still carries the plaintext header |
| ConversionSafety.ConvertKeeps | apps/server/src/database-encryption.ts:329-369 | Every disk a conversion passes through keeps the mail where recovery looks for it; a completed one leaves main sealed with exactly the mail, log included |
| ConversionSafety.BootKeepsOrLoses | apps/server/src/database-encryption.ts:170-395 | One start under any key, dying anywhere and with any swallowed failure, keeps the mail in one of its six places, or loses it exactly when it finds the only copy staged beside a main file it takes for the store |
| ConversionSafety.MailSurvivesExactly | apps/server/src/database-encryption.ts:170-395 | Over every run of starts and sessions, with every failure the code swallows, the mail as last written survives as plaintext or sealed under a key the disk began with or a start used, if and only if no start finds what it takes to lose it |
| ConversionSafety.OrdinaryLeftExactly | apps/server/src/database-encryption.ts:195-202 | A start leaves the safe places exactly by a swallowed quarantining rename and a session that touches the store; which unsafe place it enters is what the session did |
| ConversionSafety.MailSurvivesEveryRun | apps/server/src/database-encryption.ts:170-223 | While no quarantining rename fails, over every run of starts under any keys, each dying after any file action, the mail as last written survives in main, staging or quarantine, sealed under a key used earlier or plain |
| ConversionSafety.MailLostExactlyByFailedQuarantine | apps/server/src/database-encryption.ts:195-218 | For every start, session and second key: two starts lose the mail if and only if the first start's quarantining rename failed, no older quarantined copy of the mail was left, and the second start drops or buries the staged copy |
| ConversionSafety.CleanStartFinishes | apps/server/src/database-encryption.ts:359-395 | With one key, a start that is not interrupted ends sealed under it with exactly the mail and no staged copy; a later start changes nothing |
| ConversionSafety.OneKeyFinishes | apps/server/src/database-encryption.ts:170-395 | However many starts under one key were interrupted or failed, the first that is not finishes with exactly the mail, and any number of later starts change nothing |
| ConversionSafety.RunSealsUnder | apps/server/src/database-encryption.ts:349-366 | Over every run each sealed file is sealed under a key the disk began with or a start used |
| ConversionSafety.EnoughActionsFinish | apps/server/src/database-encryption.ts:313-395 | A start with enough file actions is never interrupted, however short its writes are |
| ConversionSafety.ZeroByteMainExactly | apps/server/src/database-encryption.ts:195-218 | A run ends with a zero-byte main file beside a staged copy if and only if some start failed to quarantine that copy, its session never wrote, and no later start dropped the copy or wrote the store |
| ConversionSafety.ZeroByteMainDropsStagedCopy | apps/server/src/database-encryption.ts:203-218 | In that state a start with the copy's key drops it, contrary to the comment at line 217, and the mail is lost unless an older quarantined copy holds it |
| ConversionSafety.TwoStartsLoseTheMail | apps/server/src/database-encryption.ts:195-218 | A concrete run of two starts, the first under another key, that reaches the state and loses the mail |
| MailboxGeneration.Selection.PartitionRefused | apps/server/src/mailbox-generation.ts:159-175 | The array is emptied and refilled in place with exactly the allowed entries, in order; the refused ones are returned in order |
| MailboxGeneration.PartitionIsExact | apps/server/src/mailbox-generation.ts:159-175 | The two parts together are the selection, as a multiset, and each holds only what it should |
| GenerationRuns.MoveHitsItsMessage | apps/server/src/mailbox-generation.ts:99-175 | A move let through by the generation check moves the message its row describes |
| GenerationRuns.InvKeptExactly | apps/server/src/sync.ts:745-771 | One delivery, rebuild, acceptance, move, sync, folder removal, send or claim keeps rows, entries and queued moves in agreement with the live mailbox if and only if it is no folder reset that keeps a row whose UID has become another message's |
| GenerationRuns.StoresLandRightExactly | apps/server/src/flags-outbox.ts:265-312 | For every run: at each of its points every STORE that can follow before the next folder reset lands on the message it is meant for, if and only if no reset of the run keeps a row whose UID has become another message's |
| GenerationRuns.ResetIsSafeExactly | apps/server/src/sync.ts:745-771 | The same for one folder reset: safe whatever follows if and only if each surviving row with a real UID still names its own message |
| GenerationRuns.UnfrozenMoveIsNeverSent | apps/server/src/mailbox-generation.ts:99-157 | Over any run a queued move that froze no generation is never sent before it is given up, its row is deleted or its location is lost |
| GenerationRuns.StoresHitTheirMessage | apps/server/src/flags-outbox.ts:265-312 | While resets keep only rows with their own UID, a STORE lands on the accepted message, or on what the local id denotes since it was re-positioned; a placeholder UID hits nothing |
| GenerationRuns.AcceptedMessageHitExactly | apps/server/src/flags-outbox.ts:265-312 | The accepted message is hit if and only if the entry still sits where it was accepted or its id still denotes that message |
| GenerationRuns.PendingRowSurvivesReset | apps/server/src/sync.ts:745-771 | From any world, a rebuild that hands out the UID of a row with a pending destination makes the folder reset keep it |
| GenerationRuns.FirstSyncKeepsMovedInRow | apps/server/src/sync.ts:720-791 | So does the first sync of a folder whose generation was never recorded, for a row moved into it |
| GenerationRuns.ForgottenFolderKeepsPendingRow | apps/server/src/sync.ts:270-331 | A folder missing from one listing forgets its generation while its pending rows stay, so its first sync after it came back keeps them too |
| GenerationRuns.OneRowIsMisdirected | apps/server/src/sync.ts:720-791 | Concretely: one row of INBOX at UID 5, pending or moved in; after a rebuild a flag change accepted on it is stored on another message |
| GenerationRuns.RepositionedEntryIsMisdirected | apps/server/src/flags-outbox.ts:265-312 | An entry accepted elsewhere and re-positioned onto such a row is sent to the other message with nothing further |
| GenerationRuns.ReusedIdDenotesAnotherMessage | apps/server/src/mailbox-generation.ts:99-135 | A rebuild that reuses the UID reuses the local id; where it was accepted, the queued entry is refused |
| GenerationRuns.EntryFollowsItsRow | apps/server/src/flags-outbox.ts:265-312 | Once such a row is moved on, the queued entry is stored on whatever its id denotes now |
| FlagsOutbox.OneByOneCompletes | apps/server/src/flags-outbox.ts:324-333 | The simple form, one STORE pair per permitted entry, gives every targeted slot (flags + add) - remove and touches nothing else |
| FlagsOutbox.KeyInjective | apps/server/src/flags-outbox.ts:316 | Entries share a STORE group if and only if they ask for the same lists of flags |
| FlagsOutbox.GroupByMailbox | apps/server/src/flags-outbox.ts:265-291 | Entries are grouped by current mailbox without loss; entries without a position are counted as dropped |
| FlagsOutbox.GroupByFlags | apps/server/src/flags-outbox.ts:314-323 | Each flag-list pair gets one group holding exactly the UIDs that asked for it |
| FlagsOutbox.Admit | apps/server/src/flags-outbox.ts:305-312 | The generation check keeps exactly the permitted entries and counts the refused ones |
| FlagsOutbox.GroupEffect | apps/server/src/flags-outbox.ts:324-333 | Sending a group, confirmed or not, changes nothing that repeating it would not mend, and keeps earlier groups done |
| FlagsOutbox.ServeMailbox | apps/server/src/flags-outbox.ts:292-337 | What is done under one mailbox lock: its permitted entries are done, the rest of the server untouched |
| FlagsOutbox.PushFlagsRemote | apps/server/src/flags-outbox.ts:238-346 | A push that settles leaves the server as one STORE pair per permitted entry would; pushed + dropped is the number of entries; generationChanged if and only if a positioned entry was refused |
| FlagsOutbox.RetriesAcrossChanges | apps/server/src/flags-outbox.ts:238-346 | Any number of part-way attempts, each with the positions and generations of its moment, then a complete one: a message whose entry that one permits ends at its first flags and the delta, one that no attempt was permitted to write ends as it was |
| FlagsOutbox.RetriesReachTheSameState | apps/server/src/flags-outbox.ts:238-346 | While positions and generations stay the same, part-way attempts and then a complete one leave the whole server as a single complete attempt would |
| FlagsAcceptance.Prepare | apps/server/src/flags-outbox.ts:105-122 | The prepared delta adds only what is missing, removes only what is there, and leads from the stored flags to the patched target |
| FlagsAcceptance.PrepareLocalFlags | apps/server/src/flags-outbox.ts:80-126 | Every known unblocked id is prepared once, every blocked one reported, unknown ones skipped |
| FlagsAcceptance.AcceptedTargetIsReached | apps/server/src/flags-outbox.ts:80-346 | A message that held the row's base flags ends at the local target after any interrupted pushes and a complete one that permits it, wherever it moved meanwhile |
| FlagsDelivery.SameVerdict | apps/server/src/mailbox-generation.ts:99-135 | The push permits an entry if and only if the generation check of the runs sends it, and at the same place |
| FlagsDelivery.PushChangesOnlyMeantMessages | apps/server/src/flags-outbox.ts:238-346 | A push, interrupted or settled, changes flags only on messages its entries are meant for |
| FlagsDelivery.SettledPushDelivers | apps/server/src/flags-outbox.ts:238-346 | After any run whose resets keep only rows with their own UID, a settled push applies each permitted entry's delta to the very message it is meant for and leaves every other message alone |
| Backup.WalkOrderIsTotal | apps/server/src/backup.ts:66-71 | The four-column row order is strict and total on a table with the schema's unique keys |
| Backup.PageContinues | apps/server/src/backup.ts:66-71 | A page read with the last row's cursor is exactly the next part of the walk |
| Backup.NamesDistinct | apps/server/src/backup.ts:117-126 | Two archive paths are equal only for the same number and the same title, past four digits too |
| Backup.VisitsGrow | apps/server/src/backup.ts:347-356 | Walking in order, each folder is opened once, after all folders before it |
| Backup.MailBackup.Fetch | apps/server/src/backup.ts:237-253 | A FETCH runs under the lock of its folder and asks for 1 to 100 UIDs |
| Backup.MailBackup.Settle | apps/server/src/backup.ts:254-288 | One entry of a chunk is delivered, reported with its cause, or stops the chunk with every remaining entry reported (emit error) or left uncounted (closed transfer) |
| Backup.MailBackup.RefuseAll | apps/server/src/backup.ts:269-279 | After an emit error the failing row and the chunk's tail are each reported once |
| Backup.MailBackup.FlushPending | apps/server/src/backup.ts:237-289 | A flush empties the pending chunk and accounts for each of its rows exactly once unless the transfer closed |
| Backup.MailBackup.Drain | apps/server/src/backup.ts:307-318 | Draining flushes what is pending of the open folder and counts every row of it once |
| Backup.MailBackup.CloseFolder | apps/server/src/backup.ts:307-327 | Closing flushes, releases the lock, and leaves the account row alone when the transfer closed |
| Backup.MailBackup.EnterFolder | apps/server/src/backup.ts:347-356 | Changing folders settles and closes the previous one first; a closed transfer or a client that cannot be made ends the walk with nothing pending |
| Backup.MailBackup.BookRow | apps/server/src/backup.ts:357-383 | The row takes the next number and is reported or queued; a full chunk is settled; pending is empty whenever the folder has failed |
| Backup.MailBackup.WalkPages | apps/server/src/backup.ts:329-398 | The paged walk visits every row once, in order, across page borders |
| Backup.MailBackup.Collect | apps/server/src/backup.ts:172-403 | A finished run has accounted for every row whose account exists; numbers are positions in the walk; entries hold what their own folder's FETCH streamed for their UID; failures have their cause in their own row or folder; a run cut short counts nothing twice |
| Backup.DeliveredOnce | apps/server/src/backup.ts:117-126 | No two delivered entries have the same archive name |
| Backup.EveryRowOnce | apps/server/src/backup.ts:307-402 | Every row whose account exists is delivered or reported failed, once and not both, and no other row is either |
| Keyset.PageIsNext | apps/server/src/backup.ts:56-71 | ORDER BY with a strictly-after cursor and LIMIT returns the next slice of the ordered table |
| MessagePages.ListOrderIsTotal | apps/server/src/message-queries.ts:69-75 | The list order is strict and total because ids are unique |
| MessagePages.PageHolds | apps/server/src/message-queries.ts:106-142 | A page holds the first rows below its cursor, in list order; the next cursor is null exactly when no row lies below the last one served |
| MessagePages.PagesOverAChangingView | apps/server/src/message-queries.ts:75-142 | However the view changes between pages, rows come in list order without repetition, and once the cursor is null every row present unchanged throughout was served exactly once |
| MessagePages.NoMessageTwice | apps/server/src/message-queries.ts:75-142 | While no message changes its sort key, no message is served twice |
| MessagePages.EnoughRequestsEnd | apps/server/src/message-queries.ts:117-141 | Over an unchanging view enough requests reach the null cursor |
| MessagePages.PagesAreTheView | apps/server/src/message-queries.ts:75-142 | Over an unchanging view following the cursor to null gives the whole selection in order |
| MessagePages.TextChangesNothing | apps/server/src/message-queries.ts:106-142 | Handing the cursor out as opaque text changes nothing as long as every row's position can be carried |
| MessageCursor.RoundTrip | apps/server/src/message-cursor.ts:68-96 | Decoding an encoded cursor gives its position back if and only if both parts are non-empty and NUL-free and the text fits 512 characters |
| MessageCursor.EncodeInjective | apps/server/src/message-cursor.ts:68-73 | Distinct NUL-free positions have distinct cursors |
| MessageCursor.PartsOf | apps/server/src/message-cursor.ts:89-91 | The three-part split recovers version, sort key and id |
| Utf8.RoundTrip | apps/server/src/message-cursor.ts:68-89 | UTF-8 decoding with replacement of ill-formed parts inverts encoding (section 3 of RFC 3629) |
| Base64Url.RoundTrip | apps/server/src/message-cursor.ts:68-89 | Unpadded base64url decoding inverts encoding (section 5 of RFC 4648) |
| SqlLike.EscapedIsLiteral | apps/server/src/message-search.ts:59-62 | An escaped pattern followed by % matches exactly the texts that start with the query, ASCII case aside |
| SqlLike.EscapedLikeIsLiteralSearch | apps/server/src/message-search.ts:59-62 | %escape(q)% matches exactly the texts containing q literally, ASCII case aside, for every query and text |
| SearchMirror.SearchIsScan | apps/server/src/message-filters.ts:254-266 | On a mirror in step the FTS join returns each readable message the plain scan accepts, once, and nothing else |
| SearchMirror.SaveKeeps | apps/server/src/message-search.ts:98-104 | A payload write followed by its index write keeps the mirror in step |
| SearchMirror.BatchDeleteKeepsExactly | apps/server/src/db.ts:58-89 | A batch delete keeps the mirror in step if and only if the cleared scope and the deleted rows agree on the readable messages |
| SearchMirror.RebuildMirrors | apps/server/src/message-search.ts:144-179 | A rebuild puts the mirror in step whatever it held before |
| SearchMirror.PageContinues | apps/server/src/message-search.ts:150-176 | Each rebuild page is the next part of the table in rowid order |
| SearchMirror.SearchStore.IndexMessage | apps/server/src/message-search.ts:98-104 | Indexing replaces the message's row |
| SearchMirror.SearchStore.Save | apps/server/src/message-search.ts:98-104 | Write and index together: the new tables, still in step |
| SearchMirror.SearchStore.DeleteRows | apps/server/src/db.ts:58-89 | A delete clears the mirror row by row while the trigger is present, and not at all while it is dropped |
| SearchMirror.SearchStore.DeleteMessagesWithBatchFtsCleanup | apps/server/src/db.ts:76-89 | The batch path clears its scope, deletes what the deletion removes before it returns or throws, and always restores the trigger |
| SearchMirror.SearchStore.DeleteInBatch | apps/server/src/db.ts:70-89 | Inside a transaction a throw leaves everything as it was; outside one it leaves the cleared index and the part deleted |
| SearchMirror.SearchStore.Rebuild | apps/server/src/message-search.ts:144-179 | The paged rebuild writes every readable row, counts them, and reports at most 50 unreadable ids |
| SearchMirror.MirrorOverRuns | apps/server/src/message-search.ts:98-179 | Over any run of writes, trigger deletes, batch deletes and rebuilds the mirror is in step throughout if and only if every batch delete that is not rolled back deletes the readable messages it cleared |
| SearchMirror.SearchOverRuns | apps/server/src/message-storage.ts:450-459 | After any such run every list search equals the plain scan |
| SearchMirror.FailedBatchDeleteHidesItsScope | apps/server/src/db.ts:76-89 | A batch delete that throws outside a transaction hides its messages from every search until the next rebuild |
| ImageCleanup.EvictedIsLeast | apps/server/src/image-proxy.ts:241-264 | Quota eviction stops as soon as the rest fits and not before |
| ImageCleanup.ColdestSorts | apps/server/src/image-proxy.ts:247-260 | The eviction order is ascending in last access and loses nothing |
| ImageCleanup.PassMeetsQuota | apps/server/src/image-proxy.ts:187-264 | After a pass the kept bytes fit the quota; each class is evicted coldest first; an unclaimed file goes for the quota only once every live entry has |
| ImageCleanup.EntriesAccountedFor | apps/server/src/image-proxy.ts:208-255 | Every index entry is kept, or was expired or taken by the quota, once |
| ImageCleanup.FilesAccountedFor | apps/server/src/image-proxy.ts:221-264 | Every listed file is kept, or was unsealed, expired or taken by the quota, once |
| ImageCleanup.IndexKeepsExactlyTheRest | apps/server/src/image-proxy.ts:257-273 | The index a pass leaves is exactly the live entries the quota did not take |
| ImageCleanup.ImageCache.ListUnindexedFiles | apps/server/src/image-cache-index.ts:479-508 | The listing holds the first 2000 unclaimed regular cache files in directory order |
| ImageCleanup.ImageCache.EvictColdest | apps/server/src/image-proxy.ts:250-264 | The eviction loop removes the shortest prefix that lets the rest fit |
| ImageCleanup.ImageCache.RunCacheCleanup | apps/server/src/image-proxy.ts:187-283 | The pass removes exactly the planned entries from the index and unlinks nothing else, even when some unlinks fail |
| ImageIndex.ImageIndexModule.LoadMeta | apps/server/src/image-cache-index.ts:291-329 | A dirty index is authoritative, an unreadable one is kept as in memory, a legacy or damaged one is cleared away if it can be and read as empty, otherwise the index is rebound to what is stored |
| ImageIndex.ImageIndexModule.FlushMeta | apps/server/src/image-cache-index.ts:401-427 | A flush clears the timer and writes only a dirty index |
| ImageIndex.ImageIndexModule.BeginProxy | apps/server/src/image-proxy.ts:515-546 | A readable hit is touched and marked, an unreadable one dropped in memory only, before the fetch |
| ImageIndex.ImageIndexModule.FinishProxy | apps/server/src/image-proxy.ts:602-618 | After the fetch the entry goes into the index object bound now and is saved at once |
| ImageIndex.StepKeepsExactly | apps/server/src/image-cache-index.ts:291-366 | One step keeps stored and inserted entries in memory and on disk, arms a timer for every unsaved mark and never makes disk recency newer than memory, if and only if it is no write of an unread index beside another entry |
| ImageIndex.InvOverRuns | apps/server/src/image-cache-index.ts:291-427 | Over any run without such a write an entry stored or inserted stays in memory and on disk until a sweep takes it or its file fails to open |
| ImageIndex.KeptOnDiskExactly | apps/server/src/image-cache-index.ts:291-427 | Over any interleaving of hits, misses awaiting their fetch, flushes, sweeps and restarts, the entries to be kept are on disk at every point if and only if the index is never written unread while another entry is kept |
| ImageIndex.FirstReadsFailing | apps/server/src/image-cache-index.ts:298-308 | If the first reads of a process fail, its first insert replaces a good index with one entry |
| ImageIndex.NothingInvented | apps/server/src/image-cache-index.ts:384-390 | No entry appears that was not stored at the start or inserted since |
| PayloadCache.TrimmedIsLeast | apps/server/src/message-storage.ts:393-399 | Room is made by dropping the oldest entries and not one more than needed |
| PayloadCache.HitIsFreshForOneAccount | apps/server/src/message-storage.ts:403-412 | A hit equals a fresh decrypt if and only if the row has the account the entry was decrypted for, which the key omits |
| PayloadCache.JoinedKeyIsUnique | apps/server/src/message-storage.ts:405 | The NUL-joined cache key names one master key, id and ciphertext |
| PayloadCache.PayloadCacheMap.CachePayload | apps/server/src/message-storage.ts:386-401 | A fill keeps at most 512 entries and 64 MiB, the byte counter equal to the sum of its entries, and the most recently used keys |
| PayloadCache.PayloadCacheMap.Refresh | apps/server/src/message-storage.ts:406-412 | A hit becomes the newest entry and changes nothing else |
| PayloadCache.PayloadCacheMap.MessagePayloadForRow | apps/server/src/message-storage.ts:403-424 | Over any sequence of reads a read through the cache answers what a fresh decrypt would |
| StoredPayload.AttachmentsBack | apps/server/src/message-storage.ts:210-251 | A list of attachment entries survives writing and reading if and only if each is in normal form |
| StoredPayload.PayloadRoundTrip | apps/server/src/message-storage.ts:270-296 | A payload survives JSON and normalization unchanged if and only if its attachments are in normal form |
| StoredPayload.ReadersAreNormal | apps/server/src/message-storage.ts:247-292 | Both readers give payloads in normal form: normalization is idempotent and agrees with the legacy reader through serialization |
| PayloadMigration.RowKeepsItsPayload | apps/server/src/message-storage.ts:470-489 | Rewriting a readable row keeps what it reads as, leaves no plaintext, and is not repeated |
| PayloadMigration.PageResumes | apps/server/src/message-storage.ts:581-611 | A page read from the partly rewritten table is the next page of the table as it was |
| PayloadMigration.MessageTable.RewriteAll | apps/server/src/message-storage.ts:592-612 | The paged loop succeeds if and only if every row that needs rewriting can be read; then it has rewritten exactly those, and otherwise everything is rolled back |
| PayloadMigration.MessageTable.VerifyEncryptedPayloads | apps/server/src/message-storage.ts:514-560 | The sweep succeeds if and only if every row can be read; its error names and counts the first 50 unreadable ids in rowid order, of all rows |
| PayloadMigration.MessageTable.MigrateMessageStorage | apps/server/src/message-storage.ts:567-628 | The startup pass rolls back if and only if a row that needs rewriting is unreadable; it throws after the commit if and only if none is, a sweep is owed and some other row is unreadable; it then keeps the rewrite and withholds the marker; otherwise it leaves marker, count and vacuum as stated |
| PayloadMigration.PassKeepsEveryPayload | apps/server/src/message-storage.ts:592-612 | Any pass leaves every row reading as it did |
| PayloadMigration.SecondPassIsIdle | apps/server/src/message-storage.ts:567-628 | After a pass that returned no plaintext column is set and a second pass changes nothing |
| Badges.FolderBadgeIsItsList | apps/server/src/folder-counts.ts:38-64 | A folder's total and unseen are the sizes of its list and its unread list |
| Badges.InboxBadge | apps/server/src/folder-counts.ts:108-133 | Adding up one inbox folder at a time counts the awake messages filed in any inbox folder, each once |
| Badges.InboxBadgeIsItsListExactly | apps/server/src/folder-counts.ts:97-133 | The unified-inbox badge equals the list if and only if no awake message in scope is filed under a spelling of INBOX without a folder row; likewise unread |
| Badges.StarredAndSnoozedBadgesAreTheirLists | apps/server/src/folder-counts.ts:138-143 | The starred and snoozed badges are the sizes of their lists, and every inbox message is in exactly one of the inbox and snoozed lists |
| Badges.BadgeMissesAMessageWithoutItsFolder | apps/server/src/folder-counts.ts:97-133 | A store of one message in "Inbox" and no folder row: the list shows it, badge and folder totals count nothing |
| Badges.TotalsAddUpExactly | apps/server/src/folder-counts.ts:38-64 | Folder totals add up to the account's messages if and only if each is filed under a folder row |
| Badges.RepresentsTheBest | apps/server/src/message-filters.ts:75-123 | The dedupe filter keeps a copy if and only if it is preferred to every other copy with attachments |
| Badges.OneRepresentative | apps/server/src/message-filters.ts:110-123 | Every group of copies has exactly one representative |
| Badges.RepresentativeIsWhereTheUserLooks | apps/server/src/message-filters.ts:75-86 | The inbox copy represents a message whenever there is one; an unranked folder only when nothing ranked holds it |
| Badges.AttachmentsShowEachMessageOnce | apps/server/src/folder-counts.ts:144-146 | The Attachments list and badge hold one row per physical message plus every row without a remote identity |
| AttachmentFiles.StoredAttachment.WriteFileAtomically | apps/server/src/outbound-attachments.ts:220-249 | Replacing a file, dying after any action or failing at the rename, passes through exactly the disks of its action list |
| AttachmentFiles.StoredAttachment.Migrate | apps/server/src/outbound-attachments.ts:274-310 | Migrating one attachment: restore, open, replace, record the version |
| AttachmentFiles.StoredAttachment.Cleanup | apps/server/src/outbound-attachments.ts:690-701 | The cleanup deletes backups and staging files unconditionally |
| AttachmentFiles.StoredAttachment.Start | apps/server/src/runtime.ts:524-656 | One start in either order of migration and cleanup |
| AttachmentFiles.MigrationKeepsContent | apps/server/src/outbound-attachments.ts:187-310 | A crash at any step of the migration leaves an attachment that opens with unchanged plaintext |
| AttachmentFiles.MigrationFirstSurvives | apps/server/src/outbound-attachments.ts:274-335 | With the migration before the cleanup, every run of starts keeps the attachment |
| AttachmentFiles.CleanupFirstKeepsExactlyPresentFiles | apps/server/src/runtime.ts:524-656 | With the cleanup first, as the runtime has it, the attachment survives a start if and only if its file is under its own name |
| AttachmentFiles.CleanupFirstSurvivesExactly | apps/server/src/runtime.ts:524-656 | Over any run of starts in the runtime's order the attachment survives if and only if no start that reaches its first removal finds the plaintext parked, which is what a start dying after its seventh action leaves |
| AttachmentFiles.CrashBetweenRenamesLosesAttachment | apps/server/src/runtime.ts:524-656 | A start that dies between the two renames, followed by any start, loses the attachment |
| AttachmentLinks.AttachmentStore.RemoveUnlinked | apps/server/src/outbound-attachments.ts:346-365 | Removes exactly the uploads nothing holds, and counts them |
| AttachmentLinks.AttachmentStore.LinkToDraft | apps/server/src/outbound-attachments.ts:494-518 | Links all tokens, or none when one is unknown or foreign, the list is not acceptable, or a draft id is empty, over 998 code units or holds a control character |
| AttachmentLinks.AttachmentStore.ReleaseSubmission | apps/server/src/outbound-attachments.ts:549-565 | Releasing a submission drops its links and the uploads nothing else holds |
| AttachmentLinks.AttachmentStore.DiscardPendingAttachments | apps/server/src/outbound-attachments.ts:602-614 | Discarding pending uploads removes exactly those nothing holds, or refuses the whole list |
| AttachmentLinks.AttachmentStore.DiscardDraftAttachments | apps/server/src/outbound-attachments.ts:641-657 | Discarding a draft's attachments |
| AttachmentLinks.AttachmentStore.CleanupExpired | apps/server/src/outbound-attachments.ts:673-704 | The cleanup removes exactly the expired unlinked uploads and then every stray file |
| AttachmentLinks.ApplyKeeps | apps/server/src/outbound-attachments.ts:346-704 | One operation keeps the tables valid and every upload that still has a link |
| AttachmentLinks.LinkedUploadsSurvive | apps/server/src/outbound-attachments.ts:346-704 | Over any run, what is linked at the end has its row and its file |
| AttachmentLinks.HeldUploadIsUntouched | apps/server/src/outbound-attachments.ts:346-704 | An upload linked throughout a run is untouched by it |
| AttachmentLinks.CleanupLeavesNoStrays | apps/server/src/outbound-attachments.ts:673-704 | After a cleanup no stored file is unreferenced, and exactly the expired unlinked rows are gone |
| AttachmentLinks.DiscardRemovesExactlyTheUnheld | apps/server/src/outbound-attachments.ts:641-657 | Discarding a draft removes exactly the uploads whose only links were that draft's |
| RagBackfill.BackfillWorker.QueueInitialBackfill | apps/server/src/agent-rag-worker.ts:1028-1096 | One pass over the accounts equals `Pass` |
| RagBackfill.BackfillWorker.VisitAccount | apps/server/src/agent-rag-worker.ts:1033-1095 | One account's visit: lease, cursor, batch, existence probe, budgeted row loop, exhausted flag |
| RagBackfill.ScanStops | apps/server/src/agent-rag-worker.ts:1064-1089 | The row loop enqueues exactly what its first rows lack and stops short only when the budget is spent |
| RagBackfill.VisitKeeps | apps/server/src/agent-rag-worker.ts:1033-1095 | One visit repeats no event, pays each from the budget, and keeps everything below a cursor covered |
| RagBackfill.BackfillRuns | apps/server/src/agent-rag-worker.ts:1028-1115 | Over any number of passes every message at or below a cursor has its event, none has two, and a pass enqueues at most its budget |
| RagBackfill.ExhaustedWronglyExactlyWhenCutShort | apps/server/src/agent-rag-worker.ts:1090 | An account is marked exhausted with a message still lacking its event if and only if the row loop was cut short by the budget |
| RagBackfill.ExhaustedIsFinal | apps/server/src/agent-rag-worker.ts:1045 | An exhausted account is never visited again under its generation |
| RagBackfill.CutShortStrandsForGood | apps/server/src/agent-rag-worker.ts:1090 | A visit cut short strands a message whatever passes follow under that generation |
| RagBackfill.TwoAccountsCanStrand | apps/server/src/agent-rag-worker.ts:1028-1096 | Two accounts of two messages and a limit of three reach that state |
| RagBackfill.SolePass | apps/server/src/agent-rag-worker.ts:1028-1096 | A pass with the whole budget for one account covers it or moves its cursor on |
| RagBackfill.SoleAccountFinishes | apps/server/src/agent-rag-worker.ts:1028-1096 | A sole account's messages all get their event within as many passes as rows, plus one |
| BodyLimits.PrefixMonotone | apps/server/src/message-body-limits.ts:41-48 | The UTF-8 length of a prefix is monotone, split surrogate pairs included |
| BodyLimits.Utf8Prefix | apps/server/src/message-body-limits.ts:41-53 | The binary search returns the longest well-formed prefix of a well-formed text that fits the limit |
| BodyLimits.CutLeavesATagExactlyIfTwoWereOpen | apps/server/src/message-body-limits.ts:55-59 | The cut text still ends inside a tag if and only if two tags were open |
| BodyLimits.LimitBody | apps/server/src/message-body-limits.ts:61-73 | For every body, lone surrogates included: one that fits is untouched, any other keeps a proper prefix and exceeds the limit by at most the notice and the two line feeds before it; a well-formed body stays well formed |

## Left out

- IMAP, SMTP, OAuth, DNS and HTTP clients, AES-GCM, HKDF, HMAC, SQLite pages and FTS5 internals: foreign calls, modelled as steps that may fail, an ideal AEAD, and tables.
- Query plans, index use and timing: not properties of the state.
- `uidValidityValue` and `liveUidValidity` (mailbox-generation.ts): they normalize what a foreign library reports; generations enter the model already normalized.
- `currentPositions` (flags-outbox.ts): a chunked lookup; each attempt of the model starts from the positions it returned.
- The log lines and status texts of every module, and the account name and error taxonomy behind a reported failure: plumbing.
- `backupEntryName`'s replacement of reserved and control characters: a filename filter; a row's title is what it leaves, and distinctness is proved for any title.
- A caller of the backup without an emit callback: it behaves like one that takes every entry.
- The recipient and attachment columns of the search mirror, the schema upgrade of the mirror table, and the kind and date refinements of the list: easy further columns and conjuncts.
- `archivedMessageFilter` appears in the list's view precedence only: it has no badge to agree with.
- The badge that counts accounts: one row count.
- Lone surrogates in texts other than bodies: a Dafny string is well formed.
- The per-message link between an upload's metadata and its ciphertext, filename and content-type cleaning, and size limits at upload: security filters.
- Negative or fractional sizes in a stored image index: only the module's own sealed writes produce it.
- ImageCleanup.ImageCache.RunCacheCleanup: speaks of recorded sizes, which for an indexed file are the plaintext's; a file whose unlink fails stays on disk and is unclaimed at the next pass.
- GenerationRuns.StoresLandRightExactly: is stated for servers that name their generation; the code lets every write through when a server names none, and then nothing can be proved.
- The backup's open folder is a value in a field rather than a shared object, and rows and messages are values throughout, so aliasing of row objects is not captured.
- Calendar, contacts, outbox retention, credentials, templates, settings, localization, the agent chat and tool code, and the user interface: outside this core.
