# OwnVocabulary sync engine and local stores, in Dafny

This project models the offline-first sync path of the OwnVocabulary
Android app, together with the local stores and small helpers that path
relies on. Every component is written as immutable data and pure
functions, and the properties the code promises are proved about the
model.

- **Push job** (`PushWordJob`, module `PushJob`):
  - walks a snapshot of unsynced words in order and PUTs each one by uid;
  - retries failed attempts up to ten times, with a 2 s·k linear backoff;
  - marks a word SYNCED on a 2xx answer.
- **Pull job** (`PullWordJob`, module `PullJob`):
  - fetches pages of remote changes from the persisted cursor `(lastSyncTime, lastId)`;
  - retries with a capped exponential backoff (1 s, 2 s, … up to 10 s, at most three attempts);
  - moves the cursor to a non-empty page's last record and upserts the page;
  - calls the completion callback at the end of the stream.
- **Cursor store** (`SyncManager`, module `SyncCursor`): the five cursor values in a preferences file, with their defaults.
- **Word table** (`WordDatabase`, module `WordStore`):
  - the listing, search and unsynced queries, with their filters and `ORDER BY`;
  - the per-row writes, soft and hard delete, and the statistics query.
- **AI-response table** (`AIResponseDatabase`, module `AIResponseStore`):
  - the `CONFLICT_REPLACE` insert, update and delete, each reporting faults through its callback value;
  - three ordered lookups;
  - the PENDING fallback for an unknown stored status.
- **Relative time** (`DateFormatter.formatToRelativeTime` and `formatSmart`, module `RelativeTime`): the unit ladder, the counts, the wording, and a parser proving the wording loses nothing.
- **Gemini answer parsing** (`GeminiApiClient.parseJsonResponse`, module `GeminiParse`): fence removal, then the lazy `"(.*?)"` scan, then dropping blank captures.
- **Text-to-speech manager** (`TTSManager`, module `Tts`): the pending-speech queue around engine start-up, and `speakOnlyEnglish`.
- **Vocabulary search** (`filteredWords` in the vocabulary screen, module `VocabularyFilter`).

Shared pieces:
- `Common`: `Option`, `SyncStatus` and its name table.
- `Seqs`: filter, count, the SQLite sort keys and an insertion sort.
- `Text`: prefix, substring, ASCII case folding and decimal numerals.
- `SyncEnv`: the scripted environment of the two jobs.

How the outside world enters the jobs. The connectivity checks, the
`@Volatile` stop flag, the HTTP answers and `System.currentTimeMillis` are
a script (`SyncEnv.Env`), answered in the order the job asks. A `Probe`
counts how many answers of each kind a run has consumed. The stop flag,
once set, stays set for the rest of the run. `startPushing` clears the
flag on entry, so the push job's script counts stop-flag reads from the
start of that run. Each `delay(ms)` becomes a `Wait(ms)` entry in the
run's effect log. Requests, status writes, cursor writes, saves and the
completion callback are log entries too. The properties are stated over
projections of that log (requests, waits, marks, completions) and over
its replay onto the stored state.

Where the code and its design description disagree, the model follows the
code:
- The pull loop writes the cursor before it calls `saveNotes`.
  `PullJob.WritesReplay` states that order; the design describes the
  reverse.
- The 30 s budget is measured from a start time that is reset every
  iteration, so it bounds one iteration, not the run
  (`PullJob.IterateGoesOn`).
- The time-budget exit, like the stop and non-200 exits, never calls the
  completion callback (`PullJob.PullCompletes`).
- Pull accepts only status 200, while push accepts 200..299.
- In push, exhausting the retries of one record throws out of the whole
  run, and later records are not tried (`PushJob.AllRejected`).
- Losing the connection during a push throws `NoConnectionException` out
  of `startPushing`. Only the checks before each record end the run
  quietly; the design says that losing connectivity never throws
  (`PushJob.RetryRaises`, `PushJob.PushFrom`).
- The pull retries a failed connectivity check like any other exception,
  with the same backoff (`PullJob.OfflineThenAnswered`).
- A record the push gets through is written with retry count 1, not
  reset to 0 as the design says (`PushJob.ApplyPush`).
- A soft delete does not stay hidden. `getUnsyncedWords` returns DELETED
  rows, so the next push PUTs them. A 2xx answer then writes SYNCED over
  DELETED, and the word is listed, found and counted again
  (`PushJob.PushRevivesDeleted`, `PushJob.DeletedThenPushedIsListed`).
  The design calls DELETED a terminal marker.
- The pull job's `saveNotes` calls `upsertWord`, which is not part of this
  model. It is modelled as the uid-keyed upsert `WordStore.UpsertAll`, the
  idempotent write the design asks for.
- The design describes the word table as a map from uid. It is modelled
  as a sequence of rows in rowid order, with the `UNIQUE` uid column as an
  invariant (`WordStore.UniqueUids`). This keeps the row order that
  `ORDER BY` ties and `CONFLICT_REPLACE` depend on.

## Model

| member | source | states |
|---|---|---|
| SyncCursor.UpdateLastSyncTime | app/src/main/java/com/rs/ownvocabulary/sync/SyncManager.kt:25-30 | the word stream's time reads back as the value written, whatever it was before; the other four cursors keep their values |
| SyncCursor.UpdateCategoryLastSyncTime | app/src/main/java/com/rs/ownvocabulary/sync/SyncManager.kt:32-37 | the category time reads back as written; the other four cursors are unchanged |
| SyncCursor.SetNoteCategoryLastSyncTime | app/src/main/java/com/rs/ownvocabulary/sync/SyncManager.kt:43-48 | the note-category time reads back as written; the other four cursors are unchanged |
| SyncCursor.UpdateLastId | app/src/main/java/com/rs/ownvocabulary/sync/SyncManager.kt:50-55 | the word stream's last id reads back as written; the other four cursors are unchanged |
| SyncCursor.UpdateCategoryLastId | app/src/main/java/com/rs/ownvocabulary/sync/SyncManager.kt:57-62 | the category last id reads back as written; the other four cursors are unchanged |
| SyncCursor.ResetAll | app/src/main/java/com/rs/ownvocabulary/sync/SyncManager.kt:80-85 | after a reset every cursor reads as its default (0 or ""), the same as a file never written |
| SyncCursor.NeverSetDefaults | app/src/main/java/com/rs/ownvocabulary/sync/SyncManager.kt:64-78 | cursors never written read as 0 for the times and "" for the ids |
| SyncCursor.GetLastSyncTime | app/src/main/java/com/rs/ownvocabulary/sync/SyncManager.kt:64-66 | the word stream's time: 0 until written (NeverSetDefaults, ResetAll), then the value of the latest write (UpdateLastSyncTime, LatestWriteWins); no other setter changes it |
| SyncCursor.GetCategoryLastSyncTime | app/src/main/java/com/rs/ownvocabulary/sync/SyncManager.kt:68-70 | the category time: 0 until written, then the latest value written by updateCategoryLastSyncTime (UpdateCategoryLastSyncTime, ResetAll); no other setter changes it |
| SyncCursor.GetNoteCategoryLastSyncTime | app/src/main/java/com/rs/ownvocabulary/sync/SyncManager.kt:39-41 | the note-category time: 0 until written, then the latest value written by setNoteCategoryLastSyncTime (SetNoteCategoryLastSyncTime, ResetAll); no other setter changes it |
| SyncCursor.GetLastId | app/src/main/java/com/rs/ownvocabulary/sync/SyncManager.kt:72-74 | the word stream's last id: "" until written (the null fallback included), then the latest value written by updateLastId (UpdateLastId, LatestWriteWins, ResetAll) |
| SyncCursor.GetCategoryLastId | app/src/main/java/com/rs/ownvocabulary/sync/SyncManager.kt:76-78 | the category last id: "" until written, then the latest value written by updateCategoryLastId (UpdateCategoryLastId, ResetAll) |
| SyncCursor.LatestWriteWins | app/src/main/java/com/rs/ownvocabulary/sync/SyncManager.kt:25-55 | of two writes to the same cursor the later one is read back, even when it is the smaller time |
| PushJob.Attempt | app/src/main/java/com/rs/ownvocabulary/sync/PushNoteJob.kt:67-93 | NoConnection exactly when one of the three connectivity checks fails, and then no request is sent; otherwise one PUT of that record; no exception exactly on 2xx, and then the PUT is followed by the SYNCED mark; Io exactly on a transport fault; on any other status the model records the code in Api(code), which the source puts only in the exception's message (its statusCode field stays null) |
| PushJob.RetryRequestCount | app/src/main/java/com/rs/ownvocabulary/sync/PushNoteJob.kt:95-112 | a retry loop entered after rc failures sends at most 10 − rc requests, each consuming one scripted answer |
| PushJob.RetryRequests | app/src/main/java/com/rs/ownvocabulary/sync/PushNoteJob.kt:95-112 | every request of a retry loop is a PUT of the same record, and the requests receive the scripted answers in order |
| PushJob.RetryWaits | app/src/main/java/com/rs/ownvocabulary/sync/PushNoteJob.kt:104-109 | the j-th delay after rc earlier failures is 2000·(rc+1+j) ms, and fewer than 10 − rc delays are taken |
| PushJob.RetryRaises | app/src/main/java/com/rs/ownvocabulary/sync/PushNoteJob.kt:101-106 | an API or transport failure escapes only after all remaining attempts were used; NoConnection escapes right after a failed check, without retry |
| PushJob.RetryMarks | app/src/main/java/com/rs/ownvocabulary/sync/PushNoteJob.kt:97-100 | an escaping exception means the record was not marked; a quiet return either marked it exactly once or saw the stop flag and marked nothing |
| PushJob.RetryStopped | app/src/main/java/com/rs/ownvocabulary/sync/PushNoteJob.kt:95-100 | the retry loop's last stop-flag read saw the flag set exactly when the loop returned quietly without marking its record |
| PushJob.RetryPaired | app/src/main/java/com/rs/ownvocabulary/sync/PushNoteJob.kt:85-88 | in a retry loop's log every SYNCED mark directly follows a 2xx PUT of that uid, and every 2xx PUT is followed by its mark |
| PushJob.BackoffTotal | app/src/main/java/com/rs/ownvocabulary/sync/PushNoteJob.kt:104-109 | the delays of one record's retry loop add up to at most 90 000 ms |
| PushJob.PushFrom | app/src/main/java/com/rs/ownvocabulary/sync/PushNoteJob.kt:60-77 | the per-record loop either finishes the snapshot or ends (stop, lost connection, or an escaping exception) at a record index inside the snapshot |
| PushJob.StartPushing | app/src/main/java/com/rs/ownvocabulary/sync/PushNoteJob.kt:44-58 | the run is Offline exactly when the entry check fails, and then nothing at all happens; it is NothingToSync exactly when connected with an empty snapshot, and then the snapshot read is its only effect; otherwise the snapshot is read first |
| PushJob.RunRequests | app/src/main/java/com/rs/ownvocabulary/sync/PushNoteJob.kt:60-77 | over a whole run, request i receives scripted answer i; records are tried in snapshot order, at most 10 times each, and never past the record that ended the run |
| PushJob.RunShape | app/src/main/java/com/rs/ownvocabulary/sync/PushNoteJob.kt:54-92 | the snapshot is read at most once, first; every status write follows its 2xx answer, and every 2xx answer is written |
| PushJob.RunWaits | app/src/main/java/com/rs/ownvocabulary/sync/PushNoteJob.kt:104-109 | every delay of a run is a multiple of 2000 ms between 2000 and 18 000 |
| PushJob.RunMarks | app/src/main/java/com/rs/ownvocabulary/sync/PushNoteJob.kt:60-92 | unless the stop flag was seen, the uids marked SYNCED are exactly those of the records before the one that ended the run, in snapshot order |
| PushJob.RunStopEnds | app/src/main/java/com/rs/ownvocabulary/sync/PushNoteJob.kt:60-77 | a run whose last stop-flag read saw the flag set ended at a per-record check (or ran out of records), never by an exception; its marks are the records before that check, or before the record during whose retries the stop was seen, which stays unmarked |
| PushJob.PushStopEnds | app/src/main/java/com/rs/ownvocabulary/sync/PushNoteJob.kt:60-77 | the per-record loop version of RunStopEnds, from any record on |
| PushJob.ApplyPush | app/src/main/java/com/rs/ownvocabulary/sync/PushNoteJob.kt:87-88 | the only store write is status SYNCED with retry count 1 on the marked uids; their payload is kept, and unmarked rows and the uid constraint are untouched |
| PushJob.PushRevivesDeleted | app/src/main/java/com/rs/ownvocabulary/database/AppDatabase.kt:313-361 | a soft-deleted row is in the unsynced snapshot; once a push marks its uid the row is SYNCED, listed without filters under every order, and found by the empty query |
| PushJob.DeletedThenPushedIsListed | app/src/main/java/com/rs/ownvocabulary/sync/PushNoteJob.kt:54-88 | a soft-deleted word that the next push gets through is marked, still stored, SYNCED, and listed again under every order |
| PushJob.AllSucceed | app/src/main/java/com/rs/ownvocabulary/sync/PushNoteJob.kt:60-92 | when everything answers 2xx, every record is PUT once and marked in snapshot order, with no delay |
| PushJob.AllRejected | app/src/main/java/com/rs/ownvocabulary/sync/PushNoteJob.kt:95-112 | when every PUT answers 500, the first record is tried ten times with delays 2 s, 4 s, …, 18 s; the ApiException ends the run, nothing is marked and no later record is tried |
| PullJob.Attempt | app/src/main/java/com/rs/ownvocabulary/sync/PullWordJob.kt:42-45 | NoConnection exactly when the connectivity check fails, and then no request is sent; otherwise one GET with the given cursor, Io exactly on a transport fault, and the status and body returned as they came |
| PullJob.RetryAttempts | app/src/main/java/com/rs/ownvocabulary/sync/PullWordJob.kt:80-97 | the retry loop makes at most maxRetries attempts, one more than the delays it waits; it falls through to IllegalStateException exactly when no attempt is allowed |
| PullJob.RetryWaits | app/src/main/java/com/rs/ownvocabulary/sync/PullWordJob.kt:86-93 | the delays waited are the successive values of currentDelay |
| PullJob.DelayClosedForm | app/src/main/java/com/rs/ownvocabulary/sync/PullWordJob.kt:86-93 | the delay before attempt k is initialDelay for k = 0 and min(initialDelay·2^k, maxDelay) after that |
| PullJob.RetryRequests | app/src/main/java/com/rs/ownvocabulary/sync/PullWordJob.kt:42-45 | every request of the retry loop sends the cursor it was given and receives the scripted answers in order; the answer returned is the last request's |
| PullJob.RetryStops | app/src/main/java/com/rs/ownvocabulary/sync/PullWordJob.kt:91 | an exception escapes before the last attempt only when the stop flag was seen set |
| PullJob.DefaultRetry | app/src/main/java/com/rs/ownvocabulary/sync/PullWordJob.kt:80-94 | with the defaults, a page request is tried at most three times, waiting 1000 ms and then 2000 ms, and never reaches the fall-through |
| PullJob.OfflineThenAnswered | app/src/main/java/com/rs/ownvocabulary/sync/PullWordJob.kt:42-94 | a no-connection failure is retried like any other: offline once and then answered, the loop waits 1000 ms once and returns the answer |
| PullJob.ParseNotes | app/src/main/java/com/rs/ownvocabulary/sync/PullWordJob.kt:67-78 | a body the decoder rejects reads as the page {"failed", [], false}; a missing body is decoded as "" |
| PullJob.WritesReplay | app/src/main/java/com/rs/ownvocabulary/sync/PullWordJob.kt:49-55 | a non-empty page moves the cursor to its last record's (updatedAt, uid), then upserts the whole page; the category cursors stay; an empty page writes nothing |
| PullJob.IterateLog | app/src/main/java/com/rs/ownvocabulary/sync/PullWordJob.kt:36-62 | an iteration's log is the retry loop's requests and delays, then the page's writes, then either the callback or the 2000 ms pause; an exception or a non-200 status ends the loop with nothing written |
| PullJob.IterateLedger | app/src/main/java/com/rs/ownvocabulary/sync/PullWordJob.kt:36-55 | each request of an iteration sends the cursor stored at that moment, and the state the iteration leaves is its log replayed |
| PullJob.IterateCompletes | app/src/main/java/com/rs/ownvocabulary/sync/PullWordJob.kt:57-60 | the callback fires in an iteration exactly when it ends the stream, and then it is the iteration's last effect |
| PullJob.RejectedLeavesState | app/src/main/java/com/rs/ownvocabulary/sync/PullWordJob.kt:46 | a status other than 200 ends the loop with the cursor and the table unchanged and no callback |
| PullJob.UnparseableCompletes | app/src/main/java/com/rs/ownvocabulary/sync/PullWordJob.kt:47-59 | a 200 answer whose body the decoder rejects leaves the cursor and the table unchanged and fires the callback once |
| PullJob.IterateGoesOn | app/src/main/java/com/rs/ownvocabulary/sync/PullWordJob.kt:57-63 | the loop goes on exactly when the answer was 200 with a non-empty page marked hasMore, the stop flag is clear, and this iteration took under 30 000 ms |
| PullJob.PullLedger | app/src/main/java/com/rs/ownvocabulary/sync/PullWordJob.kt:35-63 | over the page loop, every request sends the cursor stored at that moment, and the final state is the log's writes applied in order |
| PullJob.PullCompletes | app/src/main/java/com/rs/ownvocabulary/sync/PullWordJob.kt:57-63 | the callback fires once if the loop ends at the end of the stream and never otherwise (non-200, exception, stop, time budget), and then it is the last effect |
| PullJob.StartPulling | app/src/main/java/com/rs/ownvocabulary/sync/PullWordJob.kt:32-33 | a job stopped or offline on entry does nothing, and only those entry checks skip the loop |
| PullJob.RunLedger | app/src/main/java/com/rs/ownvocabulary/sync/PullWordJob.kt:32-65 | over a whole run, requests send the stored cursor, the state is the log replayed, and the callback fires exactly once when the run reaches the end of the stream |
| PullJob.TwoPagesRun | app/src/main/java/com/rs/ownvocabulary/sync/PullWordJob.kt:35-63 | a page of two records followed by an empty last page: two requests, the second sent with the cursor of the second record; both records are upserted, the cursor is left there, and the callback fires once |
| WordStore.CountUidUnique | app/src/main/java/com/rs/ownvocabulary/database/AppDatabase.kt:83 | with the unique uid column, a write keyed by uid affects at most one row |
| WordStore.GetAllWords | app/src/main/java/com/rs/ownvocabulary/database/AppDatabase.kt:115-163 | exactly the rows not DELETED, only favourites when favoriteOnly is set, only the exact level when a non-empty level is given; each row as often as it is stored, in the chosen order |
| WordStore.SearchWords | app/src/main/java/com/rs/ownvocabulary/database/AppDatabase.kt:288-311 | exactly the rows not DELETED whose word, short meaning or details contain the query, newest update first |
| WordStore.GetUnsyncedWords | app/src/main/java/com/rs/ownvocabulary/database/AppDatabase.kt:313-331 | exactly the rows whose status is not SYNCED (FAILED and DELETED included), newest update first |
| WordStore.GetWordByUid | app/src/main/java/com/rs/ownvocabulary/database/AppDatabase.kt:267-286 | some row with that uid when there is one, and null exactly when there is none |
| WordStore.InsertWord | app/src/main/java/com/rs/ownvocabulary/database/AppDatabase.kt:165-188 | a taken uid makes the insert fail with -1 and no change; otherwise the row is appended with the assigned rowid, which is returned; uids stay unique |
| WordStore.UpdateWord | app/src/main/java/com/rs/ownvocabulary/database/AppDatabase.kt:190-211 | rewrites only the payload, favourite, level and view columns, with updatedAt = now and status PENDING; id, uid, type, createdAt, retryCount, lastSyncAttempt and other rows are unchanged |
| WordStore.IncrementViewCount | app/src/main/java/com/rs/ownvocabulary/database/AppDatabase.kt:213-232 | adds exactly one view, sets lastViewedDaysAgo to 0 and updatedAt to now, and leaves every sync status as it was |
| WordStore.ToggleFavorite | app/src/main/java/com/rs/ownvocabulary/database/AppDatabase.kt:234-265 | under unique uids the row's favourite flag is negated, with updatedAt = now and status PENDING; other rows are unchanged |
| WordStore.UpdateWordSyncStatus | app/src/main/java/com/rs/ownvocabulary/database/AppDatabase.kt:333-361 | writes the status and retry count, the attempt time only when one is given, and updatedAt only when the status is SYNCED; nothing else changes |
| WordStore.DeleteWord | app/src/main/java/com/rs/ownvocabulary/database/AppDatabase.kt:363-382 | a soft delete: the row stays, marked DELETED with a new updatedAt, and other rows are unchanged |
| WordStore.DeleteWordHard | app/src/main/java/com/rs/ownvocabulary/database/AppDatabase.kt:384-397 | no row with that uid remains; every other row stays, in order |
| WordStore.Upsert | app/src/main/java/com/rs/ownvocabulary/sync/PullWordJob.kt:54 | a record whose uid is stored replaces that row in place, and otherwise it is appended; the record is stored afterwards, rows with other uids are untouched, and uids stay unique |
| WordStore.UpsertAll | app/src/main/java/com/rs/ownvocabulary/sync/PullWordJob.kt:54 | saving a page keeps the uids unique |
| WordStore.UpsertAllContains | app/src/main/java/com/rs/ownvocabulary/sync/PullWordJob.kt:54 | after saving a page with distinct uids the table holds every record of the page |
| WordStore.UpsertAllGrows | app/src/main/java/com/rs/ownvocabulary/sync/PullWordJob.kt:54 | saving a page only adds rows: stored rows keep their places and uids, every uid of the page is stored afterwards, and no row is added when all of them were stored already |
| WordStore.UpsertAllFrame | app/src/main/java/com/rs/ownvocabulary/sync/PullWordJob.kt:54 | a stored row whose uid the page never mentions is unchanged, and every appended row carries a uid of the page |
| WordStore.UpsertAllLastWins | app/src/main/java/com/rs/ownvocabulary/sync/PullWordJob.kt:54 | every row whose uid the page mentions holds the page's last record with that uid |
| WordStore.UpsertAllIdempotent | app/src/main/java/com/rs/ownvocabulary/sync/PullWordJob.kt:54 | saving the same page twice leaves the table as saving it once, for any page, a page that repeats a uid included |
| WordStore.SoftDeletedRowsMarked | app/src/main/java/com/rs/ownvocabulary/database/AppDatabase.kt:363-382 | after a soft delete every row with that uid is DELETED |
| WordStore.SoftDeleteHidesFromListing | app/src/main/java/com/rs/ownvocabulary/database/AppDatabase.kt:120-126 | a soft-deleted word is not listed, whatever the sort order and filters, until the next push marks it SYNCED (PushJob.PushRevivesDeleted) |
| WordStore.SoftDeleteHidesFromSearch | app/src/main/java/com/rs/ownvocabulary/database/AppDatabase.kt:293-294 | a soft-deleted word is not found, whatever the query, until the next push marks it SYNCED (PushJob.PushRevivesDeleted) |
| WordStore.SoftDeleteKeepsUid | app/src/main/java/com/rs/ownvocabulary/database/AppDatabase.kt:363-382 | a soft delete neither adds nor removes a row with that uid |
| WordStore.SoftDeleteKeepsRow | app/src/main/java/com/rs/ownvocabulary/database/AppDatabase.kt:363-382 | the soft-deleted row is still stored and is returned by the unsynced query, so the next push picks it up |
| WordStore.HardDeleteRemovesRow | app/src/main/java/com/rs/ownvocabulary/database/AppDatabase.kt:384-397 | after a hard delete no row has that uid, and every row with another uid is still there |
| WordStore.BreakdownCountsLevels | app/src/main/java/com/rs/ownvocabulary/database/AppDatabase.kt:426-449 | the grouped level counts equal the live rows counted per level, so a level no live row has reads as 0 |
| WordStore.FavoritesBound | app/src/main/java/com/rs/ownvocabulary/database/AppDatabase.kt:404-424 | live favourites never outnumber live rows |
| WordStore.LevelsBound | app/src/main/java/com/rs/ownvocabulary/database/AppDatabase.kt:426-449 | beginner + intermediate + advanced live rows never exceed the live rows |
| WordStore.GetWordStats | app/src/main/java/com/rs/ownvocabulary/database/AppDatabase.kt:400-451 | each statistic counts rows not DELETED; favourites ≤ total and the three levels together ≤ total |
| WordStore.StatsOnlyLiveRows | app/src/main/java/com/rs/ownvocabulary/database/AppDatabase.kt:400-451 | the statistics of a table equal those of the same table without its DELETED rows |
| Common.ParseStatus | app/src/main/java/com/rs/ownvocabulary/database/AIResponseDatabase.kt:271-272 | SyncStatus.valueOf: the constant whose name is exactly the text, and none (the IllegalArgumentException) for any other text |
| AIResponseStore.ItemOf | app/src/main/java/com/rs/ownvocabulary/database/AIResponseDatabase.kt:261-283 | getItemFromCursor: every column read back as stored, the status through ReadStatus; ReadBackInserted and UnknownStatusReadsPending pin it |
| AIResponseStore.RowOf | app/src/main/java/com/rs/ownvocabulary/database/AIResponseDatabase.kt:161-171 | the ContentValues of insert: the status stored by name, the id left to the database; ReadBackInserted shows ItemOf undoes it |
| AIResponseStore.ReadStatus | app/src/main/java/com/rs/ownvocabulary/database/AIResponseDatabase.kt:271-275 | a stored status name reads back as that status, and any other text reads as PENDING |
| AIResponseStore.ReadBackInserted | app/src/main/java/com/rs/ownvocabulary/database/AIResponseDatabase.kt:161-171 | an inserted item reads back unchanged, except for the id the database assigns |
| AIResponseStore.Insert | app/src/main/java/com/rs/ownvocabulary/database/AIResponseDatabase.kt:156-186 | a storage fault reports -1 and changes nothing; otherwise rows with the item's uid are replaced by the new row, which is appended, its rowid is reported, and exactly one row has that uid |
| AIResponseStore.InsertTwice | app/src/main/java/com/rs/ownvocabulary/database/AIResponseDatabase.kt:173-178 | inserting the same item twice leaves the table as inserting it once |
| AIResponseStore.Update | app/src/main/java/com/rs/ownvocabulary/database/AIResponseDatabase.kt:188-214 | a storage fault reports 0 and changes nothing; otherwise input, output, type, status and retry count are rewritten, with updatedAt = now and the attempt time only when given; id, uid, userId, createdAt and other rows stay |
| AIResponseStore.Delete | app/src/main/java/com/rs/ownvocabulary/database/AIResponseDatabase.kt:216-232 | a storage fault reports 0 and changes nothing; otherwise exactly the rows with that uid go, the rest keep their order, and the count removed is reported |
| AIResponseStore.GetPendingSyncItems | app/src/main/java/com/rs/ownvocabulary/database/AIResponseDatabase.kt:234-258 | exactly the rows stored as PENDING (FAILED excluded), oldest creation first |
| AIResponseStore.GetAllByInput | app/src/main/java/com/rs/ownvocabulary/database/AIResponseDatabase.kt:95-124 | exactly the rows with that input, least recently updated first |
| AIResponseStore.GetAllByUserId | app/src/main/java/com/rs/ownvocabulary/database/AIResponseDatabase.kt:126-154 | exactly the rows of that user, most recently updated first |
| AIResponseStore.UnknownStatusReadsPending | app/src/main/java/com/rs/ownvocabulary/database/AIResponseDatabase.kt:239-275 | a row with an unrecognised status text reads as PENDING, yet the pending query, which compares the stored text, leaves it out |
| RelativeTime.Bucket | app/src/main/java/com/rs/ownvocabulary/utils/DateFormatter.kt:25-56 | past one minute the unit is the one unique unit whose range holds the distance: minutes under 1 h, hours under 1 day, days under 7, weeks under 30, months under 365, years beyond |
| RelativeTime.CountIn | app/src/main/java/com/rs/ownvocabulary/utils/DateFormatter.kt:27-56 | the count, computed by the source's nested divisions, is the number of whole units in the distance |
| RelativeTime.CountInRange | app/src/main/java/com/rs/ownvocabulary/utils/DateFormatter.kt:26-56 | counts are 1..59 minutes, 1..23 hours, 1..6 days, 1..4 weeks, 1..12 months, and at least 1 year |
| RelativeTime.Relate | app/src/main/java/com/rs/ownvocabulary/utils/DateFormatter.kt:21-57 | "Just now" exactly when the distance is under a minute, in either direction; past exactly when now − millis ≥ 1 min, future exactly when millis − now ≥ 1 min; the unit and count are those of the distance |
| RelativeTime.Monotone | app/src/main/java/com/rs/ownvocabulary/utils/DateFormatter.kt:25-56 | a larger distance never reads as nearer: a larger unit, or the same unit with a count at least as large |
| RelativeTime.UnitWord | app/src/main/java/com/rs/ownvocabulary/utils/DateFormatter.kt:29-55 | the unit word is singular exactly when the count is 1 |
| RelativeTime.FormatToRelativeTime | app/src/main/java/com/rs/ownvocabulary/utils/DateFormatter.kt:21-58 | the text is "Just now" exactly when the distance is under a minute, and starts with "in " exactly for future stamps |
| RelativeTime.ParseRender | app/src/main/java/com/rs/ownvocabulary/utils/DateFormatter.kt:27-56 | the text "<n> <unit> ago" or "in <n> <unit>" reads back as the direction, count and unit it was made from |
| RelativeTime.RenderInjective | app/src/main/java/com/rs/ownvocabulary/utils/DateFormatter.kt:27-56 | different relative stamps never produce the same text |
| RelativeTime.FormatSmart | app/src/main/java/com/rs/ownvocabulary/utils/DateFormatter.kt:61-69 | the relative text exactly when the distance is under 7 days, and then it equals formatToRelativeTime; otherwise "MMM dd" under 365 days and "MMM dd, yyyy" beyond |
| RelativeTime.SmartRelativeUnits | app/src/main/java/com/rs/ownvocabulary/utils/DateFormatter.kt:61-65 | the relative branch of formatSmart only shows "Just now", minutes, hours or days |
| GeminiParse.RemoveAll | app/src/main/java/com/rs/ownvocabulary/GeminiApiClient.kt:52-54 | removing a pattern never lengthens the text or adds a character |
| GeminiParse.Clean | app/src/main/java/com/rs/ownvocabulary/GeminiApiClient.kt:52-54 | fence removal never lengthens the answer or adds a character |
| GeminiParse.CleanFenced | app/src/main/java/com/rs/ownvocabulary/GeminiApiClient.kt:52-54 | an answer wrapped in a ```json … ``` block loses exactly the two fences |
| GeminiParse.CleanPlain | app/src/main/java/com/rs/ownvocabulary/GeminiApiClient.kt:52-54 | an answer without backticks is left as it is |
| GeminiParse.Close | app/src/main/java/com/rs/ownvocabulary/GeminiApiClient.kt:55 | the closing position is the first quote, provided no line terminator comes before it; none exactly when there is no such quote |
| GeminiParse.Extract | app/src/main/java/com/rs/ownvocabulary/GeminiApiClient.kt:55-57 | no capture contains a quote or a line terminator |
| GeminiParse.ExtractSpan | app/src/main/java/com/rs/ownvocabulary/GeminiApiClient.kt:55-57 | a quoted span on one line is captured whole, up to the nearest quote, and the scan resumes right after it |
| GeminiParse.ExtractBroken | app/src/main/java/com/rs/ownvocabulary/GeminiApiClient.kt:55 | an opening quote whose span would cross a line break captures nothing, and the scan resumes at the next character |
| GeminiParse.ExtractSkips | app/src/main/java/com/rs/ownvocabulary/GeminiApiClient.kt:55-57 | text without quotes captures nothing and does not disturb the scan of what follows |
| GeminiParse.ExtractFramed | app/src/main/java/com/rs/ownvocabulary/GeminiApiClient.kt:55-57 | the strings of a JSON array between quote-free text are captured in order of appearance |
| GeminiParse.ParseJsonResponse | app/src/main/java/com/rs/ownvocabulary/GeminiApiClient.kt:50-63 | every result is a capture with no quote or line terminator that is not blank; there are no more results than characters |
| GeminiParse.ParseCleaned | app/src/main/java/com/rs/ownvocabulary/GeminiApiClient.kt:58 | when every capture is non-blank, the blank filter keeps them all |
| GeminiParse.NoQuoteNothing | app/src/main/java/com/rs/ownvocabulary/GeminiApiClient.kt:55-58 | an answer without a quote yields the empty list |
| GeminiParse.RoundTrip | app/src/main/java/com/rs/ownvocabulary/GeminiApiClient.kt:50-63 | one-line, non-blank sentences without quotes or backticks, written as a JSON array, read back as the same list, with or without a ```json fence |
| Tts.Initialize | app/src/main/java/com/rs/ownvocabulary/TTS.kt:11-28 | with an engine the listener hears the current flag at once and nothing is created; without one an engine is created; the flag and the queue are unchanged |
| Tts.OnInit | app/src/main/java/com/rs/ownvocabulary/TTS.kt:17-27 | the flag becomes the success value and the queue is emptied; the listener is told; the locale is set and the queued requests are spoken in order exactly on success with an engine |
| Tts.Speak | app/src/main/java/com/rs/ownvocabulary/TTS.kt:30-41 | a ready engine speaks the request at once; otherwise it is queued at the end and nothing is said |
| Tts.Stop | app/src/main/java/com/rs/ownvocabulary/TTS.kt:43-45 | the engine is silenced exactly when there is one; the state is unchanged |
| Tts.SetLanguage | app/src/main/java/com/rs/ownvocabulary/TTS.kt:47-53 | a ready engine sets the locale and its answer is returned; otherwise LANG_MISSING_DATA and nothing happens |
| Tts.Shutdown | app/src/main/java/com/rs/ownvocabulary/TTS.kt:71-76 | no engine and the flag false afterwards; an existing engine is stopped and then released |
| Tts.Status | app/src/main/java/com/rs/ownvocabulary/TTS.kt:78-80 | "Initialized" exactly when the flag is set |
| Tts.EnglishPart | app/src/main/java/com/rs/ownvocabulary/TTS.kt:82-90 | a prefix of the text without '(', which is the whole text or stops right at the first '(' |
| Tts.EnglishPartIdempotent | app/src/main/java/com/rs/ownvocabulary/TTS.kt:82-90 | cutting the cut text again changes nothing |
| Tts.EnglishPartLongest | app/src/main/java/com/rs/ownvocabulary/TTS.kt:83-85 | every prefix of the text without '(' is a prefix of the cut, so the cut is the longest such prefix |
| Tts.SpeakOnlyEnglish | app/src/main/java/com/rs/ownvocabulary/TTS.kt:82-90 | speaks, or queues when not ready, the English part with QUEUE_FLUSH; nothing said or newly queued contains '(' |
| Tts.SpeakAll | app/src/main/java/com/rs/ownvocabulary/TTS.kt:30-41 | speak called on each request in turn; SpeakAllQueues and SpeakAllSpeaks state what it does before and after the engine is ready |
| Tts.SpeakAllQueues | app/src/main/java/com/rs/ownvocabulary/TTS.kt:33-40 | before the engine is ready, every request is queued in order and nothing reaches the engine |
| Tts.SpeakAllSpeaks | app/src/main/java/com/rs/ownvocabulary/TTS.kt:31-32 | once the engine is ready, every request is spoken at once, in order |
| Tts.QueuedThenSpoken | app/src/main/java/com/rs/ownvocabulary/TTS.kt:17-40 | requests made during start-up are spoken in order after a successful callback, following the locale and the listener; later requests go straight to the engine |
| Tts.FailedStartDrops | app/src/main/java/com/rs/ownvocabulary/TTS.kt:17-39 | a failed start drops the queued requests; the manager is not ready, so later requests queue again |
| Tts.ShutdownNotReady | app/src/main/java/com/rs/ownvocabulary/TTS.kt:71-76 | after shutdown requests queue, the language cannot be set, and initialize creates a fresh engine |
| Tts.InitializeOnce | app/src/main/java/com/rs/ownvocabulary/TTS.kt:12-15 | asking twice for an engine creates one; the second caller is told the current flag at once |
| VocabularyFilter.FilteredWords | app/src/main/java/com/rs/ownvocabulary/screens/Vocabulary.kt:61-69 | an empty query returns the list unchanged; otherwise exactly the words whose word or short meaning contains the query ignoring case; always an order-preserving subsequence, no longer than the list |
| VocabularyFilter.EmptyQuerySelectsAll | app/src/main/java/com/rs/ownvocabulary/screens/Vocabulary.kt:61-68 | the filter would keep every word for the empty query, so the shortcut agrees with it |
| VocabularyFilter.DetailsNotSearched | app/src/main/java/com/rs/ownvocabulary/screens/Vocabulary.kt:65-68 | changing a word's details or examples never changes whether it matches |
| VocabularyFilter.FilterIdempotent | app/src/main/java/com/rs/ownvocabulary/screens/Vocabulary.kt:61-69 | filtering the filtered list with the same query changes nothing |
| VocabularyFilter.ResultsSummary | app/src/main/java/com/rs/ownvocabulary/screens/Vocabulary.kt:153-164 | the results line is shown exactly for a non-empty query; it counts the filtered list against the whole list, and the first is never larger |
| VocabularyFilter.AllResultsIff | app/src/main/java/com/rs/ownvocabulary/screens/Vocabulary.kt:160-164 | the result count equals the word count exactly when the query selects every word |

## Left out

- Network I/O (`HttpHelper`, OkHttp) is replaced by the scripted answers of `SyncEnv.Env`. The request body's Gson serialisation is not modelled.
- Decoding a pull response is an oracle, `parse: string -> Option<Page>`. A decoder that throws is `None`.
- A 200 body that decodes without a `data` field (`{}`, say) is not modelled. `PullNoteJobResponse` has no defaults, so Gson leaves `data` null and `data.data.isNotEmpty()` throws a NullPointerException out of `startPulling`; the oracle can only return a whole page or fail.
- Coroutine scheduling, `delay` and the executor threads are not modelled. A delay is a `Wait(ms)` entry in the log; no time passes.
- `@Volatile` visibility is not modelled. The stop flag is a scripted sequence of reads that stays set once seen set.
- `println` and `Log.e` are not modelled: they have no effect the model could observe.
- PullJob.PullFrom: the page loop is bounded by a `fuel` count of iterations. When the fuel runs out the run ends with `OutOfFuel`. The source loops for as long as the server keeps answering `hasMore`, so runs longer than the fuel are not described.
- PushJob.TryWithRetry and PullJob.Retry: the only facts stated on the functions are that the probe moves forward. Their behaviour is stated by the lemmas in the table.
- PullJob.Iterate: the function's own contract only says that the probe moves forward and the skip and fuel exits never occur. The lemmas in the table state the iteration's behaviour.
- WordStore.SearchWords and VocabularyFilter.Matches: SQLite `LIKE` and Kotlin's `contains(ignoreCase = true)` are approximated by a substring match under ASCII case folding. `LIKE`'s `%` and `_` wildcards inside the query are not modelled.
- Results are unstable under ties of the `ORDER BY` key. SQLite does not define the order of ties, so the model claims order only up to ties.
- `upsertWord`, called by the pull job's save callback, is not part of this model. The save is the uid-keyed upsert `WordStore.UpsertAll`.
- Integer widths are not modelled. Kotlin `Long` and `Int` are unbounded integers here, so the overflow of `abs(now - millis)` at the extremes and of `viewCount + 1` does not occur.
- `formatSmart`'s calendar branches are not modelled. They depend on `SimpleDateFormat`, the locale and the time zone; only the chosen pattern is modelled. `formatToHumanDate` and the other calendar helpers of `DateFormatter` are left out for the same reason.
- The exception handler of `parseJsonResponse` is not modelled. Nothing in the computation throws, so the handler is unreachable.
- Java's UTF-16 code units are not modelled. `String.replace` and the `"(.*?)"` regex are modelled on sequences of Unicode characters. None of the characters the scan looks at (the quote, the backtick, the line terminators) is a surrogate, so the captures are the same.
- `TTSManager.setSpeechRate`, `setPitch` and `isSpeaking` are not modelled. They pass floats to the engine or query it, and nothing in the queue depends on them.
- The engine's own answers (the result of `setLanguage`, the success of initialisation) are parameters.
- The Android `Context` and the listener lambdas are not modelled. Listeners are numbers, and notifying one is an effect.
- Compose UI, navigation, `AppViewModel` job management, the connectivity query, `PreferencesManager`, the schema upgrade and the build files are not modelled.
- AIResponseStore.Insert, Update and Delete: a storage fault is a boolean parameter. The fault reporting -1 or 0 is modelled; what raises the fault is not.
