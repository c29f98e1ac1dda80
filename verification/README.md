# Verified models of the knowledge pipeline's back end

The files here model the parts of the service in which a loop, a state machine or several requests have to cooperate, and
prove what callers rely on. `dafny verify dfyconfig.toml` checks them all. Code that computes is a function, code that
changes something step by step is a method or a class, and each method is tied to what it is supposed to mean: a filter of
a listing, a run of a state machine, or a specification function whose properties are proved beside it.

| file | subject |
|---|---|
| `Wrappers.dfy`, `Keyset.dfy` | optional values; ordered streams of rows, `(created_at, id)` keys, cursors, the store's page contract |
| `Catalog.dfy` | families of versions, scope links, histories of snapshots between which others write, what a paging reader is owed |
| `DocumentListing.dfy` | `GET /documents` of a caller with one scope: the filtered page and the client's whole walk |
| `KnowledgeCatalog.dfy` | `GET /knowledge/catalog`: overlapping scopes merged, latest version shown, peek for the cursor, the whole walk |
| `GraphPage.dfy` | the scope filter over one page of the knowledge graph |
| `Lifecycle.dfy` | the transition table, its converse, and what all runs of it have in common |
| `VersionWriters.dfy`, `ExtractionDesk.dfy` | every writer of a version's status as interleaved steps; the bounded queue; the two submission routes |
| `QuietVersions.dfy`, `StatusRaces.dfy` | a condition on the schedule that keeps a version's history legal; schedules that leave the table |
| `CatalogTable.dfy` | the catalog as a table: rows found by id, loops that list documents and rewrite each |
| `StuckScan.dfy` | which versions the scan for stuck extractions finds, and what it does to the catalog |
| `Purge.dfy`, `PurgeRoutes.dfy` | the purge cascade over any sequence of interrupted attempts; batch purge; Orbital's purge of everything |
| `MediaTypes.dfy`, `BatchUpload.dfy` | media types without parameters, the streaming size guard, the two-phase slot array, the hash index and version numbering |
| `RetryFetch.dfy` | the retry loop around `fetch` |
| `ChunkLocations.dfy` | sections joined with the best topic that cites them |
| `Lineage.dfy` | the lineage view of a family |
| `Rebackfill.dfy` | re-extraction of legacy PDF versions, faults included, and draining a backlog |
| `Idempotency.dfy` | Idempotency-Key replay over any sequential run of requests |

Ids, timestamps and hashes are integers or opaque values; a hash is an arbitrary function of the bytes and is not assumed
to be injective. Where the outside world decides something (another user's write between two store calls, a catalog write
that raises, jitter, a clock) it is a parameter, and the theorems hold for every value of it.

## Where the code differs from its own words

The models follow the code.

- `models/document.py:48-56` calls SUPERSEDED, REJECTED and DUPLICATE_DETECTED terminal; the table gives all three outgoing
  edges, and VALIDATED three.
- `models/document.py:103-110` says only settled versions are ever purged. The cascade never asks the table, and Orbital
  archives active documents itself: `SweepLegality` says exactly when a sweep keeps to the table, and
  `OrbitalPurgesMidExtraction` is one that does not.
- `services/document_service.py:330-332` says `mark_failed` and the review helpers enforce their own preconditions. They
  read, check (or do not), and then write unconditionally. `LegalIffPredecessorsFound` is the exact condition under which
  histories stay legal, `UndisturbedIsLegal` one about who may come between a read and its write, and `TwoReviewersBreakTheTable`,
  `LateFailureBreaksTheTable` and `StaleFailureUndoesReview` are runs that leave the table. The last one, with two workers,
  takes a VALIDATED version back to FAILED; `ReviewHolds` says exactly when review is kept.
- `routes/lifecycle.py:1544-1554` asks a client that got 503 to resubmit shortly. Unless an older job of the version is
  queued, the version is then QUEUED_FOR_EXTRACTION with no job, and every submission is refused until a recovery scan
  that finds it (at boot, every 900 s by default, or on an operator's request), a purge or an inline start writes it
  (`BusyStrands`, `StrandedUntilReleased`, `StrandedWhileUnscanned`). After a scan that finds it a retry is accepted if
  the queue has room (`RecoveryReopens`).
- `services/extraction_recovery.py:42` promises to fail every stuck version. The scan lists active families by the status of
  their LATEST version (`services/catalog_store.py:101-115`, `513-527`), so a stuck version whose family has since got
  another one is not found: uploading the same bytes again hides it from all scans (`DuplicateHidesStranded`). A version
  whose failure could not be written is hidden likewise once the latest one has been failed (`FaultHidesOlder`).
  `FailedIffFound` says exactly which versions any run of scans and uploads fails.
- `routes/lifecycle.py:1301-1305` promises the next-higher sibling; the code looks up number + 1
  (`PointsAtNextSiblingUnlessGap`, `GapLosesSuccessor`).
- `routes/_helpers.py:120` calls a replay byte-identical to the original response. Replays are identical to the recorded
  JSON, which is rendered separately from the first response.
- `rebackfill.py:301-306` describes the limit as a maximum; a limit of 0 or less still takes one version
  (`LimitIsMaximum`, `LimitZeroTakesOne`). A version that fails after its new extraction was saved is reported as skipped
  and yet no longer eligible (`EligibleAfterwards`).
- `apps/_shared/api-core/retryFetch.ts:52` documents a default base delay of 250 ms; the constant is 100 ms.
- `settings.py:61` does not force the upload limit to be positive; an empty body passes even a negative limit (`SpoolBody`).

## Model

| member | source | states |
|---|---|---|
| `Lifecycle.Predecessors` | apps/api/app/models/document.py:172-174 | a status is in the predecessor set of a target exactly when the table has the edge |
| `Lifecycle.BuildAllowedPredecessors` | apps/api/app/models/document.py:153-166 | the nested loops build exactly the converse of the transition table, with an entry for every status |
| `Lifecycle.PredecessorsWrittenOut` | apps/api/app/models/document.py:67-166 | the guard set of every target, status by status |
| `Lifecycle.AddSources` | apps/api/app/models/document.py:163-165 | the inner loop adds one status to exactly the targets it can reach |
| `Lifecycle.RunLength` | apps/api/app/models/document.py:67-150 | a run with r retries out of FAILED, d demotions and s re-purges has at most 9 + 5r + 2d + s transitions |
| `Lifecycle.PotentialPaysForRun` | apps/api/app/models/document.py:67-150 | the potential argument: transitions spent plus rank left never exceed the initial rank plus what retries, demotions and re-purges pay in |
| `Lifecycle.RunLengthIsReached` | apps/api/app/models/document.py:67-150 | for every r, d and s some run reaches that bound, so it cannot be lowered |
| `Lifecycle.ReviewGate` | apps/api/app/models/document.py:67-150 | a run from a pre-extraction state that is VALIDATED went through EXTRACTING, then EXTRACTED, then NEEDS_REVIEW |
| `Lifecycle.ReviewIsNeverLeft` | apps/api/app/models/document.py:67-150 | once NEEDS_REVIEW is reached no run returns to an extraction state or to FAILED |
| `VersionWriters.LegalIffPredecessorsFound` | apps/api/app/services/document_service.py:318-374 | for every interleaving of all writers, the committed histories are runs of the table if and only if each unguarded write found a predecessor of its target |
| `VersionWriters.GuardedWritersAreLegal` | apps/api/app/services/catalog_store.py:586-608 | any number of read, check, guarded-write tasks under any schedule commit legal histories only |
| `VersionWriters.FailedBetweenQueueings` | apps/api/app/routes/lifecycle.py:1635-1662 | under any interleaving, guarded or not, a version was FAILED between two entries into QUEUED_FOR_EXTRACTION |
| `VersionWriters.AcceptedOnce` | apps/api/app/routes/lifecycle.py:1635-1787 | two submissions of one version that both got 202 have a failure between their own status writes, so simultaneous ones cannot both be accepted; the queue never exceeds its bound |
| `VersionWriters.StrandedUntilReleased` | apps/api/app/routes/lifecycle.py:1743-1758 | over every run, a stranded version keeps its status if and only if no recovery, purge or start write lands on it; until one does, every task on it that ends is refused |
| `VersionWriters.StepStranded` | apps/api/app/routes/lifecycle.py:1686-1706 | the step of that argument: any event that is not such a write keeps the version stranded and refuses what ends with it |
| `VersionWriters.StrandedWhileUnscanned` | apps/api/app/services/extraction_recovery.py:61-81 | a condition on the schedule: while no scan finds a stranded version and nobody purges it or starts it inline, its status stays and every submission of it is refused |
| `VersionWriters.RecoveryFails` | apps/api/app/services/extraction_recovery.py:71-81 | a scan that finds a queued version and is not interrupted takes it to FAILED, with or without a job, and leaves the queue alone |
| `VersionWriters.CheckedStatusIsPredecessor` | apps/api/app/services/document_service.py:351-374 | for one status read: each writer's check implies that it is a predecessor of the target, except for failures and purges, for which the exact statuses are given |
| `VersionWriters.GuardedCheckIsPredecessor` | apps/api/app/services/document_service.py:340-349 | and conversely: a guarded writer accepts every predecessor of its target, a retry FAILED alone |
| `VersionWriters.UndisturbedTask` | apps/api/app/services/document_service.py:318-374 | what each of the twelve writers makes of each of the fourteen statuses when nobody comes between its read and its write, written out |
| `VersionWriters.WriteAfterOthers` | apps/api/app/services/catalog_store.py:586-640 | when others wrote in between: guarded writes land on a predecessor of their target only, failures, reviews, demotions and purges on anything |
| `VersionWriters.QueueIsFifo` | apps/api/app/routes/lifecycle.py:1743-1758 | over every run: workers start on jobs in the order in which they were put on the queue; none is lost, none is started twice |
| `VersionWriters.ReviewHolds` | apps/api/app/services/document_service.py:367-374 | over every interleaving, a version that reached review stays among the reviewed statuses if and only if no failure, of a parser or of the scan, is written to it |
| `VersionWriters.LegalRunsKeepReview` | apps/api/app/models/document.py:67-150 | in particular where all unguarded writes find predecessors, review is not left from any position of the history |
| `QuietVersions.UndisturbedIsLegal` | apps/api/app/services/extraction_job_service.py:86-150 | if nobody purges a version, nothing is committed on it between the read and the write of a review or a recovery scan, and no scan fails it while it is EXTRACTING, then whatever else happens its history is a run of the table, at most one task parses it, and it is EXTRACTING while one does |
| `QuietVersions.OneExtractsNext` | apps/api/app/services/extraction_job_service.py:86-150 | the step of that argument: an event whose check still holds keeps the history legal and the extraction of the version to one task |
| `StatusRaces.TwoReviewersBreakTheTable` | apps/api/app/services/document_service.py:513-535 | two reviewers who both read NEEDS_REVIEW commit VALIDATED and then REJECTED, which is no edge |
| `StatusRaces.LateFailureBreaksTheTable` | apps/api/app/services/extraction_recovery.py:71-81 | with one worker: submitted, taken, failed by the scan, and failed again by the parser, which is no edge |
| `StatusRaces.StaleFailureUndoesReview` | apps/api/app/services/extraction_recovery.py:71-81 | with two workers: a parser that outlives the scan takes a version that was retried, extracted and VALIDATED back to FAILED |
| `ExtractionDesk.SubmissionRuns` | apps/api/app/routes/lifecycle.py:1625-1787 | the whole undisturbed run of one submission: 202, 503, 404 or 409 with the exact history, queue and ticket it leaves |
| `ExtractionDesk.SubmissionAnswers` | apps/api/app/routes/lifecycle.py:1645-1712 | an extract submission is refused if and only if the status is neither STORED nor FAILED, a retry if and only if it is not FAILED; otherwise 202 if the queue has room, else 503; with the history and the queue they leave |
| `ExtractionDesk.BusyStrands` | apps/api/app/routes/lifecycle.py:1646-1662 | when nobody else is at work on the version, a 503 leaves it QUEUED_FOR_EXTRACTION, and stranded if and only if no older job of it is queued |
| `ExtractionDesk.RecoveryReopens` | apps/api/app/routes/lifecycle.py:1686-1712 | once a scan that finds it has failed a queued version, a retry is accepted if and only if the queue has room and answered with 503 otherwise |
| `ExtractionDesk.Desk.UpdateStatusQueued` | apps/api/app/services/document_service.py:340-349 | read, check, guarded write: the flip happens exactly from a predecessor of QUEUED_FOR_EXTRACTION |
| `ExtractionDesk.Desk.PutJob` | apps/api/app/routes/lifecycle.py:1743-1758 | the job goes to the end of the queue, or the queue is full and 503 is answered |
| `ExtractionDesk.Desk.EnqueueExtract` | apps/api/app/routes/lifecycle.py:1625-1662 | 404, 409 for any status but STORED and FAILED, 202 or 503, with the exact history and queue; and the effect is that run of the interleaving machine |
| `ExtractionDesk.Desk.EnqueueRetry` | apps/api/app/routes/lifecycle.py:1665-1712 | likewise for a retry, with 409 for any status but FAILED |
| `StuckScan.FailedIffFound` | apps/api/app/services/extraction_recovery.py:61-94 | over any run of scans, faults included, and uploads: a stuck version is failed if and only if its family was listed and some scan wrote its failure before an upload came and before the latest version had been failed; otherwise it stays as it is |
| `StuckScan.UnlistedIsNeverFound` | apps/api/app/services/catalog_store.py:513-527 | a family that is archived or whose latest version is not stuck keeps all its versions through any number of scans and uploads |
| `StuckScan.ScanFailsListed` | apps/api/app/services/extraction_recovery.py:71-81 | a scan without faults fails a stuck version if and only if its family is listed, and leaves no family listed |
| `StuckScan.ScanMeans` | apps/api/app/services/extraction_recovery.py:33-81 | version by version: a scan fails the QUEUED_FOR_EXTRACTION and EXTRACTING versions of active families whose latest version is one of those, where nothing raises before the write, and changes nothing else |
| `StuckScan.RecoveredMeans` | apps/api/app/services/extraction_recovery.py:70-94 | the versions counted as recovered: those for which nothing raised at all |
| `StuckScan.UploadUnlists` | apps/api/app/services/catalog_store.py:495-503 | a version that joins a family becomes its latest one and takes the family off the scan's list |
| `StuckScan.DuplicateHidesStranded` | apps/api/app/services/document_service.py:114-154 | a stranded version 1 and the same bytes uploaded again: no number of scans finds version 1 |
| `StuckScan.FaultHidesOlder` | apps/api/app/services/extraction_recovery.py:75-93 | two stuck versions, and a scan that raises on the older one only: no number of later scans finds it |
| `StuckScan.Recovery.MarkFailed` | apps/api/app/services/document_service.py:351-374 | writes FAILED on the version found by its ids whatever its status, unless it raises before that |
| `StuckScan.Recovery.MarkVersions` | apps/api/app/services/extraction_recovery.py:72-102 | the inner loop fails the stuck versions of one listed document and counts those for which nothing raised |
| `StuckScan.Recovery.RecoverStuckExtractions` | apps/api/app/services/extraction_recovery.py:41-110 | the exact table a scan leaves, row by row, and the number returned: how many stuck versions of listed families it failed without a fault |
| `Keyset.FetchSplits` | apps/api/app/services/catalog_store.py:722-734 | a store page is the first rows after the cursor, and fetching from its last key continues exactly where it ended |
| `Keyset.SortAscending` | apps/api/app/services/catalog_store.py:722 | sorting by `(created_at, id)` orders rows with distinct keys strictly |
| `Catalog.PageDelivers` | apps/api/app/services/catalog_store.py:702-741 | one store page, filtered, owes nothing up to its last key |
| `Catalog.DeliveredThen` | apps/api/app/routes/lifecycle.py:1502-1521 | deliveries read at different times join at their cursor without gap or repeat, whatever changed in between |
| `Catalog.DeliveredCut` | apps/api/app/routes/lifecycle.py:1515-1521 | cutting a delivery to its first rows moves its cursor back without losing anything |
| `Catalog.DeliveredIsExact` | apps/api/app/routes/lifecycle.py:1420-1451 | on a corpus nobody changes a delivery is exactly the filtered listing |
| `DocumentListing.AppendMatches` | apps/api/app/routes/lifecycle.py:1515-1519 | the inner loop adds the matching rows in order and stops at `limit` |
| `DocumentListing.FilterScopedPage` | apps/api/app/routes/lifecycle.py:1459-1521 | walking on fills the page with the next matches while others write, in at most ceil(N / limit) + 1 store calls on a fixed corpus |
| `DocumentListing.ListDocumentsWithScope` | apps/api/app/routes/lifecycle.py:1420-1451 | one request delivers up to `limit` rows and a cursor exactly when the page is full; every row was read as active, linked to the caller's scope and matching; on a fixed corpus the page has exactly those between its cursors |
| `DocumentListing.WalkDocuments` | apps/api/app/routes/lifecycle.py:1420-1521 | over a whole walk with other users' writes between any two store calls: keys strictly increase, every row was read as active, linked to the scope and matching, and each document that stays so is returned once; on a fixed corpus exactly the active matching documents linked to the scope are returned, in floor(n / limit) + 1 requests |
| `DocumentListing.FiltersMean` | apps/api/app/services/catalog_store.py:101-115 | the filters select names that contain the text whatever the case of its letters, and families whose latest version, the last one if the latest id dangles, has one of the statuses |
| `DocumentListing.RowsLeftCounts` | apps/api/app/services/catalog_store.py:702-741 | the N of the store-call bound is the number of active documents linked to the scope beyond the cursor |
| `KnowledgeCatalog.FirstHighest` | apps/api/app/routes/knowledge.py:1287-1334 | the version shown is a member of maximal number |
| `KnowledgeCatalog.ItemIsLatest` | apps/api/app/routes/knowledge.py:1287-1334 | a family without a non-superseded version (without any, when SUPERSEDED was asked for) is hidden; any other is shown exactly when its latest candidate, ties in number included, has a visible status, and then as that version |
| `KnowledgeCatalog.ItemMeans` | apps/api/app/routes/knowledge.py:1092-1101 | a request shows a document if and only if its latest version has a status asked for, or VALIDATED or NEEDS_REVIEW if none was, and the item carries that version's data |
| `KnowledgeCatalog.ShowsMeans` | apps/api/app/routes/knowledge.py:1060-1101 | and the name asked for, ignoring case |
| `KnowledgeCatalog.ReachMeans` | apps/api/app/routes/knowledge.py:1074-1092 | a caller sees the active documents linked to one of the scopes, all active ones without authentication |
| `KnowledgeCatalog.AddMissing` | apps/api/app/routes/knowledge.py:1276-1277 | merging a page keeps what was there, adds what was missing, and never repeats an id |
| `KnowledgeCatalog.DrainScope` | apps/api/app/routes/knowledge.py:1268-1279 | one scope's stream is walked to its end along the store's cursors and merged completely |
| `KnowledgeCatalog.CollectDocuments` | apps/api/app/routes/knowledge.py:1242-1284 | all scopes together deliver every document after the cursor the caller can see, once, in key order |
| `KnowledgeCatalog.TakeVisible` | apps/api/app/routes/knowledge.py:1095-1110 | the first `limit` visible documents, each with its item |
| `KnowledgeCatalog.AnyVisible` | apps/api/app/routes/knowledge.py:1133-1142 | the peek answers whether a visible document follows |
| `KnowledgeCatalog.GetKnowledgeCatalog` | apps/api/app/routes/knowledge.py:1074-1144 | one request over any overlapping scopes: every item has a status asked for, or VALIDATED or NEEDS_REVIEW if none was, and describes the latest version of an active document linked to one of the scopes; on a fixed corpus the page has exactly those between its cursors, and a cursor exactly when a later one exists |
| `KnowledgeCatalog.WalkCatalog` | apps/api/app/routes/knowledge.py:1074-1144 | the whole walk returns each document that stays visible in a scope once, in key order, as its latest version with a status asked for or visible by default; on a fixed corpus exactly the active documents linked to one of the scopes whose name and latest version qualify, in max(1, ceil(n / limit)) requests |
| `GraphPage.CanSee` | apps/api/app/routes/knowledge.py:152-165 | the cache answers with the one verdict obtained for a document and asks about a new one once |
| `GraphPage.FilterByScope` | apps/api/app/routes/knowledge.py:129-188 | a node is kept if and only if it names no document or the one answer obtained for its document was yes; an edge if and only if the page's nodes at its ends are kept; the omitted count; each document named is asked about exactly once |
| `GraphPage.EdgeSurvivesWithItsEnds` | apps/api/app/routes/knowledge.py:176-180 | an edge is kept if and only if every node of this page at its ends is kept; an end on another page does not count |
| `GraphPage.DocumentSharesFate` | apps/api/app/routes/knowledge.py:152-174 | nodes of one document are kept or dropped together even if access changes while the page is filtered |
| `GraphPage.OmittedCounts` | apps/api/app/routes/knowledge.py:168-187 | with distinct node ids the omitted count is the number of dropped nodes |
| `Purge.TombstoneIsWrittenOnce` | apps/api/app/routes/admin.py:778-864 | over any sequence of attempts, each possibly cut off anywhere, before or after a storage delete, with no other writer in between, a version's tombstone comes from the first attempt that got past it and is never overwritten |
| `Purge.DeletedBeforePurged` | apps/api/app/routes/admin.py:824-842 | no version is PURGED unless a delete of its original object was attempted before |
| `Purge.UninterruptedAttemptPurgesAll` | apps/api/app/routes/admin.py:778-870 | one attempt that nothing interrupts purges everything earlier ones left |
| `Purge.FurtherAttemptsEcho` | apps/api/app/routes/admin.py:785-800 | once all is purged, attempts change and delete nothing and echo the stored tombstones |
| `Purge.DeletesAreOfUnpurged` | apps/api/app/routes/admin.py:785-835 | the storage deletes are those of the versions not yet purged, in order |
| `Purge.TombstoneSurvivesUnlessWritten` | apps/api/app/services/catalog_store.py:1239-1255 | through any attempts and other status writes up to an attempt that runs through, a stored tombstone survives if and only if no status write lands on its version |
| `Purge.CascadeLegality` | apps/api/app/routes/admin.py:836-842 | any attempts, wherever they stop, keep to the table if and only if every version one got past had been in a predecessor of PURGED |
| `PurgeRoutes.OrbitalLegality` | apps/api/app/routes/admin.py:1169-1182 | the same for Orbital's cascade on one document, for every plan of failures |
| `PurgeRoutes.SweepLegality` | apps/api/app/routes/admin.py:1280-1305 | a whole sweep keeps to the table if and only if every active document's cascade meets only predecessors of PURGED |
| `PurgeRoutes.OrbitalPurgesMidExtraction` | apps/api/app/routes/admin.py:1169-1182 | an active document with an EXTRACTING version is archived and purged, from a status with no edge to PURGED |
| `PurgeRoutes.Admin.PurgeVersionArtifacts` | apps/api/app/services/catalog_store.py:868-905 | the version found by id gets the tombstone, once; everything else stays |
| `PurgeRoutes.Admin.PurgeOneDocument` | apps/api/app/routes/admin.py:723-870 | 404 if and only if no row has the id, 409 if and only if the document is active, otherwise one line per version as it was found or the write that raised; the exact table and deletes left behind; a dry run changes nothing |
| `PurgeRoutes.OneMeans` | apps/api/app/routes/admin.py:743-870 | those answers in terms of the rows alone |
| `PurgeRoutes.OneLeaves` | apps/api/app/routes/admin.py:824-842 | the table left: tombstones on the versions got past that had none, nothing else changed |
| `PurgeRoutes.OneDeletesMean` | apps/api/app/routes/admin.py:824-835 | the deletes attempted: the unpurged versions up to the one whose write raised |
| `PurgeRoutes.Admin.PurgeVersions` | apps/api/app/routes/admin.py:778-864 | the loop is one attempt of the cascade, stopped where its first reached catalog write fails |
| `PurgeRoutes.Admin.PurgeBatch` | apps/api/app/routes/admin.py:952-1006 | one result per id in input order: 404 for unknown ids, 409 for active documents, the report of the versions as found, and of the stored tombstones for a repeated id; each listed archived document is purged at its first listing's time, all others stay; a catalog write that raises ends the request with 500 exactly when it is reached, with the ids before it done |
| `PurgeRoutes.BatchResultAt` | apps/api/app/routes/admin.py:971-1006 | result k names id k and the outcome its document had at that point |
| `PurgeRoutes.BatchLine` | apps/api/app/routes/admin.py:971-994 | what result k answers, in terms of the rows before the batch |
| `PurgeRoutes.BatchPurgesListed` | apps/api/app/routes/lifecycle.py:1188-1199 | the families left fully purged are exactly the listed archived ones that have versions and those fully purged before |
| `PurgeRoutes.BatchKeepsTombstones` | apps/api/app/routes/admin.py:785-800 | a batch, the repetition of an aborted one included, overwrites no tombstone it finds |
| `PurgeRoutes.BatchReportsStored` | apps/api/app/routes/admin.py:785-799 | every listing of an archived document, first or repeated, reports the tombstones that end up stored |
| `PurgeRoutes.ActiveIdsEnumerate` | apps/api/app/routes/admin.py:1280-1284 | the snapshot lists exactly the active documents, each once |
| `PurgeRoutes.Admin.OrbitalPurgeOne` | apps/api/app/routes/admin.py:1156-1223 | archives, then purges; success exactly when neither step raises, and the exact row it leaves either way |
| `PurgeRoutes.CascadeMeans` | apps/api/app/routes/admin.py:1156-1223 | when the cascade succeeds, what it reports, and the row and deletes it leaves for every plan of failures, written out |
| `PurgeRoutes.Admin.OrbitalPurgeAll` | apps/api/app/routes/admin.py:1257-1322 | both gates; every active document swept once, counts sum to the snapshot's size, other rows untouched |
| `PurgeRoutes.SweepPartitions` | apps/api/app/routes/admin.py:1286-1305 | each snapshot id is in exactly one of results and failures: in results exactly when its cascade ran to the end |
| `PurgeRoutes.SuccessPurges` | apps/api/app/routes/admin.py:1169-1182 | a success is archived, all its versions are purged, and the stored tombstones are reported |
| `BatchUpload.SpoolBody` | apps/api/app/routes/upload.py:386-398 | too large if and only if the body's length exceeds the limit, however it is chunked; an accepted spool is the body; the spool never outgrows the limit; the overrun is at most one chunk |
| `BatchUpload.IterChunks` | apps/api/app/routes/upload.py:443-449 | reading the spool back in blocks yields the same bytes, in blocks of at most the chunk size |
| `BatchUpload.BodyMeans` | apps/api/app/routes/upload.py:386-398 | the body is the chunks up to the first empty one |
| `BatchUpload.OverrunMeans` | apps/api/app/routes/upload.py:386-398 | of a body that is too large the chunks up to the first that exceeds the limit are read |
| `MediaTypes.ParametersAreDropped` | apps/api/app/routes/upload.py:356 | whatever follows a semicolon does not change the media type |
| `MediaTypes.TypeIsTrimmed` | apps/api/app/routes/upload.py:356 | a value without parameters is its media type with white space around it |
| `MediaTypes.SpaceAroundTypes` | apps/api/app/routes/upload.py:356 | and nothing else is: white space around a type does not matter |
| `BatchUpload.QueuedAtRank` | apps/api/app/routes/upload.py:354-424 | every file that is not turned away is queued, at the position given by its predecessors |
| `BatchUpload.UploadService.BufferFiles` | apps/api/app/routes/upload.py:354-424 | the first loop fills exactly the slots of files it turns away and queues the others with their bytes |
| `BatchUpload.UploadService.UploadStream` | apps/api/app/services/document_service.py:76-156 | stores the joined blocks as one new version, in the family the client named or the one found; raises, and leaves the catalog alone, exactly on a fault or an unknown or archived named family |
| `BatchUpload.UploadService.WritePending` | apps/api/app/routes/upload.py:441-477 | one catalog write per queued file in order; every queued slot is filled, failures included |
| `BatchUpload.UploadService.UploadBatch` | apps/api/app/routes/upload.py:320-511 | result i describes file i for every mix of files: each status if and only if its condition on the media type, the length, the limit and the write holds; the catalog ends as the writes in order leave it; an empty list is refused |
| `BatchUpload.ParametersDoNotMatter` | apps/api/app/routes/upload.py:354-424 | adding parameters to one file's content type changes no result of the batch |
| `BatchUpload.CountersCount` | apps/api/app/routes/upload.py:492-502 | each counter is the number of results with its status |
| `BatchUpload.CountersSum` | apps/api/app/routes/upload.py:492-502 | the six counters sum to the number of files |
| `BatchUpload.WrittenInOrder` | apps/api/app/routes/upload.py:441-477 | the k-th landed file is the k-th new version, with its own name, type and bytes, and its status in the report is the one cataloged |
| `BatchUpload.DuplicateMeansSeen` | apps/api/app/services/document_service.py:114-136 | a file is a duplicate exactly when its hash was indexed before or an earlier file of the batch landed with it |
| `BatchUpload.WriteFindsFamily` | apps/api/app/services/document_service.py:117-154 | the hash index stays sound and complete; a named family is joined; otherwise a duplicate joins the family it duplicates unless that is archived, and anything else starts a family at number 1 |
| `BatchUpload.WriteKeepsNumbering` | apps/api/app/services/document_service.py:125-132 | numbering by maximum + 1 keeps each family numbered 1, 2, 3, ... in order of writing |
| `BatchUpload.BatchKeepsNumbering` | apps/api/app/routes/upload.py:441-477 | and so does any batch |
| `RetryFetch.WithRetry` | apps/_shared/api-core/retryFetch.ts:112-128 | defaults filled in; refused exactly for negative retries or base delay |
| `RetryFetch.FetchWithRetry` | apps/_shared/api-core/retryFetch.ts:130-166 | delivers outcome k of any stream, k being the first that is no listed status and no TypeError, capped by the retries and 0 for a method not listed in any case; k + 1 calls, k pauses, each as long as Retry-After says or the backoff; without Retry-After the pauses total at most min(k * cap, base * (2^k - 1 + k)) |
| `RetryFetch.BackoffMeans` | apps/_shared/api-core/retryFetch.ts:88-99 | the backoff starts at the base delay, doubles with each attempt, gains less than a base delay of jitter, and is cut at the cap |
| `RetryFetch.Settles` | apps/_shared/api-core/retryFetch.ts:138-165 | k is the first index from an attempt on that is not transient or is the last one allowed |
| `ChunkLocations.TopicsForVersion` | apps/api/app/routes/lifecycle.py:1273-1295 | however the store pages its answer, all topics of the version are collected once, in store order |
| `ChunkLocations.TopicsOfMean` | apps/api/app/routes/lifecycle.py:1273-1295 | the topics collected are those stored for the document and the version, in store order |
| `ChunkLocations.BestIsArgmax` | apps/api/app/routes/lifecycle.py:696-703 | the best topic has maximal confidence among those citing the chunk and is the earliest of equals; there is none exactly when nobody cites it |
| `ChunkLocations.FirstCitingIsBest` | apps/api/app/routes/lifecycle.py:699-703 | the first citing topic of the stable descending sort is that best topic |
| `ChunkLocations.SortPermutes` | apps/api/app/routes/lifecycle.py:699 | the sort loses and invents no topic |
| `ChunkLocations.IndexTopics` | apps/api/app/routes/lifecycle.py:699-703 | the first-wins index maps exactly the cited chunks to their best topics |
| `ChunkLocations.Locate` | apps/api/app/routes/lifecycle.py:707-730 | rectangles of all resolvable references in order; page of the first numbered one, else of the first rectangle, else 1 |
| `ChunkLocations.RowMeans` | apps/api/app/routes/lifecycle.py:730-775 | a row carries its section's id, heading and first 240 characters, and summary, id, label and confidence of the best citing topic, or none and the parser's confidence 1 |
| `ChunkLocations.PageMeans` | apps/api/app/routes/lifecycle.py:707-730 | the page of the first reference with a number, else of the first rectangle, else 1 |
| `ChunkLocations.ResolveMeans` | apps/api/app/routes/lifecycle.py:705-712 | a reference is looked up under its id, the last of equal ids |
| `ChunkLocations.RectsInOrder` | apps/api/app/routes/lifecycle.py:712-722 | the rectangles are those of the resolvable references, in order |
| `ChunkLocations.ListDocumentChunks` | apps/api/app/routes/lifecycle.py:691-775 | the answer is the first `limit` rows of the filtered naive join of sections with best topics |
| `Lineage.BuildLineageResponse` | apps/api/app/routes/lifecycle.py:1308-1346 | one row per version in order of numbers, the latest marked, successors by number + 1; the family is named after its newest version; the empty family |
| `Lineage.SortKeepsMembers` | apps/api/app/routes/lifecycle.py:1308 | every version is shown once |
| `Lineage.SortIsStable` | apps/api/app/routes/lifecycle.py:1308 | versions with equal numbers keep their order |
| `Lineage.NewestNamesFamily` | apps/api/app/routes/lifecycle.py:1308-1320 | the name shown is that of the first listed version with the highest number |
| `Lineage.LatestMeans` | apps/api/app/routes/lifecycle.py:1315-1336 | a row is latest if and only if no version has a higher number |
| `Lineage.SuccessorMeans` | apps/api/app/routes/lifecycle.py:1320-1336 | a row names a successor if and only if it is superseded and the next number exists, and then the last listed version with it |
| `Lineage.ExactlyOneLatest` | apps/api/app/routes/lifecycle.py:1315-1336 | with distinct numbers the last row and no other is latest |
| `Lineage.PointsAtNextSiblingUnlessGap` | apps/api/app/routes/lifecycle.py:1320-1327 | a superseded version points at its next-higher existing sibling if and only if there is no gap after it |
| `Lineage.GapLosesSuccessor` | apps/api/app/routes/lifecycle.py:1325-1327 | versions 1 and 3: the superseded first one points nowhere |
| `Lineage.SuccessorsClimb` | apps/api/app/routes/lifecycle.py:1320-1327 | following the successors rises by one number and one row per step, so it ends within the lineage |
| `Lineage.UploadedFamiliesPointOnward` | apps/api/app/services/document_service.py:125-132 | in a family numbered by uploads every superseded version but the last points at the next one |
| `Rebackfill.Backfill.EligibleVersions` | apps/api/app/rebackfill.py:90-119 | the first versions of the backlog in listing order, as many as the limit allows and one even at limit 0 |
| `Rebackfill.BacklogMeans` | apps/api/app/rebackfill.py:102-119 | eligible are exactly the PDF versions, of the one document if filtered, with a stored extraction whose parser version precedes 0.2 as a string |
| `Rebackfill.BatchMeans` | apps/api/app/rebackfill.py:116-118 | how many of them a limit takes |
| `Rebackfill.LimitIsMaximum` | apps/api/app/rebackfill.py:116-118 | the limit is a maximum if and only if it is positive, or zero with nothing eligible |
| `Rebackfill.LimitZeroTakesOne` | apps/api/app/rebackfill.py:116-118 | one eligible version and limit 0: it is taken |
| `Rebackfill.Backfill.RebackfillOne` | apps/api/app/rebackfill.py:136-170 | what each possible failure point leaves in each store, and what success does |
| `Rebackfill.Backfill.RunRebackfill` | apps/api/app/rebackfill.py:173-245 | a run takes on the backlog's first versions in order and reports them; a dry run plans the same and writes nothing |
| `Rebackfill.RunTouchesOnlyTaken` | apps/api/app/rebackfill.py:195-230 | versions taken on are redone up to their fault, with claims and topics cleared on success; every other version keeps everything |
| `Rebackfill.AfterMeans` | apps/api/app/rebackfill.py:136-170 | store by store for every fault: a version redone is stored by parser 0.2, has no claims and no topics left, and awaits review if it was VALIDATED or REJECTED |
| `Rebackfill.RunPartitions` | apps/api/app/rebackfill.py:213-230 | rebackfilled and skipped split the versions taken on; demoted is a subset of rebackfilled |
| `Rebackfill.RunReportsOnce` | apps/api/app/rebackfill.py:213-230 | no version is in both lists; demoted are exactly the landed ones that were VALIDATED or REJECTED |
| `Rebackfill.LandsMeans` | apps/api/app/rebackfill.py:213-230 | a version counts as rebackfilled if and only if no fault was reached on it |
| `Rebackfill.PlansMean` | apps/api/app/rebackfill.py:195-212 | a plan's entries, and that VALIDATED and REJECTED versions will be demoted |
| `Rebackfill.EligibleAfterwards` | apps/api/app/rebackfill.py:145-157 | a version is eligible after a run if and only if it was and the run did not save a new extraction for it |
| `Rebackfill.RunConsumesBacklog` | apps/api/app/rebackfill.py:90-119 | a run without failures before the save leaves exactly the rest of the backlog |
| `Rebackfill.DrainTakesCeilRuns` | apps/api/app/rebackfill.py:173-245 | E eligible versions are drained in exactly ceil(E / n) runs of limit n |
| `Rebackfill.UnlimitedDrainsAtOnce` | apps/api/app/rebackfill.py:173-245 | without a limit one run does it |
| `Idempotency.SucceedsOncePerLapse` | apps/api/app/routes/_helpers.py:76-145 | per key and route, storing operations succeed at most once plus once per lost record, over any run |
| `Idempotency.EachLapseAllowsOne` | apps/api/app/routes/_helpers.py:76-145 | and that bound is reached for every number of lapses |
| `Idempotency.LapseMeans` | apps/api/app/services/idempotency_store.py:100-105 | a record is lost when a slot has none although it had one or its operation has just run |
| `Idempotency.RequestMeans` | apps/api/app/routes/_helpers.py:76-145 | what one request does and is answered, for every mix of key, record, outcome and storage fault |
| `Idempotency.RecordStays` | apps/api/app/services/idempotency_store.py:83-98 | a record is never overwritten: without a lapse it stays as it is |
| `Idempotency.SuccessIsReplayed` | apps/api/app/routes/_helpers.py:92-125 | after a recorded success the same request hash gets the recorded response, any other is refused with 422, and neither changes anything |
| `Idempotency.ReplaysAgree` | apps/api/app/routes/_helpers.py:112-125 | any two replays of one key and route agree |
| `Idempotency.QueueingIsNotReplayed` | apps/api/app/routes/lifecycle.py:239-264 | the queueing extract path records nothing: two identical requests run twice |
| `Idempotency.IdempotentRoutes.CheckIdempotency` | apps/api/app/routes/_helpers.py:76-125 | replay, refusal or go-ahead from the stored entry alone |
| `Idempotency.IdempotentRoutes.StoreIdempotency` | apps/api/app/routes/_helpers.py:128-145 | files the response under key and route, and nothing without a key |
| `Idempotency.IdempotentRoutes.Serve` | apps/api/app/routes/lifecycle.py:435-456 | a route around the two is one step of the run the theorems are about |
| `Idempotency.IdempotentRoutes.PurgeExpired` | apps/api/app/services/idempotency_store.py:100-105 | removes exactly the entries older than the cutoff |

## Left out

- `GET /documents` with authentication disabled delegates to a store call of its own, and with several scopes raises NotImplementedError.
- Filters compare file names by ASCII lower case; SQL `LIKE` wildcards in a file name query are not modelled.
- Cursor text, hashing, JSON bytes, Pydantic validation and the error envelopes beyond their status code.
- The store's page contract is that of the in-memory store; the SQL of the SQLite store is not modelled separately.
- VersionWriters: the worker's timeout handling, the taxonomy of failure reasons and audit records are left out, and each
  status write is one atomic step. Which sibling gets superseded after a validation is not modelled. Inline starts, queued
  jobs and recovery scans may mix in one run although a deployment is in one mode; the runs in StatusRaces use queued jobs only.
- StuckScan.Recovery.RecoverStuckExtractions: nobody else writes during the scan; a scan's read and write among other
  writers are the subject of VersionWriters. A family whose latest version id dangles is judged by its last version, as the
  in-memory store does; the SQLite store does not list it.
- StuckScan.FailedIffFound: other writers between the scans, which could make the latest version stuck again, are left out.
- ExtractionDesk.Desk: the request thread is not interrupted between its two steps; interrupted submissions are the subject of VersionWriters.
- PurgeRoutes.Admin.OrbitalPurgeAll: the graph store's best-effort cleanup and changes by others during the sweep.
- Concurrent purges of one document may each compute a tombstone; only attempts one after the other are modelled.
- BatchUpload.UploadService.UploadBatch: the replay of a batch under an Idempotency-Key is the subject of Idempotency; the
  request hash that would tell two batches apart is not modelled. Non-ASCII white space around a media type is not stripped.
- BatchUpload.UploadService.UploadStream: which step of storing the object raises is not told apart.
- RetryFetch.FetchWithRetry: `maxRetries` is an integer; JavaScript's NaN, infinite and fractional values are not modelled,
  and a caller-supplied sleep does not throw. What `Number` makes of a header text is a parameter.
- ChunkLocations.ListDocumentChunks: the 404 and 410 answers and the access check that precede the join; a store that
  changes while its pages are walked.
- Rebackfill.Backfill.EligibleVersions: the nested loops over documents and their versions are one loop over the versions
  in listing order, and the result lists positions in that order instead of the rows themselves.
- Rebackfill.DrainTakesCeilRuns: assumes nobody uploads or extracts between runs, and that today's parser stamps version 0.2.
- Idempotency: requests run one after the other; two simultaneous first requests may both run their operation.
- GraphPage.FilterByScope: one page only; an edge whose hidden end lies on another page is kept.
- Neo4j, language-model and embedding calls, SQLite migrations, backups, settings, the React applications and the build files.
