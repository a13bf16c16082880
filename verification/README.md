# Cyberwatch: a verified model of its ingestion core

Cyberwatch collects vulnerability records and security news from many sources into one embedded
database and serves them through a paged list. This project models the protocols and algorithms that
decide what is stored, what is delivered and when work is done, and proves properties of them for every
input, every interleaving or every run.

| module | what it models |
|---|---|
| `ItemMerge` | the merge of items that share an id, over whole histories of upserts |
| `Keyset`, `KeysetWalk` | keyset pagination: on a fixed table, on a changing table, and through the HTTP cursor check |
| `Tables`, `Store` | the tables, and class `Repository` with its transactions, queries and loops |
| `ListView`, `ListClient` | what a page of the item list shows, and a client that reads the list to its end |
| `Backoff` | the persisted backoff of one source over its attempts |
| `SourceRun`, `Reports`, `Scheduler` | the run of one source as a chain of steps, the report, and the bounded, interleaved run of all sources |
| `Refresh` | the refresh coordinator and its worker as interleaved atomic steps, and class `Coordinator` |
| `Nvd`, `NvdSync` | time windows, cursor and paging loop of the NVD synchronisation, and their transaction on the repository |
| `Rotation`, `Evidence`, `CrossValidation` | the validation stage: whom it validates, what it computes, what it stores |
| `SourceHealth` | the one-pass health summary |
| `RustScanner`, `TokenTrees` | the delimiter scanner for Rust sources, and the token trees it must accept |
| `Probe` | the chunked status-line reader of the readiness probe |
| `Backup` | the publish protocol of the backup tool, under failures and interference |
| `Demo` | the marker that keeps demonstration data and live data apart |

Three conventions hold throughout. A write transaction is one atomic step, and a parameter says whether
it reaches the disk. Clocks, servers, adapters and parsers are parameters, so a theorem holds for each of
them. Code that works step by step is a method proved against a function; the lemmas say what that
function means.

## Findings

Where the code does not do what one may expect of it, the model follows the code and says exactly when
the expectation holds.

- The documentation (README.md:304) says that the NVD cursor advances only after the complete page set is
  committed. The code takes an empty page before the announced total as the end (src/ingest/nvd.rs:115-117)
  and advances the cursor all the same. From a server that tells the truth about total and records, a run that
  succeeds has the complete page set if and only if it met no such page: `Nvd.CursorFollowsCompleteSet`.
  `Nvd.EarlyEmptyPageIsTaken` is a run on which the cursor moves on and a record is missing.
- Under a clock that never steps back the committed windows leave a gap if and only if some run comes more
  than 119 days after the cursor (`Nvd.GaplessExactly`); the cut in src/ingest/nvd.rs:52-54 moves its start
  forward.
- A cursor is only accepted back when its timestamp is RFC 3339 (src/api.rs:477), while NVD texts without a
  zone are stored as they come (src/ingest/nvd.rs:150-157). `KeysetWalk.RequestCompletes` says exactly when a
  client reaches the end of the list; any refused key at the end of a page stops it
  (`KeysetWalk.RefusedBoundaryStopsTheClient`).
- A panic inside a refresh ends the worker with the status "running". From then on every request is
  answered with the lost job: `Refresh.PanicIsPermanent`.
- The rotation moves by validations, not by refreshes. Given how many validations each refresh makes, a CVE is
  selected whatever the ties if and only if those before the last refresh and one batch reach the number of
  CVEs: `Rotation.SelectionExactly`. While nothing can be validated a CVE may be passed over for ever, exactly
  when one batch does not hold all CVEs: `Rotation.StalledRotation`.

## Model

| member | source | states |
|---|---|---|
| ItemMerge.StoredIsFold | src/db.rs:154-212 | an id is stored exactly when it had a row or an input, and its row is the fold of the merge over the old row and its own inputs in order, whatever was interleaved |
| ItemMerge.BatchesAreFlat | src/db.rs:142-317 | how a history is cut into batches does not matter |
| ItemMerge.FoldIsJoin | src/db.rs:180-203 | each joined field of a stored row bounds every input of its history and is attained by one of them |
| ItemMerge.StoredSeverityIsGravest | src/db.rs:181-186 | of critical, high, medium, low, none, unknown in this order the stored severity is the first that any input gave, and null only if none gave one |
| ItemMerge.ArrivalOrderIsIrrelevant | src/db.rs:142-212 | two runs that start from one table and receive the same inputs, in any order, repetition and batching, store the same ids with equal trust, severity, score, publication, update time and exploitation, for normalised severities |
| ItemMerge.CoalescedIsLastKnown | src/db.rs:169-209 | each COALESCE field holds the last non-null input, and is null only if all inputs were |
| ItemMerge.ProvenanceIsWhole | src/db.rs:170-180 | after any history title, url, source fields and raw JSON are, together, those of the last input of greatest trust |
| ItemMerge.SummaryOrigin | src/db.rs:171-174 | the summary is that of the last input that was most trusted when it came and had one, else of the first input |
| ItemMerge.LatestFields | src/db.rs:168-272 | kind, ingestion time, content hash, categories and linked CVEs are those of the last input |
| ItemMerge.SeverityOrderExactly | src/db.rs:181-186 | for severities of any text: order independence holds if and only if some input is ranked or all texts agree |
| ItemMerge.NormalisedAreSettled | src/classifier.rs:158-165 | which is always so for the severities that normalisation produces |
| TextOrder.LessAtFirstDifference | src/db.rs:562 | text order is decided at the first difference: there the smaller text ends or has the smaller character |
| Keyset.ListingIsUnique | src/db.rs:562 | there is only one newest-first listing of a set of keys |
| Keyset.PageIsSlice | src/db.rs:559-607 | the page under a cursor starts where the row of the cursor stands in the full listing |
| Keyset.PagingRefinesSorting | src/db.rs:531-616 | on an unchanging table the pages together are the matching rows sorted newest first from the offset on; all but the last are full and only the last has no cursor |
| KeysetWalk.WalkDecreases | src/db.rs:531-616 | whatever is inserted, updated or deleted between pages, delivered keys strictly decrease |
| KeysetWalk.StableDeliveredOnce | src/db.rs:531-616 | under arbitrary changes, a key that stays present and matching is delivered exactly once, or never if the first offset skipped it |
| KeysetWalk.RequestCompletes | src/api.rs:468-484 | a client whose cursors are checked reaches the end of the list if and only if the row at every page boundary has an accepted key, and then it has seen the whole sorted list |
| KeysetWalk.RefusedBoundaryStopsTheClient | src/api.rs:477-482 | any two rows with the upper one refused stop a client that asks for pages of one, with a row undelivered |
| Tables.ItemsStayWellKeyed | src/db.rs:154-212 | upserts keep every item under its own id |
| Tables.StoredCanonicalIsOne | src/ingest/validate.rs:174-192 | stored evidence holds at most one record of the CVE Program about a CVE |
| Tables.StoredOrderIsIrrelevant | src/ingest/validate.rs:195-266 | so the validation of stored evidence is the same in whatever order the query gives it |
| Tables.PickedIsBatch | src/db.rs:835-844 | rows taken first up to the limit are, as CVEs, a batch of the rotation |
| Tables.RecordApplied | src/db.rs:888-938 | after a batch the evidence under a key is the last record of the batch with that CVE, source and type, or what was there before |
| Tables.SyncApplied | src/db.rs:277-287 | after a batch a key of the sync state has its last update, or what it had |
| Tables.CacheApplied | src/db.rs:289-310 | after a batch a source has its last cache entry, or what it had |
| Tables.ValidationApplied | src/db.rs:342-382 | after the transaction a CVE has the last of its own new validations, or the old one if it got none |
| Store.Repository.constructor | src/db.rs:100-104 | a new repository is valid and holds no rows |
| Store.Repository.ApplyBatch | src/db.rs:142-317 | items, evidence, sync and cache updates of a batch are all applied in order, or nothing is; the count of items is returned, an empty batch succeeds without a transaction, and rows stay under their own keys |
| Store.Repository.UpsertEvidence | src/db.rs:319-331 | all records replace those of their key, or none |
| Store.Repository.UpsertValidations | src/db.rs:333-384 | all validations replace those of their CVE, or none |
| Store.Repository.RecordIngestionRun | src/db.rs:386-413 | a run is appended after all earlier ones, or nothing changes |
| Store.Repository.SourceBackoffUntil | src/db.rs:462-472 | the stored deadline, none if there is none, and an error exactly when the query fails or the text is no timestamp |
| Store.Repository.MarkSourceFailure | src/db.rs:474-503 | count and deadline move by one failure step of the backoff specification, together or not at all, and no other key changes |
| Store.Repository.ClearSourceFailure | src/db.rs:446-511 | both keys of the source are gone and no other key changes, or nothing does |
| Store.Repository.ListItems | src/db.rs:531-616 | every item of the page is stored and passes the filter with the validation stored for its CVE; items go down by publication, else source update, else ingestion time, then id, from below the cursor; a page holds between 1 and 200 items and is full if a cursor follows, which is the key of its last item; rows and cursor are those of the page specification |
| ListClient.ReadAll | src/db.rs:531-616 | a client that follows the cursors to the end gets every stored item that passes the filter, once each, in order |
| Store.Repository.CveIdsForValidation | src/db.rs:831-854 | the ids are those of distinct CVE rows, at most the limit, and every such row if they are fewer; a row never validated precedes one that was, an earlier validation a later one, and of two that tie the fresher comes first, in the list and against every row left out; with one row per CVE the ids are distinct and a batch of the rotation |
| Store.Repository.GetEvidence | src/db.rs:637-674 | every record about the CVE once, and no others |
| Store.Repository.CollectHealth | src/db.rs:773-808 | every source with a row among the newest 10000, and no other, is described by its newest row, its newest success and its exact count of failures since the cutoff |
| Store.Repository.ListSourceHealth | src/db.rs:761-829 | every described source once, in the order of names, with the deadline stored for it |
| SourceHealth.AbsorbsAll | src/db.rs:786-808 | one pass over newest-first rows agrees with separate questions about every source |
| SourceHealth.NewRunIsShown | src/db.rs:773-803 | after one more run the page shows its status, time and error as the last of its source |
| SourceHealth.NewRunIsCounted | src/db.rs:804-810 | while fewer than 10000 runs are stored a further one adds one failure to its own source exactly if it failed since the cutoff, becomes its last success exactly if it succeeded, and changes nothing else on the page |
| SourceHealth.FullWindowDropsOldest | src/db.rs:773-810 | from then on a further run also takes the oldest of the 10000 out of the count of its source |
| Backoff.SaturationIsInvisible | src/db.rs:487-495 | the delay on saturating 64-bit arithmetic is min(base * 2^(k-1), maximum) in exact arithmetic |
| Backoff.DelaysGrow | src/db.rs:487-494 | along a streak delays never shrink and stay between base and maximum |
| Backoff.DelayDoubles | src/db.rs:487-494 | the first delay is the base, each next one twice the last, up to the maximum and the 31st failure |
| Backoff.LedgerIsStreak | src/db.rs:474-511 | over any sequence of attempts the stored count is min(31, current streak) and the deadline is the last failure plus the exact delay; both are absent when the streak is empty |
| Backoff.CallsExactly | src/ingest/mod.rs:127-157 | an attempt becomes a call exactly when no failure precedes it or the earned delay has passed since the last one |
| Backoff.CallsRespectDeadlines | src/ingest/mod.rs:127-157 | within a streak the next call of the adapter never comes before the delay earned so far has passed |
| SourceRun.ReportedMovesLedger | src/ingest/mod.rs:182-256 | a run that reports its outcome has moved the ledger of its source by one step of the backoff specification |
| SourceRun.ReportedMeans | src/ingest/mod.rs:182-256 | failed means called and not accepted, success means delivered and not skipped, an error text means no delivery; a run reports exactly when every access of its script worked |
| SourceRun.WorkingRunMeans | src/ingest/mod.rs:127-256 | on a disk that works: a deadline ahead skips the run; an output that passes the check under its own source id arrives as success or skipped; an error, a panic, a timeout or a refused output is a failure |
| SourceRun.ReportedIsShown | src/ingest/mod.rs:131-252 | after a reported run the health page shows its status and time, and its failure count rises exactly if the run failed since the cutoff |
| SourceRun.SameLedgerSameRun | src/ingest/mod.rs:118-258 | whether a source is called, delivers and how it ends depend on no other stored state than its own backoff |
| SourceRun.OthersStay | src/ingest/mod.rs:118-258 | whatever other sources do between two accesses of a run, it stands where its own ledger puts it |
| SourceRun.RunOneSource | src/ingest/mod.rs:118-258 | undisturbed: the adapter is called exactly when no deadline is ahead; data arrives whole on acceptance and not at all otherwise; outcome, ledger and row are told from the state before, whichever access fails |
| SourceRun.Advance | src/ingest/mod.rs:127-256 | among others: one access leads to the next stage of the script told from the state before the run, and leaves the ledgers of all other sources |
| Reports.ReportIsPermutable | src/ingest/mod.rs:85-106 | counts, saturating totals and the multiset of errors do not depend on the order of completion |
| Reports.EachIsCounted | src/ingest/mod.rs:90-100 | succeeded + failed + skipped is the number of completions |
| Reports.AddToReport | src/ingest/mod.rs:86-105 | one completion adds one to one counter, its amounts to the capped totals and its error to the list |
| Reports.ReportMeans | src/ingest/mod.rs:85-106 | an empty report is zero, and each completion adds its status, its amounts up to the largest 64-bit number, and its error; a failed task counts as failed |
| Scheduler.ScriptShape | src/ingest/mod.rs:68-77 | a source starts once, first, and completes once, last |
| Scheduler.CompletedOnce | src/ingest/mod.rs:64-85 | when every source has taken its script, each has completed exactly once |
| Scheduler.SomeoneMoves | src/ingest/mod.rs:61-72 | as long as a source has not completed, one holds a permit or can take one |
| Scheduler.RunSources | src/ingest/mod.rs:55-109 | for every interleaving: each source takes exactly its script, at every moment at most `concurrency` have started and not completed, items, evidence and rows are those of the deliveries and records in their order, each ledger is the one told from the state before, and the report is independent of the schedule with counters adding up to the number of sources |
| Scheduler.DeliveredByAny | src/ingest/mod.rs:64-85 | under every schedule exactly the items of the delivering sources are applied |
| Scheduler.ScheduleIsIrrelevant | src/ingest/mod.rs:55-109 | two schedules of one refresh store the same ids with equal trust, severity, score, publication, update time and exploitation |
| Scheduler.RefreshKeepsCanonicalKind | src/ingest/source.rs:81-93 | sources add no record of the CVE Program |
| Refresh.SendStepInv | src/refresh.rs:77-83 | `try_send` always finds room and a living worker |
| Refresh.StepInv | src/refresh.rs:48-138 | every step of every party keeps the invariant |
| Refresh.Coalescing | src/refresh.rs:48-138 | over every interleaving and any dropped requests: at most one live job, the status is queued or running exactly then and names it, no request is refused by the queue, and accepted jobs are carried out once, in order, and a finished one shows completed or failed as it ended |
| Refresh.LiveJobAdvances | src/refresh.rs:77-136 | a live job always has an enabled step that brings it nearer to its end, unless its refresh panicked |
| Refresh.SomeRequesterMoves | src/refresh.rs:48-89 | while any requester is inside, one of them can take a step nearer to its answer without undoing another; a dropped one leaves the gate free |
| Refresh.RequestIsServed | src/refresh.rs:48-138 | a request to a quiet coordinator can run to its end: accepted, carried out, and the status then names its job as completed or failed, as the refresh ended |
| Refresh.LiveJobIsAnswered | src/refresh.rs:54-64 | a request while a job is live is answered with that job and changes nothing else |
| Refresh.PanicIsPermanent | src/refresh.rs:102-111 | after a panic inside a refresh the status stays "running" for ever and every later answer names the lost job |
| Refresh.Coordinator.Perform | src/refresh.rs:48-138 | each step that the coordinator and its worker take on their fields is the protocol's step and keeps the invariant; the queue is never refused |
| Refresh.Coordinator.Execute | src/refresh.rs:26-138 | any schedule carried out on the fields is a run of the protocol, so its guarantees hold of the fields |
| Nvd.WindowIsBounded | src/ingest/nvd.rs:41-57 | for every cursor and clock the window is ordered and at most 119 days long |
| Nvd.WindowReaches | src/ingest/nvd.rs:41-57 | a window contains every instant since cursor minus overlap, or since the initial days, that lies within 119 days |
| Nvd.WindowExactly | src/ingest/nvd.rs:41-57 | in nanoseconds: a window ends now and starts the overlap before the cursor, or the initial days ago; a day ago if that is ahead of the clock; never more than 119 days ago; both cut to milliseconds |
| Nvd.CoverageOverRuns | src/ingest/nvd.rs:36-57 | over any committed, failed or interrupted runs, under a clock that may step back, every instant from the first window to the cursor is covered, if no run is more than 119 days late |
| Nvd.GaplessExactly | src/ingest/nvd.rs:49-57 | under a clock that never steps back that holds if and only if no run is late |
| Nvd.ComputeWindow | src/ingest/nvd.rs:41-57 | the start as the code adjusts it gives the specified window, ordered and bounded |
| Nvd.FetchWindow | src/ingest/nvd.rs:58-129 | for any server, with the walk of requests made: the first asks for index 0, each next one follows a nonempty page short of its total and asks for what follows it; the fetch succeeds if and only if the last request was answered with an empty page or one that reaches the total, and then its batch is the parse of all their records in order; it fails with the request if and only if the last was not answered with a page, and on the limit if and only if 500 pages were not enough |
| Nvd.GatherIsWalk | src/ingest/nvd.rs:64-129 | the paging specification is such a walk, for any server |
| Nvd.ParseOne | src/ingest/nvd.rs:119-127 | a record that parses is kept in its place, one that does not is left out |
| Nvd.Run | src/ingest/nvd.rs:34-143 | a run proposes the end of its window as cursor if its walk of requests ended well, with the records of the walk; a failed request or the limit fails the run |
| Nvd.PagingExactly | src/ingest/nvd.rs:64-129 | against a truthful server the loop fails exactly when more than 500 requests are needed; else it takes the records once each, in order, from the first, and all of them if and only if no page before the end is empty |
| Nvd.PagingIsComplete | src/ingest/nvd.rs:64-129 | against a server that also never sends an empty page in range it takes all records or fails on the limit |
| Nvd.FullPages | src/ingest/nvd.rs:64-68 | with full pages of m records, n pages suffice exactly for n*m records |
| Nvd.CursorFollowsCompleteSet | src/ingest/nvd.rs:115-134 | a run that succeeds proposes the end of its window as cursor, and has fetched the complete page set if and only if it met no early empty page |
| Nvd.EarlyEmptyPageIsTaken | src/ingest/nvd.rs:115-134 | two records of which the second request brings none: the run succeeds, the cursor moves on and one record is missing |
| NvdSync.RunNvd | src/ingest/nvd.rs:34-143 | on the repository: either the parsed records of the whole walk are in the tables and the stored cursor is the end of the window, or neither has changed, as after a walk whose last request failed or has more to ask; the row of the run says success or failed accordingly; that is one event of the coverage model |
| Rotation.MissedSoFar | src/db.rs:831-854 | while a CVE is missed, no other CVE is validated twice |
| Rotation.LastBatchReaches | src/ingest/validate.rs:23-96 | for any ties, start and unreadable CVEs: once the validations before the last refresh and its batch reach the number of CVEs, every CVE has been selected |
| Rotation.SelectionExactly | src/ingest/validate.rs:23-96 | given the number of validations of each refresh, a CVE is selected by every run if and only if that is so |
| Rotation.StalledRotation | src/ingest/validate.rs:79-90 | refreshes that validate nothing can pass a CVE over for ever, exactly when one batch does not hold all CVEs |
| Rotation.WindowIsFair | src/ingest/validate.rs:23-96 | with batches validated whole, any ceil(n/b) consecutive refreshes validate every CVE, whatever the ties |
| Evidence.FieldsMeanWhatTheySay | src/ingest/validate.rs:195-266 | the counts are those of the sources, and of the sources with an authoritative record; each disagreement flag holds if and only if two records disagree; the canonical record is missing if and only if none is from the CVE Program; exploitation is uncorroborated if and only if some record claims it and none of CISA does |
| Evidence.GradesMean | src/ingest/validate.rs:229-250 | rejected if the status says so in any case; else very high for two authorities among three sources; high for two authorities, or one among three sources; medium for one authority or two sources; else low |
| Evidence.OrderIsIrrelevant | src/ingest/validate.rs:195-266 | permuted or repeated evidence gives the same validation when the CVE Program records agree on the status |
| Evidence.OrderIrrelevantExactly | src/ingest/validate.rs:229-232 | and, for evidence of any kind, only then |
| Evidence.EpssIsOnlyEnrichment | src/ingest/validate.rs:252-265 | EPSS changes no other field |
| Evidence.EvidenceOnlyRaises | src/ingest/validate.rs:200-250 | further evidence lowers no count, clears no disagreement, and never lowers the confidence unless the CVE is rejected |
| Evidence.OnlyCisaCorroborates | src/ingest/validate.rs:225-228 | a flagged exploitation claim stays flagged by one more record exactly when that record is not CISA's claim of exploitation |
| CrossValidation.AggregateIsUnique | src/ingest/validate.rs:79-89 | the stored validation is the one that any enumeration of the stored evidence gives |
| CrossValidation.StoringValidates | src/ingest/validate.rs:79-90 | once stored, every readable CVE of the batch has a validation of its whole evidence and every other CVE the one it had |
| CrossValidation.SummaryMeans | src/ingest/validate.rs:91-96 | the counts of a batch are the numbers of CVEs validated, and of failed fetches, unreadable CVEs and a failed EPSS request |
| CrossValidation.Run | src/ingest/validate.rs:23-96 | a stage that succeeds is one refresh of the rotation over a batch it selected; of each CVE of the batch the record of the CVE Program is the one answered, or the old one if none was; each readable one has a validation of all its evidence with that status, rejected if and only if it says so; other evidence and validations stay; a stage that fails changes no validation |
| RustScanner.SettlesSplits | tools/validate_project.py:212-224 | a word that empties the stack splits into balanced words and the closers of the stack |
| RustScanner.AcceptedIffBalanced | tools/validate_project.py:122-224 | a text is accepted if and only if no literal or block comment is left open and the delimiters outside lexemes form a balanced word |
| RustScanner.StepInCode | tools/validate_project.py:180-218 | one turn in code keeps the verdict on the rest, or stops exactly at an unmatched closer |
| RustScanner.ScanRust | tools/validate_project.py:122-224 | the loop ends, and its outcome is the verdict on the text read lexeme by lexeme; it accepts exactly the balanced texts |
| TokenTrees.TokenIsSkipped | tools/validate_project.py:138-210 | every printed token, with any nesting, escapes and hash runs inside it, leaves no delimiter and no open mode |
| TokenTrees.CodeLeavesSkeleton | tools/validate_project.py:122-224 | reading a printed token tree leaves exactly its groups |
| TokenTrees.PrintedCodeIsAccepted | tools/validate_project.py:122-224 | every printed token tree is accepted |
| TokenTrees.BracketedIsAccepted | tools/validate_project.py:212-217 | printed code in (), [] or {} is accepted |
| TokenTrees.OpenIsUnclosed | tools/validate_project.py:212-224 | without its closer it is reported as unclosed |
| TokenTrees.CloseIsUnmatched | tools/validate_project.py:212-217 | without its opener the closer is unmatched, whatever follows |
| TokenTrees.CrossedIsUnmatched | tools/validate_project.py:212-217 | a closer of another pair is unmatched, whatever follows |
| TokenTrees.OpenTextIsUnterminated | tools/validate_project.py:138-224 | code that ends inside a string is reported so; characters, raw strings and block comments likewise |
| Probe.CheckIsGrammar | src/healthcheck.rs:76-89 | the check holds exactly of the 200 status lines of HTTP/1.0 and HTTP/1.1 in section 4 of RFC 9112 |
| Probe.AnswerDecides | src/healthcheck.rs:54-89 | an answer whose first line is a status line within 512 bytes is ready if and only if its status is the three bytes 200 |
| Probe.ReadStatus | src/healthcheck.rs:54-74 | for every way the stream is cut into reads the loop stays in its buffer and, if no read fails, says ready exactly when the first line lies within 512 bytes and is a 200 status line; a failing read never makes it say ready |
| Backup.Directory.CopyAndPublish | tools/backup.py:91-112 | the destination is linked exactly when the copy is sound, it stayed free and no step before the link failed |
| Backup.Directory.Cleanup | tools/backup.py:113-116 | the cleanup ends well exactly when no unlink fails, and removes exactly the temporary names it has seen to by then |
| Backup.Directory.Snapshot | tools/backup.py:69-116 | with failures at any step and files created by others meanwhile: existing files are kept, the destination is published exactly when it stayed free, the copy is sound and no step before the link failed, the call succeeds exactly when no later step failed either, what a failed cleanup leaves is told, an occupied destination is refused without a change, and the call dies only in a step that dies |
| Backup.Directory.Restore | tools/backup.py:119-124 | without the operator's word nothing happens; otherwise the guarantees of a snapshot |
| Demo.Prepare | src/demo.rs:13-49 | a live start succeeds exactly on a database without the demo mark and changes nothing; a demo start succeeds exactly on an empty or marked one, if both transactions reach the disk, and seeds fixture and mark together or not at all |
| Demo.LifeDoesItsWork | src/demo.rs:13-49 | a live process on an unmarked database does its work, a demo process on an empty or marked one stores its fixture, and one on a database of the other mode does nothing |
| Demo.DeliveryIsLiveWork | src/ingest/source.rs:38-58 | what a source delivers holds no fixture row and does not touch the marker |
| Demo.DemoAndLiveNeverMix | src/demo.rs:13-49 | over any sequence of lifetimes, fixture rows and ingested rows never share a database, and a demo marker stays |

## Left out

- The SQL engine, indexes, WAL and busy timeouts: a query is a set of rows with an order, a transaction one step. The list filter (LIKE and the comparisons of src/db.rs:546-558) is an arbitrary predicate on a row and its joined validation.
- Times of items are ordered as text, as the database does. Nothing is claimed about chronological order of items, since sources use several formats.
- RFC 3339, base64 and JSON parsing, letter classification, severity normalisation and the parsing of NVD records are parameters; the theorems hold for every choice of them. That a backslash is no letter is assumed where characters are printed.
- HTTP, TLS, DNS, retries and tokio: an answer, an error, a deadline and a panic are outcomes a parameter chooses.
- ItemMerge.SeverityOrderExactly: sources store only normalised severities, for which its condition always holds (`ItemMerge.NormalisedAreSettled`); it is about the column, which takes any text.
- Evidence.OrderIrrelevantExactly: stored evidence always meets its condition (`Tables.StoredCanonicalIsOne`); it is about the function, which takes any list.
- Store.Repository.ListItems: the columns that the list adds from the validation table are seen by the filter but are not part of the page; the base64 text of the cursor is left out.
- Store.Repository.ApplyBatch: the update times of sync and cache rows are left out.
- Store.Repository.GetEvidence: the order of the records is left open; by `Tables.StoredOrderIsIrrelevant` no validation depends on it.
- Store.Repository.CveIdsForValidation: without one row per CVE a CVE may be listed twice, and the ids are then not claimed to be a batch of the rotation.
- Store.Repository.MarkSourceFailure: a configured maximum so large that the date arithmetic overflows makes the program panic; instants are unbounded here. The clock is read as `now`, in exact seconds, and a failing read is one more way not to commit.
- SourceRun.ReportedIsShown: counts and last success are told while fewer than 10000 runs are stored; `SourceHealth.FullWindowDropsOldest` says what a full window changes.
- Refresh.Coordinator.Perform: reason, times, report and error text of the status are left out; only job and phase drive the protocol.
- Refresh.Coalescing: a coordinator that is disabled refuses every request before the gate and is left out; so is what a refresh does, which is an outcome here.
- Refresh.LiveJobAdvances: it says that a step is enabled; that the runtime schedules it is left out.
- The composition of a refresh from ingestion, validation and retention cleanup (src/refresh.rs:140-170): straight-line. Deleting old rows occurs only as the work `Retire` of a live process.
- Scheduler.RunSources: how an adapter ends is given before the run, and one database access is one step. Adapters that store backoff keys are excluded (the two that store anything store cursors), and so are two sources of one id, as in the registry (src/ingest/source.rs:132-142).
- SourceRun.RunOneSource: descriptions, durations, job ids and error texts are opaque; the cutting of long texts (src/ingest/mod.rs:260-266), which can panic inside a character, is left out.
- Nvd.CoverageOverRuns: requires that no run comes more than 119 days after the cursor, without which it is false (`Nvd.GaplessExactly`).
- Nvd.PagingExactly: requires a server that states the true total and sends slices that start at the index asked for; of one that does not, only `Nvd.FetchWindow` speaks.
- Rotation.WindowIsFair: requires a fixed set of CVEs with one row each, batches validated whole and stamps later than all stored ones; `Rotation.SelectionExactly` does without whole batches.
- CrossValidation.Run: the unordered, bounded concurrency of the fetches is left out, and an evidence read gives the same answer for a CVE each time.
- Evidence.FieldsMeanWhatTheySay: scores are real numbers, so the gap of one point is exact; floating-point rounding is left out. Names, URLs and times of evidence play no part in the result and are left out of the record.
- RustScanner.ScanRust: line numbers and message texts are left out, as is the reading of the file with its newline translation.
- TokenTrees.PrintedCodeIsAccepted: every token is followed by a blank; adjacent tokens that merge are outside the printer.
- Probe.ReadStatus: connecting, writing the request and the deadline arithmetic are the parameter `broken`.
- Backup.Directory.Snapshot: path and symbolic-link checks, the source file, and the progress deadline are outcomes of a step. A sidecar of the destination that another process creates after the checks is not noticed, as in the program. A failure between creating the temporary file and entering the try block leaves that file, as in the program.
- Demo.DemoAndLiveNeverMix: one process at a time uses the database. The fixture is any list of rows of its source.
- Multi-process database access, API routing, authorisation, metrics, the browser client, deployment scripts, and the field mapping of the CISA, GitHub, EPSS and feed adapters.
