# Ready My CV: verified model

This project models the parts of Ready My CV where mistakes cost users most, and proves
properties of them: the leased job queue behind every analysis, the deterministic engine
that reads and scores a CV, the publication history of the role catalog, and the
evaluation counter. `dafny verify dfyconfig.toml` checks all of it.

## What is modelled

**The job queue** (`JobRows`, `JobStore`, `JobProtocol` and what follows). The table
`analysis_jobs` and the aggregate events are fields of a class with one method per
transaction; each method is proved to have exactly the effect that `JobRows.EffectOf`
gives its call. `JobProtocol` runs these transactions as a state machine: request
handlers, any number of workers, the cleanup timer and crashes interleave in any order,
workers hold row snapshots and tokens for as long as they like, every call reads its own
clock, and a log records each report that is fetched and each answer of the mail server. The two places where the program is not
atomic, the count before the insert and the check before the claim, are two steps each.
`JobLaws` says column by column what each transaction does to its row and what follows for
the next ones; `JobPayloads` follows PDFs, reports and addresses through whole runs.

**The engine** (`TextMatch`, `Documents`, `Assembly`, `CatalogValidation`, `Signals`,
`Scoring`, `ScoringLaws`, `Engine`, `Workflow`, `WorkflowLaws`, `Report`). Page text becomes one document with offsets,
sections and pages; a boundary matcher resolves terms; evidence is classified, scored,
verified and turned into the e-mailed total. The loops of the source are methods proved
against functions, and the functions are proved to mean something about the text.

**The catalog** (`CatalogHistory`, `CatalogStore`, `CatalogTheorems`, `CatalogUse`,
`CatalogWitness`). Roles, rule versions and snapshots are mutable tables with one method
per handler; a history is any sequence of handler calls and seeds. `CatalogUse` decides
which published catalogs the engine can work with.

**From upload to report** (`JobAdmissions`, `JobAnalysis`, `EndToEnd`). A claim held in a
run of the queue, the catalog it was admitted under and the engine's answer, in one
statement.

**The evaluation counter** (`Evaluation`). The counting loops and the F1 average.

## Assumptions

- A transaction is one atomic step; each locks its row or is a single statement, and
  `expires_at` never changes. The statements of the cleanup are shown to be equal to one
  single-row step per row, in any order.
- Lease tokens, job ids and handles are fresh; hashes are injective; encryption is
  transparent. Calls need not agree about the time, except that the time an admission
  counts at is not after the clock the bound is stated for.
- The mailer's "retryable" outcome means that the message was not delivered.
- Components are exact reals. Texts are sequences of characters; offsets count each
  character once. Lower-casing keeps the length (ASCII letters only).
- Admin transactions are serial. The order of `ORDER BY r.title` is any order.
- The categories of the rules are those of the engine's enumeration, and a result stays
  within the length limits of the runner's schema.

## What the proofs found

- `pageForOffset` is right for every character exactly when the first page has text: the
  final `trim` removes the separators of leading empty pages, the lookup still counts
  them. The engine's own lookup forgets the separators; which characters it still places
  rightly is `Documents.EnginePageExact`.
- Sections run to the end of the text, so the first heading in the fixed order wins. The
  word "summary" or "skills" anywhere before a match keeps it from being strong evidence.
- The verification retry looks at unchanged values, so it never rescues a run. A run with
  a document that has no page but mentions a requirement always ends unverified.
- Seeding a role that an administrator has published under another seniority gives it two
  published versions: the unique index is per seniority, the publish handler works per
  role.
- A publication checks only the draft it publishes, and that only for its status. The
  stored catalog serves analyses exactly under the condition of
  `CatalogUse.PublicationUsableIff`, and fails it in two ways. Drafts created over the API
  have no rules and no call adds any, so publishing one for an active role is rejected by
  the engine's validator, and so is every later publication, of whatever role, for as long
  as that role is active with a published version without rules; a rollback to an earlier
  snapshot ends it for new uploads. And an unarchived role that was never published, as every
  newly created role is, gets the seniority `null`, which the engine's decoder refuses;
  that fails every analysis under the snapshot, whatever its role.
- The seniority of a draft is free text. One outside the engine's enumeration has the same
  effect; an upload that asks for one outside the table's CHECK is refused only by the
  insert (`JobStore.Store.InsertJob`), and an active role published for the empty
  seniority is silently left out of the snapshot (`CatalogTheorems.RoleListedIff`).

## Model

| member | source | states |
|---|---|---|
| `JobTheorems.HandedOffAtMostOnce` | api/src/modules/analysis/job-service.ts:101-138 | Over every run of interleaved requests, workers, cleanups and crashes, nothing about a job follows the hand-off of its report in the log, which keeps the raw answers of the mail server: a hand-off is a fast result taken, a mail accepted, or a send that broke off at the DATA command |
| `JobTheorems.NothingFollowsArrival` | api/src/modules/analysis/mailer.ts:47-53 | For every run, every send in it that was accepted or broke off at DATA, and every continuation: that answer is logged, and no later entry of the log is about the same job |
| `JobTheorems.NothingFollowsFastResult` | api/src/modules/analysis/job-service.ts:101-120 | The same for a waiting report fetched over its handle, whose row is gone at once |
| `JobTheorems.HandedOffRowOnlyLeaves` | api/src/modules/analysis/job-service.ts:271-333 | After a hand-off the row, if it is still there, is a sending lease that no worker will turn into another send |
| `JobMail.SendsBounded` | api/src/modules/analysis/worker.ts:138-147 | Over every run the mail server is asked to deliver one job at most `EMAIL_MAX_ATTEMPTS` times, retries and crashes included |
| `JobTheorems.LeaseMatchesStatus` | api/src/modules/analysis/job-service.ts:154-185 | In every reachable state a row carries a token exactly when it is processing or email_sending, no two rows share a token, at most one held claim matches it, and a matching claim has the attempt counts of the row |
| `JobTheorems.SupersededHasNoEffect` | api/src/modules/analysis/job-service.ts:218-303 | After any run, a heartbeat, finish or fail call by a claim whose token is on no row changes neither the table nor an event count |
| `JobTheorems.SupersededForever` | api/src/modules/analysis/job-service.ts:154-333 | A worker that has lost its lease never gets it back, whatever steps follow |
| `JobTheorems.ChangesBounded` | api/src/modules/analysis/job-service.ts:168-333 | In every run a job undergoes at most 2P + 2E + 1 changes other than heartbeats, its deletion included, and strictly fewer while it is still in the table |
| `JobTheorems.EventsConserved` | api/src/modules/analysis/job-service.ts:34-65 | In every reachable state started jobs are the live rows plus one event per departed job, and fast completions plus mails sent and failed are at most the completions, which are at most the starts |
| `JobTheorems.PayloadsPresent` | api/migrations/002_analysis_jobs.sql:55-58 | In every reachable state PDF, report and e-mail are present exactly in their statuses, no row is in a terminal status, queued and pending rows have an attempt left, and a held claim has the payload its worker decrypts |
| `JobAdmissions.AdmissionsKept` | api/src/modules/analysis/job-service.ts:58-185 | In every reachable state each row and each held claim has the role slug, seniority and catalog version its job was inserted with, however long ago the claim was made |
| `JobPayloads.PayloadsAreTheirOwn` | api/src/modules/analysis/job-service.ts:58-248 | In every reachable state the payloads of each row, and of each held claim, are its own: a PDF is that of its upload, document and report are those, each in its own column, of the `Finish` step that completed the job, and an address is that of its `AttachEmail` request |
| `JobSteps.RunInv` | api/src/modules/analysis/job-service.ts:40-333 | The eight-part invariant holds in every reachable state |
| `JobSteps.StepInv` | api/src/modules/analysis/job-service.ts:40-333 | Every step, enabled or not, keeps the invariant |
| `JobMoves.EffectsMove` | api/src/modules/analysis/job-service.ts:75-333 | Every transaction keeps a row, moves only its lease deadline, makes progress down the measure, or drops it with an event that fits its status |
| `JobMoves.ClaimMoves` | api/src/modules/analysis/job-service.ts:168-178 | A claim of an eligible row keeps the attempt budget and lowers the measure |
| `JobMoves.FencedCall` | api/src/modules/analysis/job-service.ts:218-303 | A call with another token than the row carries keeps the row |
| `JobMoves.MeasureRange` | api/src/modules/analysis/job-service.ts:168-178 | The measure of a row lies between 1 and 2P + 2E + 1 |
| `JobOvershoot.OvershootBounded` | api/src/modules/analysis/job-service.ts:52-67 | With at most k requests between the count and the insert, active unexpired jobs never exceed the cap by more than k - 1 |
| `JobOvershoot.OvershootReached` | api/src/modules/analysis/job-service.ts:52-67 | For every k there is a run that reaches that bound |
| `JobWorker.SlotsBounded` | api/src/modules/analysis/worker.ts:74-86 | With at most k overlapping `fillSlots` calls, running tasks exceed the concurrency by at most k - 1 |
| `JobWorker.SlotsReached` | api/src/modules/analysis/worker.ts:74-86 | For every k there is a run that reaches that bound |
| `JobCleanup.CleanupPartitions` | api/src/modules/analysis/job-service.ts:305-327 | Every row is exactly one of requeued, uncertain e-mail, exhausted, expired or untouched; untouched rows do not change, and no surviving row is expired or holds a lapsed lease |
| `JobCleanup.CleanupCounts` | api/src/modules/analysis/job-service.ts:328-331 | The five class sizes add up to the table, the table shrinks by the three purged classes, and one event is written for each purged row |
| `JobCleanup.StatementsClassify` | api/src/modules/analysis/job-service.ts:307-327 | The four statements run in order treat each row by its columns from before the cleanup |
| `JobCleanup.RecoverStep` | api/src/modules/analysis/job-service.ts:305-333 | Cleaning one more row is one more single-row recovery |
| `JobCleanup.CleanupInAnyOrder` | api/src/modules/analysis/job-service.ts:305-333 | The cleanup of the whole table is one single-row recovery per row, in whatever order the rows are listed |
| `JobRows.RetryDelayDoubles` | api/src/modules/analysis/job-service.ts:335-337 | The first retry waits the base delay, each later one twice as long as the one before, all capped at 300 seconds |
| `JobRows.RetryDelayMonotone` | api/src/modules/analysis/job-service.ts:335-337 | A later attempt never waits less |
| `JobRows.PutKeepsShape` | api/migrations/002_analysis_jobs.sql:55-58 | Every row a transaction writes has the payload and lease columns of its new status, meets the CHECK constraints and keeps id, handle, expiry, role and catalog version |
| `JobRows.TouchKeepsTable` | api/migrations/002_analysis_jobs.sql:22-59 | A transaction keeps the primary key, the unique handle and the shape of every row |
| `JobLaws.ClaimLaw` | api/src/modules/analysis/job-service.ts:168-178 | A claim of a due, unexpired queued or pending row sets token, deadline `now + leaseSeconds`, the next status and one attempt, keeps every other column and row, and does nothing otherwise |
| `JobLaws.ClaimedLeaseHolds` | api/src/modules/analysis/job-service.ts:168-178 | No cleanup before `now + leaseSeconds` and before the expiry of the job touches a row claimed at `now` |
| `JobLaws.ExtendedLeaseHolds` | api/src/modules/analysis/job-service.ts:218-224 | Nor one whose lease was extended at `now` |
| `JobLaws.PutBackWaits` | api/src/modules/analysis/job-service.ts:257-303 | A row that was put back cannot be claimed before its `availableAt`, and can from then until it expires |
| `JobLaws.FinishLaw` | api/src/modules/analysis/job-service.ts:233-242 | A completion puts document and report in their own columns, clears PDF and lease, and keeps every other column and row, exactly for the owner of an unexpired processing row |
| `JobLaws.FailEmailLaw` | api/src/modules/analysis/job-service.ts:284-303 | A failed e-mail leaves with one event when it is not retryable or out of attempts, and otherwise waits for `now + RetryDelay`; under its own token only |
| `JobLaws.CleanupLaw` | api/src/modules/analysis/job-service.ts:305-327 | Which rows the cleanup leaves, and that it changes those with a lapsed processing lease only, by the WHERE clauses of its statements |
| `JobStore.Store.Metric` | api/src/modules/analysis/job-service.ts:26-28 | One more event of that name, nothing else |
| `JobStore.Store.PurgeJob` | api/src/modules/analysis/job-service.ts:34-38 | The row is gone; the event is written exactly when a row was deleted |
| `JobStore.Store.SelectByHandle` | api/src/modules/analysis/job-service.ts:76-81 | The row addressed by a handle, found exactly when there is one |
| `JobStore.Store.AdmitsAnother` | api/src/modules/analysis/job-service.ts:53-57 | Admission says yes exactly when the number of unexpired, unfinished rows is below the cap |
| `JobStore.Store.InsertJob` | api/src/modules/analysis/job-service.ts:58-66 | The row and its event are written exactly when key, handle, role slug, seniority and expiry constraints allow it; otherwise nothing changes |
| `JobStore.Store.StatusForHandle` | api/src/modules/analysis/job-service.ts:75-99 | Answers with status, expiry, polling interval and e-mail flag, and purges with an event exactly when the row is expired |
| `JobStore.Store.TakeFastResult` | api/src/modules/analysis/job-service.ts:101-120 | Hands out the report exactly when it deletes the row, and then it is that row's report |
| `JobStore.Store.AttachEmailTo` | api/src/modules/analysis/job-service.ts:122-138 | Answers true exactly when the row moved to email_pending with the address |
| `JobStore.Store.CancelJob` | api/src/modules/analysis/job-service.ts:140-152 | Answers true exactly when the row left with the cancellation event; a sending row stays |
| `JobStore.Store.SelectOldest` | api/src/modules/analysis/job-service.ts:157-164 | The oldest eligible row that no other transaction locks, or none exactly when there is none |
| `JobStore.Store.ClaimNextJob` | api/src/modules/analysis/job-service.ts:154-185 | Claims the oldest queued job, an e-mail only when no job is eligible, and nothing only when neither is; the claimed row was due and unexpired, carries the token until `now + leaseSeconds`, and is returned as written |
| `JobStore.Store.ExtendLease` | api/src/modules/analysis/job-service.ts:218-224 | Moves the deadline of a row under its own token only |
| `JobStore.Store.CompleteProcessing` | api/src/modules/analysis/job-service.ts:226-248 | Answers true exactly for the owner of an unexpired processing row; then the PDF is gone, the document is in the document column, the report in the report column, and one completion is counted |
| `JobStore.Store.AbandonProcessing` | api/src/modules/analysis/job-service.ts:250-269 | Releases the row with the backoff or purges it at the last attempt, under its own token only; the answer says which of the two was due, owner or not |
| `JobStore.Store.CompleteEmail` | api/src/modules/analysis/job-service.ts:271-282 | Removes the row with the sent event exactly when it answers true |
| `JobStore.Store.AbandonEmail` | api/src/modules/analysis/job-service.ts:284-303 | Releases the row for a retry or purges it with the failure event, under its own token only; the answer says which of the two was due, owner or not |
| `JobStore.Store.RequeueRow` | api/src/modules/analysis/job-service.ts:307-314 | One row is released exactly when its lease lapsed, it is unexpired and has an attempt left |
| `JobStore.Store.RequeueLapsed` | api/src/modules/analysis/job-service.ts:307-314 | Releases exactly the lapsed, unexpired, unexhausted processing rows and counts them |
| `JobStore.Store.DeleteWhere` | api/src/modules/analysis/job-service.ts:315-327 | Deletes exactly the rows of the condition and counts them |
| `JobStore.Store.RepeatMetric` | api/src/modules/analysis/job-service.ts:328-330 | Adds the event the given number of times |
| `JobStore.Store.RecoverAndPurge` | api/src/modules/analysis/job-service.ts:305-333 | The table and events are those of the whole cleanup, and the two returned counts are the class sizes |
| `JobWorker.AnalysisWorker.FillSlots` | api/src/modules/analysis/worker.ts:74-90 | With no other call overlapping, and tasks settling while its claims are awaited: it never exceeds the concurrency, claims row after row as each transaction must pick it, ends only with every slot taken, nothing to claim or a stopping worker, and is a run of the slots machine |
| `JobWorker.AnalysisWorker.TakeTurn` | api/src/modules/analysis/worker.ts:78-81 | One round of the loop: tasks settle while the claim is awaited, a claimed row starts one task, and no claim changes no row |
| `JobWorker.AnalysisWorker.ProcessPdf` | api/src/modules/analysis/worker.ts:102-131 | By the answer and the row alone: a report lands in an unexpired row, one of the seven permanent codes or the last attempt drops the row with one failure event, and anything else puts it back in the queue until `now + RetryDelay`; without the lease nothing changes |
| `JobWorker.AnalysisWorker.ProcessEmail` | api/src/modules/analysis/worker.ts:138-147 | By the raw answer of the mail server, for an owned sending row with its payloads: accepted drops it with one sent event; broken off at DATA, not configured, or refused with a code outside 400 to 499 drops it with one failure event; refused before DATA without a code or with a 4xx code and attempts left leaves it pending until `now + RetryDelay` |
| `JobAnalysis.HandleUpload` | api/src/modules/analysis/routes.ts:55-69 | From the catalog lookup to the insert: refused by a newest snapshot, full, or a new queued row with the PDF, slug, seniority and handle of the request, the version of a newest snapshot that admits it, and an expiry one TTL ahead; nothing changes otherwise |
| `JobAnalysis.Analyse` | api/src/modules/analysis/worker.ts:107-118 | Load by the recorded version and slug, decode, run and identity check give the declarative answer, error codes included |
| `JobAnalysis.ProcessClaim` | api/src/modules/analysis/worker.ts:97-136 | From a claimed row, the parsed document and the catalog tables: the job is finished with the analysis or failed with the code of the error that stopped it, and the row is left as that answer settles it |
| `JobAnalysis.FailureIsFinal` | api/src/modules/analysis/worker.ts:119-129 | While attempts remain, a failure ends the job exactly when reading the PDF failed with one of the seven codes; a missing, undecodable or rejected catalog and a run that does not complete put it back in the queue |
| `JobWorker.AnalysisWorker.Stop` | api/src/modules/analysis/worker.ts:56-57 | The worker is stopping |
| `JobWorker.AnalysisWorker.TaskSettled` | api/src/modules/analysis/worker.ts:82-85 | A settled task frees its slot |
| `TextMatch.FirstMatchIsLeftmost` | packages/agent_engine/lib/src/agent_engine.dart:183-186 | The boundary expression matches exactly when the candidate stands somewhere with no letter or digit beside it, and then at the leftmost such place |
| `TextMatch.FirstMatchInside` | packages/agent_engine/lib/src/agent_engine.dart:193-195 | The span lies in the text around an occurrence, with at most one boundary character on each side |
| `TextMatch.AppendKeepsMatch` | packages/agent_engine/lib/src/agent_engine.dart:183-186 | Appending text that opens with neither letter nor digit keeps the match where it starts |
| `TextMatch.AppendedLetterHides` | packages/agent_engine/lib/src/agent_engine.dart:183-186 | Appending a letter can lose a match |
| `TextMatch.AlnumCodes` | packages/agent_engine/lib/src/agent_engine.dart:183-186 | The boundary class is a to z and 0 to 9, and lower-casing moves A to Z, by character code |
| `TextMatch.BoundaryLaw` | packages/agent_engine/lib/src/agent_engine.dart:183-186 | One character behind a term hides it exactly when its code is that of a lower-case letter or digit |
| `Documents.NormalizedShape` | api/src/modules/analysis/pdf-processor.ts:112-114 | Normalized text is trimmed and has white space only as single blanks |
| `Documents.NormalizeIdempotent` | api/src/modules/analysis/pdf-processor.ts:112-114 | Normalizing twice changes nothing |
| `Documents.NormalizedWords` | api/src/modules/analysis/pdf-processor.ts:112-114 | A normalized page is exactly the words of the extracted text, its maximal runs without white space, in order with one blank between them |
| `Documents.SpaceCodes` | api/src/modules/analysis/pdf-processor.ts:113 | White space, by character code |
| `Documents.JoinExact` | api/src/modules/analysis/pdf-processor.ts:98 | Two line feeds and nothing else stand between two pages of the joined text |
| `Documents.JoinedWords` | api/src/modules/analysis/pdf-processor.ts:98 | The text of a document has the words of its pages, in order |
| `Documents.PageForOffset` | api/src/modules/analysis/pdf-processor.ts:116-124 | The parser's loop computes the page lookup with two separator characters between pages |
| `Documents.EnginePageFor` | packages/agent_engine/lib/src/agent_engine.dart:218-225 | The engine's loop computes the page lookup without separators |
| `Documents.PageOfOwnedCharacter` | api/src/modules/analysis/pdf-processor.ts:116-124 | A character of page k of the joined text is attributed to page k |
| `Documents.TrimKeepsOffsets` | api/src/modules/analysis/pdf-processor.ts:98 | When the first page has text, trimming the joined text moves no character of a page |
| `Documents.PagesAttributedIffFirstHasText` | api/src/modules/analysis/pdf-processor.ts:98-124 | In a parsed document every character is attributed to its page if and only if the first page has text |
| `Documents.OffsetsAreCharacters` | api/src/modules/analysis/pdf-processor.ts:98 | The offsets used in that statement are where the characters of the pages really are, leading empty pages included |
| `Documents.EnginePageNeverEarlier` | packages/agent_engine/lib/src/agent_engine.dart:218-225 | The engine's page is never before the parser's, and equal on a single page |
| `Documents.EnginePageExact` | packages/agent_engine/lib/src/agent_engine.dart:218-225 | Over the real offsets of a parsed document whose first text is on page f: the engine attributes character j of page k (from 0) to its page if and only if 2(k - f) + j is at most the page length or the page is the last, and it is not the first character behind leading empty pages |
| `Documents.PageInRange` | api/src/modules/analysis/pdf-processor.ts:116-124 | Either lookup answers a page of the document, or 1 when there is none |
| `Assembly.ParsePages` | api/src/modules/analysis/pdf-processor.ts:72-109 | Fails as too large exactly when the pages together or the joined text exceed the byte limit, as unreadable exactly when the text is within the limit and under 30 characters; otherwise page i has number i and exactly the words of its extracted text, or of the recognized one when there are none, the document has the words of its pages in order and the sections of the join, and the fallback is reported exactly when it was used |
| `Assembly.ReadPages` | api/src/modules/analysis/pdf-processor.ts:72-96 | The page loop stops exactly when the pages together exceed the limit; otherwise it reads every page and reports the fallback exactly when it was used |
| `Assembly.ReadPage` | api/src/modules/analysis/pdf-processor.ts:79-86 | Recognized text is used exactly when nothing was extracted and something was recognized |
| `Assembly.Assemble` | api/src/modules/analysis/pdf-processor.ts:98-109 | The joined text is refused over the byte limit, then under 30 characters, else it becomes the document |
| `Assembly.IndexFrom` | api/src/modules/analysis/pdf-processor.ts:106 | The leftmost occurrence at or after an offset, or none exactly when there is none |
| `Assembly.SectionForHeadings` | packages/agent_engine/lib/src/agent_engine.dart:313-316 | The section of an offset is the first heading, in the fixed order, that occurs at or before it |
| `Assembly.SectionIsFirstHeading` | api/src/modules/analysis/pdf-processor.ts:105-108 | The same as an if-and-only-if for each heading: not the nearest heading above |
| `Assembly.SectionsExact` | api/src/modules/analysis/pdf-processor.ts:105-108 | The sections are exactly: each of the six headings that occurs, from its first occurrence, on the page of that place, to the end of the text |
| `CatalogValidation.CheckRule` | packages/validation/lib/src/catalog_validator.dart:25-40 | No error exactly for a rule with positive weight, known recommendations and no exclusion among its own terms |
| `CatalogValidation.CheckRole` | packages/validation/lib/src/catalog_validator.dart:21-44 | No error exactly for distinct valid rules, and at least one of them when the role is active |
| `CatalogValidation.Validate` | packages/validation/lib/src/catalog_validator.dart:13-47 | No error exactly for an accepted catalog: distinct slugs and every role valid |
| `Scoring.Score` | packages/scoring_engine/lib/src/scoring_engine.dart:25-80 | Succeeds exactly when every item names a known requirement and none is named twice, and then returns the breakdown of the evidence, the sections and the signals of the text, whose values the laws of `ScoringLaws` give |
| `Signals.AppendingKeepsSignals` | packages/scoring_engine/lib/src/scoring_engine.dart:86-100 | Appended text never takes away the length or the impact signal |
| `Signals.LongMeansTrimmedLength` | packages/scoring_engine/lib/src/scoring_engine.dart:88 | The length signal is set exactly when the text without the white space at its ends, by character code, has more than 300 characters |
| `Signals.ImpactIff` | packages/scoring_engine/lib/src/scoring_engine.dart:98-100 | The impact signal is set if and only if the lower-cased text can be cut into anything that ends no word, one or more digits, and either a dot, percent or plus sign or white space, if any, and one of the six units |
| `Signals.EmailIff` | packages/scoring_engine/lib/src/scoring_engine.dart:90-94 | The e-mail signal is set if and only if the text can be cut into mailbox, at sign, host, dot and two or more letters, each of its characters, with a word boundary at either end |
| `Signals.PrivateUseAnywhere` | packages/scoring_engine/lib/src/scoring_engine.dart:89 | A text has the private-use signal exactly when one of its characters has a code from E000 to F8FF |
| `Scoring.SumCapped` | packages/scoring_engine/lib/src/scoring_engine.dart:45-48 | Items for different requirements that each stay within the cap of their rule stay within all caps together |
| `Scoring.CreditBounded` | packages/scoring_engine/lib/src/scoring_engine.dart:41-48 | If no item is worth more than m, the credit is at most m times the total weight |
| `Scoring.CreditWithinWeight` | packages/scoring_engine/lib/src/scoring_engine.dart:41-48 | The credit never exceeds the total weight |
| `Scoring.ClampsAreNoOps` | packages/scoring_engine/lib/src/scoring_engine.dart:52-79 | For creditable evidence on positive weights the clamps change nothing; the ATS clamp never does under the default policy |
| `Scoring.OrderIrrelevant` | packages/scoring_engine/lib/src/scoring_engine.dart:31-79 | Permuting the evidence changes neither its acceptance nor any component |
| `Scoring.RaisingNeverLowers` | packages/scoring_engine/lib/src/scoring_engine.dart:41-79 | Raising one item's classification lowers no component and not the rounded total |
| `Scoring.MentionsAloneNeedWork` | packages/core_models/lib/src/core_models.dart:133-166 | With mentions only, however many, the total is at most 47, in the lowest band |
| `Scoring.NoStrongItemStaysBelowGood` | packages/core_models/lib/src/core_models.dart:133-166 | Without a strong item the total is at most 58, below the third band |
| `Scoring.TopBandNeedsStrongItems` | packages/core_models/lib/src/core_models.dart:156-166 | A total of 85 or more needs at least 38 percent strong items |
| `Scoring.TotalInRange` | packages/core_models/lib/src/core_models.dart:156-158 | The total of every breakdown lies in 0 to 100 |
| `ScoringLaws.TextPoints` | packages/scoring_engine/lib/src/scoring_engine.dart:86-96 | Under the default policy: length adds 4 ATS points, an address 3, the absence of private-use characters 3, impact none, and all three good make 20 |
| `ScoringLaws.SectionPoints` | packages/scoring_engine/lib/src/scoring_engine.dart:57-69 | Each of the four scored sections adds 2.5 points, any other none, and no section is 0 |
| `ScoringLaws.ImpactPoints` | packages/scoring_engine/lib/src/scoring_engine.dart:70-72 | 10 points with the impact signal, 5 without |
| `ScoringLaws.ExperiencePoints` | packages/scoring_engine/lib/src/scoring_engine.dart:53-55 | 25 points times the number of strong items over the number of items |
| `ScoringLaws.ItemPoints` | packages/scoring_engine/lib/src/scoring_engine.dart:41-52 | Changing one item from missing to strong adds 35 times its weight over the total weight, to weak half of that, to a mention a fifth, to contradictory nothing |
| `ScoringLaws.UniformPoints` | packages/scoring_engine/lib/src/scoring_engine.dart:41-55 | One item per requirement in any order: all strong is worth 35 and 25, all weak 17.5 and 0, all mentions 7 and 0, all missing or contradictory 0 and 0 |
| `ScoringLaws.PerfectScore` | packages/scoring_engine/lib/src/scoring_engine.dart:73-79 | Everything strong, all sections and all signals good is 35, 25, 20, 10, 10 and a total of 100 |
| `ScoringLaws.TotalRounds` | packages/core_models/lib/src/core_models.dart:156-166 | For creditable evidence the total is the sum of the five components to the nearest integer, halves up, and the band is that of its range |
| `Report.ReportAgreesWithEngine` | api/src/modules/analysis/report.ts:13-21 | For every breakdown, in range or not, the report and the engine give the same total and band |
| `Engine.Normalize` | packages/agent_engine/lib/src/agent_engine.dart:180-201 | The loop over rules and spellings gives the terms of the rules that have one, in order; `Engine.TermLaw` says which |
| `Engine.TermLaw` | packages/agent_engine/lib/src/agent_engine.dart:182-200 | A rule gets no term exactly when neither its term nor any alias stands in the text; otherwise the term if that stands, else the first alias that does, with the span around the leftmost place where that spelling stands |
| `Engine.Investigate` | packages/agent_engine/lib/src/agent_engine.dart:241-282 | One item per rule, classified from the first term recorded under its id |
| `Engine.EvidenceOneToOne` | packages/agent_engine/lib/src/agent_engine.dart:241-282 | With distinct rule ids each rule finds its own term, so the items are the rules resolved one by one, in order |
| `Engine.EvidenceCreditable` | packages/scoring_engine/lib/src/scoring_engine.dart:31-40 | Such evidence is never refused by the score |
| `Engine.ItemLaw` | packages/agent_engine/lib/src/agent_engine.dart:241-282 | The same for the item in the report: missing exactly when no spelling stands, and then without any place; otherwise that spelling, its leftmost place, and page and section of it |
| `Engine.EvidenceMeansText` | packages/agent_engine/lib/src/agent_engine.dart:242-265 | An item is missing exactly when neither the term nor an alias stands in the text, and strong exactly when one does, under experience or projects, with one of the eleven action words within 120 characters |
| `Engine.AppendingKeepsMentions` | packages/agent_engine/lib/src/agent_engine.dart:183-200 | Appending text that opens with neither letter nor digit keeps a mentioned requirement mentioned |
| `Engine.ClassLaw` | packages/agent_engine/lib/src/agent_engine.dart:250-265 | In a parsed document a mentioned item is a mention only if and only if "skills" and not "summary" occurs at or before the match; strong if and only if neither does, "experience" or "projects" does, and an action word is near; weak otherwise; never contradictory |
| `Engine.SectionLaw` | packages/agent_engine/lib/src/agent_engine.dart:313-316 | The section of an offset is the first of the six headings, in their order, that occurs at or before it |
| `Engine.ActionLaw` | packages/agent_engine/lib/src/agent_engine.dart:247-257 | The action check holds exactly when one of the eleven words stands, between word boundaries or cut by the window, within 120 characters of the match |
| `Engine.Verify` | packages/agent_engine/lib/src/agent_engine.dart:421-448 | No failure exactly for distinct requirements, pages and spans inside the document, a total in 0 to 100 and six recorded steps |
| `Workflow.WorkflowContext.Record` | packages/agent_engine/lib/src/agent_engine.dart:49-74 | Appends one entry whose step is its index |
| `Workflow.Begin` | packages/agent_engine/lib/src/agent_engine.dart:472-486 | The first two agents end a run as cancelled or rejected exactly when it is cancelled by then or the catalog is not accepted |
| `Workflow.Gather` | packages/agent_engine/lib/src/agent_engine.dart:487-494 | Terms and evidence with their two entries, or none when cancelled on the way |
| `Workflow.VerifyAndRetry` | packages/agent_engine/lib/src/agent_engine.dart:503-523 | The verdict of the first verification, since the retry looks at the same values; cancelled before the retry only if the first one failed |
| `Workflow.FinishRun` | packages/agent_engine/lib/src/agent_engine.dart:499-535 | Recommendations and verification end the run as completed, cancelled or unverified |
| `Workflow.Run` | packages/agent_engine/lib/src/agent_engine.dart:472-536 | A run ends with the outcome the declarative reading gives its request, identity fields included; a completed run passed the first verification with six entries recorded and has exactly seven, step equal to index, none of them a retry |
| `Workflow.VerificationSucceeds` | packages/agent_engine/lib/src/agent_engine.dart:421-444 | For distinct rule ids and pages numbered 1 to n, verification succeeds if and only if n is positive or nothing is mentioned |
| `Workflow.RunsComplete` | packages/agent_engine/lib/src/agent_engine.dart:472-536 | For a role of an accepted catalog and numbered pages, an uncancelled run completes if and only if there is a page or nothing is mentioned, and its evidence is never rejected |
| `Workflow.CompletedRunsAreOneToOne` | packages/agent_engine/lib/src/agent_engine.dart:241-282 | A completed run has one item per requirement, in order, missing exactly when unmentioned, the recomputed score, and the slug and version of its request |
| `Workflow.AppendingLosesNoEvidence` | packages/agent_engine/lib/src/agent_engine.dart:241-282 | Appending such text to a document turns no matched requirement missing |
| `WorkflowLaws.ReportLaw` | packages/agent_engine/lib/src/agent_engine.dart:525-535 | A completed report has slug, title, seniority, catalog and engine version of its request, the seven agents in order, and for every requirement, in order, the first spelling that stands in the text with its leftmost place, or missing exactly when none stands |
| `WorkflowLaws.AdviceLaw` | packages/agent_engine/lib/src/agent_engine.dart:367-400 | In a parsed document a completed run advises to add evidence exactly when some requirement is not mentioned, to add impact exactly when none is shown under experience near an action word, in that order and nothing else |
| `WorkflowLaws.SectionPointsLaw` | packages/agent_engine/lib/src/agent_engine.dart:333-338 | The section points of a completed run are 2.5 for each of the four headings that occurs in the text |
| `WorkflowLaws.CancellationLaw` | packages/agent_engine/lib/src/agent_engine.dart:472-536 | A cancellation never changes what a run reports: the run is cancelled or ends as it would have; from one of the first two checks on it always cancels |
| `CatalogStore.Store.FindSlug` | api/migrations/001_initial.sql:22 | Finds another role with the slug exactly when there is one |
| `CatalogStore.Store.PublishedVersions` | api/src/modules/catalog/routes.ts:35-36 | Every published version of the role, once |
| `CatalogStore.Store.HasPublishedRules` | api/src/modules/catalog/routes.ts:140 | True exactly when the role has a published version |
| `CatalogStore.Store.LatestPublished` | api/src/modules/catalog/routes.ts:43-48 | A published version with the highest number, or none exactly when there is none |
| `CatalogStore.Store.NextNumber` | api/src/modules/catalog/routes.ts:223 | One more than the highest number of the role and seniority |
| `CatalogStore.Store.QueryRoles` | api/src/modules/catalog/routes.ts:31-39 | Every row of the left join of unarchived roles with their published versions, once |
| `CatalogStore.Store.RecommendationIds` | api/src/modules/catalog/routes.ts:86-88 | Exactly the recommendation ids |
| `CatalogStore.Store.BuildCatalogSnapshot` | api/src/modules/catalog/routes.ts:30-96 | A snapshot with the entries of those rows, active roles without a seniority skipped, and the known recommendations |
| `CatalogStore.Store.HandleCreateRole` | api/src/modules/catalog/routes.ts:118-130 | Adds an inactive role unless its slug is taken |
| `CatalogStore.Store.HandlePatchRole` | api/src/modules/catalog/routes.ts:131-162 | Updates the given columns unless activation or the slug is refused |
| `CatalogStore.Store.HandleArchiveRole` | api/src/modules/catalog/routes.ts:163-178 | Archives and deactivates the role, exactly when it exists |
| `CatalogStore.Store.HandleRestoreRole` | api/src/modules/catalog/routes.ts:179-196 | Restores an archived role as inactive |
| `CatalogStore.Store.HandleCreateDraft` | api/src/modules/catalog/routes.ts:219-230 | Adds a draft with the next number and no rules |
| `CatalogStore.Store.HandlePublish` | api/src/modules/catalog/routes.ts:268-292 | Archives, publishes, builds and stores the snapshot exactly when the version is a draft and the name is new; otherwise nothing changes |
| `CatalogStore.Store.HandleRollback` | api/src/modules/catalog/routes.ts:294-306 | Stores the old snapshot, its embedded version included, under a new name |
| `CatalogStore.Store.HandleSeedRole` | api/src/db/seed.ts:27-56 | Inserts the role of a new slug or updates its title, then adds version ("all", 1) with the rules, fills it when it has none, or aborts on the partial unique index and changes nothing |
| `CatalogStore.Store.SeedCatalog` | api/src/db/seed.ts:66-77 | Adds the initial snapshot unless its version exists |
| `CatalogStore.Store.LoadCatalog` | api/src/modules/analysis/job-service.ts:187-196 | The snapshot of the version with its first role of that slug, or none exactly when either is missing |
| `CatalogStore.Store.AdmitUpload` | api/src/modules/analysis/routes.ts:55-69 | The upload route admits by a newest snapshot, and nothing when there is none |
| `CatalogTheorems.AdmissionIff` | api/src/modules/analysis/routes.ts:55-69 | An upload is admitted if and only if the snapshot has a version and its first active role of the slug offers the seniority: none asked for, "all", a role that lists none, or one it lists; and it records that version and that role |
| `CatalogStore.Store.SeedTemplates` | api/src/db/seed.ts:58-64 | Adds the ids of the recommendation templates |
| `CatalogTheorems.HistorySelfNamed` | api/src/modules/catalog/routes.ts:268-306 | In every history, rollbacks of rollbacks included, the version inside each snapshot names a row holding the identical snapshot, and no snapshot ever changes |
| `CatalogTheorems.JobReloadsItsCatalog` | api/src/modules/analysis/job-service.ts:187-196 | After any later commands the worker loads the catalog of the admission, and the admitted role exactly when the first role with the slug is active |
| `CatalogTheorems.AdmittedJobFindsItsRole` | api/src/modules/analysis/routes.ts:55-69 | After a safe history and any later commands, loading gives exactly the admitted catalog and role |
| `CatalogTheorems.HandlerKeepsAuthoring` | api/src/modules/catalog/routes.ts:118-306 | Every handler keeps: unique slugs and version keys, archived roles inactive, active roles published, at most one published version per role |
| `CatalogTheorems.PublishKeepsOne` | api/src/modules/catalog/routes.ts:274-276 | So does the pair of updates of a publication |
| `CatalogTheorems.HistoryInv` | api/src/modules/catalog/routes.ts:118-306 | Over every safe history the authoring invariant holds, snapshots name themselves and have unique slugs |
| `CatalogTheorems.SeedKeepsOnePublishedIff` | api/src/db/seed.ts:27-56 | Seeding a role leaves at most one published version per role if and only if its guard holds: the role is new or unpublished, has version ("all", 1), or has an "all" version published |
| `CatalogTheorems.SeedCanPublishTwice` | api/migrations/001_initial.sql:41-42 | A history for which the seed breaks it: a published "senior" version and then the seed of the same slug |
| `CatalogTheorems.BuiltSlugsDistinct` | api/src/modules/catalog/routes.ts:30-85 | A snapshot built under the invariant has unique slugs |
| `CatalogTheorems.PublishedRoleIsListed` | api/src/modules/catalog/routes.ts:41-84 | A published, unarchived role is in the snapshot with the rules of its published version |
| `CatalogTheorems.RoleListedIff` | api/src/modules/catalog/routes.ts:31-42 | A snapshot lists a role if and only if it is unarchived and is not an active role published for the empty seniority |
| `CatalogUse.BuiltAcceptedIff` | api/src/modules/catalog/routes.ts:41-84 | The validator accepts a built snapshot if and only if the published version of every unarchived role it lists has distinct valid rules, and at least one when the role is active |
| `CatalogUse.BuiltDecodableIff` | packages/catalog_models/lib/src/catalog_models.g.dart:67-70 | The engine can decode a built snapshot if and only if every unarchived role is published for a level of its enumeration, for all of them, or is left out for an empty seniority |
| `CatalogUse.PublicationUsableIff` | api/src/modules/catalog/routes.ts:268-292 | Whether a publication leaves a catalog under which analyses complete, as an if-and-only-if over the tables before it: the draft itself, and the published version of every other unarchived role |
| `CatalogUse.ApiPublicationUnusable` | api/src/modules/catalog/routes.ts:219-292 | Once the catalog is seeded, no sequence of API calls leads to a usable publication for an active role, except for a draft of the empty seniority |
| `CatalogUse.PublishingRulelessDraftIsRejected` | api/src/modules/catalog/routes.ts:219-292 | Publishing a draft without rules for an active role stores a snapshot that the validator rejects |
| `CatalogWitness.RulelessDraftWitness` | api/src/modules/catalog/routes.ts:219-292 | A history from the empty database that does so: seed an active role, draft, publish |
| `CatalogWitness.UnpublishedRoleWitness` | api/src/modules/catalog/routes.ts:118-292 | A history whose last snapshot the validator accepts and the engine cannot decode: create two roles, publish a draft of one |
| `Evaluation.CountPair` | evaluation/bin/compare_results.dart:40-50 | Each label's counts take this pair into account, and no other changes |
| `Evaluation.CountCase` | evaluation/bin/compare_results.dart:33-52 | The counts after one case are those of the pairs so far |
| `Evaluation.CountAll` | evaluation/bin/compare_results.dart:26-53 | The counts are those of all pairs, and the strong false positives are the false positives of "strong" |
| `Evaluation.IndexedLast` | evaluation/bin/compare_results.dart:22-25 | The map by id holds under an id the last result with it, and nothing exactly when there is none |
| `Evaluation.CountsAreSizes` | evaluation/bin/compare_results.dart:36-50 | The counts of a label are numbers of pairs: both sides it, only the prediction, only the gold label |
| `Evaluation.CountsConserved` | evaluation/bin/compare_results.dart:30-53 | True positives and false negatives add up to the known gold labels, true and false positives to the known predictions, and each total is the number of pairs exactly when all its labels are known |
| `Evaluation.KnownLabelsBalance` | evaluation/bin/compare_results.dart:30-53 | With known labels both sums are the number of gold labels, so false positives equal false negatives |
| `Evaluation.F1Unit` | evaluation/bin/compare_results.dart:54-64 | F1 lies in 0 to 1, is 1 exactly for a label that occurs and is never confused, and 0 without a true positive |
| `Evaluation.F1FromCounts` | evaluation/bin/compare_results.dart:54-64 | F1 is 2tp / (2tp + fp + fn), and 0 when that denominator is |
| `Evaluation.MacroAverage` | evaluation/bin/compare_results.dart:54-67 | The loop computes the mean of the five F1 values |
| `Evaluation.MacroF1Bounded` | evaluation/bin/compare_results.dart:65-67 | Macro-F1 is at most the number of distinct gold labels over five, with equality if and only if every prediction is right |
| `EndToEnd.JobKeepsItsIdentity` | api/src/modules/analysis/job-service.ts:154-333 | For as long as a job lives its role, seniority, catalog version, handle and expiry are those of its admission |
| `EndToEnd.IdentityCheckPasses` | api/src/modules/analysis/worker.ts:108-118 | Over every run and every catalog history: what the worker loads for a claim it holds is the catalog and role of the admission, with the version and slug of the claimed row |
| `EndToEnd.EngineAnswersIff` | packages/server_analysis_runner/bin/server_analysis_runner.dart:26-51 | For a role of a catalog that carry the names of the job, the engine answers if and only if it can decode the catalog, the validator accepts it, and the document has a page or mentions nothing |
| `EndToEnd.HeldClaimAnsweredIff` | api/src/modules/analysis/worker.ts:107-119 | From upload to report: a held claim gets a result if and only if the catalog of the admission is usable and the document has a page or mentions nothing, whatever happened since; the result names the job and has one item per requirement |
| `EndToEnd.HeldClaimReport` | api/src/modules/analysis/worker.ts:107-119 | And what that result says: title and engine version of the admitted catalog, the seniority of the upload, and for every requirement, in order, whether and where which of its spellings stands in the document |
| `EndToEnd.BuiltCatalogAnswersIff` | api/src/modules/catalog/routes.ts:268-292 | Under a published catalog, for any of its roles and any document with a page, the engine answers if and only if every unarchived role is published for a known level with usable rules |
| `EndToEnd.RulelessDraftStopsEveryRun` | api/src/modules/catalog/routes.ts:219-292 | Under the snapshot of a published rule-less draft no run completes, whatever its role and document |

## Left out

- Write-only columns: `updated_at`, `processing_started_at`, `email_sent_at`, `completed_at`.
- ProcessPdf: heartbeats during the analysis are steps of `JobProtocol`, not of this method; temporary files are left out.
- FillSlots: it is followed for as many turns as its argument has, because tasks that settle can keep the loop of the source going; a claim that throws is left out.
- Stop: the timers it clears and its wait for the running tasks are left out.
- Validate: whether it accepts or rejects is modelled; the texts of the messages and their order are not.
- Investigate: evidence ids and explanation texts are left out.
- Record: goal, observation, confidence and state-update texts of a trajectory entry are left out.
- Run: the texts of the recommendations and of the verification result are left out.
- ParsePages: page count, encryption and pixel checks, and the extraction and recognition commands, are left out; their texts are parameters.
- HandleUpload: file size and type, consent, rate limit and the word challenge are checked before it and left out.
- Analyse: the engine's process, its time and output limits and the length limits of the result schema are left out.
- BuildCatalogSnapshot: description, phrases, category, required flag, expected sections and the texts of the recommendations are left out.
- HandlePatchRole: HTTP status codes and input validation of this and the other handlers are left out, and so are audit logs.
- HandleSeedRole: the source seeds all its roles in one transaction, so an abort undoes the other roles too.
- Weights that are not positive: the scoring theorems take them from an accepted catalog.
- Floating-point rounding, and case folding that changes the length of a string.
- Characters outside the basic plane, which the source's offsets count twice.
- SMTP, Poppler, Tesseract, HTTP, cookies, rate limits, row-level security and cryptography.
- The polling loop of the fast path and the timers: any order of the steps they cause is covered.
- The `analysis_queued` metric, word challenges, sessions, settings, role requests: small.
- The Flutter pages and generated code other than the decoding of seniorities.
