# ProWiki's engine, modelled and proved in Dafny

ProWiki keeps a project's files, their versions, extracted features and a job queue in one
embedded SQLite database, and a polling daemon works the queue off. This project models the
parts of it whose correctness is not visible in any single function, and proves what they are for:

- **The retrying job queue.** `Domain`, `Transactions` and `Store` give the tables, the
  statements and the transactions (commit, rollback, panic, a commit that is lost or that
  succeeds while reporting an error); `Worker` is the daemon. `Protocol` lets any number of
  workers interleave their transactions with each other and with ingestion, and writes a log of
  what was committed. `Ownership`, `LifeCycle`, `Effects`, `Draining` and `Stats` prove exclusive
  ownership, retry accounting, dead-lettering, exactly-once effects, termination and conservation
  over every run; `DaemonSteps` shows that the daemon's code produces runs of that protocol.
  `QueueOutcomes` states row by row and in numbers what claims, failures, completions and whole jobs
  leave in the tables, and `FeatureNames` that feature names stay unique.
- **Ingestion.** `Ingest` specifies versions, flags, cloned junctions and enqueued jobs,
  `IngestService` is the imperative code proved against it, `IngestLaws` and `IngestRuns` prove the
  invariants and what any sequence of calls amounts to, `MixedRuns` interleaves the calls with
  the workers, `WiredRuns` shows what that comes to in the program as it is wired, and
  `IngestOutcomes` states what a call leaves in each table.
- **The normaliser** that decides the bypass: `Text`, `Normalizer`, `NormalizerLaws` (what the
  normal form ignores), `NormalizerLimits` (what it does not ignore, with exact conditions) and
  `CommentLines` (the same by characters, indents and file extensions).
- **The scrubber.** `Scrub` holds the seven rules, once as the languages of their secrets and once
  as the matches a leftmost-first engine finds, and the pipeline. `ScrubMatch` proves the two equal;
  `ScrubLaws`, `ScrubStages` and `ScrubTheorems` prove that no secret of any rule is in the output,
  `ScrubPem` shows which stages could bring a secret of another rule into a text, and
  `ScrubCounts` and `ScrubSites` say what the hit count counts. `SecretForms` writes the seven kinds of
  secrets out letter by letter, and `Scrubber` is the code, proved against them.
- **Algorithms.** `Claims` (priority top-k), `Graph` (the recursive query), `Discovery` (the boundary
  search), `History` (trimming).

Where the code and its documentation disagree, the model follows the code. `README.md:9` of ProWiki
promises that extraction is bypassed if only white space or comments have changed; a changed comment
behind code on the same line refutes it (`NormalizerLimits.TrailingCommentSeen`), and so does a block
comment taken out of a line (`NormalizerLimits.InlineCommentSeen`). `NormalizerLimits.LineEditExact`
says exactly which edits of a line without delimiters are bypassed, in any text, and
`NormalizerLimits.ShutEditExact` which edits of lines that close the comments they open, behind text
that has closed its own; `NormalizerLimits.InlineCommentExact` is the case of a block comment inside
a code line. Requirement 7.5
(`.kiro/specs/prowiki-gap-analysis/requirements.md:129`) wants the hit count to be the number of
replaced sites; the code adds up the matches of all stages, and a later stage can swallow an earlier
marker (`ScrubTheorems.CountedTwice`). `ScrubSites` follows every marker the scrubber puts in:
`ScrubSites.SitesConserved` balances hits, sites left in the output and sites taken away again for
every text, `ScrubSites.HitsAreSitesIff` gives the exact condition under which the requirement is met,
and `ScrubSites.HitsAreSitesIfPlain` one that can be read off the input. Markers that the input brings
along are no redactions: taking one in leaves the count right (`ScrubSites.InputMarkerTaken`), which
is why comparing the numbers of markers before and after (`ScrubCounts.HitsAreMarkersIff`) is stricter.

In the program as it is wired nothing enqueues a PARSE job: ingestion asks for `level_1_overview`
(`internal/app/ingest/service.go:162`), which the dispatcher refuses (`internal/handlers/dispatcher.go:28`).
`WiredRuns` proves the consequence: no work is ever stored, and a job can only end as a dead letter.
The results on PARSE jobs hold for any enqueuer and are not touched by this.

A job whose completion and whose failure report both fail stays `processing` for good; the model
keeps that outcome, so the termination result speaks of pending jobs.

## Model

| member | source | states |
|---|---|---|
| Claims.ClaimIsTop | internal/store/job_store.go:22-50 | a claim takes exactly min(limit, pending) rows, only pending ones, and every claimed row precedes every pending row left in (priority DESC, id ASC) |
| Claims.ClaimOrder | internal/store/job_store.go:22-32 | every claimed row has a higher priority than every pending row left behind, or the same and a smaller id |
| Claims.ClaimIsOnlyTop | internal/store/job_store.go:23-29 | no other set of rows has that property, so the claimed set is determined however the engine finds it |
| Claims.BatchesAreTop | internal/store/job_store.go:22-50 | claims in a row with any limits hand out what one claim with the summed limit would |
| Claims.ClaimsDrainInOrder | internal/store/job_store.go:22-50 | claims whose limits reach the number of pending rows hand out every pending row once, sorted across all batches |
| Claims.BatchesOrder | internal/store/job_store.go:22-32 | along any claims in a row priorities only fall, and ids rise within one priority |
| Store.Database.End | internal/txn/txn.go:14-35 | finishing a transaction: commit on success, the saved tables on error or panic, and the report the caller gets for each way the commit can go |
| Store.Database.Rollback | internal/txn/txn.go:22-31 | a rollback restores every table |
| QueueOutcomes.TransactionOutcome | internal/txn/txn.go:14-35 | only a clean commit and a commit with a lost reply take effect, only the first is reported as a success, and only a panicking body as a panic |
| Store.Database.SelectTop | internal/store/job_store.go:23-29 | the subselect of the claim finds exactly the specified rows |
| Store.Database.ClaimRows | internal/store/job_store.go:22-50 | the claiming update flips exactly the chosen rows and returns that set of rows, in some order |
| Store.Database.ClaimBatch | internal/queue/sqlite_queue.go:26-35 | one transaction around the claim; with a good report the returned rows were pending, are processing now with nothing else changed, and no pending row with a higher priority or a smaller id of the same priority is left |
| QueueOutcomes.ClaimOutcome | internal/store/job_store.go:22-50 | a claim that commits changes the status of the chosen rows and nothing else |
| Store.Database.EnqueueMany | internal/store/job_store.go:58-80 | the loop inserts every job as a pending row with a fresh id, in order |
| Store.Database.SetStatus | internal/store/job_store.go:52-56 | an update of a missing row changes nothing |
| Store.Database.CreateFeature | internal/store/feature_store.go:22-25 | inserts the feature unless its name is taken in the project (the unique index), in which case nothing changes |
| Store.Database.AddToFileVersion | internal/store/feature_store.go:27-31 | links feature and version, once; refused exactly if the version or the feature does not exist (the two foreign keys) |
| Store.Database.Perform | internal/handlers/parse.go:81-118 | the closure of a PARSE job: summary, features with their links, one downstream job; it can stop at any statement by error or panic |
| QueueOutcomes.CompletesIff | internal/handlers/parse.go:81-118 | the closure of a PARSE job can commit if and only if the version is there (or no feature is reported) and the feature names are new to the project and to each other |
| QueueOutcomes.CompleteOutcome | internal/handlers/parse.go:81-118 | it leaves the summary of that version, one feature and link per reported feature under consecutive ids, one FILE_VERSION / ANALYZE_STYLE job of priority 5 for the same project and version, and the job's row gone |
| FeatureNames.RunKeepsNames | internal/store/feature_store.go:22-25 | over every run no project has two features of one name, and ids are not reused |
| Store.Database.Complete | internal/queue/sqlite_queue.go:37-49 | work and deletion of the row happen together or not at all, whatever fails |
| Store.Database.Fail | internal/queue/sqlite_queue.go:51-78 | below three retries the row is pending again with one more, from three on it is failed with one more dead letter that carries the reported text and "max retries exceeded"; a missing row is an error that changes nothing |
| QueueOutcomes.FailOutcome | internal/queue/sqlite_queue.go:51-78 | the same as an equation on all tables |
| QueueOutcomes.FailWithoutEffect | internal/queue/sqlite_queue.go:51-78 | a failure report that does not commit, or for a row that is gone, changes nothing and is not a success |
| Store.Database.Enqueue | internal/queue/sqlite_queue.go:80-85 | all jobs are inserted or none |
| Worker.Daemon.ProcessJobSafe | internal/worker/daemon.go:71-96 | dispatch, completion and failure report of one job with panic recovery, the discarded errors included |
| QueueOutcomes.ParsedOutcome | internal/worker/daemon.go:71-96 | a parsed reply to a PARSE job is stored under the job's own project and version, also if the commit's reply is lost; if it cannot be stored the job is reported as failed with the completion error or the panic |
| QueueOutcomes.RefusedOutcome | internal/handlers/dispatcher.go:21-31 | every other job is reported as failed with the dispatcher's text, the handler's error as it is, or "panic: " and the handler's panic |
| Worker.Daemon.ProcessBatch | internal/worker/daemon.go:52-69 | a claim of ten followed by every claimed job in turn |
| DaemonSteps.JobRuns | internal/worker/daemon.go:71-96 | processing one job is a sequence of enabled protocol steps with the same database and an advanced worker |
| DaemonSteps.ProcessBatchRuns | internal/worker/daemon.go:52-96 | a whole batch of the daemon is a run of the protocol that ends with an idle worker |
| Ownership.RunKeepsInv | internal/queue/sqlite_queue.go:26-85 | rows, batches and phases fit together after every run of any number of workers; 0 <= retry_count <= 3 |
| Ownership.ExclusiveOwnership | internal/store/job_store.go:22-50 | in every reachable world a job has at most one holder, and a held job that still has a row is processing |
| LifeCycle.RunKeepsLife | internal/queue/sqlite_queue.go:26-78 | for every job the table shows exactly the life the log of committed transactions tells |
| LifeCycle.CountsByLife | internal/queue/sqlite_queue.go:51-78 | the life of a job fixes how often it was claimed, retried, applied and dead-lettered |
| LifeCycle.RetryAccounting | internal/queue/sqlite_queue.go:51-78 | a pending row was claimed retry_count times, a processing row once more, a failed row exactly 4 times with 3 retries; retry_count stays within 0..3 |
| LifeCycle.RetryBetweenClaims | internal/queue/sqlite_queue.go:26-78 | between any two claims of one job lies a committed Fail of it |
| LifeCycle.DeadLettersExact | internal/store/dlq_store.go:22-25 | a row is failed if and only if exactly one dead letter names it, and no other job has any |
| LifeCycle.FinalIsForever | internal/queue/sqlite_queue.go:51-78 | a dead-lettered job is never claimed or changed again, a deleted one never returns; a late Fail changes nothing |
| Effects.AppliedOnceIffDeleted | internal/handlers/parse.go:81-118 | a job's work is committed at most once and spawns one downstream job, and that is so if and only if its row is deleted |
| Effects.TablesShowCommittedWork | internal/handlers/parse.go:81-118 | over every run with errors, panics and ambiguous commits the features and summaries in the tables are those of the committed works, and file_features is exactly what was there at the start, the links of the committed works and the links ingestion brought in |
| Draining.StepFuel | internal/worker/daemon.go:52-96 | every step of a worker keeps or lowers the fuel (8 - retries per pending PARSE job, 4 - retries per other), and a dispatch uses at least one unit although a PARSE job spawns another |
| Draining.DispatchesBounded | internal/handlers/dispatcher.go:21-31 | from idle workers on and with no outside enqueue, at most 8 dispatches per pending PARSE job and 4 per other pending job happen in any run |
| Draining.SpentMeansDrained | internal/worker/daemon.go:52-96 | a run that reaches the bound leaves no pending job |
| Draining.PendingMeansProgress | internal/worker/daemon.go:52-69 | while a job is pending, a committed claim takes at least one job and its dispatch is enabled |
| Stats.GetStats | internal/store/job_store.go:103-130 | each field is the number of the project's rows in that status, in whatever order the groups arrive |
| Stats.SumExact | internal/store/job_store.go:96-130 | the four fields add up to the project's rows if and only if none is dead_lettered |
| Stats.StatsAccountForAll | internal/store/job_store.go:96-130 | they do in every reachable state, where none is completed either |
| Stats.JobsConserved | internal/queue/sqlite_queue.go:26-85 | after any run every id ever issued is in exactly one of pending, processing, failed and deleted, and the four sizes add up |
| IngestService.FileStore.GetOrCreate | internal/store/file_store.go:47-72 | the file's id, with a new row only if there was none, also when the caller is told of an error |
| IngestService.FileVersionStore.InsertVersion | internal/store/file_store.go:86-94 | adds one version under a fresh id |
| IngestService.FileVersionStore.SetLatest | internal/store/file_store.go:109-126 | clears the flag of the old version, if any, and sets that of the new one |
| IngestService.FileVersionStore.CloneJunctions | internal/store/file_store.go:128-141 | copies all links, or fails on a duplicate key and changes nothing |
| IngestService.Service.IngestVersion | internal/app/ingest/service.go:122-171 | the statements of the transaction in both branches amount to the specified body |
| IngestService.Service.ProcessFile | internal/app/ingest/service.go:70-172 | one call: every early return, the row GetOrCreate may leave behind, and the transaction with all ways it can end |
| IngestService.Service.Run | internal/app/ingest/service.go:58-68 | every scanned file in turn, failing ones skipped |
| IngestLaws.FileIdExact | internal/store/file_store.go:47-57 | a path names at most one file of a project, and the lookup finds it |
| IngestLaws.LatestExact | internal/store/file_store.go:96-107 | a file has a latest version as soon as it has any, and it is the one with the greatest id |
| IngestLaws.BodySucceeds | internal/store/file_store.go:128-141 | cloning into a new version never violates the junction primary key |
| IngestLaws.BodyVersions | internal/store/file_store.go:86-126 | afterwards the new version is flagged, the old one is not, nothing else in the table changed |
| IngestLaws.BodyJobs | internal/app/ingest/service.go:141-168 | no job on a bypass; otherwise one pending File / level_1_overview job of priority 1 for the ingesting project and the version just created |
| IngestLaws.BodyFeatures | internal/app/ingest/service.go:123-138 | the new version has the old one's features on a bypass and none otherwise; all other versions keep theirs |
| IngestLaws.BodyKeepsInv | internal/app/ingest/service.go:122-171 | exactly one flagged version per file, the newest, with the hash of its content |
| IngestRuns.CommittedCall | internal/app/ingest/service.go:98-171 | a committed call as seen from outside: new sole latest version with this content, jobs, features, and all other paths untouched |
| IngestOutcomes.CallReport | internal/app/ingest/service.go:70-172 | a call succeeds if and only if nothing goes wrong |
| IngestOutcomes.CallOutcome | internal/app/ingest/service.go:70-112 | the file has its row unless reading it or the lookup failed, no file row changes, and without a commit nothing else does |
| IngestOutcomes.VersionRow | internal/store/file_store.go:86-94 | the new version belongs to the file of that project and path, holds the content, is flagged, and has no summary |
| IngestOutcomes.InvalidatedRow | internal/store/job_store.go:82-94 | a completed File row of the outdated version goes back to pending with ten more priority; every other row stays |
| IngestOutcomes.JobRows | internal/app/ingest/service.go:141-168 | the whole queue after a call: as before on a bypass, otherwise with one more row, written out |
| IngestOutcomes.JobsAlwaysNameVersions | internal/app/ingest/service.go:156-168 | from empty tables, over any interleaving of workers and ingestion, every queued job is for a version whose file is in the job's project |
| IngestRuns.UncommittedCall | internal/app/ingest/service.go:70-112 | a call that does not commit changes at most the file table and no latest version |
| IngestRuns.RunRefines | internal/app/ingest/service.go:58-172 | over every sequence of calls, any of them failing, the invariant holds, each path shows its last committed content, and the enqueued jobs are the structural changes |
| IngestRuns.FreshDatabase | migrations/000001_init.up.sql:1-60 | the empty tables satisfy the invariant |
| IngestRuns.WorkEqualsStructuralChanges | internal/app/ingest/service.go:122-171 | ingesting a file's contents one after the other enqueues one job plus one per neighbouring pair with different normal forms |
| IngestRuns.FeaturesCarried | internal/store/file_store.go:128-141 | while its normal form stays, a path's latest version carries the same features, whatever else is ingested or fails in between |
| IngestRuns.DecoratedFileBypasses | internal/app/ingest/service.go:70-139 | a file that differs from its latest version only by inserted blank and comment lines enqueues nothing and gets a new latest version with exactly the old features |
| IngestOutcomes.CommentaryBypasses | internal/app/ingest/service.go:70-139 | adding a white line, a // line or (for .py) a # line, with any indent, to a .go, .js, .ts or .py file enqueues nothing, stores the new content and carries the features over |
| IngestRuns.IngestIsOutside | internal/app/ingest/service.go:122-171 | for the workers an ingestion call is an enqueue of at most one job that leaves queued jobs, features and summaries alone |
| MixedRuns.MixedRunKeeps | internal/app/ingest/service.go:70-172 | however the steps of any number of workers and ingestion calls interleave, it is a run of the protocol, the invariants of the queue and of the versions hold, and each path shows its last committed content |
| WiredRuns.DispatchRefused | internal/handlers/dispatcher.go:21-31 | in every such world each dispatch ends in the unknown-stage error, whatever the handler would have answered |
| WiredRuns.NothingStored | internal/app/ingest/service.go:156-168 | from empty tables, over any interleaving of workers and ingestion, there is one job per structural change, all of level 1 and all still in the table, and no feature, link or summary is stored |
| WiredRuns.EveryJobFails | internal/queue/sqlite_queue.go:51-78 | in such a run nothing is ever applied, and the job of each structural change is pending or processing with claims and retries in step, or failed with one dead letter after four claims |
| Normalizer.StripLineComments | internal/ast/parser.go:62-73 | the loop keeps exactly the lines whose trimmed text does not start with the prefix, in order |
| Normalizer.StripBlankLines | internal/ast/parser.go:83-92 | the loop keeps exactly the lines that are not blank, in order |
| Normalizer.StripByLanguage | internal/ast/parser.go:41-52 | delimiter stage, line comments and blank lines, by language, give the join of the code lines |
| CommentLines.BlankLineIgnored | internal/ast/parser.go:83-92 | a line of any of the 24 white space characters besides the newline may be added at any line boundary of any text, in every language |
| CommentLines.SlashCommentIgnored | internal/ast/parser.go:41-73 | in Go, JavaScript and TypeScript so may any line that holds // behind white space, without /* and */ |
| CommentLines.HashCommentIgnored | internal/ast/parser.go:41-73 | in Python any line that holds # behind white space, without triple quotes |
| CommentLines.SlashLine | internal/ast/parser.go:41-92 | a single line of Go, JavaScript or TypeScript without /* is left out exactly if behind its white space there is nothing or //, and kept to the letter otherwise |
| CommentLines.HashLine | internal/ast/parser.go:41-92 | the same for Python and # |
| CommentLines.PlainLine | internal/ast/parser.go:50-51 | for no known language only white lines are left out |
| CommentLines.DocstringIgnored | internal/ast/parser.go:76-80 | a docstring in either kind of triple quotes on lines of its own may be added behind Python text without quotes, whatever follows |
| CommentLines.KnownFiles | internal/domain/language.go:10-23 | files ending in .go, .py, .js and .ts, in any mixture of cases, are of those languages |
| CommentLines.OtherFiles | internal/domain/language.go:10-23 | every other extension of small letters and digits is of none |
| CommentLines.KnownLanguages | internal/ast/parser.go:41-46 | the name of a language may be spelled in any mixture of cases |
| Normalizer.BlanksAfterComments | internal/ast/parser.go:62-92 | the two line filters commute and together keep the lines that pass both, also when nothing remains |
| Normalizer.FiltersIdempotent | internal/ast/parser.go:62-92 | each line filter applied twice is the filter applied once |
| Normalizer.NormalFormsAgree | internal/ast/parser.go:27-52 | two texts have the same normal form if and only if the same code lines remain in the same order |
| Text.JoinSplit | internal/ast/parser.go:63-72 | splitting and joining on the newline is the identity |
| NormalizerLaws.InsertLine | internal/ast/parser.go:41-92 | inserting one blank or full-line comment line without delimiters keeps the code lines, at any line boundary of any text |
| NormalizerLaws.InsertionsInvisible | internal/ast/parser.go:41-92 | any number of such insertions leaves the normal form as it is, also inside comments and behind an unclosed opener |
| NormalizerLimits.BlockInsertionExact | internal/ast/parser.go:55-57 | a block comment on its own lines is invisible to every continuation if and only if the text before it has closed all of its comments |
| NormalizerLimits.LineEditExact | internal/ast/parser.go:41-92 | replacing a line by another, neither with delimiters, in any text keeps the normal form if and only if the line lies in a comment closed behind it, is the same, or is dropped before and after |
| NormalizerLimits.ShutEditExact | internal/ast/parser.go:41-92 | replacing lines that close the comments they open by other such lines, one or several, behind text whose comments are closed and before any text, keeps the normal form if and only if the same code lines remain of them; C-like, Python and other languages |
| NormalizerLimits.InlineCommentExact | internal/ast/parser.go:41-57 | what a block comment inside a code line says never matters, and taking it out keeps the normal form if and only if what is left is the line without it, spaces included, or is dropped before and after |
| NormalizerLimits.ClosedLineEditExact | internal/ast/parser.go:41-92 | for single lines that open no comment that is so if and only if the line is the same or dropped before and after |
| NormalizerLimits.InCommentIff | internal/ast/parser.go:55-57 | a line lies in such a comment if and only if the text before it leaves one open and the text behind it holds the closing mark, in either docstring stage for Python |
| NormalizerLimits.TrailingCommentSeen | README.md:9 | a changed comment behind code changes the normal form, against the documented bypass |
| NormalizerLimits.InlineCommentSeen | README.md:9 | so does removing a block comment from the middle of a code line: the spaces on both sides of it stay |
| NormalizerLimits.IdempotentExact | internal/ast/parser.go:41-57 | normalising twice is normalising once if and only if the normal form holds no complete delimiter pair |
| NormalizerLimits.IdempotentIfQuiet | internal/ast/parser.go:41-92 | in particular whenever the residue of the delimiter stage holds none |
| Scrubber.RegexScrubber.Scrub | internal/scrub/scrubber.go:14-60 | the loop over the rules and the group stage compute the specified pipeline; with the shipped rules the output holds none of the seven forms, and there is no hit exactly if the input holds none |
| SecretForms.FormsAreSecrets | internal/scrub/scrubber.go:16-31 | the words of the seven patterns, written out by words, counts and character ranges |
| SecretForms.NoFormSurvives | internal/scrub/scrubber.go:35-60 | no stretch of the output has any of the seven forms |
| SecretForms.UntouchedIff | internal/scrub/scrubber.go:35-60 | a text comes back as it is, with no hit, if and only if no stretch of it has one |
| SecretForms.LoneKey | internal/scrub/scrubber.go:39-43 | an AWS key alone becomes [REDACTED_SECRET], with one hit |
| SecretForms.AssignedHex | internal/scrub/scrubber.go:45-57 | of key= and 32 or more hex digits only the digits are replaced, with one hit |
| SecretForms.PemMatchEnds | internal/scrub/scrubber.go:25-26 | a PEM match ends at the first end mark that can be completed, behind the last key mark of that line |
| ScrubMatch.MatchSound | internal/scrub/scrubber.go:16-31 | what the engine matches is a secret of the rule |
| ScrubMatch.MatchComplete | internal/scrub/scrubber.go:16-31 | a text that starts with a secret is matched, and except for the lazy PEM body at least to the secret's end |
| ScrubStages.ChopSound | internal/scrub/scrubber.go:39-43 | cutting a text at its matches loses nothing, hits only secrets and skips only positions where none starts |
| ScrubStages.StageShape | internal/scrub/scrubber.go:39-57 | a stage's input and output agree except that markers stand where text was hidden |
| ScrubStages.StageHides | internal/scrub/scrubber.go:39-57 | each hit is one marker and each marker hides one secret, in the last stage only its 32 or more hex digits |
| ScrubTheorems.StageCleans | internal/scrub/scrubber.go:39-57 | a stage leaves no secret of its own rule, the key-value stage included |
| ScrubTheorems.StageKeepsClean | internal/scrub/scrubber.go:39-57 | unless the stage is the bearer or password one and the rule PEM, a stage brings no secret of another rule into a text that has none: not across a marker, not inside one |
| ScrubPem.HiddenBreakMakesPem | internal/scrub/scrubber.go:18-27 | the excluded pairs do fail: a bearer token or password that runs over the line break of a broken PEM footer is hidden, and the footer is complete |
| ScrubPem.HarmlessExact | internal/scrub/scrubber.go:39-57 | so those two are exactly the pairs of a stage and a rule for which some clean text does not stay clean, and the PEM stage comes after both |
| ScrubTheorems.NoSecretSurvives | internal/scrub/scrubber.go:35-60 | the output of the pipeline contains no secret of any of the seven rules |
| ScrubTheorems.ScrubTwice | internal/scrub/scrubber.go:35-60 | scrubbing a scrubbed text changes nothing and reports no hit |
| ScrubTheorems.HitsExact | internal/scrub/scrubber.go:35-60 | no hit, an unchanged text and a text without secrets are the same thing |
| ScrubTheorems.CountedTwice | internal/scrub/scrubber.go:39-57 | an AWS key assigned to a token counts two hits and leaves one marker, against the documented meaning of the count |
| ScrubCounts.StageMarks | internal/scrub/scrubber.go:39-57 | a stage adds one marker per hit and takes away those that lie inside its matches; no marker is cut, joined or hit in part |
| ScrubCounts.MarkersConserved | internal/scrub/scrubber.go:35-60 | for every text, markers in the output plus markers swallowed by password and PEM matches are markers in the input plus hits |
| ScrubCounts.HitsAreMarkersIff | internal/scrub/scrubber.go:35-60 | the hit count is the growth in markers from input to output if and only if no password or PEM match takes in any marker, one of the input's own included |
| ScrubCounts.HitsAreMarkersIfPlain | internal/scrub/scrubber.go:35-60 | in particular it is for every input without a password secret and without a PEM header |
| ScrubSites.SitesAreMarkers | internal/scrub/scrubber.go:39-57 | what is followed as put in stands for a whole marker of the output, and for an input without markers these are all of them |
| ScrubSites.SitesConserved | internal/scrub/scrubber.go:35-60 | for every text the hits are the redactions in the output plus those taken away again by a password or PEM match |
| ScrubSites.HitsAreSitesIff | internal/scrub/scrubber.go:35-60 | the hit count is the number of replaced sites if and only if no password or PEM match holds a marker put in by an earlier stage |
| ScrubSites.HitsAreSitesIfPlain | internal/scrub/scrubber.go:35-60 | in particular it is for every input without a password secret and without a PEM header |
| ScrubSites.InputMarkerTaken | internal/scrub/scrubber.go:21-22 | a marker of the input assigned to a keyword is one match, one marker put in and one hit, although the number of markers stays one |
| ScrubSites.TwoHitsOneSite | internal/scrub/scrubber.go:39-43 | an AWS key assigned to a token has fewer sites than hits |
| Graph.ExtractionLowersWeight | internal/store/graph_store.go:37-42 | replacing a queued row by the rows it breeds lowers a weight, on any graph and for any depth bound: the evaluation terminates |
| Graph.DiscoverWithin | internal/store/graph_store.go:31-44 | for any bound the distinct result is exactly the nodes at most bound - 1 edges away from a project feature with an outgoing edge |
| Graph.DiscoverMacroPipelines | internal/store/graph_store.go:28-61 | the same for the shipped bound of 7, cycles included |
| Graph.MacroPipelinesAre | internal/store/graph_store.go:31-44 | these are the ends of the paths of at most seven features that start at a project feature with an interaction of its own |
| Graph.SearchAgrees | internal/store/graph_store.go:31-44 | a layered search that never visits a node twice finds the same nodes |
| Discovery.DiscoverFrom | internal/llm/discovery.go:11-51 | the loop for any start, step and tolerance computes the specified search |
| Discovery.DiscoverBoundary | internal/llm/discovery.go:11-51 | the same with the shipped constants |
| Discovery.DiscoveryResult | internal/llm/discovery.go:11-51 | for any completer: an error if any probe ended in an unexpected error or none succeeded, and otherwise nine tenths of the largest request that succeeded |
| Discovery.GenerateDummyPayload | internal/llm/discovery.go:55-61 | the payload is all 'a' and counts as exactly the requested number of tokens |
| Discovery.ProbesOrdered | internal/llm/discovery.go:31-42 | for any completer, every probe after a success is larger and every probe after an overflow smaller |
| Discovery.ThresholdIsLargestSuccess | internal/llm/discovery.go:37-42 | the recorded threshold is the largest successful probe |
| Discovery.Bracket | internal/llm/discovery.go:20-43 | for a completer with a limit and any step, the limit lies between the threshold and the threshold plus the final width, halving losses counted |
| Discovery.FoundExactly | internal/llm/discovery.go:20-47 | a threshold is found if and only if the limit admits the lowest probe |
| Discovery.ProbeCount | internal/llm/discovery.go:20-43 | for any completer that never fails unexpectedly, with or without a limit, the number of probes is the number of halvings that bring the step down to the tolerance; for any other it is at most that |
| Discovery.SixProbes | internal/llm/discovery.go:12-43 | the shipped constants send at most six probes, and exactly six if no unexpected error occurs |
| Discovery.PayloadsPossible | internal/llm/discovery.go:20-27 | whatever the completer answers, every request is for more than half the initial token count, so its payload can be built |
| Discovery.ShippedSearch | internal/llm/discovery.go:11-51 | an error if and only if the limit is below 515625; below 1500000 the limit is found to within 15625; the result never exceeds the limit |
| History.CountMessages | internal/tokenizer/counter.go:19-27 | the loop adds a quarter of each length, 4 per message and 3 |
| History.TokensStep | internal/tokenizer/counter.go:19-27 | each message counts a quarter of its length and four, on top of three |
| History.History.Append | internal/llm/history.go:18-20 | one message is added at the end |
| History.History.TrimToBudget | internal/llm/history.go:28-52 | the nested loops, with each removal as the joining of the two slices around it, compute the specified trimming, for any counter |
| History.TrimIsLeastDrop | internal/llm/history.go:28-52 | for any counter, trimming drops the oldest non-system messages, as few as possible, and nothing else |
| History.TrimIsMaximalFit | internal/llm/history.go:28-52 | with the heuristic counter it keeps all system messages and the longest suffix of the others that fits, in order |
| History.SidesByRole | internal/llm/history.go:36-42 | the messages kept unconditionally are those of role system |
| History.TrimFits | internal/llm/history.go:28-52 | with the heuristic counter the result fits the budget unless only system messages are left |
| History.TrimsCompose | internal/llm/history.go:28-52 | trimming to one budget and then to another is trimming once to the smaller, for any counter |

## Left out

- Strings are sequences of Unicode scalar values; invalid UTF-8, which Go strings may hold, is not modelled. Message contents and payloads, where lengths count, are byte sequences.
- SHA-256 is idealised as an injective digest that is never empty.
- Lower-casing is modelled only as far as it decides which of the known languages or extensions a name is.
- SQL statements are functions on the tables and atomic; the query planner, the WAL file and SQLite's busy handling appear only as a transaction that fails, or that commits while reporting an error.
- The order in which rows come back from a claim or a grouped query is left open; every order is covered.
- Foreign keys to projects, timestamps, contexts, logging and sleeping are not modelled; a deadline appears as a failing transaction.
- The LLM client, prompt rendering and JSON parsing of `ParseHandler.Handle` are an arbitrary reply: a parsed result, an error or a panic.
- Queue calls are taken not to panic outside the closure of a job.
- The text of panic and completion errors is reduced to what is stored with a dead letter.
- Ingestion calls are serial among themselves, because the code reads the latest version outside its transaction; they may interleave with the workers.
- `ServiceDispatcher` and the extraction service are not wired and write outside a transaction; not part of this model.
- The summary of a version is not carried over on a bypass by the code, and nothing is claimed about it.
- NormalizerLimits.BlockInsertionExact: states the C-like languages only; docstring insertion for Python is not stated, because a line of quotes can open and close.
- Regular expressions are modelled rule by rule as the match the engine finds, not as a general engine.
- Floating-point 0.9 is the integer c * 9 / 10, which agrees at these magnitudes.
- `History.Messages` hands out the slice itself; aliasing by callers, and the shifting within one array that a removal amounts to in memory, are not modelled.
- Command line, configuration, HTTP API, web UI, directory walking, migrations runner, Markdown fence repair and back-off loop would add easy members only.
