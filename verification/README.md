# Verified model of the rollup, repair and loop protocols

A Dafny model of the parts of this application whose correctness spans many steps, with proofs of what those parts are
relied on for. `dafny verify dfyconfig.toml` checks all of it.

## What is modelled

**GPU metrics collector** (`scripts/gpu_metrics_host_collector.py`; `Rollup`, `MetricsStore`, `RollupMeans`,
`Collector`, `SqlText`). The hourly rollup table is a fast form of "aggregate all samples of the hour".
`Rollup.Summarises` says what a row has to say about its samples, and is proved of one batch, of the `ON CONFLICT`
merge, of every flush, of every way of cutting a stream into flushes, and of every run of the loop including failed
flushes and commits whose answer is lost; `MetricsStore.TablesExactly` and `Rollup.SummaryByFields` say it on the fields
of the samples. Averages are
reals and rounding is any function that moves a value by at most 0.0005; the error is shown not to grow with merging.
`RollupMeans` says which average is stored when values are missing, and exactly when it is their mean.
`Collector.Inv` ties buffer, tables and committed history together; every sample is there exactly once if and only if no
answer was lost. `SqlText` reads rendered `VALUES` lists back under the doubled-quote rule of ISO/IEC 9075-2, section 5.3.

**Receipt attribution** (`app/cli.py`; `Attribution`, `AttributionFindings`, `AttributionProofs`, `PyText`). Audit, apply and
rollback over a mutable receipt table, with the rollback file as a journal. What each of them reports is proved as exact
conditions on the tables. Rollback undoes apply exactly, and on tables edited in
between it changes exactly the receipts that still hold what apply wrote. What apply logs and changes is proved for any
scanned receipts, and so is exactly when that is what the audit announced.

**Expression registry** (`app/cli.py`; the `Registry*` modules). The bootstrap repairs six tables and the audit reports
what is missing in them; `RegistryAudit` has the exact condition for each issue, `RegistryRows` the columns of each row
added. What a query sees of rows added earlier in the same transaction is a parameter
(`Mode.autoflush`), because the code's look-up of a version it has just added (`app/cli.py:3865`) depends on it, and
`app/db/session.py:26-27` creates sessions with `autoflush=False`, under which that look-up finds nothing. The results
are stated for both settings:

- with visible rows, one successful apply leaves nothing to plan and nothing missing in the audit;
- without them, the same holds if and only if no expectation was *trapped*: no version of its template is active while
  `{template}:v1` exists (an archived first version, say). A trapped expectation gets an active version but a binding to
  the old one, so the audit goes on reporting `missing_binding_to_active_version`. `RegistryData.ShippedApplyIsNotEnough`
  shows it for the shipped constants, on the registry the bootstrap itself creates with any one of its ten first versions
  archived since, and `RegistryConflicts.TwoAppliesSettle` that a second apply always succeeds and repairs it;
- from an empty registry one apply always succeeds and the audit is then clean, whichever setting is used.

A transaction that breaks a primary key or unique constraint is marked `conflict` and leaves nothing behind; results
about what an apply leaves are about those that succeed, and `RegistryConflicts.ApplyFailsExactly` says of the starting
tables exactly when one does not. Other assumptions are named predicates: bindings point to existing versions
(`WellBound`, the foreign key), the newest row of a query is one with the latest time (`PicksNewest`), and expectations,
audiences and phrase ids can be told apart (`AllApart`, `SeparateAudiences`, `NoDuplicates`), which
`RegistryData.ShippedConfigIsGood` proves of the shipped constants for any digest that tells an audience's phrases apart.

**JSON walkers and fact references** (`app/cli.py`; `JsonTree`, `JsonOrder`, `JsonPaths`, `JsonPathText`,
`JsonEquality`, `FactRefs`). The denied-key walk, the key search, the dotted-path lookup and Python's `==` agree with each other, with `JsonTree.Resolve`
as an independent notion of a position in a tree, and together they certify a surface of items.

**Worker loop** (`app/worker.py`; `Worker`). Five timers and the job queue, in a loop in which any call may raise.

**Company codes** (`alembic/versions/20260405_0017_company_codes.py`; `CompanyCodes`) and **chunked upload**
(`tools/edge_camera_agent.py`; `EdgeUpload`), with decimal numerals in `Decimal`.

Where the source updates in place, a class has the same fields and its methods are proved equal to a function of the old
state; the lemmas are about that function, over all inputs and all runs. Automatic induction is switched off wherever it
would apply, so every induction is written out.

## Findings

- One registry apply may not be enough when a template's first version is archived (above).
- An apply fails exactly when something it would add is taken (`RegistryConflicts.ApplyFailsExactly`). When all phrases of
  a set have been deactivated it adds the same phrase ids again (`RegistryData.DeactivatedPhrasesFail`), and when an
  inactive version "v1" sits under another id it adds a second "v1" (`RegistryData.RelocatedVersionFails`). Nothing in
  this repository deactivates a phrase or archives a version, so these rows, like the archived version above, come from
  outside the program.
- With values missing, the merged average weighs a flush by all its samples, not by the present ones. Over any number of
  flushes, and whatever the values, what is stored is within one rounding of the mean of the present values if and only if
  every flush with values has them for the same share of its samples as all flushes before it together
  (`RollupMeans.MergedMeanIsMeanOfPresent`). For given values, agreeing means will do as well
  (`RollupMeans.AgreeingFlushesStoreTheMean`). `RollupMeans.MergedMeanMisses` has two flushes for which 33.3 is stored
  instead of 50, and `RollupMeans.EarlierMissingWeighs` three, the first without any value, for which 25 is.
- A flush that commits and then times out is sent again: no sample is lost, and exactly the unanswered commits are
  repeated (`Collector.NothingLost`, `Collector.ExactlyOnceExactly`). `Collector.OneSampleTwice` is a run of two iterations
  that stores and counts its one sample twice.
- An iteration of the worker processes the job queue if and only if neither it nor any due task raises, so a due task that
  raises every time keeps every later task and the queue from running (`Worker.IterationExactly`,
  `Worker.QueueStarvesExactly`, `Worker.RaisingTaskBlocksTheRest`). `Worker.FailingHealthcheckStopsAll` is such a run of
  any length, in which nothing is ever done.
- Company codes stay distinct if and only if "default" occurs at most once, and fit their five-character column if and
  only if there are at most 89,999 other companies. A second "default" cannot occur in the database, where company ids are
  unique (`alembic/versions/20260319_0003_saas_multitenant.py:34`); the limit can be exceeded.
- A reported denied-key path leads the dotted lookup back to the denied value, in every tree that has the position, if and
  only if the position passes through no list and only non-empty, dot-free keys (`JsonPaths.PathTextIsFaithfulExactly`).
- A receipt id is stripped before it is looked up. A suggestion for a receipt whose id has blanks around it is therefore
  never written into that receipt, and may be written into another one, whose id is the stripped one:
  `AttributionProofs.ApplyMatchesAudit` says exactly when apply does what the audit announced, and
  `AttributionProofs.BlankTwinWritten` gives tables on which it does not. `app/services/evidence_copilot.py:621` creates
  receipts with uuid4 ids, for which `AttributionProofs.CanonicalIdsSuffice` shows that it always does.
- The buffer variable is not cleared after the flush that follows the loop, so what a stop achieves is stated on the
  committed history: every sample is acknowledged if and only if the stop is clean (`Collector.StoppedInv`), and committed
  also if an answer was lost in time (`Collector.StoppedCommitsExactly`).

## Model

| member | source | states |
|---|---|---|
| Rollup.HourBucketExactly | scripts/gpu_metrics_host_collector.py:244-245 | two samples share a bucket exactly when they are in the same hour, and every bucket starts on the hour |
| Rollup.AggregateSummarises | scripts/gpu_metrics_host_collector.py:262-307 | the row computed for a batch summarises it: count, latest name, optional maxima, threshold counts, averages up to rounding |
| Rollup.AvgIsAvg | scripts/gpu_metrics_host_collector.py:248-252 | a batch average is null exactly when every value is missing, lies between two present values widened by 0.0005, and is within 0.0005 of the mean when none is missing |
| Rollup.Round3Rounds | scripts/gpu_metrics_host_collector.py:252 | rounding half to even to three decimals is one of the roundings all results range over |
| Rollup.Round3Exactly | scripts/gpu_metrics_host_collector.py:252 | the result is a whole number of thousandths, none is nearer, and of two as near it is the even one |
| Rollup.MaxIsMax | scripts/gpu_metrics_host_collector.py:255-259 | the maximum is a present value no present value exceeds, or null when there is none |
| Rollup.MergeAvgIsAvg | scripts/gpu_metrics_host_collector.py:349-353 | merging the averages of two batches gives an average of both, with the rounding error not grown |
| Rollup.MergeMaxIsMax | scripts/gpu_metrics_host_collector.py:354 | GREATEST over the two COALESCEs is the maximum of both batches, whichever of them is null |
| Rollup.MergeSummarises | scripts/gpu_metrics_host_collector.py:346-376 | the ON CONFLICT merge of two summaries summarises the samples of both |
| Rollup.StoredMean | scripts/gpu_metrics_host_collector.py:349-353 | with no value missing, the stored average is within 0.0005 of the exact mean of every sample of the bucket, after any number of merges |
| Rollup.StoredAverage | scripts/gpu_metrics_host_collector.py:349-353 | the stored average is null exactly when all values are missing, and otherwise lies between two present values widened by 0.0005 |
| Rollup.SummariesAgree | scripts/gpu_metrics_host_collector.py:343-376 | two summaries of the same samples differ in nothing but their averages, and agree on which averages are null |
| Rollup.MemoryPercentIs | scripts/gpu_metrics_host_collector.py:275-284 | the memory percentage is the reported one, else the share of used in total memory where the total is known and not zero, else missing |
| Rollup.CountIsReaching | scripts/gpu_metrics_host_collector.py:301-302 | the counters count the positions whose value, zero if missing, reaches the threshold |
| Rollup.SummaryByFields | scripts/gpu_metrics_host_collector.py:262-307 | on the fields of the samples: which of them each average, maximum and counter of a row is about, and the name shown |
| MetricsStore.GroupSamples | scripts/gpu_metrics_host_collector.py:263-271 | the groups are exactly the buckets of the samples, each in sample order, keys in first-seen order without repeats |
| MetricsStore.RollupValues | scripts/gpu_metrics_host_collector.py:262-307 | every sample belongs, by host, GPU and hour, to exactly one row, which counts the samples that belong to it; one aggregated row per bucket and no other, so that one INSERT never meets its own row |
| MetricsStore.KeyOfExactly | scripts/gpu_metrics_host_collector.py:264-271 | a sample falls under a key if and only if that holds its host, its GPU and the start of the hour it was taken in |
| MetricsStore.Database.Upsert | scripts/gpu_metrics_host_collector.py:343-376 | each stored row is inserted, merged, or untouched according to its key, whatever order the rows come in |
| MetricsStore.Database.Flush | scripts/gpu_metrics_host_collector.py:323-379 | raw insert, upsert and both trims together, as one function of the tables, with nothing sent for an empty buffer |
| MetricsStore.KeepRecentTwice | scripts/gpu_metrics_host_collector.py:377 | trimming at one cutoff and later at a larger one is trimming once at the larger one |
| MetricsStore.KeptExactly | scripts/gpu_metrics_host_collector.py:377 | trimming keeps each sample as often as it was there if it is recent enough, and no other |
| MetricsStore.BucketKept | scripts/gpu_metrics_host_collector.py:377 | a bucket that starts inside the raw horizon loses none of its raw rows |
| MetricsStore.FlushTracks | scripts/gpu_metrics_host_collector.py:338-379 | if the tables equal one aggregation of the whole stream so far, they do after one more flush at a clock that has not gone back |
| MetricsStore.FlushKeepsConsistent | scripts/gpu_metrics_host_collector.py:338-379 | from any tables whose hourly rows recount their raw rows inside both horizons, every flush keeps that so |
| MetricsStore.FlushAllTracks | scripts/gpu_metrics_host_collector.py:323-379 | any number of flushes leaves the aggregation of everything they sent |
| MetricsStore.SplitIndependence | scripts/gpu_metrics_host_collector.py:262-378 | however a stream is cut into flushes that end at the same database time, the same raw rows and hourly rows result, equal in name, counts and all maxima |
| MetricsStore.TablesExactly | scripts/gpu_metrics_host_collector.py:323-379 | the raw rows and the hourly rows that any number of flushes leave, on host, GPU and time of the samples sent, with the number of samples in each hourly row |
| RollupMeans.RowsHoldStoredAverage | scripts/gpu_metrics_host_collector.py:338-379 | from empty tables, after any flushes, every hourly row inside the horizon holds the average folded from its flushes by `StoredBy`, and these have the values of exactly the samples of its bucket |
| RollupMeans.StoredIsMeanExactly | scripts/gpu_metrics_host_collector.py:248-252 | over any number of flushes, what is stored is within 0.0005 of the mean of the present values for every rounding if and only if the merge without rounding gives that mean exactly |
| RollupMeans.AgreeingFlushesStoreTheMean | scripts/gpu_metrics_host_collector.py:349-353 | it is, whenever every flush with values has the same mean, or values for the same share of its samples, as all flushes before it together |
| RollupMeans.MergedMeanIsMeanOfPresent | scripts/gpu_metrics_host_collector.py:349-353 | for a pattern of missing values over any number of flushes it is, for all values and all roundings, if and only if every flush with values has them for the same share of its samples as all flushes before it together |
| RollupMeans.TwoFlushesExactly | scripts/gpu_metrics_host_collector.py:349-353 | for two flushes with given values it is if and only if their means or their shares are the same |
| RollupMeans.MergedMeanMisses | scripts/gpu_metrics_host_collector.py:349-353 | with the program's own rounding, 33.3 is stored for two flushes whose present values have the mean 50 |
| RollupMeans.EarlierMissingWeighs | scripts/gpu_metrics_host_collector.py:349-353 | and 25 for three flushes with the same values, the first of which has no value, though the other two miss none |
| Collector.Collector.constructor | scripts/gpu_metrics_host_collector.py:404-413 | an empty buffer, empty tables, and a first flush due one interval after the start |
| Collector.Collector.Send | scripts/gpu_metrics_host_collector.py:381-391 | the buffer is committed unless the flush is rejected, and the call returns normally only if the commit was acknowledged |
| Collector.Collector.Iterate | scripts/gpu_metrics_host_collector.py:419-444 | one iteration takes the state to its successor, with sampling errors, both flush triggers and a failed flush put back |
| Collector.IterationExactly | scripts/gpu_metrics_host_collector.py:419-442 | an iteration flushes if and only if something is buffered and either its time has come or four flush intervals' worth of samples has piled up; then and otherwise, what becomes of buffer, timer, log, clock and tables |
| Collector.Collector.Run | scripts/gpu_metrics_host_collector.py:419-456 | the whole loop and the last flush, with the whole final state; clean exactly when nothing is left or the last flush is acknowledged |
| Collector.StepInv | scripts/gpu_metrics_host_collector.py:419-444 | every iteration keeps: the buffer is what is taken and not acknowledged, and the tables aggregate what was committed |
| Collector.RunInv | scripts/gpu_metrics_host_collector.py:419-444 | that holds in every reachable state, whatever fails along the way |
| Collector.ReplayExact | scripts/gpu_metrics_host_collector.py:428-442 | with no answer lost, the committed samples are a prefix of the samples taken, in order |
| Collector.ReplayCovers | scripts/gpu_metrics_host_collector.py:428-442 | in any case they are that prefix plus the repeats, counted with multiplicity |
| Collector.NothingLostOrRepeated | scripts/gpu_metrics_host_collector.py:420-442 | if a failed flush means not committed, committed samples followed by the buffer are all samples taken, in order |
| Collector.NothingLost | scripts/gpu_metrics_host_collector.py:428-442 | if a flush may fail after committing, no sample is lost and exactly the unanswered commits are repeated |
| Collector.ExactlyOnceExactly | scripts/gpu_metrics_host_collector.py:428-442 | committed and buffered together, every sample taken is there exactly once, and in order, if and only if every commit was acknowledged |
| Collector.AllCommittedExactly | scripts/gpu_metrics_host_collector.py:428-442 | every sample taken is committed if and only if there is none or some commit, acknowledged or not, carried the last one |
| Collector.OneSampleTwice | scripts/gpu_metrics_host_collector.py:428-442 | a run of two iterations, the first flush committed without an answer, that stores its one sample twice and counts it twice |
| Collector.StoppedInv | scripts/gpu_metrics_host_collector.py:445-454 | the last flush keeps the tables sound, leaves the buffer variable as it is, and leaves every sample acknowledged if and only if the buffer was empty or the flush was acknowledged |
| Collector.StoppedCommitsExactly | scripts/gpu_metrics_host_collector.py:445-454 | at the stop every sample taken is committed if and only if the buffer was empty, the last flush was not rejected, or an earlier commit had carried the last sample already |
| Collector.CleanRun | scripts/gpu_metrics_host_collector.py:412-456 | from start to clean stop the tables aggregate and recount what was committed, which is every sample once and in order if and only if no answer was lost, and otherwise every sample plus the repeats |
| SqlText.RowValuesSql | scripts/gpu_metrics_host_collector.py:229-241 | the text of a row is its columns' cells in order, a missing column as NULL and `metadata_json` of a raw row as an empty object |
| SqlText.LiteralRoundTrip | scripts/gpu_metrics_host_collector.py:134-137 | a quoted literal reads back as its string and stops at its own closing quote if and only if no quote follows it |
| SqlText.CellRoundTrip | scripts/gpu_metrics_host_collector.py:229-241 | any cell followed by a comma or a parenthesis reads back as itself |
| SqlText.RowRoundTrip | scripts/gpu_metrics_host_collector.py:241 | a rendered row reads back as exactly its columns |
| SqlText.RenderedRowRoundTrip | scripts/gpu_metrics_host_collector.py:229-241 | the same for the columns the code renders, whatever text they hold |
| SqlText.ColumnReadsBack | scripts/gpu_metrics_host_collector.py:229-241 | what is read in each column: the text of a string or time, the digits of a number, NULL for a missing value, and the empty object for raw metadata that is no string |
| SqlText.ValuesRoundTrip | scripts/gpu_metrics_host_collector.py:335-345 | a whole VALUES list reads back as exactly its rows |
| SqlText.RenderingIsInjective | scripts/gpu_metrics_host_collector.py:335-345 | two VALUES lists with the same text hold the same cells |
| PyText.StripTwice | app/cli.py:305 | stripping again strips nothing |
| PyText.StripExactly | app/cli.py:305 | stripping cuts whitespace off both ends, nothing else, and leaves none there |
| Attribution.Store.ClassifyReceipt | app/cli.py:382-446 | gathering rules and distinct projects one by one gives the case distinction on the two candidates |
| Attribution.Store.Audit | app/cli.py:361-446 | totals and candidates of the scanned receipts, in scan order |
| Attribution.Store.Apply | app/cli.py:474-521 | the table, log and skips are those of applying the audit's candidates one after the other, each obstacle checked in order |
| Attribution.Store.Rollback | app/cli.py:554-581 | the table, restored and skipped entries are those of undoing the entries one after the other, guarded by the compare |
| AttributionProofs.ValidTwice | app/cli.py:304-308 | a valid project id is valid as it stands |
| AttributionFindings.ValidExactly | app/cli.py:304-308 | a column gives an id if and only if it is that id with blanks around it, neither empty nor "invoice" |
| AttributionFindings.ClassifyExactly | app/cli.py:382-446 | with P the existing projects of its company that a receipt's photo or employee names: a receipt without an existing project of its own is suggested p, ambiguous or without candidate exactly when P is {p}, has two members or none, and the rules are the sources that name p |
| AttributionFindings.TotalsExactly | app/cli.py:381-446 | each total counts the scanned receipts of its class |
| AttributionFindings.CandidatesExactly | app/cli.py:401-444 | the candidates are the suggested and the ambiguous receipts in scan order, each with its company, project and rules |
| AttributionFindings.ScanExactly | app/cli.py:334-359 | the scan takes the newest of the receipts with a photo, in the window and of the company asked for: up to the limit, whichever rank within it |
| AttributionFindings.ObstacleExactly | app/cli.py:495-509 | when a candidate is skipped for each of the four reasons, on the tables |
| AttributionFindings.SkipsExactly | app/cli.py:491-521 | a candidate is either skipped with its reason and changes nothing, or logged with what it replaced |
| AttributionFindings.RollbackReportsExactly | app/cli.py:560-581 | which entries are reported restored, and which skipped and why |
| AttributionProofs.ApplyLeaves | app/cli.py:491-521 | on any candidates, apply changes logged receipts only, logs each once with its true former value, and names a project of the receipt's company |
| AttributionProofs.RollbackExactly | app/cli.py:560-581 | on any tables, rollback changes exactly the logged receipts that still hold the applied id, to their logged former value |
| AttributionProofs.RollbackUndoesApply | app/cli.py:491-581 | rollback straight after apply gives back the very same tables, null, empty and "invoice" included |
| AttributionProofs.RollbackTwice | app/cli.py:560-581 | a second rollback of the same file changes nothing, on any tables |
| AttributionProofs.ApplyWritesGoodLog | app/cli.py:510-521 | every log apply writes meets what the rollback results ask: distinct ids, valid applied ids, former values that are not valid |
| AttributionProofs.TotalsPartition | app/cli.py:381-446 | scanned = already attributed + suggested + ambiguous + no candidate |
| AttributionProofs.SuggestionIsValid | app/cli.py:387-399 | a suggested project has a valid id and exists in the receipt's company |
| AttributionProofs.ApplyLogsExactly | app/cli.py:491-521 | for any scanned receipts, a receipt is logged if and only if some suggestion is written into it (the stripped id names it, its own field holds no valid id, its company has the project), and the first such suggestion is what is logged |
| AttributionProofs.ApplyMatchesAudit | app/cli.py:491-521 | apply changes exactly the receipts the audit suggested and whose own field holds no valid id, with the suggested project, if and only if no scanned receipt is missed or misdirected because of blanks around its id |
| AttributionProofs.ApplyChangesExactly | app/cli.py:491-521 | on the table, a receipt holds the first suggestion written into it, and is unchanged if there is none |
| AttributionProofs.CanonicalIdsSuffice | app/cli.py:495-502 | apply does what the audit announced whenever the ids of the scanned receipts with a suggestion are not empty and have no blanks around them |
| AttributionProofs.BlankTwinWritten | app/cli.py:495-502 | two receipts whose ids differ in a blank: the suggested one is left alone and its project is written into the other, for which the audit had none |
| AttributionProofs.UnstrippedNeverApplied | app/cli.py:495-502 | a receipt whose id is empty or has blanks around it is never changed |
| AttributionProofs.ReauditAttributed | app/cli.py:382-385 | after apply, a logged receipt is found already attributed |
| AttributionProofs.ReauditOthers | app/cli.py:382-446 | after apply, any other receipt is found as before |
| AttributionProofs.ScanUnaffected | app/cli.py:334-359 | apply does not change which receipts the audit scans, nor their order |
| AttributionProofs.ReauditAfterApply | app/cli.py:361-446 | after any apply, a second audit of any receipts has exactly the logged ones moved from the classes they were in to already attributed |
| AttributionProofs.MovedFromSuggestedExactly | app/cli.py:381-446 | they come from the suggested class alone if and only if each had a suggestion of its own |
| Registry.SearchFrom | app/cli.py:3752-3756 | the search ends on every finite table, at the first free suffix |
| Registry.NextId | app/cli.py:3747-3756 | the id is not in the table, and is the base if that is free, else carries the smallest free suffix from 2 up |
| Registry.NextIdUnique | app/cli.py:3747-3756 | there is only one such id |
| Registry.FindNextId | app/cli.py:3747-3756 | the counting loop finds that id |
| Registry.Session.BootstrapAudience | app/cli.py:3766-3813 | one audience: its row and phrases are added if missing, as one function of the state |
| Registry.Session.BootstrapExpectation | app/cli.py:3818-3929 | one expectation: template, version, binding, contract, as one function of the state |
| Registry.Session.Run | app/cli.py:3759-3932 | all audiences, a flush, all expectations, a flush, as one function of the starting tables |
| RegistryRuns.BootstrapOnlyAdds | app/cli.py:3759-3952 | a successful run leaves every existing row unchanged, creates what it planned in order, and a dry run changes nothing |
| RegistryRows.BootstrapAddsRows | app/cli.py:3766-3929 | every row a successful run adds is, column by column and with its id, a bootstrap row of a configured audience, phrase or expectation |
| RegistryViews.StepOnlyFor | app/cli.py:3818-3929 | the step for an expectation adds rows for that expectation only |
| RegistryViews.OnlyForOthers | app/cli.py:3818-3929 | such rows change no query made for another expectation |
| RegistryViews.SeenIsThere | app/cli.py:3815-3929 | throughout a run, what queries see of an expectation not yet reached is what is there, even when added rows are not seen |
| RegistryRepair.AuditMissing | app/cli.py:3549-3621 | the audit reports none of its four "missing" issues if and only if template, bound active version and active contract exist |
| RegistryRepair.StepSettles | app/cli.py:3818-3929 | after its step, an expectation is settled exactly when added rows are visible or it was not trapped |
| RegistryRepair.PlansNothingExactly | app/cli.py:3763-3929 | a run plans nothing if and only if every audience and expectation is settled |
| RegistryRepair.ApplyResult | app/cli.py:3759-3932 | what a successful apply leaves for every expectation and audience |
| RegistryRepair.ApplyTwiceExactly | app/cli.py:3840-3898 | after a successful apply a second run plans nothing if and only if added rows are visible or no expectation was trapped |
| RegistryRepair.AuditAfterApplyExactly | app/cli.py:3549-3621 | under the same condition, and only then, the audit finds nothing missing |
| RegistryConflicts.StepConflict | app/cli.py:3818-3929 | the step for an expectation breaks a constraint if and only if a slug, a version text or a contract version it would add is taken |
| RegistryConflicts.AudiencesConflict | app/cli.py:3766-3813 | the audience phase breaks a constraint if and only if, in the starting tables, a missing audience's code or a phrase to be added is taken |
| RegistryConflicts.ApplyFailsExactly | app/cli.py:3759-3932 | a whole apply fails if and only if one of these holds of the tables it starts from, whether or not added rows are visible |
| RegistryConflicts.SecondApplySucceeds | app/cli.py:3759-3932 | after a successful apply another run always succeeds |
| RegistryConflicts.TwoAppliesSettle | app/cli.py:3759-3932 | once an apply succeeds, a second one succeeds too and leaves nothing to plan |
| RegistryPlans.StepPlans | app/cli.py:3818-3929 | the actions of a step are a function of the mode and of what is seen for its expectation when it starts |
| RegistryPlans.BootstrapPlans | app/cli.py:3763-3929 | the actions of a run are a function of the mode and of the tables it starts from |
| RegistryPlans.DryRunForetellsExactly | app/cli.py:3763-3929 | a dry run plans, in order, exactly what a successful apply creates, if and only if added rows are not visible or every trapped expectation would get the same binding for its new version and for `:v1` |
| RegistryFresh.FreshRun | app/cli.py:3759-3932 | from an empty registry no insert breaks a constraint, and every row left is the bootstrap row of an expectation or audience |
| RegistryFresh.FreshRegistryPasses | app/cli.py:3549-3670 | from an empty registry the audit after one apply reports no issue of any kind |
| RegistryAudit.IssuesExactly | app/cli.py:3549-3645 | for any tables, each of the ten issues is reported if and only if the rows are as it says |
| RegistryAudit.IssuesInOrder | app/cli.py:3549-3645 | the issues of an expectation come in the order of the tests, none twice |
| RegistryData.ShippedExpectationsAreApart | app/cli.py:602-713 | the ten shipped expectations share no template id and no contract id, as the repair results ask |
| RegistryData.ShippedConfigIsGood | app/cli.py:1111-1163 | the shipped expectations, audiences, phrase sets and phrases meet everything the registry results ask for |
| RegistryData.ArchivedApplies | app/cli.py:3848-3898 | with one first version archived in the registry a first apply created, another apply succeeds |
| RegistryData.OneApplyIsNotEnough | app/cli.py:3862-3898 | but with added rows not visible a further run still plans something, and the audit still finds something missing |
| RegistryData.ShippedApplyIsNotEnough | app/cli.py:3862-3898 | in particular for the shipped constants, whichever of the ten first versions was archived |
| RegistryData.DeactivatedPhrasesFail | app/cli.py:3786-3813 | with all phrases of an audience deactivated in the registry a first apply created, another apply fails |
| RegistryData.RelocatedVersionFails | app/cli.py:3848-3855 | so does one with a first version archived under another id there |
| RegistryData.ShippedAppliesFail | app/cli.py:3759-3932 | both for the shipped constants, every audience and every expectation |
| JsonTree.ContainsDeniedKeyPath | app/cli.py:8818-8831 | the recursive loops report the walk's paths in order |
| JsonTree.WalkSound | app/cli.py:8818-8831 | everything reported is the position of a child under a denied key |
| JsonTree.WalkComplete | app/cli.py:8818-8831 | every such position is reported, at any depth |
| JsonTree.WalkDistinct | app/cli.py:8818-8831 | and none twice |
| JsonTree.WalkReportsOccurrences | app/cli.py:8818-8831 | one path per occurrence of a denied key in the tree, and nothing else, each the text of its position |
| JsonOrder.ReportedInOrder | app/cli.py:8818-8831 | the paths are reported in document order: a parent before what lies below it, and otherwise by the first field or item that differs |
| JsonTree.WalkEmptyExactly | app/cli.py:6709-6714 | the walk is empty if and only if the independent key search is false for every denied key |
| JsonPaths.CliValueAtPath | app/cli.py:6697-6706 | the loop gives the recursive descent along the split path, with null for an empty part or a value that is no object |
| JsonPaths.SplitJoined | app/cli.py:6699 | splitting undoes joining with a dot after a dot-free key |
| JsonPaths.CleanPathResolves | app/cli.py:6697-6706 | the text of a position through non-empty, dot-free keys resolves to exactly the child there |
| JsonPaths.UncleanPathMisses | app/cli.py:6697-6706 | the text of any other position misses in the smallest tree that has the position |
| JsonPaths.PathTextIsFaithfulExactly | app/cli.py:6697-6706 | hence a position's text resolves to it in every tree that has it if and only if the position is clean |
| JsonPaths.DeniedPathResolves | app/cli.py:6697-6706 | a reported path with a clean position resolves to the child stored under its denied key |
| JsonPaths.ResolvedAvoidsDenied | app/cli.py:6697-6714 | in a tree without denied keys a resolving path goes through none |
| JsonPathText.PathReadsBackExactly | app/cli.py:8818-8831 | the text of a position can be read back into it if and only if no key on the way has a dot or an opening bracket and the first is not empty |
| JsonPathText.ReportedPathsDiffer | app/cli.py:8818-8831 | where all keys are like that, no text is reported twice |
| FactRefs.MatchingExactly | app/cli.py:7123-7129 | a reference counts as matching if and only if it is an object whose path gives a non-null value equal to the observed one |
| JsonEquality.EqualExactly | app/cli.py:7128 | Python's == holds of two trees if and only if they have the same positions with the same kind of node, equal leaves and lists as long, a bool standing for 0 or 1 |
| JsonEquality.NumbersEqualExactly | app/cli.py:7128 | numbers are equal if and only if they are the same |
| FactRefs.FieldPathExactly | app/cli.py:7123 | the path is the text given, empty for a value that counts as false |
| FactRefs.FollowExactly | app/cli.py:6697-6706 | following keys gives the node at that position, and null if there is none or a key is empty |
| FactRefs.StatusExactly | app/cli.py:7119-7129 | when a reference is unresolved, and when mismatched, on the tree of facts |
| FactRefs.CheckRefs | app/cli.py:7119-7129 | the counters of unresolved and mismatched references of one item |
| FactRefs.TallyItems | app/cli.py:7106-7129 | type blockers and counters over all items |
| FactRefs.CheckSurface | app/cli.py:7096-7135 | all blockers of a surface, in the order they are appended |
| FactRefs.StatusesPartition | app/cli.py:7117-7129 | unresolved + mismatched + matching = all references |
| FactRefs.AllMatch | app/cli.py:7674-7700 | both counters are zero if and only if every reference of every item matches |
| FactRefs.NoBlockerExactly | app/cli.py:7274-7315 | no blocker is raised if and only if there are items and each is an object with at least one reference, all of them matching |
| FactRefs.TypeBlockersExactly | app/cli.py:7106-7110 | one blocker for each item that is no object, with its index |
| FactRefs.BlockersExactly | app/cli.py:7096-7135 | all blockers of a surface, on its items and the references they cite |
| FactRefs.TallyExactly | app/cli.py:7103-7129 | each counter is the number of positions it is about: items without references, references that lead nowhere, to another value, and all of them |
| FactRefs.WrongNumberBlocks | app/cli.py:7128 | a reference to a number other than the observed one always raises the mismatched blocker |
| FactRefs.CertifiedSurface | app/cli.py:7478-7511 | with no denied key in the facts and no blocker, every reference names a node of the facts, reached through no denied key, equal to what was observed |
| Worker.Loop.constructor | app/worker.py:47-52 | four timers at zero and the retention timer 600 s after the start |
| Worker.Loop.CheckAiHealthcheck | app/worker.py:64-66 | made only if enabled and due, and the timer moves only on success |
| Worker.Loop.CheckCameraPoll | app/worker.py:67-69 | the same for the camera poll |
| Worker.Loop.CheckMediaCleanup | app/worker.py:70-72 | the same for the media cleanup |
| Worker.Loop.CheckSystemHealthAudit | app/worker.py:73-75 | the same for the health audit, whose interval is at least 60 s |
| Worker.Loop.CheckRetention | app/worker.py:76-78 | the same for retention, once a day |
| Worker.Loop.Iterate | app/worker.py:62-90 | one iteration, cut short by the first call that raises |
| Worker.Loop.Serve | app/worker.py:55-92 | any number of iterations |
| Worker.RunInv | app/worker.py:47-92 | every run keeps: only enabled tasks ran, each timer is an interval past its task's last success, and successes are spaced |
| Worker.RunSafety | app/worker.py:47-92 | two successes of one task are at least its interval apart, disabled tasks never run, and the first retention pass comes 600 s after start at the earliest |
| Worker.SpacingInSeconds | app/worker.py:47-92 | the same in seconds, task by task: the audit at most once in 60 s, retention at most once in 86,400 s and not in the first 600 s |
| Worker.RunsPerWindow | app/worker.py:62-90 | within any time T a task succeeds at most floor(T / interval) + 1 times |
| Worker.IterationExactly | app/worker.py:62-90 | an iteration processes the queue if and only if neither the queue nor any due task raises, and a task succeeds and its timer moves if and only if it is due and neither it nor any due task before it raises |
| Worker.IterationInFull | app/worker.py:62-90 | an iteration written out on settings, timers and clock: which tasks run, in which order, when each is next due, and when the queue is processed |
| Worker.FirstDueExactly | app/worker.py:47-52 | over any run, a task that has not yet succeeded is due if and only if it is enabled and the clock is not negative, and retention if and only if 600 s have passed since the start |
| Worker.QuietExactly | app/worker.py:62-84 | an iteration ends with no enabled timer overdue if and only if no due task raises |
| Worker.QueueStarvesExactly | app/worker.py:55-92 | over a run from any state the queue is never processed if and only if in every iteration it raises or a due task does |
| Worker.TaskStarvesExactly | app/worker.py:55-92 | over a run from any state a task never succeeds if and only if in every iteration it is not due, raises, or comes after a due task that raises |
| Worker.RaisingTaskBlocksTheRest | app/worker.py:85-90 | from any state, while a task that raises every time is due, no later task succeeds and the queue is not processed |
| Worker.OneRaisingTaskStarvesExactly | app/worker.py:85-90 | when that task is the only call that raises, the queue starves if and only if the task is due in every iteration |
| Worker.FailingHealthcheckStopsAll | app/worker.py:64-90 | a run of any length in which the health check always raises: no task ever succeeds and the queue is never processed |
| CompanyCodes.FindCode | alembic/versions/20260405_0017_company_codes.py:41-47 | the search ends, its code is unused and not the default one, and it skips only when it starts at 10000 |
| CompanyCodes.AssignCodes | alembic/versions/20260405_0017_company_codes.py:33-51 | "default" gets 10000, the k-th other company gets 10001 + k, and the skip branch fires at most once |
| CompanyCodes.CodesDiffer | alembic/versions/20260405_0017_company_codes.py:42 | different numbers have different zero-padded texts |
| CompanyCodes.CodeNumber | alembic/versions/20260405_0017_company_codes.py:38-44 | a code is a decimal number of at least five digits: 10000 for "default", else 10001 and one more for each company before that is not "default" |
| CompanyCodes.CodesDistinctExactly | alembic/versions/20260405_0017_company_codes.py:33-54 | all codes are distinct if and only if "default" is listed at most once |
| CompanyCodes.DefaultCodeExactly | alembic/versions/20260405_0017_company_codes.py:38-44 | 10000 goes to "default" and to no other company |
| CompanyCodes.FiveDigitsExactly | alembic/versions/20260405_0017_company_codes.py:42 | all codes have five digits if and only if there are at most 89,999 other companies |
| EdgeUpload.UploadFile | tools/edge_camera_agent.py:60-88 | the posts made, and that a failing answer ends the upload after its own post |
| EdgeUpload.TotalChunksHold | tools/edge_camera_agent.py:60-62 | the announced total is the smallest positive number of chunks that holds the file |
| EdgeUpload.SentAt | tools/edge_camera_agent.py:68-87 | posts are numbered in order, each carrying its own chunk and the same total |
| EdgeUpload.PayloadsSoFar | tools/edge_camera_agent.py:67-88 | after any number of posts the payloads are a prefix of the file up to the file handle |
| EdgeUpload.UploadIsTheFile | tools/edge_camera_agent.py:67-88 | all posts together carry the file, and their number is the announced total |
| EdgeUpload.ChunkLengths | tools/edge_camera_agent.py:68-69 | all chunks but the last are full, and the last is empty only if the file is |
| EdgeUpload.WholeUpload | tools/edge_camera_agent.py:60-88 | a complete upload carries the file in the fewest posts of max(1, megabytes) times 1,048,576 bytes each, all full but the last |

## Left out

- RollupMeans.MergedMeanIsMeanOfPresent: its condition is on the pattern of missing values; for given values and more than two flushes it is only enough, because later deviations can cancel, and `RollupMeans.StoredIsMeanExactly` has the exact condition.
- MetricsStore.SplitIndependence: leaves out the averages, which differ between splits by rounding and, with values missing, by the weights of the flushes; each is bounded by `Rollup.StoredMean` and `Rollup.StoredAverage`, and given exactly by `RollupMeans.RowsHoldStoredAverage`.
- SqlText.RenderedRowRoundTrip: number texts are assumed to hold no quote, comma or parenthesis, as Python's number texts do; their value is not modelled.
- Floating point: averages, clocks and measured values are reals, and the chunk count is an exact ceiling where the code divides floats.
- Raw columns that are only carried along (`memory_free_mb`, `power_limit_w`, `fan_speed_percent`) and the `created_at` and `updated_at` of hourly rows.
- psql, nvidia-smi, HTTP, signals, sleeps and logging: their answers are parameters; a flush is one atomic step that is acknowledged, rejected, or committed with its answer lost.
- The rollback file's encoding: its entries are taken to be read as they were written, with text ids; entries that are not objects are not modelled.
- Report fields of the attribution commands that repeat other data (confidence, references, status texts) and the separate counters of photo and employee candidates.
- The clamping of the audit's window and limit: the results hold for every window and every limit.
- The order of scanned receipts with equal times, which the database breaks by id: any such order is allowed.
- The digest of a phrase: any function that is free of colons and tells the phrases of an audience apart.
- Registry columns no query reads (titles, prompts, texts of claims), audit warnings, and the audit's status summary.
- Foreign keys other than from binding to version, and other writers between the statements of one transaction.
- Preflight blockers that are straight-line tests of flags or word lists, and what `str` makes of a value that is not a string, which is a parameter.
- What the worker's periodic calls and the job queue do, and its heartbeat file.
- Assembly of uploaded chunks on the server.
- The AI generators, the expression payload validator and promotion, the rate limiter, argument parsing and printing.
