# ODIRAG: verified core algorithms and protocols

ODIRAG crawls official documents, cuts them into chunks, embeds and indexes them, and answers
questions from the retrieved chunks. This project models the parts of its backend whose correctness
is not visible from one function and proves what they promise. Properties that the code does not
have for every input are proved with the exact condition under which it has them.

- `CrawlTasks.dfy`, `TaskSteps.dfy`, `Reviews.dfy`: the crawl-task protocol. Workers, operators, the
  recovery sweep and the reviewer act on a task in any interleaving. Over steps that each see the
  current row, timestamps stay consistent, a waiting task carries nothing of an earlier attempt,
  tasks terminate, claims are conserved, a cancel sticks, the review counters are the true counts.
  State transitions and the sweep write objects that were loaded earlier; over runs in which those
  are out of date it is proved exactly when the link of finish time and status, the order of start
  and finish, a cancel and the attempts of the recovery are lost.
- `Chunking.dfy`, `ChunkPacking.dfy`, `SectionPaths.dfy`: the heading-aware chunker. It is lossless, its
  indexes are contiguous, and the length bound it really has is proved, with the settings under which
  the documented one holds. The target and minimum sizes determine the chunks. The entries of a path
  are the open headings.
- `Scanning.dfy`, `EvidenceGate.dfy`: the anchor scans and the evidence gate. Scans are sound and
  complete; a verdict of sufficiency, its confidence and its reason are characterised exactly; more
  evidence never hurts, except where a fallback is given up, which is characterised exactly.
- `Grounding.dfy`: eligible hits, conflicting statuses, superseded policies and citations.
- `SingleFlight.dfy`: concurrent query embeddings that share a load task per cache key, and how often
  they ask the provider.
- `EmbeddingBatches.dfy`: batched document embeddings over a cache, against a plain map.
- `RateLimit.dfy`: the in-memory and the Redis limiter, and exactly when they agree.
- `RankingMetrics.dfy`, `EvaluationRates.dfy`: nDCG, recall, reciprocal rank and the aggregated rates of
  an evaluation run, each as a mean over the questions it is about and with what makes it 1.
- `RouteMetrics.dfy`: bounded route labels and the in-flight gauge.
- `TableMarkdown.dfy`: the Markdown table printer, read back.
- `Cleaning.dfy`: the text cleaner; idempotence and what it keeps.
- `Text.dfy`, `Sequences.dfy`, `Wrappers.dfy`: Python's text primitives and shared facts.

Code that updates fields or locals in place is a class or a method with loops, proved equal to a
function of its inputs or of the old state; the laws are lemmas about those functions, over all runs
where there is a protocol. Clocks are readings passed to each step; statements about runs with a clock
that never goes back take each reading to be made when its step is written, and `OrderLastsExactly`
does without. Hash keys, regular expressions, Unicode normalisation, lower-casing and the log discount
are function parameters of which only the facts named in the model are used.

What the code does otherwise than its documentation or names suggest:

- `max_chars` is not a bound. A separator kept at the limit makes a chunk one character longer, and an
  overlap close to the maximum makes it longer still (`MaxCharsHoldsExactly`, `SlackOfOneHoldsExactly`,
  and `DocumentLimitsHoldExactly` for whole documents).
- A transition checks the status of the loaded object, and the sweep locks no row it loads. Written over
  a row that has finished meanwhile, the first leaves a finish time on a task that waits for review and
  the second on one that is pending (`StaleTransitionUnlinks`, `StaleRecoverUnlinks`,
  `LinkLastsExactly`).
- A step reads the clock before it writes. With a start written in between, a transition, a sweep or a
  cancel gives a task a finish time before its start, which the check constraint refuses
  (`EarlyTransitionBreaksOrder`, `EarlyCancelBreaksOrder`); exactly when is stated by
  `OrderLastsExactly`. It never happens while each reading is made at the write (`RacyRunsKeepOrder`).
- Two overlapping sweeps requeue a task twice for one attempt (`OverlappingSweepsLoseAttempt`,
  `AttemptsLastExactly`).
- A worker counts its articles on the object it loaded. After a sweep has requeued the task, that puts
  the progress of the old attempt on the waiting row (`StaleRecordSoils`, `StaleRecordFreshExactly`).
- A cancel sticks against guarded updates only. A transition decided on an object loaded before the
  cancel overwrites it (`StaleTransitionOverwritesCancel`, `CancelLastsExactly`).
- Three places change a document's status and reconcile nothing: `services/review.py:105-108`,
  `services/data_quality.py:49` and `services/crawl.py:838`, under `backend/app`. The second can leave a
  task waiting for review with every document decided (`CleanUpStrandsTask`, `RewriteUnsettlesExactly`).
- The two limiters agree only while limits do not rise within a bucket after a refusal
  (`LimitersAgreeExactly`). The middleware's limits depend on the key alone, so they agree there.
- A chunk id retrieved with two publication dates drops both hits, and a decision can then be
  sufficient without a citation (`SufficientWithoutCitation`, `CitesExactly`).
- A hit that meets both constraints of an aspect, where none did before, can turn an accepted query
  into a rejected one (`MoreEvidenceCanHurt`, a witness over stand-in rules of one letter each); exactly
  when is stated by `StaysSufficientExactly` and `NotWorseExactly`.
- The table printer replaces newlines but not carriage returns, which also end a line in GitHub
  Flavored Markdown (`ReturnBreaksLine`, `OneLinePerRowExactly`).

## Model

| member | source | states |
|---|---|---|
| CrawlTasks.CrawlTask.Claim | backend/app/repositories/crawl.py:50-67 | a claim succeeds exactly on a pending or queued task; the whole new row |
| CrawlTasks.CrawlTask.AdvanceIfStatus | backend/app/repositories/crawl.py:69-91 | compare-and-set on the status; the whole new row, unchanged when the status is another |
| CrawlTasks.CrawlTask.CancelIfStatus | backend/app/repositories/crawl.py:93-120 | compare-and-set to cancelled with its finish times; the whole new row |
| CrawlTasks.CrawlTask.Recover | backend/app/repositories/crawl.py:171-200 | a stale task is failed when its attempts are used up, else put back to pending; the whole new row |
| CrawlTasks.CrawlTask.Reset | backend/app/crawler/state.py:58-76 | the row as before its first claim, with no progress |
| CrawlTasks.CrawlTask.Transition | backend/app/crawler/state.py:29-76 | succeeds exactly along an edge of the table, otherwise changes nothing; the whole new row |
| CrawlTasks.CrawlTask.Reconcile | backend/app/repositories/reviews.py:84-117 | counters from the document counts, and closing when none is pending; the whole new row |
| CrawlTasks.RecoverStaleTasks | backend/app/repositories/crawl.py:146-202 | taken as one atomic step, the sweep recovers each chosen task, leaves none of them stale and reports the ids of either kind in order; a task is still stale only if the limit was reached by tasks started no later |
| CrawlTasks.RecoveredUntilClaimed | backend/app/repositories/crawl.py:154-200 | after its recovery, no steps but a claim or a start make a task stale again, at any cutoff |
| CrawlTasks.CrawlTask.Record | backend/app/services/crawl.py:280-286 | a worker's report is written to the task it holds, or to a partly failed one, and to no other; the whole new row |
| CrawlTasks.RunsAreConsistent | backend/app/repositories/crawl.py:184-199 | over every interleaving of steps on the current row, each reading a clock that never goes back when it is written, the finish time is set exactly in finished statuses, equals the completion time and is not before the start, and a pending or queued task has no times, no progress, no provider task, no execution, no retry time and no provider error |
| CrawlTasks.ConsistentStep | backend/app/repositories/crawl.py:50-202 | each single step keeps that consistency, counters included |
| CrawlTasks.ExhaustedRecoveryCountsOnce | backend/app/repositories/crawl.py:175-185 | a recovery that gives up adds one to the failed counter, changes no other and leaves the attempts |
| CrawlTasks.AdvanceReports | backend/app/repositories/crawl.py:69-91 | an advance that succeeds writes the provider status it is given, and the stage or else the name of the target, and nothing else |
| CrawlTasks.StaleRecordFreshExactly | backend/app/services/crawl.py:165-173 | a report written over a requeued row leaves it fresh exactly when it changes no column but to zero or nothing |
| CrawlTasks.StaleRecordSoils | backend/app/services/crawl.py:165-173 | the sweep requeues a task and its old worker counts an article on the pending row |
| CrawlTasks.RacyRunsKeepOrder | backend/app/models/source.py:154-157 | even with transitions and recoveries of stale objects, no row ever finishes before it starts, when each step reads the clock as it is written |
| CrawlTasks.ReadExactly | backend/app/crawler/state.py:35-51 | whatever the age of its clock reading, a step keeps start and finish in order exactly when it does not finish the task or reads no earlier than the start the row has by then |
| CrawlTasks.OrderLastsExactly | backend/app/models/source.py:154-157 | over every run of atomic and stale steps, clock readings of any age and in any order, the check constraint holds throughout exactly when every step is such |
| CrawlTasks.EarlyTransitionBreaksOrder | backend/app/crawler/state.py:35-51 | the run in which a failure decided before the sweep and a new claim is written after them, and the constraint fires |
| CrawlTasks.EarlyCancelBreaksOrder | backend/app/repositories/crawl.py:93-120 | the guarded cancel with a reading made before the task was started again |
| CrawlTasks.StaleTransitionLinkedExactly | backend/app/crawler/state.py:29-76 | a transition on a stale object keeps finish time and status linked exactly when the target or the loaded status is finished or the row has not finished since |
| CrawlTasks.StaleTransitionUnlinks | backend/app/crawler/state.py:29-76 | the concrete run in which that link breaks |
| CrawlTasks.StaleRecoverLinkedExactly | backend/app/repositories/crawl.py:154-200 | a recovery of a stale object keeps the link exactly when it fails the task or the row has not finished since |
| CrawlTasks.StaleRecoverUnlinks | backend/app/repositories/crawl.py:154-200 | the sweep puts a task back to pending that a worker completed meanwhile, its finish time still set |
| CrawlTasks.LinkLastsExactly | backend/app/repositories/crawl.py:50-202 | over every racy run whose loaded objects are linked as long as the row is, the link holds throughout exactly when no stale step gives an unfinished status to a row that has finished since |
| CrawlTasks.MoveDecreases | backend/app/repositories/crawl.py:171-202 | every automatic move decreases the measure of attempts left and stage |
| CrawlTasks.TasksTerminate | backend/app/repositories/crawl.py:171-202 | without operators a task makes at most as many moves as its measure, in every interleaving of steps on the current row |
| CrawlTasks.RecoveriesUseAttempts | backend/app/repositories/crawl.py:175-198 | without operators, recoveries to pending of the current row and attempts left add up to the attempts left at first |
| CrawlTasks.StaleRecoverUsesAttemptExactly | backend/app/repositories/crawl.py:154-200 | a recovery of a stale object to pending uses up an attempt exactly when the row has as many as were loaded |
| CrawlTasks.AttemptsLastExactly | backend/app/repositories/crawl.py:154-200 | over every racy run without operators, requeues use up the attempts one by one throughout exactly when every sweep loaded the count that the row still has |
| CrawlTasks.OverlappingSweepsLoseAttempt | backend/app/repositories/crawl.py:154-200 | the run of two sweeps that requeue a task twice for one attempt |
| CrawlTasks.ClaimsAreConserved | backend/app/repositories/crawl.py:50-67 | claims, withdrawals and the current wait add up to the initial wait and the resets; claims plus wait are at most one more than the resets |
| CrawlTasks.StagesFallUntilReset | backend/app/crawler/state.py:14-27 | until a reset, the stage never goes back |
| CrawlTasks.AtMostOneLeaves | backend/app/repositories/crawl.py:69-120 | of all advances and cancels that expect one worker stage at most one succeeds before a reset, the others change nothing |
| CrawlTasks.CrawlTask.Discard | backend/app/services/crawl.py:1158-1175 | on an object that is cancelled, a late result leaves its note, otherwise nothing; the whole new row |
| CrawlTasks.DiscardOnlyMarks | backend/app/services/crawl.py:1158-1175 | written over a row that is another by then, it changes nothing but provider status and stage |
| CrawlTasks.CancelSticks | backend/app/crawler/state.py:23-25 | until it is reset, steps on the current row change nothing of a cancelled task but that note |
| CrawlTasks.CancelSparedExactly | backend/app/crawler/state.py:29-36 | which single steps, stale ones included, leave a cancelled task cancelled: an iff on the guard of each |
| CrawlTasks.CancelLastsExactly | backend/app/crawler/state.py:29-36 | over a racy run a cancel lasts throughout exactly when every step is such |
| CrawlTasks.StaleTransitionOverwritesCancel | backend/app/services/crawl.py:355-378 | the run in which a worker fails the object it loaded before the cancel |
| TaskSteps.StatusesAreDisjoint | backend/app/repositories/crawl.py:154-163 | status names differ, and each status is waiting, in work, under review or finished and only one of them |
| TaskSteps.MovesInto | backend/app/crawler/state.py:11-27 | for each target, exactly the statuses it can be reached from: all unfinished tasks can fail, only failed, partly failed and cancelled ones start over |
| TaskSteps.StageFollowsStatus | backend/app/crawler/state.py:36-37 | a step other than an advance that changes the status names the stage after it |
| TaskSteps.CancelIsNoted | backend/app/repositories/crawl.py:105-117 | what a cancel and a result discarded after it leave on the task |
| TaskSteps.RecoveryIsNoted | backend/app/repositories/crawl.py:175-198 | the messages and provider status of either kind of recovery |
| TaskSteps.RetryCountsOnce | backend/app/services/crawl.py:918-925 | a retry is a reset that counts one attempt more, without message or provider status |
| TaskSteps.ClosingIsNoted | backend/app/repositories/reviews.py:96-117 | closing happens exactly when all documents are decided and leaves no error and no retry time |
| TaskSteps.StaleSinceClaimExactly | backend/app/repositories/crawl.py:154-168 | a task claimed and worked on since is stale exactly for cutoffs after the claim, and carries no error message |
| TaskSteps.StaleSinceStartExactly | backend/app/crawler/state.py:38-41 | the same of a task that a transition starts |
| Reviews.GroupsSumToTotal | backend/app/repositories/reviews.py:84-106 | the grouped counts of a task's documents sum to their number |
| Reviews.CountsPartition | backend/app/repositories/reviews.py:96-106 | approved, rejected and undecided documents are all of them, so the clamp at zero never acts |
| Reviews.ReviewRepository.ReconcileCrawlTasks | backend/app/repositories/reviews.py:72-117 | every linked task is reconciled with its distinct documents, every other row is unchanged |
| Reviews.ReconciledIsSettled | backend/app/repositories/reviews.py:84-117 | reconciling makes the counters true and closes the task exactly when it has documents and all are decided |
| Reviews.DecideSettles | backend/app/services/review.py:169-196 | a decision followed by reconciling leaves no linked waiting task with wrong counters or all documents decided |
| Reviews.CountersFollowDocuments | backend/app/repositories/reviews.py:72-117 | the same over any run of decisions, for tasks that started consistent or had a document decided |
| Reviews.UnreconciledExactly | backend/app/services/review.py:105-108 | a status change committed without reconciling keeps a task's counters true exactly when the document stays approved, rejected or undecided |
| Reviews.RewriteUnsettlesExactly | backend/app/services/crawl.py:829-843 | such a change unsettles a task exactly when it waits for review and the class of one of its documents changes, and strands it exactly when its last undecided one is decided |
| Reviews.CleanUpStrandsTask | backend/app/services/data_quality.py:43-66 | the concrete task that waits on with nothing left to decide |
| Chunking.CutPoint | backend/app/chunking/heading.py:116-138 | a cut takes more than a third of the limit and at most one character more than it, then a separator |
| Chunking.FindBoundary | backend/app/chunking/heading.py:122-129 | the search of the separators finds the last late one |
| Chunking.SeparatorFallback | backend/app/chunking/heading.py:116-138 | the splitting loop terminates with the pieces of the specification |
| Chunking.SplitPiecesLossless | backend/app/chunking/heading.py:116-138 | the pieces hold the text, whitespace aside |
| Chunking.SplitPiecesBounded | backend/app/chunking/heading.py:122-131 | no piece is blank or longer than the limit and one |
| Chunking.SplitPiecesCount | backend/app/chunking/heading.py:116-138 | at most three times length over limit and one more pieces |
| Chunking.HardSplit | backend/app/chunking/heading.py:105-113 | a paragraph is one part when it fits, else split by separators |
| Chunking.OverlapSuffix | backend/app/chunking/heading.py:96-100 | the overlap is a suffix no longer than asked for, and visible |
| Chunking.SplitBody | backend/app/chunking/heading.py:78-103 | the nested loops with overlap carry-over compute the packing of the parts |
| ChunkPacking.ChunksKeepRules | backend/app/chunking/heading.py:84-102 | the chunks are the parts in consecutive groups; a chunk takes in a part only within `max` and, once it has `min` characters, within `target`, and ends before one only when that fails |
| ChunkPacking.ChunksAreDetermined | backend/app/chunking/heading.py:84-102 | no other grouping of the parts keeps these rules |
| ChunkPacking.OverlapIsLongest | backend/app/chunking/heading.py:94-98 | every longer suffix within the overlap starts with a space |
| ChunkPacking.CutAfterLastSeparator | backend/app/chunking/heading.py:121-131 | a cut is after the last separator from a third of the limit on, at the limit without one |
| Chunking.SectionLossless | backend/app/chunking/heading.py:78-103 | no chunk is blank, each repeats a suffix of the one before, and without what is repeated they are the section |
| Chunking.ChunkLength | backend/app/chunking/heading.py:78-138 | the length bound for all settings and texts, and one less when every paragraph fits a part |
| Chunking.MaxCharsHoldsExactly | backend/app/chunking/heading.py:8-19 | `max_chars` bounds all chunks of all texts exactly for an overlap of 3 and a maximum of 6 |
| Chunking.SlackOfOneHoldsExactly | backend/app/chunking/heading.py:78-138 | one character of slack suffices exactly when there is no overlap, it leaves three characters, or it is 3 of 5 |
| Chunking.DocumentLimitsHoldExactly | backend/app/chunking/heading.py:42-57 | both bounds for the drafts of whole documents, exactly under those settings, for classifiers that make no heading of a plain word |
| Chunking.Sections | backend/app/chunking/heading.py:59-76 | the loop over lines computes the sections of the specification |
| Chunking.SectionsLossless | backend/app/chunking/heading.py:59-76 | sections lose whitespace and the hashes of headings only |
| Chunking.TitledSectionsAreHeadings | backend/app/chunking/heading.py:59-76 | every heading opens exactly one section, in order, and no other section has a title |
| Chunking.PathsEndInTitle | backend/app/chunking/heading.py:62-71 | a path ends in its section's title and is no longer than the heading's level |
| Chunking.PathDepth | backend/app/chunking/heading.py:62-71 | all paths are as long as their levels exactly when no heading skips a level |
| SectionPaths.HeadingSays | backend/app/chunking/heading.py:69-70 | the level is the number of leading hashes, or 1, and the title what follows them, stripped |
| SectionPaths.PathFollows | backend/app/chunking/heading.py:71 | a path is as long as the level, or one longer than the path before, with which it shares all but its last entry |
| SectionPaths.EntriesAreOpenHeadings | backend/app/chunking/heading.py:71 | each earlier entry is the title of the nearest heading before at that depth, with only deeper ones between |
| Chunking.Chunk | backend/app/chunking/heading.py:42-57 | the document loop computes the drafts of the specification |
| SectionPaths.DraftsMadeOfSections | backend/app/chunking/heading.py:42-57 | the drafts are the chunks of the sections in order, each with its section's path and title |
| Chunking.DraftIndexes | backend/app/chunking/heading.py:53-57 | no chunk is dropped as blank, so indexes are exactly the positions |
| Chunking.DraftsBounded | backend/app/chunking/heading.py:42-57 | every draft is visible, within the bound, and states its own length |
| Chunking.DocumentLossless | backend/app/chunking/heading.py:42-103 | reassembling all sections from their chunks gives the visible characters of the document in order |
| Scanning.FindFirst | backend/app/rag/evidence.py:920-928 | `str.find` gives the first match from a start, if there is one |
| Scanning.FindAll | backend/app/rag/evidence.py:920-928 | the scan terminates on every needle, the empty one included |
| Scanning.MatchesSoundAndComplete | backend/app/rag/evidence.py:920-928 | true matches in order without overlap, and every match overlaps a returned one |
| Scanning.EmptyNeedleMatches | backend/app/rag/evidence.py:920-928 | an empty needle is found at every position, the end included |
| Scanning.RelationOccurrences | backend/app/rag/evidence.py:838-848 | true matches strictly ordered by start and end, none inside another, covering every scanned match of every anchor |
| EvidenceGate.UniqueHits | backend/app/rag/evidence.py:1181-1188 | the loop keeps the hits of the specification |
| EvidenceGate.UniqueHitsAreFirst | backend/app/rag/evidence.py:1181-1188 | those are the first hit of each chunk, and no chunk has two |
| EvidenceGate.CollectSupporting | backend/app/rag/evidence.py:521-532 | the loop collects the ids of the contributing hits in order |
| EvidenceGate.AspectSupportedExactly | backend/app/rag/evidence.py:447-546 | an aspect is supported exactly when every one of its requirements is met, by exactly the contributing judged hits |
| EvidenceGate.ReasonNamesCause | backend/app/rag/evidence.py:447-546 | the reason given names a requirement that the hits fail, and support is given exactly when they fail none |
| EvidenceGate.SufficientExactly | backend/app/rag/evidence.py:254-311 | hits are sufficient exactly when each aspect is met, and the ids named are those that support some aspect, each once |
| EvidenceGate.RefusalNamesUnmet | backend/app/rag/evidence.py:277-303 | otherwise no chunk is named, the aspects listed are those not met, and the reason is that of the first |
| EvidenceGate.ConfidenceIsLeast | backend/app/rag/evidence.py:287 | the confidence is that of some aspect and exceeds that of none |
| EvidenceGate.AspectConfidence | backend/app/rag/evidence.py:449-458 | an aspect's confidence lies in [0, 1], is 1 exactly when all its terms are found and 0 exactly when none is |
| EvidenceGate.CoverageExactly | backend/app/rag/evidence.py:608-612 | coverage of positive weights is 1 exactly when every term is in the text and 0 exactly when none is |
| EvidenceGate.CoverageRises | backend/app/rag/evidence.py:608-612 | one more term found raises it by that term's weight over the total |
| EvidenceGate.ConstraintsExactly | backend/app/rag/evidence.py:500-513 | every exact value and every answer shape asked for is needed |
| EvidenceGate.NothingToAssess | backend/app/rag/evidence.py:259-276 | without hits or aspects the query is refused with confidence 0 and itself as unsupported |
| EvidenceGate.ContributesExactly | backend/app/rag/evidence.py:523-531 | a hit contributes exactly when it covers enough by itself and holds a strong term |
| EvidenceGate.FoundInSomeLine | backend/app/rag/evidence.py:456 | a term is found in the combined text exactly when it is in the title, the content or a metadata entry of some hit |
| EvidenceGate.AspectNeverHurt | backend/app/rag/evidence.py:447-546 | a supported aspect stays supported by more hits, no less confidently, by the same chunks and more |
| EvidenceGate.MoreEvidenceNeverHurts | backend/app/rag/evidence.py:254-311 | for queries without a doubly constrained aspect, accepted hits stay accepted with any hits appended |
| EvidenceGate.MoreEvidenceKeepsJudged | backend/app/rag/evidence.py:254-311 | the same for every query as long as no aspect gives up its fallback |
| EvidenceGate.FallbackGivenUpExactly | backend/app/rag/evidence.py:490-532 | when the fallback is given up, the aspect stays supported exactly when the new hits alone carry it |
| EvidenceGate.ConfidenceNeverFalls | backend/app/rag/evidence.py:608-612 | appended hits never lower an aspect's confidence, supported or not |
| EvidenceGate.StaysSufficientExactly | backend/app/rag/evidence.py:254-311 | accepted hits stay accepted with hits appended exactly when each aspect keeps its judged hits or is carried by the new ones |
| EvidenceGate.NotWorseExactly | backend/app/rag/evidence.py:254-311 | the verdict is no worse, supporting chunks included, exactly when besides that each of those chunks supports an aspect that keeps its judged hits |
| EvidenceGate.MoreEvidenceCanHurt | backend/app/rag/evidence.py:490-532 | under stand-in rules, a query that a third hit turns from accepted to rejected |
| Grounding.SamePolicy | backend/app/rag/grounding.py:105-113 | hits with the same document number are of one policy; without numbers the policy key decides, then the title |
| Grounding.GroupByPolicy | backend/app/rag/grounding.py:106-113 | the dated hits of each policy, policies in order of appearance |
| Grounding.ReportOlder | backend/app/rag/grounding.py:122-127 | every entry older than the newest is reported and its id collected |
| Grounding.DetectOutdated | backend/app/rag/grounding.py:105-128 | the messages of all policies in order, and exactly their outdated ids |
| Grounding.OutdatedExactly | backend/app/rag/grounding.py:105-128 | an id is outdated exactly when a hit with it is superseded by a newer one of its policy |
| Grounding.MessagesNameReplacements | backend/app/rag/grounding.py:116-127 | a message names a superseded hit, and as replacement the first by id of the newest of its policy |
| Grounding.DetectConflicts | backend/app/rag/grounding.py:92-103 | the loop over hits computes the policies with several statuses in order |
| Grounding.ConflictsExactly | backend/app/rag/grounding.py:92-103 | a policy is in conflict exactly when two hits record different statuses for it |
| Grounding.Assess | backend/app/rag/grounding.py:47-76 | the decision, its reasons in order, conflicts, messages and citations |
| Grounding.EligibleExactly | backend/app/rag/grounding.py:48-59 | eligible are the hits with enough score and a visible character, official ones if asked for |
| Grounding.StatusKeyExactly | backend/app/rag/grounding.py:95-96 | statuses are recorded under the policy key where there is one, else the title, spaces and case aside |
| Grounding.ReasonsExactly | backend/app/rag/grounding.py:47-76 | each reason is given exactly when its cause is there; sufficient means none |
| Grounding.CitedExactly | backend/app/rag/grounding.py:66-69 | a hit is cited exactly when no hit with its chunk id is superseded |
| Grounding.DropsOnlySuperseded | backend/app/rag/grounding.py:47-76 | with one version per chunk id exactly the superseded hits are dropped |
| Grounding.SufficientIsCited | backend/app/rag/grounding.py:47-76 | then a sufficient decision has a citation and a hit that covers the question |
| Grounding.CitesExactly | backend/app/rag/grounding.py:66-69 | for all hits, something is cited exactly when an eligible hit shares its chunk id with no superseded one |
| Grounding.ReplacementsAreCited | backend/app/rag/grounding.py:47-76 | then every replacement that is reported is cited |
| Grounding.SufficientWithoutCitation | backend/app/rag/grounding.py:47-76 | without it a decision can be sufficient and cite nothing |
| Grounding.OrderDoesNotMatter | backend/app/rag/grounding.py:47-76 | verdict, reasons and the multiset of citations do not depend on the order of hits |
| SingleFlight.CachedQueryEmbeddingProvider.EmbedQuery | backend/app/embedding/cached.py:40-48 | under the lock a caller joins the load in flight or starts one; the whole new state |
| SingleFlight.CachedQueryEmbeddingProvider.Lookup | backend/app/embedding/cached.py:68-79 | a usable cached vector ends the load, anything else asks the provider |
| SingleFlight.CachedQueryEmbeddingProvider.Store | backend/app/embedding/cached.py:80-88 | the vector is the result whether or not the cache takes it |
| SingleFlight.CachedQueryEmbeddingProvider.Schedule | backend/app/embedding/cached.py:50-57 | a finished load gets a clean-up that is held until it has run |
| SingleFlight.CachedQueryEmbeddingProvider.Clear | backend/app/embedding/cached.py:59-66 | exactly the load's own key leaves the table |
| SingleFlight.StepKeepsInv | backend/app/embedding/cached.py:40-88 | every step keeps: a key is in flight exactly while it has one load not cleaned up, and maps to it |
| SingleFlight.RunKeepsInv | backend/app/embedding/cached.py:40-88 | so in every reachable state, for any number of callers |
| SingleFlight.NoParallelLoads | backend/app/embedding/cached.py:40-48 | provider calls for one key never overlap |
| SingleFlight.ClearsItsOwnLoad | backend/app/embedding/cached.py:59-66 | the identity guard always holds, so a clean-up never evicts another load |
| SingleFlight.LoadsAreConserved | backend/app/embedding/cached.py:40-66 | the loads of a key are the cleaned-up ones and at most one more, each asking the provider at most once |
| SingleFlight.AsksProviderExactly | backend/app/embedding/cached.py:68-79 | a load goes to the provider exactly when its read failed or found no usable vector; otherwise it ends with the cached one |
| SingleFlight.CallsAreMisses | backend/app/embedding/cached.py:68-79 | over every run the provider is asked for a key exactly as often as a read of it misses |
| SingleFlight.UsableVectorIsUsed | backend/app/embedding/cached.py:68-79 | while a key with a usable vector is left alone, the provider is not asked for it and the vector stays |
| SingleFlight.CachedKeyNeedsNoProvider | backend/app/embedding/cached.py:68-79 | with a usable vector at the start the provider is never asked for its key |
| SingleFlight.StoredVectorIsReused | backend/app/embedding/cached.py:80-88 | after a write the cache holds the vector and the key needs no further call |
| SingleFlight.RankFalls | backend/app/embedding/cached.py:40-88 | a load's own step brings it nearer to its end, and no other step takes it back |
| SingleFlight.CallJoinsLoad | backend/app/embedding/cached.py:40-48 | a call registers a waiting caller on the load in flight, or on a new one for its text |
| SingleFlight.LoadEnds | backend/app/embedding/cached.py:80-88 | the provider's vector is the result whether or not it is stored, its failure the error |
| SingleFlight.CallersPart | backend/app/embedding/cached.py:48 | a cancelled caller takes no load and no other caller with it |
| SingleFlight.CleanupsAreReleased | backend/app/embedding/cached.py:50-57 | a held clean-up can run, or has run and is let go of |
| SingleFlight.NeverStuck | backend/app/embedding/cached.py:40-88 | a load not cleaned up can always move, and a waiting caller has an answer or such a load |
| SingleFlight.CallersGetTheirVectorExactly | backend/app/embedding/cached.py:40-95 | on a coherent cache every answered caller has the embedding of their own text, in all runs, exactly when equal keys mean equal embeddings |
| SingleFlight.SharedKeyMixesUp | backend/app/embedding/cached.py:40-48 | the run that answers a caller with another text's vector when they do not |
| SingleFlight.CacheNeverFailsCallers | backend/app/embedding/cached.py:68-88 | callers see an error only when the provider failed, however the cache behaves |
| EmbeddingBatches.EmbeddingBatcher.LookUp | backend/app/embedding/batcher.py:49-60 | vectors of cached texts at their places, the others missing in order; hits and misses add up |
| EmbeddingBatches.EmbeddingBatcher.EmbedWithRetry | backend/app/embedding/batcher.py:84-93 | at most three attempts, repeated only after one of the two retryable errors; the last one is the error raised |
| EmbeddingBatches.OutcomeIsLastReply | backend/app/embedding/batcher.py:84-93 | the answer to a batch is that of its last attempt, an error the one its reply stands for |
| EmbeddingBatches.CharsAreOfTexts | backend/app/embedding/batcher.py:73-82 | the characters counted are those of the missing texts |
| EmbeddingBatches.EmbeddingBatcher.Keep | backend/app/embedding/batcher.py:69-72 | the vectors of a batch reach their places and the cache |
| EmbeddingBatches.EmbeddingBatcher.Embed | backend/app/embedding/batcher.py:48-82 | the batches asked for, the result or the first failing batch's error, and a cache that holds exactly the batches before it |
| EmbeddingBatches.BatchesPartition | backend/app/embedding/batcher.py:62-64 | the batches are the missing texts, as few as the size allows, none empty or too long |
| EmbeddingBatches.RefinesPlainMap | backend/app/embedding/batcher.py:48-82 | on a coherent cache the vectors are the embeddings one by one, repetitions included, and the cache is coherent after any number of batches |
| EmbeddingBatches.StaysCoherentExactly | backend/app/embedding/batcher.py:69-72 | every call keeps coherence exactly when equal keys mean equal embeddings |
| EmbeddingBatches.StillMissing | backend/app/embedding/batcher.py:52-60 | after some batches were kept, exactly the misses that share no key with them are missing |
| EmbeddingBatches.NothingMissingAfter | backend/app/embedding/batcher.py:52-60 | after a call that succeeded the same texts need no provider |
| EmbeddingBatches.InMemoryEmbeddingCache.Set | backend/app/cache/embedding.py:25-26 | one entry changes |
| RateLimit.InMemoryFixedWindowRateLimiter.Check | backend/app/rate_limit.py:48-66 | the decision that all past requests call for, whatever was evicted |
| RateLimit.RedisFixedWindowRateLimiter.Increment | backend/app/rate_limit.py:131-137 | the script: one more than a live counter, an expiry only for a first request |
| RateLimit.RedisFixedWindowRateLimiter.Check | backend/app/rate_limit.py:103-124 | the decision that the number of past requests of the window calls for |
| RateLimit.DecisionsSay | backend/app/rate_limit.py:48-124 | a decision repeats the request's limit and says what the earlier requests leave |
| RateLimit.RemembersStep | backend/app/rate_limit.py:54-66 | eviction and refusals lose nothing that a later decision needs |
| RateLimit.LiveIsEarlier | backend/app/rate_limit.py:104-118 | the counter of the current window has never expired and holds the number of its requests |
| RateLimit.ResetReachesNextWindow | backend/app/rate_limit.py:51 | waiting out the reset time reaches a later window, and a second less does not unless it is one second |
| RateLimit.LimitersAgreeExactly | backend/app/rate_limit.py:48-124 | the limiters answer a sequence alike exactly when no limit rises above the count at a refusal in its bucket |
| RateLimit.RisingLimitDisagrees | backend/app/rate_limit.py:48-124 | three requests with positive limits on which they differ |
| RateLimit.FirstRequestsAllowed | backend/app/rate_limit.py:216-238 | with limits fixed by the key, both allow exactly the first `limit` requests of a key and window and report what remains |
| RateLimit.BurstAtMostTwice | backend/app/rate_limit.py:48-124 | any half-open interval of one window length has at most twice the limit allowed, by either limiter |
| RateLimit.RedisIsStricter | backend/app/rate_limit.py:121-123 | what Redis allows in an interval the in-memory limiter allows too |
| RankingMetrics.GainAtMostIdeal | backend/app/evaluation/metrics.py:299-306 | the gain of a ranking is at most that of its relevant items in front, and equal exactly when they are in front |
| RankingMetrics.NdcgRange | backend/app/evaluation/metrics.py:299-306 | nDCG lies in [0, 1] for every ranking; it is 1 exactly when the first distinct items are all relevant, 0 exactly when none is |
| RankingMetrics.PromotionRaisesGain | backend/app/evaluation/metrics.py:299-306 | putting a relevant item before one that is not raises the gain |
| RankingMetrics.RecallRange | backend/app/evaluation/metrics.py:284-288 | recall lies in [0, 1], does not fall with k, and is 1 exactly when all relevant items are among the first k |
| RankingMetrics.ReciprocalRankRange | backend/app/evaluation/metrics.py:291-296 | the reciprocal rank lies in [0, 1] and reaches 1/k exactly when nDCG at k is not 0 |
| RankingMetrics.RecallImpliesGain | backend/app/evaluation/metrics.py:284-306 | recall over raw results above 0 implies nDCG over distinct results above 0 |
| RankingMetrics.SampleIsUnit | backend/app/evaluation/metrics.py:100-134 | every metric of a question lies in [0, 1], and recall grows with k |
| RankingMetrics.SampleSays | backend/app/evaluation/metrics.py:123-133 | claims, refusals and failures of one question |
| RankingMetrics.AggregatesAreUnit | backend/app/evaluation/metrics.py:137-271 | every rate of a run lies in [0, 1], as the constraints on stored runs demand |
| RankingMetrics.RunRecallGrows | backend/app/evaluation/metrics.py:228-230 | the recall of a run does not fall with k |
| RankingMetrics.RefusalRatesAddUp | backend/app/evaluation/metrics.py:206-262 | refused and answered shares of the questions to refuse make 1, and refusal accuracy is made of correct refusals and supported answers |
| EvaluationRates.CitationRatesExactly | backend/app/evaluation/metrics.py:180-197 | citation precision is 1 exactly when there are cases and each cites something and only what is expected, recall exactly when each expects something and cites all of it; the emitted rates likewise over answers |
| EvaluationRates.DocumentCitationRatesExactly | backend/app/evaluation/metrics.py:198-217 | the same of the documents cited |
| EvaluationRates.RetrievalRatesExactly | backend/app/evaluation/metrics.py:228-232 | recall, MRR and nDCG are 1 exactly when every scored question has all relevant items among the first, one in front, or as many in front as can be |
| EvaluationRates.CoverageRatesExactly | backend/app/evaluation/metrics.py:233-262 | the hit rates and answer point coverage are 1 exactly when each scored question has a relevant result or all points covered |
| EvaluationRates.AnswerRatesExactly | backend/app/evaluation/metrics.py:218-255 | grounding, refusal accuracy and the unsupported answers likewise |
| EvaluationRates.RefusalRatesExactly | backend/app/evaluation/metrics.py:206-258 | refusal precision, refusal recall and supported answer recall are 1 exactly when each refusal was due, each due one made, each supported question answered |
| EvaluationRates.HallucinationRateIs | backend/app/evaluation/metrics.py:160-164 | the rate times all assessed claims is the hallucinated claims |
| EvaluationRates.RatesAreMeans | backend/app/evaluation/metrics.py:180-197 | citation rates and answer point coverage are the means of the shares of the sets over the questions they are about |
| EvaluationRates.DocumentRatesAreMeans | backend/app/evaluation/metrics.py:198-217 | the document rates likewise |
| EvaluationRates.RetrievalRatesAreMeans | backend/app/evaluation/metrics.py:228-232 | recalls are the means of the share found, MRR and nDCG of their values, over the scored questions |
| EvaluationRates.CountsAre | backend/app/evaluation/metrics.py:263-271 | the counts reported beside them |
| EvaluationRates.ReciprocalRankExactly | backend/app/evaluation/metrics.py:291-296 | the reciprocal rank is 1 over the place of the first relevant distinct item |
| EvaluationRates.NdcgOfOneItem | backend/app/evaluation/metrics.py:299-306 | with one relevant item nDCG is the discount of its place over that of the first |
| Sequences.UniqueIsDistinct | backend/app/evaluation/metrics.py:334-335 | `dict.fromkeys` keeps every value once |
| Sequences.UniquePrefix | backend/app/evaluation/metrics.py:334-335 | the distinct values of a prefix are a prefix of the distinct values |
| RouteMetrics.MetricsRegistry.RouteLabel | backend/app/metrics.py:404-420 | the label and the labels after it; labels only grow |
| RouteMetrics.MetricsRegistry.RecordHttpInFlight | backend/app/metrics.py:263-270 | one series moves by the delta, and a label given out before adds no label |
| RouteMetrics.CandidateExactly | backend/app/metrics.py:404-413 | an absolute path of at most 128 characters asks for its own label whatever its query, all else is unmatched |
| RouteMetrics.CandidateOfLabel | backend/app/metrics.py:404-414 | a label is its own candidate, except that the label of the rest asks for the unmatched one |
| RouteMetrics.SecondLabelIsStable | backend/app/metrics.py:404-420 | asking again with a label gives the same answer however the labels have grown |
| RouteMetrics.FirstCandidatesGetLabels | backend/app/metrics.py:415-420 | the labels are exactly the first 256 distinct candidates |
| RouteMetrics.StepKeepsInv | backend/app/metrics.py:492-527 | every step of the requests keeps each series equal to its requests inside |
| RouteMetrics.GaugeIsConserved | backend/app/metrics.py:492-527 | in every interleaving the label taken off is the one put on, and each series counts its live requests |
| RouteMetrics.RequestsPass | backend/app/metrics.py:492-527 | a request can always resolve, enter and leave; its series goes up by one and back |
| RouteMetrics.RecordIsGiven | backend/app/metrics.py:404-420 | every other metric that asks for a label is given one that counts too |
| RouteMetrics.HeldLabelsAreGiven | backend/app/metrics.py:404-420 | the labels given out are all that requests hold |
| RouteMetrics.QuietGaugeIsZero | backend/app/metrics.py:492-527 | when all that entered have left, every series is 0 |
| RouteMetrics.LabelsAreBounded | backend/app/metrics.py:28-31 | at most 257 labels are ever given out, and none carries a query |
| RouteMetrics.MethodLabels | backend/app/metrics.py:618-620 | each of the nine methods is its own label, all others share one |
| RouteMetrics.MethodsHaveTheirSeries | backend/app/metrics.py:263-270 | requests of different known methods move different series |
| RouteMetrics.SafeMethodTwice | backend/app/metrics.py:618-620 | a normalised method stays as it is |
| TableMarkdown.UnescapeUndoes | backend/app/parsers/base.py:53-54 | unescaping undoes escaping, also after backslashes of the cell |
| TableMarkdown.EscapeIsClean | backend/app/parsers/base.py:53-54 | a printed cell is the trimmed cell without newlines, its pipes escaped |
| TableMarkdown.NewlinesAreSpaces | backend/app/parsers/base.py:53-54 | each newline becomes a space, all else stays |
| TableMarkdown.PipesGetBackslashes | backend/app/parsers/base.py:53-54 | each pipe gets a backslash, all else stays |
| TableMarkdown.WidthIsMost | backend/app/parsers/base.py:38 | the table is as wide as its widest line |
| TableMarkdown.PaddedCells | backend/app/parsers/base.py:41-42 | short rows end in empty cells, short headers in `column_1` and so on |
| TableMarkdown.DigitsAreDecimal | backend/app/parsers/base.py:41 | numbers are written in decimal without leading zeros |
| TableMarkdown.TableReadsBack | backend/app/parsers/base.py:37-50 | for all headers and ragged rows, splitting at unescaped pipes, trimming and unescaping gives the padded clean cells, as many on every line |
| TableMarkdown.PrintIsUnambiguous | backend/app/parsers/base.py:37-54 | two tables print alike exactly when their padded clean cells are the same |
| TableMarkdown.OneLinePerRowExactly | backend/app/parsers/base.py:53-54 | a GitHub Flavored Markdown reader sees a line per row exactly when no clean cell holds a carriage return |
| TableMarkdown.ReturnBreaksLine | backend/app/parsers/base.py:53-54 | the one-column table whose header with a carriage return is read as more lines |
| Cleaning.CleanText | backend/app/cleaners/text.py:15-27 | the loop computes the cleaned text, and the text is a fixed point of normalising and cleaning, for every normalisation that is idempotent and closed under slices and joins |
| Cleaning.CleanIsNormal | backend/app/cleaners/text.py:15-27 | cleaning a normalised text leaves it normalised, for such a normalisation |
| Cleaning.NormalizedCleanIsIdempotent | backend/app/cleaners/text.py:15-27 | so normalising and cleaning twice is doing it once |
| Cleaning.RemoveDuplicateParagraphs | backend/app/cleaners/text.py:30-41 | the loop keeps the paragraphs of the specification |
| Cleaning.CleanIsIdempotent | backend/app/cleaners/text.py:15-27 | cleaning cleaned text changes nothing, for any boilerplate predicate |
| Cleaning.CleanParagraphs | backend/app/cleaners/text.py:30-41 | the output paragraphs are, by fingerprint, the distinct kept paragraphs in order of first occurrence |
| Cleaning.FirstOccurrences | backend/app/cleaners/text.py:34-41 | a paragraph stays exactly when no earlier one has its fingerprint |
| Cleaning.CleanHasSingleSpaces | backend/app/cleaners/text.py:20-22 | cleaned text has no tab, no ideographic space and no two spaces in a row |
| Cleaning.CollapseKeepsGaps | backend/app/cleaners/text.py:21 | a run of blanks after a word becomes one space and the word stays |
| Cleaning.CleanKeepsVisibleText | backend/app/cleaners/text.py:15-41 | whitespace aside, only boilerplate lines and repeated paragraphs are lost |
| Text.ParagraphsNonSpace | backend/app/cleaners/text.py:31-33 | splitting into paragraphs loses whitespace only |
| Text.SplitLinesNonSpace | backend/app/cleaners/text.py:20 | breaking into lines loses whitespace only |

## Left out

- CrawlTasks.RecoverStaleTasks: the query's result is a precondition and the sweep is taken as one atomic step, an assumption, since the query locks nothing; what a sweep does to one row that changed after it was loaded is `StaleRecover` in the racy runs.
- CrawlTasks.RunsAreConsistent: holds of steps on the current row that read the clock when they are written; `LinkLastsExactly` and `OrderLastsExactly` say what stale objects and earlier readings break.
- CrawlTasks.CancelSticks: holds of steps on the current row; `CancelLastsExactly` says what stale objects overwrite.
- CrawlTasks.ClaimsAreConserved: holds of steps on the current row, as do the rows on stages and termination.
- CrawlTasks.RacyRunsKeepOrder: holds when each clock reading is made at the write, which the code does not ensure; `OrderLastsExactly` is the exact condition without that. Stale transitions to running are excluded, as no caller makes one; the object-relational mapper is taken to write exactly the attributes that changed.
- CrawlTasks.OrderLastsExactly: excludes a stale step whose loaded object already has the step's own reading as its finish time, which it would then not write.
- CrawlTasks.CrawlTask.Discard: the check and the write are one step; `StaleDiscard` in the racy runs is the same on an object that was refreshed some time before.
- CrawlTasks.CrawlTask.Record: a worker's report is one guarded step; `StaleRecord` in the racy runs is the same on an object loaded before, as the code makes it. Of a report only the columns in `Progress` are modelled.
- CrawlTasks.RecoveriesUseAttempts: holds of sweeps on the current row; `AttemptsLastExactly` says what overlapping sweeps break.
- CrawlTasks.CrawlTask.AdvanceIfStatus: no single owner after a recovery is claimed, because the guard compares the status only.
- CrawlTasks.TasksTerminate: holds of steps on the current row; operator retries out of the finished statuses are excluded; with them there is no bound.
- EvidenceGate.MoreEvidenceNeverHurts: the regular expressions, word lists and lower-casing are parameters that work line by line, as stated in `Rules.Valid`.
- EmbeddingBatches.EmbeddingBatcher.Embed: the wait between batches, the delays between attempts and the rounded cost estimate are not modelled, nor is a cache that raises.
- SingleFlight.CallersGetTheirVectorExactly: the provider answers a text with one vector; cancellation of the event loop is not modelled.
- RateLimit.RedisFixedWindowRateLimiter.Check: the server's clock is that of the caller, its reported remaining time is a parameter, and its being unreachable is not modelled.
- RateLimit.LimitersAgreeExactly: reset times are not compared; the window length is fixed and positive, as the settings make it.
- RouteMetrics.MetricsRegistry.RecordHttpInFlight: the Prometheus client is taken not to raise.
- RankingMetrics.NdcgRange: rates are real numbers; the rounding of floats is not modelled.
- Cleaning.CleanText: Unicode normalisation is a parameter; that NFKC is idempotent and closed under slices and under joins with a space or a newline (`IsNormalization`) is taken from Unicode Standard Annex 15, not proved.
- TableMarkdown.TableReadsBack: a table without any cell prints as the empty text and has nothing to read.
- Validation of generated answers (`validate_answer`) and the patterns behind aspects, terms, relations and scopes are not modelled.
- Latency percentiles, token and cost averages of evaluation runs: single-branch arithmetic.
- Retrieval, fusion, reranking, vector stores, HTTP, SQL, the parsers and crawlers driven by libraries, URL handling, configuration checks and the frontend.
