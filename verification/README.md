# Verified model of the incubator backend

A Dafny model of the parts of the backend that decide something: the leased job queue and the diagnostic pipeline it
drives, the normalisation, grounding and deduplication of the findings of the inconsistency detector and their review,
the pitch committee, the rate limiter and the circuit breaker, the versioned project memory, the scoring consensus and
its grids, and the rotation of refresh tokens.

Each module follows one source file, or two that share a state. Code that changes objects in place is a class or a
method with loops, proved against a function of the old state; code that computes a value is a function. The main
results are lemmas about those functions, over every input and every run.

| file | what it models |
|---|---|
| `Text`, `Quotes`, `Grounding` | character classes, `normalize_quote`, `quote_is_grounded`, `keep_grounded` |
| `Narrative`, `Paragraphs`, `QuotePreservation` | `normalize_narrative`, what it keeps of paragraphs, and when it leaves quotes alone |
| `Findings`, `Clustering`, `Links`, `Dedup`, `Uniqueness`, `Analysis` | greedy clustering, merging, when one pair gives one finding, the end of a dossier's analysis |
| `Joins`, `Review` | fields joined before they are digested; the review sheet and the publication gate |
| `Csv`, `ReviewFile` | the text of a sheet, line splitting and the csv reader; what a review sheet keeps through its file |
| `JobQueue`, `QueueRuns` | rows and transactions of the queue; all interleavings of its workers |
| `ProjectState`, `Diagnostics` | audited status transitions; the two-commit handler run by the queue |
| `Orchestrator`, `Pitch`, `PitchRuns` | the committee, a pitch session, whole sessions |
| `RateLimit`, `Resilience` | fixed windows with purge; retry and circuit breaker |
| `ProjectMemory` | items that supersede one another |
| `Rounding`, `Keys`, `Ensemble`, `Engine` | half-even rounding, medians and consensus, grids and weighted means |
| `Tokens`, `TokenRuns` | refresh-token rotation, alone and interleaved |

## What the model takes as given

- The Unicode tables are the record `Text.Unicode`. `fold` is lowercasing, NFKD and the removal of combining marks, one
  character at a time; `control` is general category C. `Faithful` lists all the proofs use of them: ASCII letters,
  digits and the space fold to themselves, whitespace folds to blanks, and the like. Lowercasing that looks at the
  neighbours (final sigma) and the reordering of combining marks only concern characters the next pass replaces.
- A database transaction is one step, except in `Diagnostics` and `TokenRuns`, where the two halves are separate steps.
  The ORM writes back the attributes whose value differs from the one loaded (`expire_on_commit=False`).
- What a language model, a hash or a clock answers is a parameter. Times are integers or reals that never go back where
  a lemma says so.
- A request that raises leaves its rows as they were.
- Two pieces of Python's library are written out in `Csv`: `str.splitlines`, and the csv reader and writer with delimiter
  `;`. Which cells the writer quotes is a parameter, `Careful` if it quotes those that hold a delimiter, a quote or a
  `\n`.

## Where the code and its own words disagree

The model follows the code; each point has a lemma with an input and, where it is the code's promise that fails, the
exact condition under which the promise holds.

- "Same pair of quotes, one finding" (`app/inconsistencies/dedup.py:7-9`): the 40-character prefix rule is not
  transitive, and a whole analysis whose four findings are all grounded can report one pair twice
  (`Analysis.PromiseOfUniquenessFails`). What is exact: similar findings always share a cluster if and only if no finding
  is similar to two earlier ones that no chain of similar earlier findings linked (`Uniqueness.TogetherIffLinked`), and
  that condition on quotes and order is also exactly when the outputs are dissimilar whatever types the passes give
  (`Uniqueness.UniquenessIff`). Under given types it is sufficient only: `Uniqueness.LuckyTypes` breaks it and loses
  nothing. It holds when no quote is a long proper prefix of another (`Dedup.ReportsAreClasses`).
- "Quotes must stay findable" after the clean-up of a narrative (`app/inconsistencies/ingestion.py:90-91`): removing a
  zero-width space welds two words (`QuotePreservation.ZeroWidthSpaceWelds`); exact condition
  `QuotePreservation.CleaningKeepsQuotesIff`.
- `ABANDONED` is commented as terminal (`app/pitchsim/models.py:69`) but no request looks at the status: abandoning is
  final exactly when the verdict was already given (`PitchRuns.AbandonIsFinalIff`).
- Nothing in the queue stops a late write: exclusion needs fresh leases and no requeue of a held job
  (`QueueRuns.RecoveryIsSafeIff`, `QueueRuns.RequeueIsSafeIff`, `QueueRuns.LateWriteRevivesCompletedJob`).
- Two live attempts at one diagnostic can leave a READY report on a project sent back to DIAGNOSTIC_COMPLETED
  (`Diagnostics.SceneOccurs`, `Diagnostics.TwoAttemptsRegress`, exact condition `Diagnostics.StaleScoreIsSafeIff`).
- Curation is the analyst's, and it moves along its own table (`app/projects/service.py:3`): an attempt that loaded a new
  project writes IN_REVIEW over whatever the analyst has decided since, even out of the table
  (`Diagnostics.QualificationIsOverwritten`); exact conditions `Diagnostics.StaleReviewIff`, `Diagnostics.ReviewStepIff`.
- The terminal clean-up exists so that no report waits for ever (`app/diagnostics/handlers.py:297-303`), but it is not part
  of the transaction that gives the job up: a worker that dies in between leaves the founder waiting
  (`Diagnostics.FounderLeftWaiting`), exactly until a clean-up comes (`Diagnostics.PendingUntilCleanedIff`).
- The checks of `add_memory` are made before the insertion: two concurrent replacements of one item break the chain
  (`ProjectMemory.ReplacementIsSafeIff`).
- "The whole chain is cut" on a replayed refresh token (`app/iam/repository.py:116-118`): a session of the same user that is
  being rotated at that moment escapes (`TokenRuns.ReplaySurvivors`, `TokenRuns.RotationEscapesTheCut`).
- The anchor of the highest score depends on the order of the bands when the last one is empty
  (`Engine.AnchorIgnoresOrder`, `Engine.ContestedTop`).
- Nothing refuses a negative weight, and one can take the overall score out of the scale
  (`Engine.NegativeWeightLeavesTheScale`); it never does exactly when two sums of the weights allow it
  (`Engine.OverallInScaleIff`).
- The purge of the limiter relies on no window being longer than an hour (`app/core/ratelimit.py:71`), which the
  constructor does not check: a longer one accepts twice its limit in one span (`RateLimit.LongWindowIsForgotten`), and the
  bound holds exactly up to 3600 seconds (`RateLimit.SpanBoundIff`).
- A finding identifier joins its fields with `|`: it can be that of another finding exactly when the dossier, the type or a
  quote contains one (`Review.MaterialNamesOneIff`, `Review.SeparatorCollides`). The key of a contradiction joins its type
  and quotes alike, and there the second finding is dropped (`ProjectMemory.MaterialNamesOneIff`,
  `ProjectMemory.SeparatorDrops`).
- The review file is read with `splitlines` before the csv reader sees it (`app/inconsistencies/review.py:167`): a text is
  read back as written exactly when no cell holds a line break (`Csv.TextRoundTripIff`). Within quotes the break is lost,
  so a note on two lines comes back on one (`ReviewFile.FileRoundTripIff`); outside quotes the row is cut, and a kept
  finding comes back pending (`ReviewFile.StrayBreakUndecides`).

## Model

| member | source | states |
|---|---|---|
| Quotes.PassesComputeCanon | app/inconsistencies/dedup.py:95-106 | the strip, fold, two substitutions, strip and digit gluing of `normalize_quote` compute one left-to-right form of the folded text, on every text |
| Quotes.SpacedIsWords | app/inconsistencies/dedup.py:104-105 | the two substitutions leave the words separated by one space, with at most one space at each end |
| Quotes.CanonIsGluedWords | app/inconsistencies/dedup.py:106 | gluing digits across a space gives the one-pass form; emptiness and last character are kept |
| Quotes.CanonConcat | app/inconsistencies/dedup.py:95-106 | normalisation of a concatenation is the concatenation of the normal forms up to one separator, given exactly |
| Quotes.NormalFormsAreCanonical | app/inconsistencies/dedup.py:95-106 | a string is an output of the normaliser if and only if it uses `[a-z0-9 ]`, has no outer or doubled space and no space between two digits |
| Quotes.CanonicalIsFixed | app/inconsistencies/dedup.py:95-106 | a spaced canonical string is its own normal form, up to a last space |
| Quotes.NormalizeIdempotent | app/inconsistencies/dedup.py:95-106 | normalising twice changes nothing |
| Quotes.CanonKeepsLetters | app/inconsistencies/dedup.py:104-106 | no letter or digit is lost, added or moved |
| Grounding.SliceStaysWithin | app/inconsistencies/verification.py:27-33 | the normal form of any contiguous piece of a text is a contiguous piece of the normal form of the text |
| Grounding.LiteralExcerptIsGrounded | app/inconsistencies/verification.py:27-33 | a literal excerpt is grounded exactly when its normal form has at least twelve characters |
| Grounding.GroundingIsMonotone | app/inconsistencies/verification.py:27-33 | more context around a narrative never un-grounds a quote |
| Grounding.GroundedQuoteIsInTheText | app/inconsistencies/verification.py:27-33 | an accepted quote spells letters and digits the narrative holds in that order without interruption |
| Grounding.KeepGrounded | app/inconsistencies/verification.py:41-52 | findings are split, in order and without loss, into those whose two quotes each have twelve normalised characters found in the normalised narrative, and those of which one has not |
| Grounding.BothQuotesAreFound | app/inconsistencies/verification.py:27-38 | a finding stands exactly when both of its quotes have twelve characters once normalised and stand as they are in the normalised narrative |
| Grounding.SelectSplits | app/inconsistencies/verification.py:41-52 | the two sides of a selection hold the input, as multisets |
| Narrative.NormalizedIsClean | app/inconsistencies/ingestion.py:87-101 | a cleaned narrative has no control character but line ends, no double space, no space at a line edge, no triple newline |
| Narrative.NarrativeIdempotent | app/inconsistencies/ingestion.py:87-101 | cleaning twice changes nothing |
| Narrative.NarrativeQuotes | app/inconsistencies/ingestion.py:87-101 | the seven passes change the normal form of a text only by the characters they remove |
| Paragraphs.ParagraphsAreKept | app/inconsistencies/ingestion.py:87-101 | paragraphs are preserved: the texts on either side of a run of line ends are cleaned apart, one line end stays one, and blank lines become one blank line |
| Paragraphs.PassesConcat | app/inconsistencies/ingestion.py:93-100 | cleaning a text is cleaning its parts wherever it is cut beside a visible character |
| Paragraphs.CleanIsFixed | app/inconsistencies/ingestion.py:87-101 | a text is left alone if and only if it is already clean and stripped |
| QuotePreservation.CanonOfKept | app/inconsistencies/ingestion.py:96 | removing control characters keeps the normal form exactly when no two words are welded, and otherwise shortens it |
| QuotePreservation.CleaningKeepsQuotesIff | app/inconsistencies/ingestion.py:87-101 | cleaning commutes with quoting if and only if it welds no two words |
| QuotePreservation.CleaningKeepsGrounding | app/inconsistencies/ingestion.py:87-101 | without category-C characters other than line ends and tabs, the same quotes are grounded before and after cleaning |
| QuotePreservation.ZeroWidthSpaceWelds | app/inconsistencies/ingestion.py:96 | one zero-width space is enough to change a normal form |
| Clustering.ClustersPartition | app/inconsistencies/dedup.py:145-152 | every finding goes to exactly one cluster |
| Clustering.HeadsAreNovel | app/inconsistencies/dedup.py:145-152 | the first members of the clusters are, in input order, the findings similar to no earlier one |
| Clustering.NovelDissimilar | app/inconsistencies/dedup.py:145-152 | first members are pairwise dissimilar |
| Clustering.ClustersAreChained | app/inconsistencies/dedup.py:145-152 | every other member is similar to an earlier member of its cluster |
| Clustering.CohesiveIff | app/inconsistencies/dedup.py:145-152 | similar findings always share a cluster if and only if no finding, on arrival, bridges two clusters |
| Clustering.TransitiveIsBridgeFree | app/inconsistencies/dedup.py:145-152 | where similarity is transitive, clusters are its equivalence classes |
| Clustering.SingletonsIff | app/inconsistencies/dedup.py:145-152 | nothing is merged exactly when the findings are pairwise dissimilar |
| Clustering.BridgingRun | app/inconsistencies/dedup.py:145-152 | the scan stops at the first cluster: a bridged run that separates two similar findings |
| Links.LinksClosedIff | app/inconsistencies/dedup.py:145-152 | no finding bridges two clusters, if and only if every finding joins only earlier ones already linked by a chain of similar earlier findings: a condition without clusters |
| Links.TogetherIff | app/inconsistencies/dedup.py:145-152 | under that condition, and only then, similar elements always share a cluster |
| Links.LinkStays | app/inconsistencies/dedup.py:145-152 | where clusters are apart, chains of similar elements do not leave them |
| Dedup.SimilarIsSymmetric | app/inconsistencies/dedup.py:109-126 | similarity of findings is symmetric, crossed quotes included |
| Dedup.SimilarIff | app/inconsistencies/dedup.py:109-126 | two findings are one exactly when their quotes, straight or crossed, are equal once normalised or one begins the other with forty characters at least |
| Dedup.MergeConserves | app/inconsistencies/dedup.py:129-136 | the merged finding quotes a member, has the most specific type and highest severity of the cluster, and lists every other type once, in order |
| Dedup.MergeIsWorst | app/inconsistencies/dedup.py:129-136 | the merged finding is High exactly when some member is, Low exactly when all are; Arithmetic when some member is, down to Internal when all are |
| Dedup.Deduplicate | app/inconsistencies/dedup.py:139-153 | the nested loops compute the clusters and their merges |
| Dedup.OutputsCoverTheInput | app/inconsistencies/dedup.py:139-153 | one output for each novel finding; the clusters partition the input and are chained, and each output is its cluster merged, with the highest severity and the most specific type in it, named one by one |
| Dedup.OutputsAreDissimilar | app/inconsistencies/dedup.py:139-153 | on bridge-free inputs no two outputs denote the same pair (one way only) |
| Dedup.SecondPass | app/inconsistencies/dedup.py:139-153 | a second pass keeps every finding exactly when the outputs are pairwise dissimilar, and then only empties the merged types |
| Dedup.ReportsAreClasses | app/inconsistencies/dedup.py:109-153 | without long prefixes, the report has exactly one line for each pair of quotes met, with the most specific type and highest severity met on it, and no two lines on one pair; a line is High exactly when some finding on its pair is, and so on down |
| Dedup.ReportIgnoresOrder | app/inconsistencies/dedup.py:109-153 | without long prefixes, the set of (pair, type, severity) depends neither on the order of the findings nor on repetition |
| Dedup.SamePairReportedTwice | app/inconsistencies/dedup.py:115-118 | four findings whose outputs quote one pair twice |
| Uniqueness.TogetherIffLinked | app/inconsistencies/dedup.py:139-153 | findings on one pair always end in one cluster if and only if links between similar findings are closed in the input |
| Uniqueness.UniquenessIff | app/inconsistencies/dedup.py:129-153 | the outputs are pairwise dissimilar under every typing of the findings if and only if links are closed in the input |
| Uniqueness.ClustersRetyped | app/inconsistencies/dedup.py:109-126 | types play no part in the clustering |
| Uniqueness.LuckyTypes | app/inconsistencies/dedup.py:129-153 | under given types the condition is not necessary: it fails here and the outputs differ |
| Analysis.Analyze | app/inconsistencies/service.py:118-172 | only the failure of every pass is an error, and failures are counted; otherwise each parsed finding is dropped and counted, or grounded and deduplicated, and what is reported quotes a finding of some pass and is found in the narrative |
| Analysis.CollectedConcat | app/inconsistencies/service.py:143-146 | findings are collected pass after pass, in order |
| Analysis.CollectedOne | app/inconsistencies/service.py:143-146 | one pass gives its findings, a failed one none |
| Analysis.FailedPasses | app/inconsistencies/service.py:137-138 | the failures counted are the passes without output |
| Analysis.CollectedMembers | app/inconsistencies/service.py:143-146 | exactly the findings of the passes that did not fail are collected |
| Analysis.ReportedComesFromAPass | app/inconsistencies/service.py:143-154 | every reported finding quotes one that a pass returned |
| Analysis.ReportedIsGrounded | app/inconsistencies/service.py:148-154 | whatever the model answers, both quotes of every reported finding have twelve normalised characters found in the narrative |
| Analysis.PromiseOfUniquenessFails | app/inconsistencies/service.py:148-154 | a narrative and four findings, all grounded in it and all kept, of which an analysis reports two on one pair |
| Review.BuildRows | app/inconsistencies/review.py:97-117 | the rows of all the findings of all the dossiers, sorted |
| Review.RowIs | app/inconsistencies/review.py:80-115 | the row of a finding, and the fields its identifier digests |
| Review.RowsOfOne | app/inconsistencies/review.py:97-115 | the rows of one dossier are those of its findings |
| Review.RowsConcat | app/inconsistencies/review.py:97-115 | the rows of an audit are those of its dossiers, one after another |
| Review.SortRowsIsSort | app/inconsistencies/review.py:37-116 | the sheet holds the same rows, worst severity first, then by dossier and type, rows of one key in the order of the audit |
| Review.WorstFirst | app/inconsistencies/review.py:36-116 | high rows come before medium ones, medium before low, low before anything else, and within a severity by dossier and type |
| Review.TextLessIs | app/inconsistencies/review.py:116 | texts compare by their first difference, a prefix first |
| Review.ToCsv | app/inconsistencies/review.py:120-139 | the text of the header and of the nine cells of each sorted row |
| ReviewFile.ColumnsHoldTheirNames | app/inconsistencies/review.py:24-138 | each of the nine columns holds the field its name says |
| Review.DecisionWordsAreRead | app/inconsistencies/review.py:149-159 | the words the export writes are read back as the decisions they stand for |
| Review.WordsDecide | app/inconsistencies/review.py:45-159 | which words keep a finding, which drop it, that a blank leaves it pending, and that any other is refused |
| Review.YesAndNo | app/inconsistencies/review.py:45-159 | oui keeps, non drops, a blank cell is pending, an unknown word is an error |
| Review.ReadRows | app/inconsistencies/review.py:171-177 | refused exactly when a row with an identifier has an unreadable decision; otherwise trimmed identifiers and notes, blank identifiers skipped, later rows over earlier ones |
| Review.ReadReview | app/inconsistencies/review.py:162-177 | a file that is missing, has no column of identifiers, or holds an unreadable decision is refused, each for its own cause; any other gives the decisions of its rows |
| Review.DecisionsAreLastRows | app/inconsistencies/review.py:171-177 | a decision is read if and only if some row names the finding, and it is that of the last such row |
| Review.SheetOrderIsFree | app/inconsistencies/review.py:80-94 | with distinct identifiers, sorting the sheet changes no decision |
| Review.SheetMayBeFiltered | app/inconsistencies/review.py:80-94 | with distinct identifiers, blank ones aside, deleting and moving rows changes no decision of the rows left, and a finding without a row is decided by nobody |
| Review.ApplyDecisions | app/inconsistencies/review.py:180-193 | every finding takes the decision of its identifier, or none |
| Review.KeptFindings | app/inconsistencies/review.py:196-221 | a report is produced if and only if no finding is pending, and it holds the kept ones, in order |
| Review.KeptOfOne | app/inconsistencies/review.py:214-221 | one finding is kept or not by its own decision |
| Review.KeptOfConcat | app/inconsistencies/review.py:214-221 | the findings kept stay in order |
| Review.PublishedIffKept | app/inconsistencies/review.py:180-221 | after any sheet, publication is possible exactly when a last row settles every finding, and a finding is published exactly when its last row says to keep it |
| Review.RoundTripIff | app/inconsistencies/review.py:97-193 | writing the cells of a sheet and reading them back is the identity on the audit exactly when findings that share an identifier were decided alike and no note begins or ends with a space |
| Csv.BreaksAre | app/inconsistencies/review.py:167 | the ten characters at which `splitlines` ends a line |
| Text.SpacesAre | app/inconsistencies/review.py:173 | the characters `strip` removes |
| Csv.UniversalReads | app/inconsistencies/review.py:166-167 | the records read do not depend on how the lines of the file end |
| Csv.ReadBack | app/inconsistencies/review.py:120-167 | if no cell breaks its line outside quotes, every record is read back, but for the breaks within quotes |
| Csv.ReadHasNoBreaks | app/inconsistencies/review.py:166-167 | no cell read from any text holds a line break |
| Csv.TextRoundTripIff | app/inconsistencies/review.py:120-167 | records written and read back are the same if and only if no cell holds a line break, however the writer quotes |
| ReviewFile.FileIsRead | app/inconsistencies/review.py:120-177 | the exported file is read as the exported identifiers, decisions and notes, each note on one line |
| ReviewFile.FileRoundTripIff | app/inconsistencies/review.py:120-193 | exporting to the file and importing it unchanged is the identity on the audit exactly when findings that share an identifier were decided alike and each note is one trimmed line |
| ReviewFile.ImportedNotesAreOneLine | app/inconsistencies/review.py:162-193 | whatever the file, the notes it brings are each on one line |
| ReviewFile.StrayBreakUndecides | app/inconsistencies/review.py:120-193 | a kept finding whose dossier's name holds an unquoted line break is pending after export and import |
| Review.ImportIsConsistent | app/inconsistencies/review.py:180-193 | after one import, whatever the sheet, both conditions of that round trip hold for ever |
| Review.MaterialNamesOneIff | app/inconsistencies/review.py:80-94 | the digested text of a finding can be that of no other one if and only if the separator is in none of its four fields |
| Review.MaterialIsFaithful | app/inconsistencies/review.py:80-94 | two findings without the separator in their first three fields and with one digested text are the same |
| Review.SeparatorCollides | app/inconsistencies/review.py:80-94 | every finding with the separator shares its identifier with a different one, under any digest |
| JobQueue.JobRepository.Enqueue | app/jobs/repository.py:23-52 | a known idempotency key returns the one job under it and changes nothing; a new job is pending with its key, priority, retries and date; keys stay unique |
| JobQueue.FirstExists | app/jobs/repository.py:67-74 | some eligible row comes first in the order of the claim |
| JobQueue.JobRepository.ClaimOne | app/jobs/repository.py:54-83 | the row claimed is eligible, unlocked and first by priority then date; it alone changes |
| JobQueue.JobRepository.Heartbeat | app/jobs/repository.py:89-94 | only a row being processed gets a new lease |
| JobQueue.JobRepository.MarkCompleted | app/jobs/repository.py:143-148 | writes the row whatever its status has become |
| JobQueue.JobRepository.MarkRetry | app/jobs/repository.py:150-157 | the row takes the count of the writer's copy plus one, not its own |
| JobQueue.JobRepository.MarkFailed | app/jobs/repository.py:159-165 | writes the row whatever its status has become |
| JobQueue.JobRepository.RecoverStale | app/jobs/repository.py:96-115 | every stale row not locked by another transaction, and no other, is retried or failed by its own counter; exactly the failed ones are returned, each once |
| JobQueue.JobRepository.Requeue | app/jobs/repository.py:131-141 | the job starts again from zero |
| JobQueue.JobRepository.Fail | app/jobs/service.py:69-83 | retry with backoff or definitive failure, decided on the worker's copy |
| JobQueue.JobRepository.Process | app/worker.py:45-70 | what one attempt leaves on the row, and when the terminal clean-up runs |
| JobQueue.RetryWaits | app/jobs/service.py:23-80 | a failed attempt is eligible again exactly when retries are left and its delay is over; the delays are one, five, then fifteen minutes |
| QueueRuns.RetriesStayBounded | app/jobs/service.py:69-83 | in every interleaving, late writes and requeues included, the retry count never exceeds its maximum and keys stay unique |
| QueueRuns.EnqueueIsIdempotent | app/jobs/repository.py:23-52 | after any run of the queue, enqueueing a command again under its key changes nothing |
| QueueRuns.JobsStay | app/jobs/repository.py:23-165 | no run removes a job or changes its key, its priority or its maximum of retries |
| QueueRuns.ExclusiveStep | app/jobs/repository.py:54-165 | under fresh leases every step keeps at most one live holder for a job, with an exact copy, and ties claims to retries |
| QueueRuns.ExclusionHolds | app/jobs/repository.py:54-165 | the same over every run |
| QueueRuns.JobsAreTriedExactly | app/jobs/service.py:69-83 | a job is claimed at most `max_retries + 1` times, fails only after exactly that many, and is never in two hands |
| QueueRuns.RecoveryIsSafeIff | app/jobs/repository.py:96-115 | recovering a stale row keeps exclusion exactly when no live worker holds it |
| QueueRuns.RequeueIsSafeIff | app/jobs/repository.py:131-141 | a requeue keeps exclusion exactly when no live worker holds the job |
| QueueRuns.BudgetStep | app/jobs/service.py:69-83 | each claim or resolution of a job spends one unit of its budget, nothing else does, and a finished row never changes |
| QueueRuns.WorkIsBounded | app/jobs/service.py:69-83 | claims and resolutions of a job over a run are exactly the budget spent, at most `2 * max_retries + 2` |
| QueueRuns.LateWriteRevivesCompletedJob | app/jobs/repository.py:143-157 | a run in which a stalled worker puts a completed job back in the queue |
| ProjectState.Project.TransitionDiagnostic | app/projects/state_service.py:24-45 | legal moves change the status and append one audit row together; repeats and illegal moves change nothing |
| ProjectState.Project.TransitionReview | app/projects/state_service.py:47-68 | the same for curation |
| ProjectState.TablesAre | app/projects/models.py:52-84 | the moves of the two tables, and no others |
| ProjectState.TrailMovesForward | app/projects/models.py:51-84 | any audit trail holds at most four diagnostic changes, and a curated project is never new again |
| Diagnostics.ScorePhase | app/diagnostics/handlers.py:186-212 | the writes of the first phase up to its commit, illegal transitions included |
| Diagnostics.PublishPhase | app/diagnostics/handlers.py:263-286 | the writes of the second phase up to its commit |
| Diagnostics.CleanupPhase | app/diagnostics/handlers.py:312-337 | the terminal clean-up: a report not pending is left alone; a pending one is READY with its project at BILAN_READY if its Radar is there, FAILED if not |
| Diagnostics.TransitionsAreLegal | app/diagnostics/handlers.py:197-273 | no attempt and no clean-up of a sound system requests an illegal transition |
| Diagnostics.OneAttempt | app/diagnostics/handlers.py:50-286 | exclusion in the queue leaves at most one attempt in flight |
| Diagnostics.SoundStep | app/diagnostics/handlers.py:50-337 | every event of workers, queue, clean-up and analyst keeps report, project and queue coherent; READY and the Radar are never lost, and the project status moves along its table |
| Diagnostics.DiagnosticRunsAreSound | app/diagnostics/handlers.py:50-337 | over every run with crashes at any commit and curation at any time: READY is absorbing and coherent with the project, a completed job has a READY report, no report is pending after a committed clean-up, and an uncertain score always reaches a human review |
| Diagnostics.CleanupDecides | app/diagnostics/handlers.py:306-337 | on a sound system a clean-up makes a pending report READY exactly when a Radar is committed, with the project at BILAN_READY, and FAILED exactly when none is |
| Diagnostics.CleanupAfterScore | app/diagnostics/handlers.py:323-329 | over every run, a clean-up that finds the report pending makes it READY exactly when some attempt has scored: a computed Radar is never hidden |
| Diagnostics.AttemptPublishes | app/diagnostics/handlers.py:50-286 | from any sound system, an attempt can score and publish, and it leaves READY, BILAN_READY and the review the score asks for |
| Diagnostics.ReadyIsSkipped | app/diagnostics/handlers.py:50-76 | a diagnostic already READY is left as it is and its handler returns |
| Diagnostics.ReturnedCompletes | app/worker.py:45-70 | a worker whose handler has returned completes the job and leaves nothing in flight |
| Diagnostics.StaleScoreIsSafeIff | app/diagnostics/handlers.py:186-212 | a first commit made on an older copy keeps the rows coherent unless another attempt has published since |
| Diagnostics.StalePublishIsSafe | app/diagnostics/handlers.py:263-286 | a second commit made on an older copy is harmless whatever happened since the first: the rows are coherent and READY |
| Diagnostics.StaleReviewIff | app/diagnostics/handlers.py:199-212 | a first commit leaves the analyst's decision alone, and moves it along its table, exactly when it asks for no review, saw a project already looked at, or finds a status that allows it |
| Diagnostics.ReviewStepIff | app/projects/service.py:69-75 | an event takes the review status out of its table if and only if it is a score that commits over a qualification it has not seen |
| Diagnostics.QualificationIsOverwritten | app/diagnostics/handlers.py:199-212 | from any sound system whose worker is about to load a new project, a disciplined run in which a qualified project is back in review |
| Diagnostics.PatientDecisionsStand | app/projects/service.py:69-75 | over every run in which analysts wait for the scores of new projects in flight, the pipeline only ever routes a new project to review and no decision is undone |
| Diagnostics.SceneOccurs | app/diagnostics/handlers.py:186-286 | a run of queue and workers in which a job is recovered before its first worker is dead, every step allowed when taken |
| Diagnostics.TwoAttemptsRegress | app/diagnostics/handlers.py:186-286 | that run starts sound, breaks the discipline by that recovery, and ends with a READY report on a project moved backwards |
| Diagnostics.PendingUntilCleanedIff | app/worker.py:66-69 | once a job is given up, and unless it is requeued, its report stays pending exactly as long as no clean-up comes |
| Diagnostics.FounderLeftWaiting | app/worker.py:66-69 | from any waiting diagnostic, whatever its retries, a run that ends with the job failed, the report pending and no clean-up |
| RateLimit.MemoryLimiter.AllowInMemory | app/core/ratelimit.py:53-67 | the decision and the table after a call, purge included |
| RateLimit.MemoryLimiter.EvictStale | app/core/ratelimit.py:70-73 | exactly the buckets older than an hour go |
| RateLimit.EvictionIsInvisible | app/core/ratelimit.py:53-73 | a key whose windows are of at most an hour is decided as if nothing were ever forgotten, whatever the other keys |
| RateLimit.AcceptedIsRecalled | app/core/ratelimit.py:53-73 | so over a run both limiters accept as many calls of that key in every span |
| RateLimit.HourIsTheFrontier | app/core/ratelimit.py:70-73 | forgetting is harmless for a window if and only if it is at most 3600 seconds |
| RateLimit.SpanBound | app/core/ratelimit.py:53-73 | with a window of at most an hour, the purging limiter accepts at most `2 * limit - 1` calls of a key in any half-open span of one window |
| RateLimit.SpanBoundIff | app/core/ratelimit.py:53-73 | that bound holds over every run if and only if the window is of at most 3600 seconds, for every limit and every purge threshold |
| RateLimit.LongWindowIsForgotten | app/core/ratelimit.py:70-73 | for a longer window, a run that accepts twice the limit in one span |
| RateLimit.BoundIsReached | app/core/ratelimit.py:53-73 | for every limit and window of at most an hour, calls for which the purging limiter reaches the bound |
| Resilience.WithRetry | app/core/resilience.py:35-64 | invocations stop at the first outcome that is not retried or at the last attempt; what is returned, and how long the pauses last |
| Resilience.SleptFromFirst | app/core/resilience.py:43-60 | the first pause is the base delay, each later one the one before it times the factor |
| Resilience.CircuitBreaker.Guard | app/core/resilience.py:84-112 | refused without invoking exactly while an opening is younger than the timeout; otherwise a success closes and resets, a failure counts, and from the threshold on it opens at its end |
| Resilience.OutageInvariant | app/core/resilience.py:84-112 | during an outage, calls let through beyond the threshold are spaced by the reset timeout |
| Resilience.OutageBound | app/core/resilience.py:35-112 | in an outage, sequential callers invoke the backend, retries counted one by one, at most `max_attempts * (threshold + floor(span / reset_timeout))` times |
| Resilience.UsesOfInvoked | app/core/resilience.py:35-112 | the invocations of a run are at most the attempts for each call let through, and exactly that when every failure is retried |
| Resilience.LetsThroughAgain | app/core/resilience.py:84-97 | whatever the calls, once the timeout has passed since the last one ended the next is let through |
| Resilience.SuccessCloses | app/core/resilience.py:99-112 | a success brings the breaker back to its start |
| Resilience.OpensAtTheThreshold | app/core/resilience.py:84-112 | from a closed breaker a failing backend is called until the threshold, and the call that reaches it opens the breaker for exactly the timeout |
| ProjectMemory.Memory.AddMemory | app/projects/owner_service.py:107-147 | a known key returns its item; each refusal has its cause; an insertion deactivates what it replaces and keeps the invariant |
| ProjectMemory.InsertedIs | app/projects/owner_service.py:121-145 | an insertion adds its item at the end and only deactivates what it replaces |
| ProjectMemory.Memory.PersistFindings | app/project_memory/contradictions.py:49-92 | one item for each finding whose key is new, the count returned being the growth |
| ProjectMemory.Memory.PersistOne | app/project_memory/contradictions.py:26-83 | a finding whose key is unknown adds one active item with its explanation, its key and the dimension of its type; a known one changes nothing |
| ProjectMemory.MaterialIs | app/project_memory/contradictions.py:43-46 | the text digested for each type of contradiction |
| ProjectMemory.ReplacementIsSafeIff | app/projects/owner_service.py:121-145 | a replacement checked earlier keeps the shape exactly when its target is still active at the insertion |
| ProjectMemory.PersistingAgainAddsNothing | app/project_memory/contradictions.py:43-83 | running the detector again on findings already persisted adds nothing, in any order |
| ProjectMemory.MaterialNamesOneIff | app/project_memory/contradictions.py:43-46 | the digested text of a contradiction can be that of no other claim if and only if neither quote holds the separator |
| ProjectMemory.DroppedIff | app/project_memory/contradictions.py:60-63 | of two new findings the second is dropped exactly when their digests agree |
| ProjectMemory.SeparatorDrops | app/project_memory/contradictions.py:43-63 | for every finding with the separator in a quote there is another claim it makes disappear, under any digest |
| ProjectMemory.LatestOfRoot | app/projects/owner_service.py:121-145 | the first version of an item leads to its current one |
| ProjectMemory.RootOfLatest | app/projects/owner_service.py:121-145 | the current version leads back to the first, in one project and dimension |
| ProjectMemory.ChainsAreDisjoint | app/projects/owner_service.py:121-145 | versions form disjoint chains with one active head each |
| ProjectMemory.InsertionCounts | app/project_memory/repository.py:48-100 | active items are all items less the links |
| Ensemble.ScoreAxis | app/scoring/ensemble.py:86-93 | an axis is scored if and only if every pass gives it within the scale, by median and range |
| Ensemble.ScoreAxes | app/scoring/ensemble.py:81-96 | the dictionaries, their key order and the uncertain axes after the loop |
| Ensemble.ComputeConsensus | app/scoring/ensemble.py:61-120 | a consensus is given exactly on valid thresholds, a positive scale and covered axes, and it is the one described |
| Ensemble.ConsensusAt | app/scoring/ensemble.py:81-96 | each axis gets the median of its scores, a spread that covers them, and is uncertain exactly when that exceeds the tolerance |
| Ensemble.MedianIs | app/scoring/ensemble.py:92 | with an odd number of passes the middle score; with an even number the integer nearest to the mean of the two middle ones, halves to the even |
| Ensemble.MedianOfTwo | app/scoring/ensemble.py:92 | two passes give the integer nearest to half their sum |
| Ensemble.SpreadIsWidest | app/scoring/ensemble.py:93 | the spread is reached by two of the scores and exceeded by none |
| Ensemble.MeanSpreadIsMean | app/scoring/ensemble.py:98 | the sum of the spreads over their number, to the nearest hundredth, and 0 without axes |
| Ensemble.SumOfConcat | app/scoring/ensemble.py:98 | the sum adds up each spread once |
| Ensemble.ConfidenceIs | app/scoring/ensemble.py:54-58 | one less the share of half the scale that the passes spread over, to the nearest thousandth |
| Rounding.RoundIsNearest | app/scoring/ensemble.py:92 | `round` is the nearest integer, and the even one of two as near |
| Keys.DistinctOnce | app/scoring/ensemble.py:77-96 | a dictionary holds each key once, in the order of first insertion |
| Ensemble.MedianFollowsMajority | app/scoring/ensemble.py:92 | if a strict majority of passes lie in an integer interval, so does the half-even rounded median |
| Ensemble.MedianWithinPasses | app/scoring/ensemble.py:92 | the score kept never leaves the range of the passes |
| Ensemble.MedianIgnoresOrder | app/scoring/ensemble.py:92 | the median depends on the multiset of scores only |
| Ensemble.ConfidenceFalls | app/scoring/ensemble.py:54-58 | confidence is 1 on agreement, 0 from half the scale on, within [0, 1], and never rises with the spread |
| Ensemble.ReviewIff | app/scoring/ensemble.py:54-109 | with default thresholds a human is called exactly when an axis spreads over more than a fifth of the scale or fewer than three passes are left, rounding included |
| Ensemble.ConsensusIgnoresOrder | app/scoring/ensemble.py:61-120 | the whole consensus is the same in whatever order the passes come back |
| Engine.FindAnchor | app/scoring/engine.py:25-36 | the first band, in the order of the grid, that holds the value |
| Engine.CoverAnchors | app/scoring/engine.py:25-44 | a cover checked on the sorted bands anchors every score of the scale in the unsorted list, empty and inverted bands included |
| Engine.AnchorIgnoresOrder | app/scoring/engine.py:25-44 | the anchor found does not depend on the order of the bands, except for the highest score of a contested grid |
| Engine.ContestedTop | app/scoring/engine.py:30-35 | on every contested grid two orders give the highest score different anchors |
| Engine.ValidateGrid | app/scoring/engine.py:47-53 | accepts exactly the non-empty grids whose axes all cover the scale |
| Engine.ChainPasses | app/scoring/engine.py:39-44 | any listing of bands that follow one another from 0 to the top, with different lower bounds, passes the cover check |
| Engine.ValidateAxes | app/scoring/engine.py:56-72 | each verdict has its cause, and acceptance means every axis is named, in scale and anchored |
| Engine.ByKeyIsLast | app/scoring/engine.py:58-70 | of two axes under one key the later one is validated against |
| Engine.AcceptedIff | app/scoring/engine.py:47-72 | against a validated grid, exactly the scores with the grid's keys and values in the scale are accepted |
| Engine.OverallMonotone | app/scoring/engine.py:92-104 | with non-negative weights, raising the axes that weigh something never lowers the overall score |
| Engine.OverallIsMean | app/scoring/engine.py:92-104 | the integer nearest to the weighted sum over the total weight, and 0 when nothing weighs anything |
| Engine.SumsConcat | app/scoring/engine.py:92-104 | both sums add up axis by axis |
| Engine.SumsOfOne | app/scoring/engine.py:92-104 | an axis weighs what its category says, or 1, and without a score counts for 0 |
| Engine.OverallBetween | app/scoring/engine.py:92-104 | with weights of positive sum the overall score lies between the extremes of the axes that weigh something |
| Engine.OverallInScaleIff | app/scoring/engine.py:92-104 | for any weights, every score sheet in the scale has an overall score in it if and only if the two extreme sums of the weights have, rounding and negative totals included |
| Engine.NegativeWeightLeavesTheScale | app/scoring/engine.py:83-104 | on a grid that passed validation, one negative weight gives a score out of the scale |
| Orchestrator.PickAngleSpec | app/pitchsim/orchestrator.py:162-177 | no angle twice in a session, an angle of an earlier session only when no other is left, and nothing only when the axis is exhausted |
| Orchestrator.EveryAngleIsPicked | app/pitchsim/orchestrator.py:162-177 | every angle that may be asked is asked for some seed |
| Orchestrator.WithoutConcat | app/pitchsim/orchestrator.py:162-177 | the angles left stay in the order of the pool |
| Orchestrator.FreshPick | app/pitchsim/orchestrator.py:162-177 | with nothing asked, the seed picks its rank in the pool |
| Orchestrator.UpdateConvictions | app/pitchsim/orchestrator.py:118-125 | the loop over the judges |
| Orchestrator.ConvictionsMove | app/pitchsim/orchestrator.py:118-125 | every judge moves by one within [-2, 2] according to its own obsession, and nobody else moves |
| Orchestrator.OneStep | app/pitchsim/orchestrator.py:118-125 | one step down when the obsession of the judge is weak, one up otherwise, never past two |
| Orchestrator.Skeptic | app/pitchsim/orchestrator.py:140 | the first judge of lowest conviction |
| Orchestrator.Champion | app/pitchsim/orchestrator.py:141 | the first judge of highest conviction |
| Orchestrator.NamedIsFirst | app/pitchsim/service.py:514-520 | a judge is looked up by name, the first of that name |
| Orchestrator.DebateIs | app/pitchsim/orchestrator.py:128-160 | the first of the least convinced judges speaks, and the first of the most convinced answers if it is another |
| Orchestrator.PhasesAre | app/pitchsim/orchestrator.py:32-44 | the moves between phases, and no others |
| Pitch.PitchSession.SetPhase | app/pitchsim/service.py:455-458 | an illegal jump is refused and changes nothing |
| Pitch.PitchSession.BeginPitch | app/pitchsim/service.py:460-464 | succeeds from the briefing only |
| Pitch.PitchSession.TakeNarration | app/pitchsim/service.py:466-491 | one turn and new convictions, during the pitch only |
| Pitch.PitchSession.FinishPitch | app/pitchsim/service.py:493-512 | questions open only after a narration, with the memory of earlier sessions and at most one question |
| Pitch.OpeningIs | app/pitchsim/service.py:493-512 | the judges in the order of the committee, the memory of past sessions, and no question or one by the first judge, noted on its axis |
| Pitch.PitchSession.ServeQuestion | app/pitchsim/service.py:514-541 | the next question of the judge at the microphone, or nothing and no change |
| Pitch.PitchSession.AdvanceQa | app/pitchsim/service.py:543-549 | the recursion ends, at the first later judge with a question or in the free round |
| Pitch.LandingPassesOver | app/pitchsim/service.py:543-549 | the judges passed over had nothing to ask |
| Pitch.PitchSession.TakeAnswer | app/pitchsim/service.py:551-564 | one answer, then the same judge within its quota or the next one |
| Pitch.AnswerIs | app/pitchsim/service.py:551-564 | during the questions only: the answer after all that was said, then at most one question, nothing else of the session changed |
| Pitch.PitchSession.Conclude | app/pitchsim/service.py:566-603 | a verdict for each judge and a completed session, or no trace at all |
| Pitch.VerdictsAreSigned | app/pitchsim/service.py:566-603 | from the questions or the free round, with one text for each judge: the debate, then the verdict of each judge, its own, in order; otherwise nothing |
| Pitch.PitchSession.GiveUp | app/pitchsim/service.py:400-403 | only the status changes |
| PitchRuns.SessionsAreSound | app/pitchsim/service.py:460-603 | the invariant of the timeline, the quotas and the phases holds after any sequence of requests |
| PitchRuns.QuestionsAreSound | app/pitchsim/service.py:493-564 | in every session no (axis, angle) is asked twice, new angles come before old ones on each axis, and each judge asks at most its quota |
| PitchRuns.AnswerBringsOneQuestion | app/pitchsim/service.py:551-564 | every answer brings exactly one question or opens the free round |
| PitchRuns.AnswersAreBounded | app/pitchsim/service.py:493-564 | answers number at most the smaller of the quotas of the committee and the size of its pools, plus one |
| PitchRuns.CommitteeIsHeard | app/pitchsim/service.py:543-564 | when the answers lead to the free round, every judge has asked its quota or exhausted its axis |
| PitchRuns.PhasesOnlyAdvance | app/pitchsim/orchestrator.py:32-49 | no sequence of requests moves a session backwards |
| PitchRuns.AbandonIsFinalIff | app/pitchsim/service.py:400-403 | an abandoned session stays so under all later requests exactly when its verdict had been given |
| PitchRuns.ConvictionsStayMeasured | app/pitchsim/orchestrator.py:118-125 | convictions stay in [-2, 2] however long the pitch |
| Tokens.TokenStore.ConsumeIfActive | app/iam/repository.py:87-104 | the row goes to whoever revokes it, and to nobody if it is unknown or revoked |
| Tokens.TokenStore.RevokeAllForUser | app/iam/repository.py:116-123 | every active token of the user is revoked and no other |
| Tokens.TokenStore.Refresh | app/iam/service.py:130-154 | each of the five answers and what it leaves committed: refusals after the consumption leave nothing |
| Tokens.RefreshAnswers | app/iam/service.py:130-154 | a new pair if and only if the token is stored, not revoked, not expired and its account active; an expired or inactive refusal leaves the store as it was, and no answer but a new pair makes a token active |
| Tokens.TokenStore.Logout | app/iam/service.py:156-162 | one token is revoked, once |
| Tokens.ReplayCutsTheUser | app/iam/service.py:136-143 | alone in the store, a replay leaves the user no token and touches no other user |
| TokenRuns.RefreshIsTwoSteps | app/iam/service.py:130-154 | run alone, the two steps of a transaction leave what the method leaves |
| TokenRuns.SecureStep | app/iam/service.py:130-162 | every step of every transaction keeps lineage, one active token for each login, and exclusive rotation |
| TokenRuns.TokensAreSecure | app/iam/service.py:130-162 | in every interleaving a token yields at most one new pair and a login has at most one active token |
| TokenRuns.ReplaySurvivors | app/iam/service.py:136-143 | after a replay commits, the user's active tokens are exactly those issued since the replay was noticed |
| TokenRuns.SceneLeads | app/iam/service.py:109-162 | from the empty store: two logins, a logout, then a rotation and a replay interleaved, each step allowed when taken |
| TokenRuns.RotationEscapesTheCut | app/iam/service.py:136-143 | at the end of that run one token of the user is still active |

## Left out

- HTTP routers, data transfer objects, migrations, prompts and the providers of language models, storage and mail: what
  they answer is a parameter.
- `parse_finding` and `parse_analysis`, the readers of dossiers, and the context pass of `analyze`.
- ReviewFile.FileRoundTripIff: audits with a line break outside quotes are not covered, because what their cut rows decide
  depends on whether a fragment happens to be an identifier; `ReviewFile.StrayBreakUndecides` gives one such loss.
- Review.ReadReview: the encoding of the file, its byte-order mark and the csv reader's limit on the length of a cell are
  not modelled.
- The Redis path of the limiter, and threads: calls are sequential, as the event loop makes them.
- Interleavings inside a transaction other than those of `Diagnostics` and `TokenRuns`: two enqueues under one new key
  (the unique constraint decides), two insertions in the memory (`ProjectMemory.ReplacementIsSafeIff` gives the
  condition), lock waits of a cut that takes its rows one after another.
- Edits of a report by an analyst: they set the Radar outside the pipeline and are meant to.
- `upsert_dimension_state`, the expiry and attributes of memory items, and the normalisation of dimension names; a
  dimension is a number from 1 to 12.
- The micro-reactions of the committee, the indicators of a narration, the deck, and the text of questions.
- The score of a pitch: `Conclude` is told whether the model and the validation succeeded.
- `pillar_scores`, category tables, maturity bands and other readings of one table.
- Floating point: means, ratios and weights are exact rationals; rounding is half to even on them.
- Engine.WeightedOverall: floats and the conversion of weights are not modelled, because rounding error is not the point.
- Signatures of access tokens, digests and the randomness of new tokens: a new token is one never stored before.
