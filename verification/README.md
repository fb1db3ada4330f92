# ChallengeForge: verified core

A Dafny model of the parts of ChallengeForge whose correctness spans several functions or several
concurrent requests, with proofs.

- **Ingestion** (`Text`, `Canonical`, `LineTable`, `Units`, `HeadingStack`, `Headings`, `Unitizer`, `Segments`,
  `Blocks`, `Splitting`, `Packing`, `Chunker`, `Determinism`, `ChunkCount`, `FewestChunks`, `NoBreakExample`): raw
  text is normalized, cut into logical units (fences, headings, lists, paragraphs), hard-split, packed greedily under a
  budget and emitted as chunks that know their exact characters and lines. `Chunker.ChunkArtifact` is the whole path:
  for every raw string and every budget of at least 1 nothing but white space is lost, duplicated or reordered.
- **Progressive evaluation** (`Policy`, `Progressive`, `Workload`, `Quality`): a staged loop that finishes,
  escalates or defers, over any plan and any stage outcomes. However often it is deferred, the whole equals one
  uninterrupted run; safe early exits decide as the ground truth does.
- **Blob-first artifacts** (`ArtifactProtocol`, `ArtifactUpdates`, `Reconcile`): uploads, commits, compensating
  deletes, replacements and orphan reconciliation, interleaved step by step with crashes and a clock. As long as
  commits are acknowledged, no committed key dangles in any run exactly when the grace window exceeds the two delays
  it has to cover.
- **Submission acceptance** (`Acceptance`, `AcceptanceRuns`, `Submissions`): creates with idempotency keys, submits,
  cancels, edits and closes as transaction steps under the database's row locks and unique indexes.
  `Submissions` has the service methods statement by statement, with arbitrary steps of other sessions in between.
- **Runtime** (`Controller`, `Coalescer`): the adaptive concurrency controller and the request coalescer, each as a
  class proved against a step function, and what holds of all its runs.

Where a promise is not kept in every case, the model keeps the code and states the exact condition:

- `docs/concurrency-design.md:46` forbids an acceptance after a close has committed. Publishing a challenge
  (`challenges.py:82-102`) takes no lock and writes over whatever it finds, so a publish that read the draft before
  a faster publish and a close reopens the challenge. `AcceptanceRuns.ClosedForGood`: no submission is ever
  committed after the close if and only if no such publish is pending. `AcceptanceRuns.StalePublishIsReachable` gives the run.
- "Only submissions in CREATED can be updated" (`submissions.py:200`) is checked when the row is read, not when it is
  written. `AcceptanceRuns.ContentFrozen`: metadata and artifact key of a submission that left CREATED stay if and only
  if no edit that still saw it CREATED is pending with something else to write. `AcceptanceRuns.StaleEditIsReachable`
  gives the run, for every edit that would change the row.
- The reconciler skips young orphans so that uploads in flight are not raced (`artifacts.py:89-91`). A staged upload
  keeps the modification time of its staging file, so its age counts from staging.
  `ArtifactProtocol.GraceWindowIsExact`: while commits are acknowledged, no run dangles if and only if commit delay plus
  snapshot delay is below the grace window.
- A commit that raises is taken for a commit that did not happen, and its blob is deleted (`submissions.py:147-150`,
  `submissions.py:223-226`). A commit that took hold although its acknowledgement was lost then dangles
  (`ArtifactProtocol.LostCommitDangles`). `ArtifactProtocol.CommittedBlobIsSafe`: the blob of a committed key is safe in
  every run if and only if no request that was told its commit failed is still to compensate.
- Packing makes as few groups as can be, but blank groups give no chunk, so another grouping of the same pieces may
  give fewer chunks. `NoBreakExample.NoBreakDocument` is a document for which it does.
  `FewestChunks.FewestIffNoWaste`: there are as few chunks as can be after every piece if and only if no group would
  reach another non-blank piece if it began at its first non-blank piece. For the whole document this suffices, and so
  does that no unit exceeds the budget (`FewestChunks.FittingUnitsGiveFewest`); a document that wastes room on the way
  may still end with the fewest chunks. `ChunkCount.ChunksAgainstFewest` bounds what is missed.
- A caller that joined a computation gets its leader's outcome, unless the leader was cancelled: cancellation is not
  an `Exception`, so the future is never resolved. `Coalescer.JoinersReturnUnlessStranded` is the exact condition, and
  `Coalescer.StrandedIsReachable` a run in which it fails.
- Modes other than the three staged ones agree with the ground truth exactly on failures and easy passes
  (`Quality.CompareToGroundTruth`).

Freshness of identifiers, the row locks and the unique indexes are assumptions about the database. Digests
are arbitrary functions, stage outcomes an arbitrary function of the stage index, and the regular expression class
`\d` an arbitrary predicate on characters.
Floating-point settings and clocks are reals.

## Model

| member | source | states |
|---|---|---|
| Canonical.NormalizeToCanonical | src/challengeforge/ingestion/canonical.py:67-92 | The canonical text joins consecutive lines of the scanned text, each cut to its longest prefix not ending in space or tab, from the first to the last that is not empty once cut; it is canonical, keeps every non-white-space character in order, and counts its lines. |
| Canonical.DetectKind | src/challengeforge/ingestion/canonical.py:47-64 | A document is EMPTY exactly when it is blank. |
| Canonical.KindsByLines | src/challengeforge/ingestion/canonical.py:47-64 | A document is MARKDOWN exactly when some line looks like a fence or two like headings, and CODE exactly when two look like code and none like a fence or heading. |
| Canonical.MarkersAreLeading | src/challengeforge/ingestion/canonical.py:51-52 | A line looks like a heading or a fence exactly when its first visible characters are a hash or three backticks. |
| Canonical.CodeMarkers | src/challengeforge/ingestion/canonical.py:53-59 | A line looks like code exactly when it begins with one of six keywords, its last visible character is a brace, or a modifier comes first and something visible follows it. |
| Canonical.TwoPassesAreOneScan | src/challengeforge/ingestion/canonical.py:76 | Replacing CRLF and then CR equals one scan that reads CRLF as a single newline. |
| Canonical.NewlineStyleIndependent | src/challengeforge/ingestion/canonical.py:67-92 | The same lines ended by LF, CRLF or CR give the same canonical text. |
| Canonical.CanonicalFixpoints | src/challengeforge/ingestion/canonical.py:67-92 | Normalization fixes a text if and only if it is canonical; normalizing twice is normalizing once. |
| Canonical.CanonicalConserves | src/challengeforge/ingestion/canonical.py:67-92 | Normalization loses, adds and reorders no non-white-space character. |
| Canonical.KeptLinesAreLines | src/challengeforge/ingestion/canonical.py:77-84 | What is kept is a run of lines of the scanned text, each cut at its end, and every line outside it is empty once cut. |
| Canonical.CanonicalEndsInText | src/challengeforge/ingestion/canonical.py:79-83 | A non-empty canonical text does not end in a newline, on which the span arithmetic relies. |
| Canonical.LineCountIsKept | src/challengeforge/ingestion/canonical.py:84-92 | The line count is the number of kept lines: one more than the newlines of a non-empty text. |
| LineTable.LineStarts | src/challengeforge/ingestion/chunking.py:73-79 | Entry L of the table is the offset at which line L begins, for every line that begins before the end of the text. |
| LineTable.LineOf | src/challengeforge/ingestion/chunking.py:82-93 | The binary search finds the last entry not after the offset, and 1 for a negative offset. |
| LineTable.SearchCountsNewlines | src/challengeforge/ingestion/chunking.py:73-93 | Searching the table for an offset inside the text gives one plus the number of newlines before it. |
| LineTable.SpanOf | src/challengeforge/ingestion/chunking.py:96-111 | The span of lines i to j starts where line i starts and cuts out the newline-join of those lines when the text does not end in a newline. |
| LineTable.NonEmptyLineStarted | src/challengeforge/ingestion/chunking.py:73-79 | Every line that is not empty has an entry in the table. |
| Splitting.WindowCut | src/challengeforge/ingestion/chunking.py:126-132 | The cut lies within the budget and is the last newline, else the last blank, past a quarter of the budget, else the budget. |
| Splitting.SplitOversized | src/challengeforge/ingestion/chunking.py:114-151 | The pieces are consecutive slices of the unit, each cut at the preferred place. |
| Splitting.PieceEnds | src/challengeforge/ingestion/chunking.py:114-151 | Every piece but the last ends behind the last newline of its window if that comes late enough, else behind such a last blank, else at the budget. |
| Splitting.SplitIsLossless | src/challengeforge/ingestion/chunking.py:114-151 | Any such pieces concatenate to the unit, have 1 to max_chars characters, all but the last more than max_chars // 4, and number at most ceil(length / (max_chars // 4 + 1)). |
| HeadingStack.PushHeading | src/challengeforge/ingestion/chunking.py:195-199 | Popping and pushing turns the declarative outline of the headings so far into that of one heading more. |
| HeadingStack.OutlineStep | src/challengeforge/ingestion/chunking.py:195-199 | A new heading closes exactly the open headings of its level or deeper, and opens itself. |
| HeadingStack.OutlineMembers | src/challengeforge/ingestion/chunking.py:160-213 | A heading is in the outline if and only if no later heading has its level or a smaller one. |
| HeadingStack.OutlineIncreases | src/challengeforge/ingestion/chunking.py:160-199 | Levels strictly increase along the stack. |
| Headings.HeadingTest | src/challengeforge/ingestion/chunking.py:65 | A line passes the heading test exactly when it is one to six hashes, white space, and at least one more character. |
| Headings.HeadingMarks | src/challengeforge/ingestion/chunking.py:65-198 | A line of n hashes, white space and a trimmed title is a heading of level n with that title. |
| Headings.ParentPath | src/challengeforge/ingestion/chunking.py:192-213 | The path of a heading is the path of the last heading before it with fewer hashes, and its own title. |
| Headings.RootPath | src/challengeforge/ingestion/chunking.py:192-213 | A heading with no heading of fewer hashes before it has its title alone for a path. |
| Headings.BodyPath | src/challengeforge/ingestion/chunking.py:160-254 | Any other unit has the path of the last heading before it, or the empty one. |
| Headings.NestedHeading | src/challengeforge/ingestion/chunking.py:192-213 | A heading with more hashes than the heading just before it has that one's path followed by its own title. |
| Headings.ClosingHeading | src/challengeforge/ingestion/chunking.py:195-199 | With as many hashes or fewer, its path is a proper prefix of that one's path followed by its own title. |
| Units.MarkedLinesAreNotBlank | src/challengeforge/ingestion/chunking.py:65-66 | Fence and heading lines are never blank. |
| Blocks.ListItemTest | src/challengeforge/ingestion/chunking.py:66 | A line passes the list test exactly when, after white space, there is a bullet or digits with a full stop, and then white space. |
| Blocks.TypeByFirstLine | src/challengeforge/ingestion/chunking.py:170-254 | The type of a unit is decided by the code mode and its first line alone. |
| Blocks.UnitGoesOn | src/challengeforge/ingestion/chunking.py:170-254 | A unit that holds a line holds the next one exactly when its type lets it go on there. |
| Unitizer.FenceEnd | src/challengeforge/ingestion/chunking.py:170-190 | A fence reaches to the first closing fence line, or to the end of the text. |
| Unitizer.BlockEnd | src/challengeforge/ingestion/chunking.py:215-254 | A paragraph, list or code block reaches exactly to the first line that breaks it. |
| Unitizer.UnitizeStructured | src/challengeforge/ingestion/chunking.py:154-254 | The units are blocks in line order, cover every non-blank line, and each carries the outline of the headings at or before it; `Headings` and `Blocks` say in terms of the lines which paths, types and extents these are. |
| Segments.UnitsTile | src/challengeforge/ingestion/chunking.py:154-254 | Units are non-empty exact slices in order, and only white space lies outside them. |
| Segments.UnitsPartitionLines | src/challengeforge/ingestion/chunking.py:154-254 | Every non-blank line lies in one unit and no line lies in two, in code mode and out of it. |
| Segments.UnitsKeepLines | src/challengeforge/ingestion/chunking.py:154-254 | The lines of the units' texts, one unit after the other, are exactly the document's non-blank lines, each once and in order. |
| Segments.HeadingLinesAreUnits | src/challengeforge/ingestion/chunking.py:192-213 | A heading line is a heading unit of its own unless a fence contains it. |
| Segments.BlockIsUnique | src/challengeforge/ingestion/chunking.py:170-254 | Its first line determines how far a block reaches and of which type it is. |
| Segments.UnitsAreUnique | src/challengeforge/ingestion/chunking.py:154-254 | The declarative segmentation admits one sequence of units only. |
| Packing.Pack | src/challengeforge/ingestion/chunking.py:288-319 | The groups concatenate to the units; every unit joined within the budget of the group's start and no earlier than the unit before it, and the first unit of the next group could not. |
| Packing.GreedyFits | src/challengeforge/ingestion/chunking.py:288-319 | Every greedy group of ordered units within the budget is non-empty and spans at most max_chars. |
| Packing.GreedyStaysAhead | src/challengeforge/ingestion/chunking.py:288-319 | Greedy groups of the units from i on are never more than any fitting groups of the units from an earlier j on. |
| Packing.GreedyIsOptimal | src/challengeforge/ingestion/chunking.py:288-319 | No contiguous partition that fits the budget has fewer groups. |
| Chunker.Unitize | src/challengeforge/ingestion/chunking.py:257-262 | An EMPTY document has no units; any other is segmented, CODE in code mode. |
| Chunker.CodeHasNoMarkup | src/challengeforge/ingestion/chunking.py:170-193 | Code mode skips the fence and heading tests, and no line of a CODE document would pass them. |
| Chunker.LinesOfSpan | src/challengeforge/ingestion/chunking.py:265-285 | The lines found for a span are those of its first and last characters. |
| Chunker.FixLines | src/challengeforge/ingestion/chunking.py:265-285 | Only line numbers change, and each becomes one plus the newlines before the unit's first and last character. |
| Chunker.Expand | src/challengeforge/ingestion/chunking.py:331-332 | Splitting all units keeps them exact slices that tile the document, now within the budget. |
| Chunker.TypeOf | src/challengeforge/ingestion/chunking.py:361-366 | A group has the common type of its units, else HARD_SPLIT if a hard-split piece is in it, else MIXED, and is marked split exactly when such a piece is in it. |
| Chunker.DeepestPath | src/challengeforge/ingestion/chunking.py:368-376 | The heading is the path of a unit of the group, extends the first unit's path, no unit's path extends it further, and a unit whose path it does not extend was passed over for an earlier one. |
| Chunker.PathIsMaximal | src/challengeforge/ingestion/chunking.py:368-376 | The loop's running path is maximal among the units seen so far. |
| Chunker.PathIsFirstCome | src/challengeforge/ingestion/chunking.py:368-376 | The loop takes the earlier of two paths that part: each unit's path is a prefix of the heading, or an earlier prefix of the heading is not one of it. |
| Chunker.FirstComeIsUnique | src/challengeforge/ingestion/chunking.py:368-376 | A group has only one such path among its own. |
| Chunker.ChunkDescribes | src/challengeforge/ingestion/chunking.py:334-394 | Every chunk has the characters, type, split mark and heading of one group of pieces. |
| Chunker.EmitChunks | src/challengeforge/ingestion/chunking.py:334-394 | Dropping blank groups leaves chunks that tile the document within the budget; the repair and truncation fallbacks are dead. |
| ChunkCount.LeastIsLeast | src/challengeforge/ingestion/chunking.py:334-342 | No grouping of the pieces that fits the budget gives fewer chunks than groups that each begin at a non-blank piece and take what fits. |
| ChunkCount.LeastIsAttained | src/challengeforge/ingestion/chunking.py:334-342 | Some grouping that fits gives exactly that many. |
| ChunkCount.ChunksAgainstFewest | src/challengeforge/ingestion/chunking.py:288-394 | A document gets at least the fewest chunks any grouping of its pieces gives, which some grouping does give, and at most that plus the number of its chunks that begin with a blank piece. |
| FewestChunks.FewestIffNoWaste | src/challengeforge/ingestion/chunking.py:288-342 | After every piece there are as few chunks as any grouping of the pieces so far gives, if and only if no group would reach another non-blank piece if it began at its first non-blank piece. |
| FewestChunks.NoWasteGivesFewest | src/challengeforge/ingestion/chunking.py:322-394 | A document whose pieces waste nothing in that sense gets the fewest chunks. |
| FewestChunks.FittingUnitsGiveFewest | src/challengeforge/ingestion/chunking.py:322-394 | A document none of whose units exceeds the budget gets the fewest chunks. |
| NoBreakExample.NoBreakDocument | src/challengeforge/ingestion/chunking.py:322-394 | With budget 4 the chunker makes three chunks of four letters, a no-break space and two one-letter paragraphs, and a grouping of the same pieces makes two. |
| NoBreakExample.TextIsCanonicalProse | src/challengeforge/ingestion/canonical.py:47-92 | Normalization leaves that text as it is and finds it prose, so the chunker does receive it. |
| Chunker.ChunkHybrid | src/challengeforge/ingestion/chunking.py:322-394 | An error exactly for max_chars below 1; else every chunk is an exact, bounded, non-blank slice with its ordinal and lines, in order without overlap; all text is kept if and only if the kind is not EMPTY or the text is blank. |
| Chunker.ChunkArtifact | src/challengeforge/ingestion/processor.py:105-110 | For every raw string and budget, the chunks in ordinal order hold exactly the non-white-space characters of the raw text, with exact provenance in the canonical text. |
| Determinism.SplitIsUnique | src/challengeforge/ingestion/chunking.py:114-151 | The splitting rule admits one list of pieces only. |
| Determinism.GreedyIsUnique | src/challengeforge/ingestion/chunking.py:288-319 | Two greedy groupings of the same units are equal. |
| Determinism.ChunkingIsDeterministic | src/challengeforge/ingestion/chunking.py:322-394 | The declarative description of chunking admits one list of chunks for a document and a budget. |
| Text.TilingConserves | src/challengeforge/ingestion/chunking.py:334-394 | Spans that tile a text hold all its non-white-space characters, in order. |
| Policy.Decide | src/challengeforge/evaluation/policy.py:33-89 | Nothing but finishing happens without a next stage, and deferral only to an expensive stage, under pressure, in the adaptive mode, away from the deadline. |
| Policy.DecisionConditions | src/challengeforge/evaluation/policy.py:44-89 | Exactly when a decision finishes, defers, and is a safe early exit; in all other cases it continues. |
| Policy.ReasonConditions | src/challengeforge/evaluation/policy.py:44-89 | Each reason is given under exactly one condition on mode, confidence, safety, next stage, pressure and deadline. |
| Policy.DeferralLeavesTime | src/challengeforge/evaluation/policy.py:77-89 | A stage's decision defers exactly when the adaptive mode is uncertain under pressure, the next stage costs at least 9, and there is no deadline or more than 30 seconds are left; and exactly when it continues. |
| Progressive.Run | src/challengeforge/evaluation/progressive.py:62-180 | A run executes the stages from its start to the first that the policy does not continue, and reports their cost, peak and last verdict. |
| Progressive.RunReports | src/challengeforge/evaluation/progressive.py:80-180 | A run reports consecutive stages up to the first whose decision is not to continue, with that stage's score, tier, confidence and reason, the sum of their costs and the largest of their peaks. |
| Progressive.FixedIgnoresSurroundings | src/challengeforge/evaluation/policy.py:44-89 | Where a fixed_progressive run stops depends on neither pressure, deadline nor clock. |
| Progressive.AdaptiveFollowsFixed | src/challengeforge/evaluation/policy.py:74-89 | An adaptive run finishes where and why the fixed run does, or defers strictly earlier on the fixed run's way. |
| Progressive.RunToCompletion | src/challengeforge/evaluation/progressive.py:80-156 | Adaptive runs resumed at next_stage under any pressures and deadlines add up to one fixed_progressive run: stages, cost, peak, score and reason; there are at most as many runs as stages. |
| Progressive.SafeExitIsSound | src/challengeforge/evaluation/policy.py:44-72 | If safe outcomes are right and the last stage is safe, every finished run of the three staged modes is right. |
| Progressive.CompletionIsSound | src/challengeforge/evaluation/quality.py:46-87 | For any plan and outcomes under the safety contract, the resumed adaptive runs together end in the right score, and an early exit among them rests on safe and right evidence. |
| Progressive.RunSafely | src/challengeforge/evaluation/quality.py:46-87 | The same for the runs themselves, under any pressures, deadlines and clocks, in at most as many runs as stages. |
| Progressive.EarlyExitIsSafe | src/challengeforge/evaluation/policy.py:53-60 | Finishing before the last stage is always a safe early exit on confident evidence. |
| Workload.SafeEvidenceIsTrue | src/challengeforge/evaluation/workload_v3.py:94-199 | Evidence that claims to be safe scores on the ground truth's side of the threshold, for every stage, kind and submission. |
| Workload.V3MeetsContract | src/challengeforge/evaluation/workload_v3.py:78-199 | Every plan that ends in a heavy stage meets the contract of safe early exit. |
| Quality.CompareToGroundTruth | src/challengeforge/evaluation/quality.py:34-98 | The staged modes always agree with the truth, the others exactly on failures and easy passes; no early exit is false; stages, cost and early exit are given for every mode and kind; the adaptive totals are those of a fixed run; one resume suffices. |
| Quality.UnsupportedModes | src/challengeforge/evaluation/policy.py:74-75 | The other modes are right exactly on failures and easy passes, and on every safe early exit. |
| Quality.FixedTotals | src/challengeforge/evaluation/quality.py:46-75 | A fixed run settles an easy submission after one stage, an ambiguous one after two and any other after three, at cost 1, 4 and 13, always on safe evidence. |
| Quality.ExpensiveTotals | src/challengeforge/evaluation/policy.py:44-49 | The always_expensive mode runs all three stages at cost 13. |
| Quality.FixedRunIsUnique | src/challengeforge/evaluation/progressive.py:80-156 | Fixed runs from one stage are equal whatever surrounds them. |
| ArtifactProtocol.StepKeeps | src/challengeforge/application/submissions.py:201-233 | Each step of upload, commit, compensation, replacement, crash and reconciliation keeps the invariant under which committed keys have blobs. |
| ArtifactProtocol.CommitFinds | src/challengeforge/application/submissions.py:116-150 | A key that is about to be committed in time still has its blob, whatever the reconcilers did. |
| ArtifactProtocol.DoomedIsUnreferenced | src/challengeforge/application/artifacts.py:103-118 | A key a reconciler has decided to delete, and that still has its blob, is referenced by no row, even if rows committed since its snapshot. |
| ArtifactProtocol.NoRunDangles | src/challengeforge/application/artifacts.py:78-118 | In every interleaving, with crashes anywhere, each committed key has its blob if the grace window exceeds the delays, except keys whose commit took hold while the request was told it failed. |
| ArtifactProtocol.RacingRun | src/challengeforge/application/artifacts.py:89-111 | Otherwise there is a run that deletes a committed blob although every commit was acknowledged. |
| ArtifactProtocol.GraceWindowIsExact | src/challengeforge/application/artifacts.py:89-111 | No run whose commits are all acknowledged dangles if and only if commit delay plus snapshot delay is below the grace window. |
| ArtifactProtocol.CommittedBlobIsSafe | src/challengeforge/application/submissions.py:221-233 | A committed key keeps its blob in every run for as long as its row refers to it, if and only if no request that was told its commit failed is still to compensate. |
| ArtifactProtocol.LostCommitDangles | src/challengeforge/application/submissions.py:147-150 | A commit whose acknowledgement is lost leads to a committed key without its blob, whatever the timing. |
| ArtifactUpdates.ArtifactStore.Store | src/challengeforge/application/submissions.py:201-233 | Storing an artifact is all or nothing: the row has the new key and the replaced blob is gone, or rows and blobs are as before; a failing delete leaves one orphan; only a commit that took hold unacknowledged leaves the row without its blob. |
| Reconcile.ReconcileOrphans | src/challengeforge/application/artifacts.py:78-118 | A key some reference names is never deleted; any other key under the prefix is deleted exactly when it is old, deletion is on and works; each is reported under its verdict; references without a blob, or of unknown existence, are reported as such. |
| Reconcile.FindMissing | src/challengeforge/application/artifacts.py:96-101 | The referenced keys without a blob are reported, those that cannot be checked apart. |
| Reconcile.VerdictsMean | src/challengeforge/application/artifacts.py:92-118 | What each verdict means in terms of the list of references, the modification time, the grace window and the faults of the store. |
| Reconcile.CountsMean | src/challengeforge/application/artifacts.py:103-108 | The counts are those of the keys under the prefix and of those that no reference names. |
| Reconcile.CompensateDelete | src/challengeforge/application/artifacts.py:68-75 | Removes at most the one key, never raises, and tells whether it removed something. |
| Reconcile.VerdictsAccountForAll | src/challengeforge/application/artifacts.py:103-118 | The five verdicts account for every scanned key exactly once. |
| Reconcile.ReconcileIsFixpoint | src/challengeforge/application/artifacts.py:78-118 | What is left under the prefix is the referenced, the young and the undeletable; no referenced key is deleted; a second pass deletes nothing. |
| Reconcile.ReconcileTwice | src/challengeforge/application/artifacts.py:78-118 | Of two passes in a row the second deletes nothing, scans exactly what the first left, and reports the same young keys and failed deletes. |
| Reconcile.EarlierPassMakesNoDifference | src/challengeforge/application/artifacts.py:103-118 | An earlier pass makes no difference to what a later one leaves. |
| Acceptance.Gate | src/challengeforge/application/submissions.py:55-70 | The gate lets a create pass exactly for a published challenge of a published hackathon, and reports a conflict exactly for a closed one. |
| Acceptance.StepKeeps | src/challengeforge/application/submissions.py:112-146 | Every step of every transaction keeps the protocol's invariant, and rows keep identity and terminal status. |
| Acceptance.AboutToCommit | src/challengeforge/application/submissions.py:112-137 | A row that is about to be committed has a published challenge and a key no committed or pending row has. |
| AcceptanceRuns.KeysAreIdempotent | src/challengeforge/persistence/models.py:127-133 | In every reachable state all creates that got a submission for a participant's key got the same with the same fingerprint, one at most by creating it, and a create refused for the key had another fingerprint than they. |
| AcceptanceRuns.OneRowPerKey | src/challengeforge/persistence/models.py:127-133 | In every reachable state a participant's key names at most one submission. |
| AcceptanceRuns.CommittedRows | src/challengeforge/application/submissions.py:128-137 | In any run a submission is only added by the commit of a create, and then has the request's challenge, participant, metadata, artifact and key, the fingerprint if there is a key, and status CREATED. |
| AcceptanceRuns.LoserFindsWinner | src/challengeforge/application/submissions.py:138-146 | After a collision of keys the second lookup always finds a row, so the integrity error is not raised. |
| AcceptanceRuns.RetriesReplay | src/challengeforge/application/submissions.py:72-110 | Once a create got a submission for a key, every later retry finds that one, whatever ran in between: replayed for an equal fingerprint, refused for another. |
| AcceptanceRuns.SubmittedIsEvaluatedOnce | src/challengeforge/persistence/models.py:198-202 | A submission is SUBMITTED exactly when it has one evaluation, and otherwise has none; a pending submit never meets one. |
| AcceptanceRuns.StatusesFollowTheTable | src/challengeforge/domain/submission_state.py:4-26 | Over any run a submission stays, keeps owner, challenge, key and fingerprint, and its status makes at most one move of the table. |
| AcceptanceRuns.NewRowsArePublished | src/challengeforge/application/submissions.py:55-70 | A submission is only ever committed while its challenge is published. |
| AcceptanceRuns.ClosedForGood | src/challengeforge/application/challenges.py:82-124 | After a close no submission is committed to the challenge in any run, if and only if no publish that read the draft is pending. |
| AcceptanceRuns.StalePublishIsReachable | src/challengeforge/application/challenges.py:82-102 | Such a pending publish of a closed challenge does occur in a run. |
| AcceptanceRuns.ContentFrozen | src/challengeforge/application/submissions.py:194-226 | Metadata and artifact key of a submission that left CREATED stay in every run, if and only if no edit that saw it CREATED is pending with something else to write. |
| AcceptanceRuns.StaleEditIsReachable | src/challengeforge/application/submissions.py:184-226 | Such a pending edit of a submitted submission does occur in a run, for every edit that changes what was created. |
| Submissions.Create | src/challengeforge/application/submissions.py:88-159 | Whatever other sessions do between its statements, a create is a run of the protocol whose reply is on record and right, and an accepted row is new; undisturbed, a row with the participant's key replays or refuses by its fingerprint, and else a published challenge of an open hackathon takes exactly the requested row, field by field. |
| Submissions.InsertAndCommit | src/challengeforge/application/submissions.py:128-146 | With the shared lock held: the row is committed with every field of the request and nothing else changes, or the create that collided is answered from the winner's row. |
| Submissions.UpdateCreated | src/challengeforge/application/submissions.py:184-244 | Success means the row was its owner's and CREATED when read and has the fields that were to change, whatever other sessions do; each refusal has exactly one cause; undisturbed, exactly that row gets the given fields; a refused update changes nothing. |
| Submissions.Transition | src/challengeforge/application/submissions.py:304-393 | Success means the target status with exactly its evaluation, a repeated submit succeeds exactly on the owner's SUBMITTED row, failures name what the row shows, and a SUBMITTED row without an evaluation is never met, whatever other sessions do; undisturbed, exactly the owner's CREATED row moves. |
| Submissions.CloseChallenge | src/challengeforge/application/challenges.py:104-124 | Success means an owning organizer, a closed challenge, and no create that still holds its lock, whatever other sessions do; undisturbed, each refusal has its cause, and only a published challenge closes. |
| Controller.FromSettings | src/challengeforge/runtime/budgets.py:42-65 | Any settings give limits with 1 <= min <= max: settings in order are kept, any other is cut to the nearest limit, and all thresholds are taken over. |
| Controller.Clamp | src/challengeforge/runtime/budgets.py:67-71 | The value, or the limit it lies beyond. |
| Controller.AdaptiveConcurrencyController.Adjust | src/challengeforge/runtime/controller.py:32-96 | Unless cooling down the limit falls by one under DEGRADED above the minimum and under PRESSURED above the minimum plus one, rises by one for a backlog on a host with room below the maximum, and else stays; a change is dated and recorded with its reason. |
| Controller.RunsAreRecordedAndPaced | src/challengeforge/runtime/controller.py:40-96 | Over any calls and clock the limit stays in range, the history chains from the first to the current value in unit steps, down under pressure and up without, and changes are a cooldown apart. |
| Controller.OneStepPerCall | src/challengeforge/runtime/controller.py:47-96 | No call moves the limit by more than one. |
| Controller.WindowBound | src/challengeforge/runtime/controller.py:41-45 | Any window of time T holds at most floor(T / cooldown) + 1 changes. |
| Controller.SteadyConditionsConverge | src/challengeforge/runtime/controller.py:50-78 | n spaced calls under steady conditions move the limit exactly n steps towards its goal and leave it there. |
| Controller.DegradedFallsToMinimum | src/challengeforge/runtime/controller.py:50-53 | n spaced DEGRADED calls leave max(min, start - n). |
| Controller.PressuredKeepsOneAbove | src/challengeforge/runtime/controller.py:54-59 | n spaced PRESSURED calls leave start if it is at most min + 1, else max(min + 1, start - n). |
| Controller.BacklogRisesToMaximum | src/challengeforge/runtime/controller.py:60-76 | n spaced NORMAL calls with a backlog and room leave min(max, start + n). |
| Controller.NoRoomNoChange | src/challengeforge/runtime/controller.py:60-78 | NORMAL calls without a backlog or without room change nothing, whenever they come. |
| Coalescer.InProcessCoalescer.Start | src/challengeforge/runtime/coalescing.py:35-44 | Up to the await a call joins what is in flight for its key, or leads a new computation, as the protocol step says. |
| Coalescer.InProcessCoalescer.Finish | src/challengeforge/runtime/coalescing.py:45-55 | The leader resolves its future and frees its key in one step. |
| Coalescer.CoalescingIsSound | src/challengeforge/runtime/coalescing.py:32-55 | In every reachable state: one running computation per key, submissions are computations plus joins, computations are the futures and failures those that raised, unresolved futures are in flight unless their leader was cancelled, and every caller returned its leader's outcome. |
| Coalescer.JoinersReturnUnlessStranded | src/challengeforge/runtime/coalescing.py:44-55 | A waiting caller can still return if and only if its leader was not cancelled. |
| Coalescer.StrandedIsReachable | src/challengeforge/runtime/coalescing.py:45-55 | A run in which a joined caller is left waiting by a cancelled leader. |

## Left out

- HTTP, authentication and roles, templates, SQL text, migrations, sessions and logging; a statement or a commit is one atomic step.
- SHA-256, UUID generation and JSON encoding: digests are arbitrary functions, identifiers are fresh; `content_sha256` and the metadata size limit are not modelled.
- Unicode digits in the list pattern are an arbitrary predicate; white space is the concrete set of `str.isspace`.
- Blocks.ListItemTest: assumes of digits that none is white space or a full stop.
- `chunk_fixed_chars`, retrieval, backlog thresholds and admission: comparison code, or settled by reading one branch.
- Stage execution, CPU and memory measurement, and parsing of `workload_kind`: the outcome of a stage is a function of its index, the kind is given already parsed.
- Infrastructure errors inside a stage, which abort a run without a result.
- The ingestion worker's queue, and enqueuing an ingestion job after an artifact is stored.
- Reconcile.ReconcileOrphans: every listed key has a modification time.
- Reclaiming abandoned staging files in `reconcile_orphans`, and a modification time that is unknown because the blob vanished during the scan.
- Deletion of hackathons, challenges or submissions; no modelled operation deletes a row.
- The normalization of an idempotency key (`strip`, empty means none), artifact size and content type.
- Submissions.Create: a lock that is not granted, or a key another uncommitted row holds, ends the request with an exception where the database would let it wait; the waiting itself is modelled by the steps of the other sessions. The artifact of a create is in `ArtifactUpdates`.
- Submissions.Transition: the workload class, evaluation mode and deadline that a submit copies into the evaluation are not modelled.
- Submissions.UpdateCreated: the blob of an artifact and its replacement are in `ArtifactUpdates`; size limits and enqueuing are not modelled.
- Submissions.CloseChallenge: whether the actor is an organizer and owns the hackathon is given.
- ArtifactUpdates.ArtifactStore.Store: runs without interruption; its steps interleaved with all others are `ArtifactProtocol`. The owner and status checks before it are in `Submissions.UpdateCreated`.
- Coalescer.InProcessCoalescer.Start: the event loop is modelled by the protocol's steps; results are integers.
