# Verified models of the agent's core

A Dafny model of the parts of the agent whose correctness rests on more than one function: how documents are
cut into chunks, how turns, checkpoints, tool results and tool calls are kept, and how actions, searches and
runtimes are coordinated. Every module states what its component is for and proves it for all inputs, all
runs, or all interleavings.

| component | modules |
|---|---|
| document chunking | `SlidingWindow`, `BoundaryMerge`, `BoundaryLaws`, `Sectioning`, `MarkdownSections`, `JsonChunks` |
| context of earlier turns, token counts | `TurnContext`, `TurnContextProperties`, `TokenCache`, `RecentlyUsed` |
| write-ahead checkpoint | `Checkpoint` |
| tool calls and responses | `ToolCalls`, `ToolCallFlush`, `ToolCallFilter` |
| escape repair | `EscapeRepair`, `EscapeProperties` |
| parallel batches | `ActionScheduler` |
| merged search | `SearchMerge`, `SearchOrder` |
| condensed event log | `CondensedView` |
| runtime watchdog | `Watchdog`, `WatchdogRuns`, `WatchdogTimeouts` |
| tool-result budget | `ToolResultBudget`, `ToolResultBatches`, `ToolResultOutcome`, `FrozenPreviews` |
| blackboard | `BlackboardStore` |
| Python strings, dictionaries, sorting | `PyText`, `PyCollections` |

The shape is the same throughout. Where the program computes by expressions, the model has functions. Where it
loops or updates an object, the model has a method with the loop, or a class with the fields, proved equal to a
function of the inputs or of the old state; the lemmas then say what that function is worth: some spell its result
out on the fields of the input, the others are the laws the component exists for. Sizes, overlaps, thresholds and
texts are parameters unless the program fixes them.

Hashes are injective (`Sha` is a constructor), token counters and preview texts are arbitrary functions, and
syntax trees are arbitrary lists of boundaries. Clocks, disk failures, crashes and the order in which threads
and jobs proceed are inputs, so that a statement for all inputs is one for every schedule. In `Checkpoint`
every file-system call has a fate of its own: it works, fails, is denied, or the process dies before it; a crash
after a call is a crash before the next.

Some statements came out differently from what the code or its comments suggest:

- `chunk_markdown` with an overlap of 0 would drop the line that makes a section overflow; `MarkdownWithoutOverlap`
  says exactly when. The shipped table gives Markdown an overlap of 500, so this case is not reached with it.
- `chunk_json` gives no chunk to a scalar over the size limit, nor to a top-level scalar.
- The boundary merger measures sizes and boundaries in bytes and slices by characters. It loses no text however
  sizes are measured, and even for boundaries out of order; but out of order it could empty a chunk. The syntax tree
  lists its nodes in document order, so that case is not reached from there. The sliding window limits chunks in
  characters.
- One strict repair is not idempotent when a quote stands behind three or more backslashes, and it does not
  invert a serializer that escaped quotes twice.
- `commit` can return with the record still in place, commits under any token, and an inspection that cannot
  read the file deletes it without evidence; `InspectionChangesNothingIff` says exactly when an inspection leaves all
  as it was.
- The watchdog reads the clock before it takes the lock, so a late `watch_runtime` can set an entry's last activity
  back. `EarlyTimeoutAfterRunIff` says exactly when an early timeout can follow: when the last update of some watched
  runtime was such a late watch.
- Between popping an overdue runtime and terminating it the runtime can be watched again, and is terminated all the
  same; `TerminatedIsWatchedIff` says exactly when.
- Switching the watchdog off between its unlocked check and the comparison under the lock times out every runtime that
  has been idle at all; `OffTimesOutIffArmed` says exactly when a watchdog that is off still times one out.
- Which of several equally good hits a search returns depends on the order in which its jobs complete;
  `OrderMattersIffTied` says exactly when.
- Search keys join document id and chunk index by a colon and leave the collection out: chunks without an index, chunks
  that agree in both in two collections, and chunks whose index holds a colon can push each other out of the results.
- Truncating a tool output that could not be written lengthens it unless it has more than 3000 characters and the marker.
- The action scheduler's comments speak of a `file_write` category; the code calls it `file_edit`, and the model follows the code.

`dafny verify dfyconfig.toml` checks the project.

## Model

| member | source | states |
|---|---|---|
| SlidingWindow.SlidingWindowChunk | backend/knowledge/smart_chunking.py:528-559 | the loop, proved against the list of non-blank windows: it ends whenever the size exceeds the overlap, and chunk i is the i-th such window with index `startIndex + i` |
| SlidingWindow.WindowCount | backend/knowledge/smart_chunking.py:537-558 | exactly ceil(n / (size - overlap)) windows are examined, and the k-th starts at k * (size - overlap) |
| SlidingWindow.WindowsRebuildText | backend/knowledge/smart_chunking.py:537-558 | the first (size - overlap) characters of all windows, one after the other, are the text |
| SlidingWindow.SpansAreWindows | backend/knowledge/smart_chunking.py:541-557 | every emitted chunk is one of the examined windows, lies within the text, is at most `size` long and not blank |
| SlidingWindow.WindowsCover | backend/knowledge/smart_chunking.py:528-559 | every character that is not white space lies in an emitted window: dropping blank windows loses white space only |
| BoundaryMerge.MergeHandleOversizedSegment | backend/knowledge/smart_chunking.py:403-422 | the sub-chunks are slices of the whole document at the shifted windows, carry no recorded start, and are numbered on |
| BoundaryMerge.MergeAppendOrExtendChunk | backend/knowledge/smart_chunking.py:424-467 | replaces the last chunk in place or appends one with overlap, for any measure of size; chunk i stays a slice of the document and carries index i |
| BoundaryMerge.MergeOne | backend/knowledge/smart_chunking.py:484-511 | one turn of the loop takes the chunk list to the next step of the scan |
| BoundaryMerge.MergeBoundariesIntoChunks | backend/knowledge/smart_chunking.py:469-526 | the chunk list shows exactly the merged pieces, for any measure of size: each chunk a contiguous slice, chunk i with index i |
| BoundaryMerge.OversizedIsSafe | backend/knowledge/smart_chunking.py:403-422 | putting the sub-windows of an oversized segment behind the chunks uncovers nothing |
| BoundaryMerge.AppendOrExtendIsSafe | backend/knowledge/smart_chunking.py:424-467 | neither replacing the last chunk from its recorded start on nor dropping a blank one uncovers a character that is not white space |
| BoundaryMerge.MergingLosesNothing | backend/knowledge/smart_chunking.py:469-526 | every non-blank position of the document lies in some chunk, for every list of boundaries, sorted or not, whatever they count and however sizes are measured |
| BoundaryMerge.StepGrows | backend/knowledge/smart_chunking.py:424-511 | with ascending ends, and when a longer text is not measured shorter, a step only lengthens chunks, and a chunk without a recorded start appears only once the scan is past the size limit |
| BoundaryMerge.SortedMergeOnlyGrows | backend/knowledge/smart_chunking.py:469-526 | with ascending boundaries, and when a longer text is not measured shorter, no chunk, once made, ever loses text, and no final chunk is blank |
| BoundaryMerge.UnorderedMergeCanEmptyAChunk | backend/knowledge/smart_chunking.py:438-451 | a list of boundaries out of order, as the syntax tree does not list them, for which a chunk is replaced by an empty one: the order hypothesis is needed |
| BoundaryMerge.ScanBoundsSize | backend/knowledge/smart_chunking.py:403-467 | counted in characters, of the chunks made by the scan only the first can be longer than the limit plus the overlap, when every character is measured as a byte or more |
| BoundaryLaws.NeighboursAreTooLarge | backend/knowledge/smart_chunking.py:438-451 | merging is thorough: for ascending boundaries and a measure under which longer texts are not shorter, the text from the start of a chunk to the end of the next measures more than the limit, unless one of them comes from the sliding window |
| BoundaryLaws.NeighboursShareOverlap | backend/knowledge/smart_chunking.py:453-467 | chunks share what they should: a chunk behind another, if not from the sliding window, starts exactly the overlap before the end of a boundary, or at the beginning, and only white space lies between the chunk before it and that end |
| BoundaryLaws.FirstIsNoWindow | backend/knowledge/smart_chunking.py:453-511 | the first chunk of the scan is never from the sliding window, and starts at the beginning or exactly where some boundary ends |
| BoundaryLaws.LastIsTheRest | backend/knowledge/smart_chunking.py:512-526 | the last of all chunks holds just the text behind the last boundary, unless that is blank |
| PyText.Utf8IsMeasure | backend/knowledge/smart_chunking.py:403-467 | the length in UTF-8, which the program uses, is a measure of both kinds |
| PyText.CharBytes | backend/knowledge/smart_chunking.py:403-467 | a character takes the fewest bytes whose payload of 7, 11, 16 or 21 bits holds its number |
| PyText.SpacesAre | backend/knowledge/smart_chunking.py:151-151 | white space, as stripping and the line patterns (96, 246) see it, is 29 characters |
| BoundaryMerge.ChunkCode | backend/knowledge/smart_chunking.py:319-346 | the merged chunks without their recorded starts, or the sliding window with its own limits when there is no tree or no chunk |
| BoundaryMerge.CodeChunksCoverText | backend/knowledge/smart_chunking.py:319-346 | chunking code never loses a character that is not white space, with or without a syntax tree |
| Sectioning.AppendChunk | backend/knowledge/smart_chunking.py:164-183 | a section becomes a chunk with its stripped text unless it is blank |
| Sectioning.FlushSection | backend/knowledge/smart_chunking.py:286-301 | appends the section and moves the index on exactly when a chunk was made; the first half of `_flush_section` (139-156) is the same |
| Sectioning.ChunkYaml | backend/knowledge/smart_chunking.py:234-284 | the loop over the lines, proved against the YAML sections, with the fallback when there is no chunk |
| Sectioning.YamlScanInv | backend/knowledge/smart_chunking.py:249-274 | the sections so far and the current one are the lines so far, in order, and every cut was needed |
| Sectioning.YamlPartitions | backend/knowledge/smart_chunking.py:249-278 | the sections partition the lines in order; each fits the limit or is one line, a document start is always first, and no cut is made that was not needed |
| Sectioning.WellCutMeaning | backend/knowledge/smart_chunking.py:249-278 | what that says of each single section and of each cut between two of them |
| Sectioning.StartsDocumentMeaning | backend/knowledge/smart_chunking.py:247-249 | a document starts at lines of three dashes with only white space behind them |
| Sectioning.YamlRebuildsContent | backend/knowledge/smart_chunking.py:234-284 | the texts of the sections joined by newlines are the document |
| Sectioning.ChunksAreKeptSections | backend/knowledge/smart_chunking.py:164-183 | chunk i holds the i-th non-blank section, stripped, and carries index i |
| Sectioning.YamlFallbackIsEmpty | backend/knowledge/smart_chunking.py:280-284 | the sliding-window fallback is reached for blank documents only and then yields nothing |
| MarkdownSections.NextSection | backend/knowledge/smart_chunking.py:157-162 | what a flush leaves as the next section and its size: the carried lines and the new one, or nothing without overlap |
| MarkdownSections.ChunkMarkdown | backend/knowledge/smart_chunking.py:84-137 | the loop over the lines, proved against the Markdown sections |
| MarkdownSections.MarkdownScanInv | backend/knowledge/smart_chunking.py:98-133 | fresh lines so far are the lines so far less the dropped ones, top headers come first, and carried lines repeat the section before |
| MarkdownSections.MarkdownRebuildsLines | backend/knowledge/smart_chunking.py:84-137 | with an overlap, the sections without their carried lines rebuild the document; among fresh lines a level-1 or level-2 header comes first; carried lines are the end of the section before |
| MarkdownSections.SectionsAreBounded | backend/knowledge/smart_chunking.py:84-162 | with any overlap the text of every section is at most the size limit long, or the section has a single fresh line |
| MarkdownSections.SectionsAreCutWhereNeeded | backend/knowledge/smart_chunking.py:95-162 | with an overlap a section ends exactly where it must: at a top header, or at a line with which the size counted so far exceeds the limit; the section behind it opens with that line, after carried lines if and only if it is no header |
| MarkdownSections.CarriedMeaning | backend/knowledge/smart_chunking.py:157-160 | the carried lines are the last of the section, one for every 50 characters of overlap begun, or the whole section when it has fewer |
| MarkdownSections.TopHeaderMeaning | backend/knowledge/smart_chunking.py:95-99 | a section ends at lines that start with one or two `#` and white space |
| MarkdownSections.DroppedIffOverflow | backend/knowledge/smart_chunking.py:119-133 | without overlap a line is dropped if and only if some line overflows a section it does not close as a header |
| MarkdownSections.MarkdownWithoutOverlap | backend/knowledge/smart_chunking.py:119-133 | without overlap, which the shipped table does not use for Markdown, the sections rebuild the document if and only if no line overflows one |
| JsonChunks.ChunkValue | backend/knowledge/smart_chunking.py:198-219 | a value that fits is one chunk; a container that does not is split into its entries; chunks are numbered on |
| JsonChunks.ChunkEntries | backend/knowledge/smart_chunking.py:206-216 | the entries are split one after the other, each under its own path, and numbered on |
| JsonChunks.ChunkJson | backend/knowledge/smart_chunking.py:221-232 | a top-level container is split into its entries, a top-level scalar yields nothing |
| JsonChunks.EntriesConserve | backend/knowledge/smart_chunking.py:198-219 | the scalars in the chunks and the scalars too large for one are together exactly the scalars of the document, each with its path |
| JsonChunks.JsonLosesOversizedScalars | backend/knowledge/smart_chunking.py:185-232 | every scalar is kept if and only if the document is a container without a scalar over the limit |
| JsonChunks.PartsMeaning | backend/knowledge/smart_chunking.py:198-219 | the chunks are exactly the values that fit and to which the way leads through containers that do not |
| ActionScheduler.NewScheduler | backend/orchestration/action_scheduler.py:82-89 | the flag is kept, and the batch size is the larger of one and what is asked for |
| ActionScheduler.NoResourceConflicts | backend/orchestration/action_scheduler.py:190-199 | true exactly when no two actions name the same resource |
| ActionScheduler.Scheduler.DecideParallelBatch | backend/orchestration/action_scheduler.py:145-177 | the loop over the resources and the branches, proved against the decision that `DecisionMeaning` describes |
| ActionScheduler.ClassifyMeaning | backend/orchestration/action_scheduler.py:18-49 | what is read-only, terminal, an edit or none of these, and the resource, told by an action's kind, name, path and session |
| ActionScheduler.DecisionMeaning | backend/orchestration/action_scheduler.py:145-188 | the whole decision told by these: approved if and only if enabled, two or more, of one sort, and no two writing actions name one resource; then the first `maxBatch` actions, or all, are approved and the rest overflows; otherwise the reason says what is missing |
| ActionScheduler.ApprovedTouchDifferently | backend/orchestration/action_scheduler.py:145-199 | of approved actions no two are edits of one file, no two are terminal actions of one session, and edits and terminal actions are not mixed |
| ActionScheduler.ApprovedIffCompatible | backend/orchestration/action_scheduler.py:145-177 | approval if and only if parallel runs are enabled, there are two actions or more, and all only read or all have one writing category and their own resources |
| ActionScheduler.ApprovalSplitsInput | backend/orchestration/action_scheduler.py:179-188 | the approved part and the overflow are exactly the input in order, the part fits the cap, and the overflow is approved in its turn or shorter than two |
| ActionScheduler.DrainLosesNothing | backend/orchestration/action_scheduler.py:145-188 | re-queuing the overflow runs every action once and in order, in compatible batches within the cap |
| ActionScheduler.SettleOne | backend/orchestration/action_scheduler.py:99-143 | an action that has not run finds its own cell as it was at first and leaves the cells of the others alone |
| ActionScheduler.ApprovedBatchIsOrderIndependent | backend/orchestration/action_scheduler.py:145-199 | every order of an approved batch ends in the same world, and every action returns the same, whatever actions of each kind do |
| ActionScheduler.ConflictDependsOnOrder | backend/orchestration/action_scheduler.py:190-199 | for any two actions that share a cell they write, or of which one changes anything and the other may see it, a counting semantics gives different results for the two orders |
| ActionScheduler.NoConflictNoOrder | backend/orchestration/action_scheduler.py:99-143 | any other two actions give the same world and outputs in both orders, whatever they do |
| ActionScheduler.OrderMattersIffConflict | backend/orchestration/action_scheduler.py:99-143 | so the order of two actions matters for some effects and some world if and only if they conflict |
| ActionScheduler.ApprovedIffNoOrderMatters | backend/orchestration/action_scheduler.py:145-199 | the scheduler is neither too strict nor too lax: of two or more actions of one sort exactly those batches are approved in which the order of no two actions can matter |
| SearchMerge.SearchCollection | backend/knowledge/knowledge_base_manager.py:415-462 | keeps the hits whose score, 0.0 when it is missing, is valid and at or above the threshold and whose texts are all present, in order; a hit is skipped otherwise |
| SearchMerge.AcceptMeaning | backend/knowledge/knowledge_base_manager.py:425-459 | a raw result becomes a hit if and only if its score is valid and reaches the threshold and its four texts are not blank; the hit holds its score, its stripped texts, and its index or 0 |
| SearchMerge.AcceptedInOrder | backend/knowledge/knowledge_base_manager.py:425-462 | each raw result takes part on its own and in its place: it adds its hit between those before and those behind it, or nothing |
| SearchMerge.MergeBatch | backend/knowledge/knowledge_base_manager.py:476-489 | one finished job enters the table |
| SearchMerge.MergeResults | backend/knowledge/knowledge_base_manager.py:472-493 | the table after all completed jobs, a failed job adding nothing |
| SearchMerge.Search | backend/knowledge/knowledge_base_manager.py:464-497 | the first `topK` entries (Python slicing, for any integer) of the table sorted by descending score |
| SearchMerge.TakeMeaning | backend/knowledge/knowledge_base_manager.py:496-497 | the slice is a prefix: of as many hits as the limit, or all; with a negative limit all but that many, or none |
| SearchMerge.MergeHoldsBest | backend/knowledge/knowledge_base_manager.py:476-489 | one entry per chunk that was hit, one of the hits on it, and none of them scores higher |
| SearchMerge.MergeIsConfluent | backend/knowledge/knowledge_base_manager.py:472-493 | for any two completion orders the tables have the same chunks with the same best scores |
| SearchMerge.RankedScoresAreConfluent | backend/knowledge/knowledge_base_manager.py:493-496 | the ranked list of scores is the same for any two completion orders |
| SearchMerge.TopScoresAreConfluent | backend/knowledge/knowledge_base_manager.py:464-497 | so is the list of returned scores |
| SearchMerge.RankedListsTheTable | backend/knowledge/knowledge_base_manager.py:493-496 | the ranking is descending and holds exactly the entries of the table, once each |
| SearchMerge.TopHasDistinctKeys | backend/knowledge/knowledge_base_manager.py:464-497 | no key is returned twice |
| SearchMerge.TopHasBestOfItsKey | backend/knowledge/knowledge_base_manager.py:464-497 | a returned hit is one of those that arrived, and the best one under its key |
| SearchMerge.KeysCollideIff | backend/knowledge/knowledge_base_manager.py:478-481 | two hits share a key if and only if they are on the same document id and chunk index, or a colon in an index makes up for one in a document id |
| SearchMerge.KeyIdentifiesChunk | backend/knowledge/knowledge_base_manager.py:478-481 | so a key names one document id and chunk index when indices hold no colon |
| SearchMerge.UnindexedChunksCollapse | backend/knowledge/knowledge_base_manager.py:464-497 | of two different accepted hits with the same document id and no chunk index, or the same one, in whatever collections, at most one is returned |
| SearchMerge.ColonCollapses | backend/knowledge/knowledge_base_manager.py:464-497 | two chunks of different documents of which at most one is ever returned |
| SearchMerge.NoOmittedChunkIsBetter | backend/knowledge/knowledge_base_manager.py:464-497 | no hit on a chunk left out scores above a returned one |
| SearchMerge.TiesDependOnOrder | backend/knowledge/knowledge_base_manager.py:482-496 | two equally good hits for which the returned one depends on the completion order; `SearchOrder.OrderMattersIffTied` has the exact condition |
| SearchOrder.RankedHoldsFirstBest | backend/knowledge/knowledge_base_manager.py:476-493 | the ranking holds, under each key, the first hit to arrive that is best under it |
| SearchOrder.RankedIsStable | backend/knowledge/knowledge_base_manager.py:493-496 | it descends by score, and equal scores stand in the order in which their keys were hit first |
| SearchOrder.RankedInAnyOrder | backend/knowledge/knowledge_base_manager.py:472-496 | unless two jobs would settle the rivalry of two equally good best hits differently, any two completion orders give the same ranking |
| SearchOrder.OrderMattersIffTied | backend/knowledge/knowledge_base_manager.py:464-497 | what search returns, for whatever number of hits, is the same for every completion order if and only if no two jobs would settle such a rivalry differently: by their first best hit under one key, or by which of two keys they hit first |
| SearchOrder.TopInAnyOrder | backend/knowledge/knowledge_base_manager.py:464-497 | so when no two different best hits score the same, the returned hits are the same for every completion order |
| SearchOrder.OneHitOrderMattersIffTied | backend/knowledge/knowledge_base_manager.py:464-497 | when every job brings one hit at most, that is the exact condition |
| CondensedView.CollectPrunedEventIds | backend/context/view.py:100-110 | the ids pruned by any condensation, and those of the condensations and requests themselves |
| CondensedView.CheckUnhandledCondensationRequest | backend/context/view.py:129-137 | the backward scan finds whether a request is unhandled |
| CondensedView.ViewFromEvents | backend/context/view.py:139-179 | the view: what is kept, the latest summary inserted at its clamped offset, and the request flag |
| CondensedView.FoldInvariant | backend/context/view.py:139-179 | the incremental fold remembers exactly the kept events, the removed ids, the latest summary and the flag of the log so far |
| CondensedView.BatchRefinesFold | backend/context/view.py:139-179 | the batch view equals folding one event at a time, for every log, with no hypothesis on ids |
| CondensedView.AppendExtendsView | backend/context/view.py:158-179 | a plain event extends the view by itself if and only if it was not pruned in advance and the summary offset is within the kept list |
| CondensedView.ViewingAgain | backend/context/view.py:139-179 | a view holds no condensations and no requests, and viewing its events again returns them |
| CondensedView.UnhandledMeaning | backend/context/view.py:129-137 | a request is unhandled exactly when no condensation follows it |
| CondensedView.KeepIsFilter | backend/context/view.py:142-147 | the view shows each event that was not removed as often as the log does, and in log order |
| CondensedView.RemovedMeaning | backend/context/view.py:100-110 | an id is taken out if and only if some condensation lists it, has it in its range or carries it, or some request carries it |
| CondensedView.PlainIsShownIff | backend/context/view.py:139-147 | a plain event is shown as often as the log holds it unless its id is taken out, before or behind it; then it is not shown at all |
| CondensedView.ViewMeaning | backend/context/view.py:112-179 | the view is what is kept, with the summary of the last condensation that has one and an offset put there, or at the nearest end when the offset lies outside |
| ToolCallFlush.ToolCallTracking.PopResponses | backend/context/tool_call_tracker.py:30-37 | pops the responses of the listed calls in call order and nothing else |
| ToolCallFlush.ToolCallTracking.Release | backend/context/tool_call_tracker.py:30-37 | a released message is followed by its own responses in call order, and these leave the dictionary |
| ToolCallFlush.ToolCallTracking.FlushResolvedToolCalls | backend/context/tool_call_tracker.py:21-42 | the loop over the pending messages, with both dictionaries updated in place, proved against the flush on values |
| ToolCallFlush.LeftIsRest | backend/context/tool_call_tracker.py:38-41 | popping the collected ids afterwards leaves exactly the messages that were not released |
| ToolCallFlush.FlushConserves | backend/context/tool_call_tracker.py:21-42 | messages and responses before are those left plus those emitted; the output is one block per released message in order; whatever is left still waits for a response |
| ToolCallFlush.SecondFlushIsIdle | backend/context/tool_call_tracker.py:21-42 | a second flush emits nothing and changes nothing |
| ToolCallFlush.EmittedAtMostOnce | backend/context/tool_call_tracker.py:21-42 | over any run of holding, responding and flushing the output is exactly the messages released and the responses emitted; a message is released at most as often as it was held, and a response emitted at most as often as it was stored |
| ToolCallFlush.BlocksHold | backend/context/tool_call_tracker.py:21-42 | the blocks put out hold the released messages and their responses, and nothing else |
| ToolCallFlush.OutputIsAccountedFor | backend/context/tool_call_tracker.py:21-42 | over any run no message is put out more often than it was held or stored as a response |
| ToolCallFlush.FlushedOutputPassesFilter | backend/context/tool_call_tracker.py:21-58 | flushed output is a fixpoint of the filter when responses are stored under their own non-empty ids |
| ToolCallFilter.MatchedMeaning | backend/context/tool_call_tracker.py:93-134 | the matched calls are those whose responses are present, and all of them match exactly when none is missing |
| ToolCallFilter.TrimRaisesIff | backend/context/tool_call_tracker.py:93-112 | trimming raises exactly for an assistant message that calls tools and has no response to any of its calls |
| ToolCallFilter.IncludedTrims | backend/context/tool_call_tracker.py:80-112 | a message that is included has a matched call left, so trimming never raises |
| ToolCallFilter.FilterNeverRaises | backend/context/tool_call_tracker.py:45-58 | the `StopIteration` branch is unreachable |
| ToolCallFilter.FilterMatchesIds | backend/context/tool_call_tracker.py:45-134 | after filtering the ids called are exactly the ids answered, those that were both before; every call left has a response and every response a call |
| ToolCallFilter.FilterIsIdempotent | backend/context/tool_call_tracker.py:45-134 | pairing-closed transcripts pass unchanged; so the filter is idempotent |
| ToolCallFilter.FilterIsLargest | backend/context/tool_call_tracker.py:45-134 | every pairing-closed transcript that arises from the messages by leaving out messages and calls also arises from the filtered one |
| ToolCallFilter.FilterLeavesOut | backend/context/tool_call_tracker.py:45-134 | the filtered transcript arises from the messages by leaving out messages and calls, in order |
| EscapeRepair.SingleLength | backend/core/content_escape_repair.py:146-154 | the first pass shortens the text by one character for each replacement it counts |
| EscapeRepair.DoubleLength | backend/core/content_escape_repair.py:156-162 | the second pass shortens it by two for each |
| EscapeRepair.RenderRunsOf | backend/core/content_escape_repair.py:146-162 | every text is the text of its runs of backslashes |
| EscapeRepair.PassesOnRuns | backend/core/content_escape_repair.py:281-303 | the two passes act on each run of backslashes by itself: one backslash before an escape character goes, then the last two of two or more |
| EscapeProperties.StrictResidueMeaning | backend/core/content_escape_repair.py:165-168 | strict markup has residue exactly when some backslash run stands before an escape character |
| EscapeProperties.StrictRepairByRuns | backend/core/content_escape_repair.py:260-310 | strict repair is determined run by run: one or two backslashes go, three or more lose two, the rest stays; the content changes exactly when residue is detected |
| EscapeProperties.ReplacementsAccountForLength | backend/core/content_escape_repair.py:260-310 | the reported replacements account for the loss of length: one per single replacement, two per double one |
| EscapeProperties.SingleLeavesNoResidue | backend/core/content_escape_repair.py:146-154 | one pass leaves no single-escape residue |
| EscapeProperties.CodeRepairIsIdempotent | backend/core/content_escape_repair.py:227-310 | on code files the content changes exactly when residue is detected, and repairing twice is repairing once |
| EscapeProperties.CodeRepairByRuns | backend/core/content_escape_repair.py:171-303 | on code files the repair is known from the numbers of single escapes, real newlines and literal newlines among the runs: which texts come back as they are, and which have all single escapes replaced |
| EscapeProperties.RunMeaning | backend/core/content_escape_repair.py:145-162 | what the passes make of a run, character by character |
| EscapeProperties.ReportMeaning | backend/core/content_escape_repair.py:260-310 | files of other kinds are left alone; otherwise something was replaced and counted exactly when the content changed |
| EscapeProperties.StrictIdempotentIffNoDeepQuote | backend/core/content_escape_repair.py:260-310 | strict repair of a text is idempotent if and only if it has no quote behind three or more backslashes |
| EscapeProperties.SettleReachesFixpoint | backend/core/content_escape_repair.py:260-310 | repeated strict repair ends in a text without residue, known run by run |
| EscapeProperties.StrictRepairInvertsEscaping | backend/core/content_escape_repair.py:260-310 | repairing backslash-free text that was escaped with one or two backslashes gives it back |
| EscapeProperties.CodeRepairInvertsEscaping | backend/core/content_escape_repair.py:171-182 | on code files once-escaped text comes back if and only if not exactly one character was escaped |
| EscapeProperties.StrictRepairOfTwiceSerialized | backend/core/content_escape_repair.py:260-310 | text escaped twice by a serializer comes back in one repair if and only if it has no quotes; repeated repair always gives it back |
| BlackboardStore.Blackboard.CurrentTotalBytes | backend/orchestration/blackboard.py:93-96 | the bytes of all keys and values, summed in any order |
| BlackboardStore.Blackboard.ValidateLimits | backend/orchestration/blackboard.py:98-126 | the first limit that is broken, in the order they are checked |
| BlackboardStore.Blackboard.Save | backend/orchestration/blackboard.py:36-55 | the file lists exactly the entries of the board, or is as it was when writing fails |
| BlackboardStore.Blackboard.constructor | backend/orchestration/blackboard.py:68-91 | loads the file entry by entry, skipping what is no string or breaks a limit; the limits hold afterwards |
| BlackboardStore.Blackboard.Set | backend/orchestration/blackboard.py:135-142 | ignores an empty key, rejects exactly what breaks a limit without changing anything, and otherwise sets and saves; the limits are kept |
| BlackboardStore.AcceptedIffFits | backend/orchestration/blackboard.py:98-126 | an entry is accepted if and only if the board with it keeps all limits |
| BlackboardStore.LimitsMeaning | backend/orchestration/blackboard.py:18-21 | the limits in numbers, told by any listing of the board: 256 entries, keys of 512 bytes, values of 16 KiB, 256 KiB together |
| BlackboardStore.TotalIsSum | backend/orchestration/blackboard.py:93-96 | the size of a board is the sum over any listing of its entries |
| BlackboardStore.LoadedIfFits | backend/orchestration/blackboard.py:68-86 | an entry of the file is taken over if and only if it is a string and the board read so far keeps all limits with it; otherwise it changes nothing |
| BlackboardStore.LoadedBoardFits | backend/orchestration/blackboard.py:68-86 | whatever the file holds, the loaded board keeps the limits |
| BlackboardStore.ReloadRestores | backend/orchestration/blackboard.py:68-86 | loading a saved board that keeps the limits gives it back, in whatever order its keys were written |
| BlackboardStore.RunsKeepLimitsAndLastSave | backend/orchestration/blackboard.py:68-142 | over every run the board keeps its limits, and a restart gives exactly the board saved last |
| TokenCache.KeysAreInjective | backend/engine/planner.py:765-778 | two requests share a cache key only if they are the same, even when names hold colons |
| TokenCache.Planner.CountMessagesCached | backend/engine/planner.py:746-788 | returns what direct counting would, and moves or adds the key as the most recent |
| TokenCache.Evict | backend/engine/planner.py:786-787 | drops the oldest entries until at most 128 are left and changes no count |
| TokenCache.CacheHoldsMostRecentlyUsed | backend/engine/planner.py:758-788 | after any run of requests the cache holds exactly the most recently used keys, in order of last use, at most 128 |
| RecentlyUsed.TouchNewest | backend/engine/planner.py:771-787 | keeping the newest keys after each use is the same as keeping the newest of the whole history |
| RecentlyUsed.RecencyIsByLastUse | backend/engine/planner.py:771-787 | the recency list holds every key used, once, ordered by last use |
| TurnContext.RecordLookup | backend/engine/planner.py:450-466 | the identity of every user message, by fingerprint and occurrence, and the last user message |
| TurnContext.TurnContextTextMeaning | backend/context/prompt/turn_context.py:8-40 | a text is a context block if and only if it starts, after any white space, with the opening tag |
| TurnContext.IdentitiesDiffer | backend/engine/planner.py:450-466 | two user messages of one transcript never share their identity |
| TurnContext.CollectBlocks | backend/engine/planner.py:537-551 | the context blocks that stand right before the last user message, in order |
| TurnContext.PoolBlocks | backend/engine/planner.py:553-568 | the blocks enter the pool under their digests |
| TurnContext.ReferencedIds | backend/engine/planner.py:587-593 | the block ids the retained turns refer to |
| TurnContext.ReadRecords | backend/engine/planner.py:480-504 | the known blocks of every recorded turn |
| TurnContext.RestoreMessages | backend/engine/planner.py:512-530 | each recorded user message gets its blocks, in place of any context that stood before it |
| TurnContext.PlannerState.RestorePriorTurnContext | backend/engine/planner.py:468-530 | restoring, and whether the current turn was known |
| TurnContext.PlannerState.RecordCurrentTurnContext | backend/engine/planner.py:532-601 | the stored payload after a record |
| TurnContextProperties.RecordKeepsClean | backend/engine/planner.py:553-601 | after every record the stored ids are exactly those the retained turns refer to, each identity occurs once, and at most 64 turns remain |
| TurnContextProperties.RunsStayClean | backend/engine/planner.py:532-601 | the same over any run of records |
| TurnContextProperties.RetainedAreNewest | backend/engine/planner.py:570-586 | after any run the retained turns are exactly the 64 recorded most recently, in that order |
| TurnContextProperties.RestoreStripped | backend/engine/planner.py:506-530 | restoring a stripped transcript puts back the context of exactly the turns the records know |
| TurnContextProperties.RestoreUndoesStrip | backend/engine/planner.py:506-530 | that rebuilds the transcript if and only if the records know every turn that has context |
| TurnContextProperties.RestoreAfterAnyRun | backend/engine/planner.py:468-601 | after any run of records over growing prefixes, restoring gives back exactly the context of the 64 turns recorded most recently |
| TurnContextProperties.RecordThenRestore | backend/engine/planner.py:468-601 | recording, stripping and restoring is the identity if and only if every turn with context is among the 64 recorded most recently |
| TurnContextProperties.UpTo64TurnsRoundTrip | backend/engine/planner.py:468-601 | so with at most 64 turns that have context, all recorded at some time, the transcript comes back exactly |
| Checkpoint.StreamingCheckpoint.FinishFailedWrite | backend/engine/streaming_checkpoint.py:253-259 | the temporary file is removed if that works, and the failure passed on |
| Checkpoint.StreamingCheckpoint.WriteRecord | backend/engine/streaming_checkpoint.py:237-259 | writing step by step, the replace tried up to five times, for every fate of every file-system call |
| Checkpoint.StreamingCheckpoint.Begin | backend/engine/streaming_checkpoint.py:96-119 | a begin that fails leaves the active record as it was; one that returns makes the new record active |
| Checkpoint.StreamingCheckpoint.Remove | backend/engine/streaming_checkpoint.py:289-303 | reads for evidence, unlinks with failures swallowed, then writes the evidence |
| Checkpoint.StreamingCheckpoint.Preserve | backend/engine/streaming_checkpoint.py:261-287 | writes the evidence file, failures swallowed, and does nothing when stale records are not discarded |
| Checkpoint.StreamingCheckpoint.Commit | backend/engine/streaming_checkpoint.py:121-131 | removes whatever record there is, also under another token |
| Checkpoint.StreamingCheckpoint.Discard | backend/engine/streaming_checkpoint.py:133-136 | removes the record |
| Checkpoint.StreamingCheckpoint.InspectRecovery | backend/engine/streaming_checkpoint.py:149-212 | the classification, with what it removes |
| Checkpoint.StreamingCheckpoint.Recover | backend/engine/streaming_checkpoint.py:138-147 | the record exactly when inspection reports it as blocked |
| Checkpoint.ReplaceIsAtomic | backend/engine/streaming_checkpoint.py:244-252 | whatever happens in the five tries the file is the old one or the temporary one |
| Checkpoint.WriteIsAtomic | backend/engine/streaming_checkpoint.py:237-259 | writing is all or nothing wherever it stops; a failed write leaves the old file |
| Checkpoint.WriteEnds | backend/engine/streaming_checkpoint.py:237-259 | a write returns if and only if the temporary file is written and some try to replace works with all before it denied, and the process lives; it raises if and only if it fails and survives the clean-up |
| Checkpoint.EvidenceEnds | backend/engine/streaming_checkpoint.py:261-287 | evidence is whole, torn or as it was, by how far writing it came; failures are swallowed |
| Checkpoint.RemoveIsAtomic | backend/engine/streaming_checkpoint.py:289-303 | removing is all or nothing, and takes the file away exactly when the unlink is reached and works |
| Checkpoint.CallsRefineRegister | backend/engine/streaming_checkpoint.py:96-212 | every call, with every fate of its file-system calls, acts on the file as an atomic register allows |
| Checkpoint.RunsAreCrashSafe | backend/engine/streaming_checkpoint.py:96-303 | over every run, with failures and crashes anywhere, the file is absent or one whole record and its history is one of the register |
| Checkpoint.FileHoldsPending | backend/engine/streaming_checkpoint.py:96-303 | over every run, whatever fails and wherever processes die, the file holds just the last record written and not removed since |
| Checkpoint.BlockedIffUncommitted | backend/engine/streaming_checkpoint.py:149-212 | an inspection reports a blocked record exactly when one is uncommitted, it can be read, and it is not up for automatic discard; and it reports that record |
| Checkpoint.InspectionReportsPending | backend/engine/streaming_checkpoint.py:96-303 | after every run, with crashes between any two file-system steps, an inspection that can read the file reports a blocked record exactly when the last one written was not removed and is not up for automatic discard |
| Checkpoint.InspectionMeaning | backend/engine/streaming_checkpoint.py:149-212 | what every inspection reports and leaves: nothing there is clean, what cannot be read or does not parse is corrupt and removed, a recent record blocks, a stale one blocks or is discarded |
| Checkpoint.BlockedInspectionChangesNothing | backend/engine/streaming_checkpoint.py:175-205 | an inspection that reports a blocked record, or none, has changed nothing |
| Checkpoint.InspectionChangesNothingIff | backend/engine/streaming_checkpoint.py:149-212 | inspecting a recent record, or a stale one that is not discarded automatically, changes nothing if and only if it can be read, the process dies reading it, or the unlink does not work |
| Checkpoint.InspectionKeepsFileIff | backend/engine/streaming_checkpoint.py:149-212 | inspecting any record leaves the file in place if and only if the unlink is not reached or does not work |
| Checkpoint.CommitMayKeepRecord | backend/engine/streaming_checkpoint.py:297-301 | a commit can return and leave the record, since a failing unlink is swallowed; the next inspection then blocks |
| Checkpoint.ReadErrorDeletesRecord | backend/engine/streaming_checkpoint.py:206-212 | one of the fates left by that: a read error of the file system counts as corruption, and a whole, recent record is deleted without evidence |
| Checkpoint.StaleRecordLostExactlyWhen | backend/engine/streaming_checkpoint.py:289-303 | a stale record is lost, from the file and from the evidence, exactly when the unlink works and the evidence is not completed after it |
| Watchdog.ActivityListeners.Add | backend/execution/watchdog.py:113-117 | attaches one new listener |
| Watchdog.ActivityListeners.Remove | backend/execution/watchdog.py:208-213 | detaches one listener |
| Watchdog.RuntimeWatchdog.Refresh | backend/execution/watchdog.py:100-109 | watching again starts the entry afresh and keeps its listener |
| Watchdog.RuntimeWatchdog.AddEntry | backend/execution/watchdog.py:110-126 | watching for the first time attaches a listener and makes an entry |
| Watchdog.RuntimeWatchdog.WatchRuntime | backend/execution/watchdog.py:89-126 | nothing when off or without a stream; otherwise one or the other |
| Watchdog.RuntimeWatchdog.Heartbeat | backend/execution/watchdog.py:136-142 | sets the last activity of a watched entry |
| Watchdog.RuntimeWatchdog.Pop | backend/execution/watchdog.py:128-131 | takes an entry out of the table and returns it |
| Watchdog.RuntimeWatchdog.UnwatchRuntime | backend/execution/watchdog.py:128-134 | the entry leaves the table and its listener is detached |
| Watchdog.RuntimeWatchdog.PopOverdueOf | backend/execution/watchdog.py:185-191 | the loop under the lock |
| Watchdog.RuntimeWatchdog.PopOverdue | backend/execution/watchdog.py:185-191 | exactly the overdue entries leave the table, returned in table order |
| Watchdog.RuntimeWatchdog.EnforceDeadlines | backend/execution/watchdog.py:182-194 | pops what is overdue, detaches it, and returns it |
| Watchdog.RuntimeWatchdog.DetachAll | backend/execution/watchdog.py:192-200 | the listeners of the listed entries are detached |
| WatchdogRuns.WatchEnters | backend/execution/watchdog.py:89-126 | a watch that nobody interrupts enters the runtime with the time it read, and does nothing exactly when the watchdog is off or there is no event stream |
| WatchdogRuns.StepKeepsInv | backend/execution/watchdog.py:89-213 | every interleaved step keeps the invariant of table, listeners, threads and history |
| WatchdogRuns.RunKeepsInv | backend/execution/watchdog.py:89-213 | so does every run |
| WatchdogRuns.EpochsEndOnceAndOnlyWhenOverdue | backend/execution/watchdog.py:128-194 | under any interleaving a timeout ends an epoch only when its last activity is older than the limit at that instant, and each epoch ends at most once |
| WatchdogRuns.NoListenerLeaks | backend/execution/watchdog.py:89-134 | every attached listener belongs to a watched entry or to a popped one not yet detached; when all threads are idle, exactly to the watched ones |
| WatchdogRuns.OnlyTimedOutAreTerminated | backend/execution/watchdog.py:182-206 | only runtimes whose epoch ended by timeout are terminated |
| WatchdogRuns.TimeoutMeansSilence | backend/execution/watchdog.py:89-142 | if no watch used a clock reading older than the last sign of life, a timeout means silence for longer than the limit; `EarlyTimeoutAfterRunIff` has the exact condition |
| WatchdogRuns.StaleWatchTimesOutEarly | backend/execution/watchdog.py:97-109 | a run where it does not: the clock is read before the lock is taken, and the runtime times out at its last sign of life |
| WatchdogTimeouts.EarlyTimeoutIff | backend/execution/watchdog.py:89-142 | a state admits a timeout within the limit of a sign of life, by some way of going on without further stale watches, if and only if one has happened or the last activity of some watched entry lies before its last sign of life |
| WatchdogTimeouts.EarlyTimeoutUnderLimitIff | backend/execution/watchdog.py:89-142 | the same while the limit is left alone: if and only if one has happened or some such entry was heard of within the limit |
| WatchdogTimeouts.SetBackIffLastUpdateStale | backend/execution/watchdog.py:97-142 | after any run the last activity of an entry lies before its last sign of life if and only if the last update of it was a stale watch |
| WatchdogTimeouts.EarlyTimeoutAfterRunIff | backend/execution/watchdog.py:89-194 | after any run an early timeout can follow without further stale watches if and only if there was one already or the last update of some watched runtime was a stale watch |
| WatchdogTimeouts.EntryIsOfLastWatch | backend/execution/watchdog.py:89-142 | after any run an entry holds the runtime, key and session of the last watch, acquired at its clock reading, and the time of the last watch or heartbeat |
| WatchdogTimeouts.OffTimesOutIffArmed | backend/execution/watchdog.py:182-194 | a watchdog that is off and stays off still times a runtime out if and only if a thread that read the clock before it was switched off has yet to take the lock, and by that reading an entry is overdue, or will be once a waiting watch has gone through |
| WatchdogTimeouts.SwitchingOffTimesOutIdle | backend/execution/watchdog.py:183-189 | so switching off between the check and the lock can time out every runtime that has been idle at all |
| WatchdogTimeouts.TerminatedIsWatchedIff | backend/execution/watchdog.py:182-206 | until a popped runtime is terminated, other threads going on in any way, it is watched if and only if it was watched again and not taken out since |
| ToolResultBudget.TruncationShortensIff | backend/context/tool_result_storage.py:130-132 | truncation shortens exactly the outputs of more than 3000 characters plus the marker |
| ToolResultBudget.TruncatedMeaning | backend/context/tool_result_storage.py:130-132 | the first 2000 characters stand before the marker and the last 1000 behind it; of a shorter output the whole |
| ToolResultBudget.WriteItems | backend/context/tool_result_storage.py:137-138 | the items are written back into the result at their indices |
| ToolResultBudget.ReplaceLongest | backend/context/tool_result_storage.py:118-136 | the loop that replaces the longest contents first, and stops as soon as the batch fits |
| ToolResultBudget.ShrinkObservationBatch | backend/context/tool_result_storage.py:102-138 | the batch written back, shrunk if it has to be |
| ToolResultBudget.BudgetEvent | backend/context/tool_result_storage.py:226-249 | one event of the pass, with every reason for a flush |
| ToolResultBudget.ApplyToolResultBudget | backend/context/tool_result_storage.py:204-252 | the whole pass, proved against its fold |
| ToolResultBudget.ShrinkStopsFirst | backend/context/tool_result_storage.py:118-136 | shrinking stops at the first number of replacements after which the batch fits, and only at the end if there is none |
| ToolResultBudget.ShrinkMeaning | backend/context/tool_result_storage.py:102-138 | a batch that fits is left alone; otherwise it fits afterwards or every persistable content of at least half the threshold was replaced; longer ones are replaced first and nothing else changes |
| ToolResultBudget.BudgetSettlesEverything | backend/context/tool_result_storage.py:204-252 | the batches are disjoint stretches of consecutive non-empty observations, in order, each shrunk as it should be; every other position is unchanged or was replaced at once; `BatchesEndForAReason` says why each batch ends |
| ToolResultBatches.BatchesEndForAReason | backend/context/tool_result_storage.py:204-252 | no batch is cut short: each was within the budget until its last observation, and it ends because it is over the budget, because the events end, or because an event follows that is in no batch |
| ToolResultOutcome.ShortStays | backend/context/tool_result_storage.py:89-99 | no content changes that is of another kind or shorter than half the threshold |
| ToolResultOutcome.OutcomeWhenWritesWork | backend/context/tool_result_storage.py:204-252 | while writing works a content changes to its preview only, and every persistable output of the threshold or more is shown by its preview |
| ToolResultOutcome.OutcomeWhenWritesFail | backend/context/tool_result_storage.py:118-136 | while no write works no content is ever a preview: it stays, or is cut |
| ToolResultOutcome.OnlyWritesMadeMatter | backend/context/tool_result_storage.py:204-252 | the outcome depends only on the writes that are made, each decided for itself; on previews only if one of them works, and on the cut outputs only if one fails |
| ToolResultOutcome.BatchOutcome | backend/context/tool_result_storage.py:102-138 | a batch within the budget keeps its contents; one that is still over it afterwards has every persistable content of half the threshold or more replaced |
| ToolResultOutcome.OverfullBatchIsPreviewed | backend/context/tool_result_storage.py:118-136 | while writing works these are replaced by their previews |
| ToolResultBudget.BudgetKeepsShape | backend/context/tool_result_storage.py:204-252 | as many events, in order, each the same or a copy with the same, a preview or a truncated content; only non-empty observations are copied |
| FrozenPreviews.ReplacementStore.PersistToolResultOnObservation | backend/context/tool_result_storage.py:159-183 | freezes the preview of an oversized output once, if it can be written |
| FrozenPreviews.ReplacementStore.ApplyFrozenToolReplacements | backend/context/tool_result_storage.py:186-201 | events with a frozen preview are shown with it, the others as they are |
| FrozenPreviews.FirstPreviewIsFrozen | backend/context/tool_result_storage.py:159-183 | over every run the text frozen for an id is the preview of the first emission that could freeze it |
| FrozenPreviews.PromptShowsFirstPreview | backend/context/tool_result_storage.py:159-201 | every prompt shows an event with the preview of the first emission that froze its id, and as it is when none did |
| FrozenPreviews.FrozenStays | backend/context/tool_result_storage.py:173-176 | what is frozen never changes |
| FrozenPreviews.PromptsAreStable | backend/context/tool_result_storage.py:186-201 | an event shown with a frozen preview is shown with the same in every later prompt; showing twice is showing once |

## Left out

- Document chunks: section names, chunk types, ids, paths as text and other metadata; the JSON chunker's size is any function under which a container is at least as large as each entry, and unparsable JSON is not part of the model.
- BoundaryMerge.MergeBoundariesIntoChunks: chunk metadata that already holds a `_byte_start` from the caller is not modelled.
- SlidingWindow.SlidingWindowChunk: requires the size to exceed the overlap, as `get_chunk_params` arranges; otherwise the loop of the program does not end.
- Sectioning and Markdown lines are those between newline characters; the empty document has one empty line.
- TurnContext: message contents that are lists of parts are modelled by their flattened text, and payload entries of the wrong type and a failing `set_extra` are not modelled.
- TokenCache.Planner.CountMessagesCached: a counter that raises, and two tokenizers that get the same object id, are not modelled.
- Checkpoint: the order in which a power loss lets directory entries reach the disk, errors other than OSError while writing, a crash in the middle of creating the evidence directory, and the text of the JSON.
- Checkpoint.RunsAreCrashSafe: outside changes to the file are excluded; a file that is torn from outside is inspected as the code does, but no run produces one.
- ToolCallFlush.ToolCallTracking.FlushResolvedToolCalls: requires distinct call ids within a message and a list of calls on every pending message; the program's `pop` or assertion fails otherwise.
- `repair_arguments_in_place`, `validate_content_payloads` and `looks_serialized_payload`: plain traversals and single conditions over the repair that is modelled.
- ActionScheduler.ApprovedBatchIsOrderIndependent: actions are atomic and touch only what their kind and their own resource say; what tools really do is not part of the model.
- SearchMerge.SearchCollection: an exception in the middle of a collection, which keeps the hits so far, is modelled as the shorter list of raw hits; query expansion and the vector store are left out.
- Event log: identifiers are integers, and the invalid combinations that the condensation action itself rejects are not built.
- Watchdog: `configure` is one step, a heartbeat's look at the limit and its update are one step, listener handles are unique over all streams, and closing a stream, statistics, idle clean-up and shutdown are left out.
- ToolResultBudget: copying an event by serializing it is taken to keep all its fields but the content, contents are strings, and the preview text is any function of event and content.
- FrozenPreviews.ReplacementStore.PersistToolResultOnObservation: a missing state object, for which the program does nothing, is not modelled.
- BlackboardStore: the asynchronous lock, `get`, `keys` and `snapshot` are left out, and so are strings that cannot be encoded.
