# Verified model of the large-diff review pipeline

This project models how ReviewEngine turns changed files into review work, and proves what that
pipeline promises. The parts, in the order data flows through them:

- **Full-path printing and diff parsing** (`Text`, `Parser`, `ParserProperties`, `DiffSections`,
  `FullPath`, `FullPathProperties`, `FullScope`). Whole files are printed as new-file diffs and read back by the
  line-driven unified-diff parser. The diff format is the one of POSIX.1-2017, utility `diff`,
  section "Diff -u or -U Output Format".
- **Chunking** (`Packing`, `Chunker`, `ChunkerProperties`, `SemanticChunk`). A greedy packer under a
  token budget, by file, by hunk, adaptively, or by module.
- **Routing** (`Routing`, `RouteChunks`, `RoutingProperties`, `Pipeline`, `DirectoryReview`). The
  four-phase allocation of chunks to experts, and the theorems that join it to chunking and printing.
- **Coverage ledger** (`Ranges`, `Coverage`, `CoverageProperties`, `Findings`). Interval sets over
  `u32`, the run of marks that findings cause, and the summary with its conservation law.
- **Expert overrides** (`Overrides`), **automatic weights** (`Weights`), **feedback log** (`Feedback`).

Code that loops or updates in place is modelled by methods and classes proved equal to specification
functions; the theorems are then lemmas about those functions. `u32`, `usize`, `u8` and `i8` are
modelled with their widths: saturation, casts and the absence of overflow are part of the proofs.
Token counts, the glob matcher behind file-pattern triggers, and the outcome of a file write are
parameters, so every statement holds for all of them.

The central idea for routing: whatever the phases do, an expert ends with a prefix of one fixed
preference list (chunks it owns, then content matches, then everything else it accepts), and the
quota only decides how long the prefix is. For chunking: splitting an oversized file by hunks is the
same greedy packing applied to its hunks. For the ledger: a set of lines has one canonical form.

What an operation is for is always stated on its inputs as well, not only through the functions that
specify it: `Route` on the experts' own fields and the quota, `ChunkWith` on the strategy and the
budget, the ledger on the hunks and on the findings, the parser on the characters of a line.

## Where the code and its documentation differ

- `src/diff/large_pr.rs:316-319` says no expert receives more than its fair share. The ownership pass
  can exceed it; `FairShareBound` gives the exact condition and `FairShareExceeded` an input.
- `src/diff/large_pr.rs:320-325` ties lost chunks to C > N × quota. With file-pattern triggers chunks
  are lost at C = N × quota too (`LostWithinCapacity`). `CoveredExactly` says, for any triggers and any
  positive quota, exactly when a chunk has a reviewer: some expert has room for it as its owner, as a
  content match, or within its fair share (`UnlimitedCoverage` for quota 0). A chunk its owner drops may still be covered
  (`DroppedByOwnerKeptByTeam`); for a team that accepts everything the documented condition is the
  right one (`CoverageGuarantee`).
- `src/diff/chunker.rs:233-241` describes a fallback from file to hunk chunking. It never changes the
  result: `AdaptiveChunk` always returns what hunk-level chunking returns. The flag means "some chunk
  is over budget" for every budget except the largest `usize`; `FallbackFlag` covers that one too.
- An oversized file without hunks leaves no chunk at all (`LostFile`), but closes the open one, which
  is the only way hunk-level chunking can use more chunks than needed (`ByHunksOptimal`, `ExtraChunk`).
- `src/input/full_path.rs:3-11` says every line of every file is in scope. Files come back with all
  their lines exactly when the printed diff is at most 10 MiB, no path starts with `b/`, no content is
  a lone line feed, and no line ends in a carriage return once its line ending is taken off
  (`RoundTrip`). A lone line feed is one blank line that is never printed; a carriage return is dropped
  once by the printer and once by the reader (`LinesShown`, `LinesLost`). Beyond the size limit nothing
  is in scope (`NothingInScope`).
- Overlapping hunks make `uncovered_changed_lines` exceed the size of the debt (`OverlappingHunks`);
  `Conservation` says exactly when the two agree.

What the comment at `src/actions/init.rs:500` promises does hold: every team that can be selected gets
weights that sum to 100 (`EveryTeamSumsToHundred`). It would hold for up to 15 experts, and could fail
for 16, more than are on offer (`SixteenMayFail`).

## Model

| member | source | states |
|---|---|---|
| Packing.PackConserves | src/diff/chunker.rs:29-69 | greedy packing loses, adds and reorders nothing, and makes no empty run |
| Packing.PackAdmissible | src/diff/chunker.rs:233-241 | below the largest budget a run over budget is a single element |
| Packing.PackNeighbours | src/diff/chunker.rs:41-48 | two neighbouring runs together always exceed the budget |
| Packing.PackOptimal | src/diff/chunker.rs:29-69 | no division into consecutive admissible runs uses fewer runs |
| Packing.SaturationDecides | src/diff/chunker.rs:25-28 | the saturating accumulator decides as the true sum does, for every budget below the maximum |
| Chunking.FinishChunk | src/diff/chunker.rs:223-231 | an open run becomes the next numbered chunk, an empty one nothing |
| Chunking.FillTotalChunks | src/diff/chunker.rs:216-221 | every chunk keeps its files and index and gets the final count |
| Chunking.Chunker.AnyOversizedExists | src/diff/chunker.rs:35-39 | the flag means that some file alone exceeds the budget |
| Chunking.Chunker.AddWholeFile | src/diff/chunker.rs:132-143 | the open run is closed first exactly when the true sum would exceed the budget |
| Chunking.Chunker.ChunkByFilesInner | src/diff/chunker.rs:29-69 | the loop produces the greedy runs, numbered 0..k-1 with total k, and the oversized flag |
| Chunking.Chunker.FlushGroup | src/diff/chunker.rs:159-170 | a group of hunks becomes one chunk holding one partial file |
| Chunking.Chunker.SplitFileByHunks | src/diff/chunker.rs:174-213 | an oversized file becomes one chunk per greedy group of its hunks |
| Chunking.Chunker.OversizedStandsAlone | src/diff/chunker.rs:186-195 | an oversized hunk closes what is open and stands alone |
| Chunking.Chunker.ChunkByHunks | src/diff/chunker.rs:72-104 | the loop produces the hunk-level runs, numbered 0..k-1 with total k |
| ChunkingProperties.HunkRunsUnfold | src/diff/chunker.rs:72-104 | the chunks hold, in order, each fitting file whole and the pieces of each oversized one |
| ChunkingProperties.HunkRunsNonEmpty | src/diff/chunker.rs:223-231 | no chunk is empty |
| ChunkingProperties.UnfoldPairs | src/diff/chunker.rs:174-213 | what a file contributes carries exactly its (file, hunk) pairs |
| ChunkingProperties.ByHunksConserves | src/diff/chunker.rs:72-104 | flattening the chunks gives the input's (file, hunk) sequence in order |
| ChunkingProperties.LostFile | src/diff/chunker.rs:208-213 | a file leaves no trace exactly when it is oversized and has no hunks |
| ChunkingProperties.HunkRunsWellFilled | src/diff/chunker.rs:72-213 | every chunk is fitting files within budget, or one piece of an oversized file within budget or of one hunk |
| ChunkingProperties.HunkRunsWithoutOversized | src/diff/chunker.rs:242-250 | without oversized files hunk-level and whole-file chunking agree |
| ChunkingProperties.AdaptiveChunk | src/diff/chunker.rs:242-250 | adaptive chunking always returns the hunk-level chunks |
| ChunkingProperties.FileRunOverBudget | src/diff/chunker.rs:239-241 | a whole-file chunk is over budget exactly when it is one oversized file alone |
| ChunkingProperties.FallbackFlag | src/diff/chunker.rs:239-241 | exactly when some chunk is over budget, for every budget |
| ChunkingProperties.ByFilesOptimal | src/diff/chunker.rs:18-69 | whole-file chunking conserves the list and uses the fewest chunks |
| ChunkingProperties.PiecesOptimal | src/diff/chunker.rs:172-213 | an oversized file is cut into the fewest pieces |
| ChunkingProperties.ByHunksOptimal | src/diff/chunker.rs:72-104 | hunk-level chunking uses no more chunks than any division that keeps fitting files whole and cuts oversized ones alone, but for one per oversized file without hunks |
| ChunkingProperties.ExtraChunk | src/diff/chunker.rs:91-95 | such a file between two small ones does cost a chunk |
| ChunkingProperties.ByFilesIsWholeFile | src/diff/chunker.rs:18-69 | whole-file chunks: the files in order, each chunk within budget or one file alone, as few as can be |
| ChunkingProperties.ByHunksIsHunkLevel | src/diff/chunker.rs:72-231 | hunk-level chunks: all pairs in order, fitting files whole, every chunk well filled, as few as can be but for the known extra ones |
| ChunkingProperties.ByFilesNeighbours | src/diff/chunker.rs:29-69 | token sums of neighbouring chunks together exceed the budget |
| SemanticChunking.SortIsStable | src/diff/chunker.rs:259-264 | the sort orders by module, keeps the order within a module and every pair |
| SemanticChunking.StableSortUnique | src/diff/chunker.rs:261-262 | any sorted and stable arrangement is that list |
| SemanticChunking.ModulesAdjacent | src/diff/chunker.rs:252-258 | files of one module are adjacent |
| SemanticChunking.KeyParts | src/diff/chunker.rs:266-274 | the key is what stands before the last slash of the new path and after the last dot of the name |
| SemanticChunking.UnfoldSorted | src/diff/chunker.rs:252-264 | cutting files at hunks keeps the module order |
| SemanticChunking.SemanticChunk | src/diff/chunker.rs:259-264 | semantic chunking keeps every (file, hunk) pair |
| Routing.Router.CoveragePass | src/diff/large_pr.rs:356-370 | phase 1 gives every chunk to its round-robin owner and to nobody else |
| Routing.Router.OfferByContent | src/diff/large_pr.rs:376-388 | one chunk is added to the matching experts that do not hold it and have room |
| Routing.Router.ContentPass | src/diff/large_pr.rs:372-390 | phase 2 appends the content matches in chunk order, up to the quota |
| Routing.Router.FirstMissing | src/diff/large_pr.rs:401-402 | the least chunk that is accepted and not held, or none if there is none |
| Routing.Router.FillUp | src/diff/large_pr.rs:400-407 | the loop ends, and what the quota keeps is the expert's final prefix |
| Routing.Router.BalancePass | src/diff/large_pr.rs:397-409 | the same for every expert |
| Routing.Router.Truncate | src/diff/large_pr.rs:416-424 | every list is cut to its first quota entries |
| Routing.Router.Allocate | src/diff/large_pr.rs:329-424 | the four phases refine the prefix-of-preference form |
| Routing.Router.PreferenceMembers | src/diff/large_pr.rs:356-409 | an expert's preference list is exactly what it owns, matches or accepts |
| RouteChunks.TeamSeats | src/diff/large_pr.rs:334-337 | the team is exactly the experts with the review command, in order |
| RouteChunks.PatternFound | src/diff/render.rs:7-18 | a one-line pattern is found exactly in the file header, a hunk header or a diff line |
| RouteChunks.GetsExactly | src/diff/large_pr.rs:344-424 | on triggers, contents and quota alone: exactly when an expert ends with a chunk |
| RouteChunks.ListsAllocate | src/diff/large_pr.rs:343-424 | the allocator gives every expert exactly those chunks, once each, in turn before by content before the rest |
| RouteChunks.FairShareFloor | src/diff/large_pr.rs:392-409 | with a quota an expert ends with the quota, an even share, or all its trigger lets through |
| RouteChunks.Assemble | src/diff/large_pr.rs:435-446 | experts with an empty list are dropped, the others keep their order and get one file group per chunk |
| RouteChunks.Route | src/diff/large_pr.rs:329-447 | review experts only, between 1 and quota groups each; each group is one chunk's files; every expert gets exactly the chunks due to it, once and in order |
| RoutingProperties.OwnerAccepts | src/diff/large_pr.rs:359-369 | a chunk has an owner exactly when some trigger accepts it, and the owner's does |
| RoutingProperties.OwnsInTurn | src/diff/large_pr.rs:359-369 | counting only the experts that accept the chunk, the one with the chunk's number modulo their count owns it |
| RoutingProperties.OpenOwner | src/diff/large_pr.rs:300-302 | with open triggers the owner of chunk i is expert i mod N |
| RoutingProperties.OpenLoad | src/diff/large_pr.rs:300-302 | with open triggers ownership is spread evenly |
| RoutingProperties.AllocationInvariant | src/diff/large_pr.rs:343-424 | no duplicates, every chunk justified, at most the quota, at least the fair share or everything accepted |
| RoutingProperties.FairShareBound | src/diff/large_pr.rs:313-319 | exactly when an expert stays within its fair share |
| RoutingProperties.FairShareExceeded | src/diff/large_pr.rs:313-319 | an input where an expert gets twice its fair share |
| RoutingProperties.EvenTeam | src/diff/large_pr.rs:392-409 | with open triggers and no content matches every expert gets exactly its fair share |
| RoutingProperties.OwnerKeeps | src/diff/large_pr.rs:411-424 | an owner keeps a chunk exactly when fewer earlier chunks than the quota are its own |
| RoutingProperties.AllOwnersKeep | src/diff/large_pr.rs:411-424 | owners keep everything exactly when no ownership load exceeds the quota |
| RoutingProperties.HeldExactly | src/diff/large_pr.rs:356-424 | an expert ends with a chunk exactly when it has room for it as owner, as content match or within its fair share |
| RoutingProperties.HeldUnlimited | src/diff/large_pr.rs:356-390 | with quota 0 an expert ends with exactly what it owns or matches |
| RoutingProperties.FinalOrdered | src/diff/large_pr.rs:356-409 | an expert's list goes by how it got the chunks, then by chunk number |
| RoutingProperties.CoveredExactly | src/diff/large_pr.rs:320-325 | for any triggers and any positive quota, a chunk has a reviewer exactly when some expert has such room |
| RoutingProperties.DroppedByOwnerKeptByTeam | src/diff/large_pr.rs:392-424 | an input where the owner drops a chunk and the balance pass keeps it covered |
| RoutingProperties.UnlimitedCoverage | src/diff/large_pr.rs:356-390 | with quota 0 a chunk is covered exactly when some expert accepts or matches it |
| RoutingProperties.Pigeonhole | src/diff/large_pr.rs:320-325 | full coverage needs C <= N * quota, whatever the triggers |
| RoutingProperties.CoverageGuarantee | src/diff/large_pr.rs:300-325 | with open triggers: full coverage exactly when quota = 0 or C <= N * quota, and then by the owners |
| RoutingProperties.LostWithinCapacity | src/diff/large_pr.rs:320-325 | an input with C = N * quota and an accepted chunk nobody reviews |
| RoutingProperties.QuotaFree | src/diff/large_pr.rs:356-409 | preference lists do not depend on the quota |
| RoutingProperties.QuotaMonotone | src/diff/large_pr.rs:372-424 | a higher quota only extends each expert's list |
| RoutingProperties.CoverageMonotone | src/diff/large_pr.rs:372-424 | raising or lifting the quota never uncovers a chunk |
| Pipeline.ChunkWith | src/team/orchestrator/pipeline.rs:106-111 | "files" gives whole-file chunks, any other strategy hunk-level chunks within the budget, "semantic" in stable module order; every strategy keeps the pairs and numbers non-empty chunks |
| Pipeline.TeamMembers | src/team/orchestrator/pipeline.rs:86 | the routed team is the review experts without the aggregator, all of them |
| Pipeline.PlanWithin | src/diff/large_pr.rs:435-446 | no returned group holds a pair the chunks lack |
| Pipeline.PlanCovers | src/diff/large_pr.rs:435-446 | with open triggers and room, every pair of the chunks is in some returned group |
| Pipeline.ChunkAndRoute | src/team/orchestrator/pipeline.rs:75-127 | end to end: the chunks are those of the strategy, the plan is their routing within the quota, nothing is invented, and nothing is lost when there is room |
| DirectoryReview.SelectedMembers | src/input/full_path.rs:84-109 | printed are exactly the files with a safe path of a kind that is not ignored |
| DirectoryReview.RetainedMembers | src/team/orchestrator/pipeline.rs:64-68 | the filter after parsing keeps exactly the files whose new path is not ignored |
| DirectoryReview.SelectedRetained | src/team/orchestrator/pipeline.rs:64-68 | the filter after parsing drops none of the printed files |
| DirectoryReview.LineGivenExactly | src/input/full_path.rs:3-11 | a plan that covers what was printed gives a line as it is exactly when the content is no lone line feed and the line has no carriage return at its end |
| DirectoryReview.ReviewDirectory | src/input/full_path.rs:82-151 | review fails exactly when no file is reviewable; otherwise, when the diff fits, no path starts with `b/` and the quota leaves room, every line of every reviewable file is given to some expert as shown, unless the file is a lone line feed, and given unchanged (for distinct paths: exactly) when it does not end in a carriage return |
| Ranges.CanonicalUnique | src/coverage/mod.rs:463-464 | a set of lines has only one canonical range list |
| Ranges.SortRangesCorrect | src/coverage/mod.rs:468 | sorting keeps the ranges and the lines they denote |
| Ranges.SortedUnique | src/coverage/mod.rs:468 | the sorted order is unique |
| Ranges.UnionPushLoop | src/coverage/mod.rs:465-483 | the merging loop computes the union function |
| Ranges.UnionPushCanonical | src/coverage/mod.rs:465-483 | the result is canonical and denotes the old lines and the new range |
| Ranges.GapsLoop | src/coverage/mod.rs:437-459 | the sweep over one changed range, with no overflow of the cursor |
| Ranges.UncoveredWithinLoop | src/coverage/mod.rs:432-461 | the nested loops compute the gap function for any input |
| Ranges.UncoveredExact | src/coverage/mod.rs:423-431 | a line is reported exactly when it is changed and not touched |
| Ranges.UncoveredInside | src/coverage/mod.rs:423-431 | every reported range is well-formed and inside one changed range |
| Coverage.HunkRangeMeasurable | src/coverage/mod.rs:402-410 | hunk ranges are well-formed, their length fits `u32`, and it is the hunk's unless the end saturates |
| Coverage.ChangedRangesOfHunks | src/coverage/mod.rs:144 | one range per hunk with new lines, in order, from its first new line to its last |
| Coverage.ChangedLines | src/coverage/mod.rs:402-410 | a line is asked for exactly when some hunk with new lines spans it |
| Coverage.FreshDescribes | src/coverage/mod.rs:140-158 | one untouched target per file with new lines, in order, with its name and the ranges of all its hunks |
| Coverage.TargetsMeasurable | src/coverage/mod.rs:140-158 | so is every changed range of a fresh ledger |
| Coverage.CoverageLedger.FromDiffFiles | src/coverage/mod.rs:140-158 | one target per file that has a hunk with new lines, untouched, with one range per such hunk |
| Coverage.CoverageLedger.MarkTouched | src/coverage/mod.rs:162-170 | only the first target of the file changes: its union, status and experts |
| Coverage.MarkedShape | src/coverage/mod.rs:162-170 | marking changes neither files nor changed ranges |
| Coverage.CoverageLedger.CollectDebt | src/coverage/mod.rs:179-184 | the gaps of a target, as one union |
| Coverage.CoverageLedger.CountLines | src/coverage/mod.rs:189-197 | changed and covered counts, with lengths that fit `u32` |
| Coverage.CoverageLedger.Summary | src/coverage/mod.rs:174-207 | the loop computes totals and debt over all targets in order |
| CoverageProperties.ReplayTouched | src/coverage/mod.rs:162-170 | after any run of marks each touched list is canonical and denotes exactly the marked lines |
| CoverageProperties.ReplayExperts | src/coverage/mod.rs:162-170 | after any run of marks a target names exactly the experts that marked it, once each, and is touched exactly when it was marked |
| CoverageProperties.OrderIndependent | src/coverage/mod.rs:162-207 | runs that mark the same lines leave the same touched lists and the same summary, whatever their order and repetitions |
| CoverageProperties.SameMarksSameLines | src/coverage/mod.rs:162-170 | permuted or repeated marks mark the same lines |
| CoverageProperties.OverlapCounts | src/coverage/mod.rs:413-421 | summed overlap lengths count the touched lines of a changed range |
| CoverageProperties.DebtExact | src/coverage/mod.rs:178-188 | the debt of a target is canonical and exactly its uncovered changed lines |
| CoverageProperties.LinesBalance | src/coverage/mod.rs:189-197 | covered plus uncovered lines against the total, for one target |
| CoverageProperties.TargetBalance | src/coverage/mod.rs:178-197 | the conservation law for one target, with its exact condition |
| CoverageProperties.Conservation | src/coverage/mod.rs:108-110 | covered + debt <= total, equal exactly when no uncovered line lies in two changed ranges; debt empty exactly when all is covered |
| CoverageProperties.DebtNames | src/coverage/mod.rs:178-188 | the debt lists a line under a file exactly when a target of that file has it changed and untouched |
| CoverageProperties.TotalOfDiff | src/coverage/mod.rs:189-193 | a fresh ledger's total is the number of new lines of all hunks |
| CoverageProperties.SufficientExactly | src/coverage/mod.rs:101-110 | a review is sufficient exactly when at most three tenths of the changed lines are uncovered |
| CoverageProperties.OverlappingHunks | src/coverage/mod.rs:189-197 | an input where the law is strict |
| CoverageProperties.MarkNeverHurts | src/coverage/mod.rs:101-110 | one more mark never lowers coverage, changes the total or makes a review insufficient |
| CoverageProperties.MarkPaysDebt | src/coverage/mod.rs:162-188 | one more mark takes exactly its own lines off the debt of the target it reaches, and leaves every other debt |
| Findings.MarkRanges | src/team/orchestrator/validation.rs:58-68 | a file-level finding marks every changed range of its file |
| Findings.BuildCoverageLedger | src/team/orchestrator/validation.rs:48-73 | the first target of a file has exactly the lines touched that a finding on the file is about, and names exactly the experts of those findings |
| Findings.MarksLineExactly | src/team/orchestrator/validation.rs:55-68 | a line is marked exactly when a finding names it, spans it, or names no line and the line is changed |
| Findings.MarkedByExactly | src/team/orchestrator/validation.rs:55-68 | a file is marked by exactly the experts with a finding on it |
| Findings.FindingMarksWellFormed | src/team/orchestrator/validation.rs:55-68 | every finding marks well-formed ranges only |
| Findings.RunConserves | src/team/orchestrator/validation.rs:48-73 | canonical lists and the conservation law for any diff and any findings |
| Findings.WholeFileFindingClears | src/team/orchestrator/validation.rs:45-47 | a file-level finding leaves its file without debt |
| Text.LinesConcat | src/diff/parser.rs:25 | text can be cut after a line feed |
| Text.DecimalRoundTrip | src/diff/parser.rs:137-140 | printing and parsing a number gives it back exactly when it fits `u32` |
| Text.ParentSegmentExactly | src/diff/parser.rs:93-97 | the segment test finds two dots exactly where they stand between slashes or ends |
| ParserProperties.FileStepConsistent | src/diff/parser.rs:47-79 | a line inside a file section keeps the path safe, every hunk line classified and both counters equal to the Add and Delete lines, and adds at most one to them |
| ParserProperties.ParseUnifiedDiff | src/diff/parser.rs:16-87 | the loop runs the line machine; every file has a contained path, lines classified by their first character, and counters that agree with those characters |
| ParserProperties.SafeExactly | src/diff/parser.rs:89-103 | on characters, which paths the parser lets in |
| DiffSections.DeletedHeader | src/diff/parser.rs:105-121 | a header without a second path names the first |
| DiffSections.HeaderNumbers | src/diff/parser.rs:123-142 | the numbers of any hunk header, with or without counts, whatever follows it |
| DiffSections.ModifiedFile | src/diff/parser.rs:16-87 | any modified file reads back whole: both paths, every hunk with its numbers, every line with its kind, both counters |
| ParserProperties.ParseConcat | src/diff/parser.rs:22-86 | where a file section begins, parsing can be cut in two |
| ParserProperties.UnsafeSectionVanishes | src/diff/parser.rs:30-45 | a section with an unsafe path vanishes and changes no other file |
| ParserProperties.ParsedConsistent | src/diff/parser.rs:62-78 | contained paths, kinds by first character, counters equal to the lines that start with a plus and a minus sign, far below `u32` |
| FullPath.RenderNewFileDiff | src/input/full_path.rs:272-293 | the loop prints the new-file diff |
| FullPathProperties.PlusLinesRead | src/input/full_path.rs:286-291 | reading the printed lines back drops at most two trailing carriage returns |
| FullPathProperties.RenderLines | src/input/full_path.rs:272-293 | the printed text, line by line |
| FullPathProperties.PrintablePaths | src/input/full_path.rs:239-258 | exactly which paths are printed, on characters |
| FullPathProperties.HeaderPath | src/diff/parser.rs:105-121 | a safe path comes back from the header unless it starts with `b/` |
| FullPathProperties.HunkLineNumbers | src/diff/parser.rs:123-142 | the printed hunk numbers come back |
| FullPathProperties.ParseRender | src/diff/parser.rs:16-87 | what any printed safe file parses to, for every path |
| FullPathProperties.ParseRenderAll | src/input/full_path.rs:147-150 | printed files parse section by section |
| FullPathProperties.LinesShown | src/input/full_path.rs:273-291 | line by line, how the file's own lines are read back, and that a lone line feed is not printed |
| FullPathProperties.IntactExactly | src/input/full_path.rs:272-293 | printing keeps a file whole exactly when the content is no lone line feed and no line ends in a carriage return |
| FullPathProperties.LinesLost | src/input/full_path.rs:273-287 | the smallest contents that lose a line and a carriage return |
| FullPathProperties.RoundTrip | src/input/full_path.rs:3-11 | every file comes back with all its own lines, in order, exactly when the size limit holds, no path starts with `b/` and every content is kept whole |
| FullPathProperties.PrintedBack | src/diff/parser.rs:16-87 | whatever the contents, everything printed comes back exactly under the first two conditions |
| FullPathProperties.DirectoryB | src/diff/parser.rs:109 | a path below directory `b` that does not come back |
| FullPathProperties.LineCountFits | src/input/full_path.rs:279 | within the size limit line counts fit the header |
| FullScope.EveryLineInScope | src/coverage/mod.rs:140-158 | the ledger asks for lines 1..n of every file with n lines and nothing else, except the blank line of a lone line feed; the total falls short by just those |
| FullScope.NothingInScope | src/diff/parser.rs:17-20 | beyond the size limit the ledger is empty |
| Overrides.ExpertOverrides.Record | src/config/expert_overrides.rs:124-141 | stated fields win, an empty prompt clears, an empty entry goes |
| Overrides.ExpertOverrides.ApplyTo | src/config/expert_overrides.rs:148-171 | every expert patched in place in any iteration order, none added, and the number reached |
| Overrides.ExpertOverrides.ToSetting | src/config/expert_overrides.rs:178-182 | reading the stored value back gives a clean map again exactly when all its weights are at most 100 |
| Overrides.ExpertOverrides.FromSetting | src/config/expert_overrides.rs:203-269 | any JSON value is read, in any order of its entries |
| Overrides.ReplayLastStated | src/config/expert_overrides.rs:112-141 | a stored entry is what the log last stated, and never empty |
| Overrides.ReplayApplied | src/config/expert_overrides.rs:148-171 | the effective expert after any log over any config |
| Overrides.ApplyIdempotent | src/config/expert_overrides.rs:148-171 | applying twice changes nothing more |
| Overrides.DecodedClean | src/config/expert_overrides.rs:184-202 | whatever the row holds, the result is clean and within the weight range |
| Overrides.DecodedExactly | src/config/expert_overrides.rs:203-269 | each stored field counts on its own, exactly when it has the right type and range, whatever stands beside it |
| Overrides.EncodedExactly | src/config/expert_overrides.rs:173-182 | a stored entry has exactly the fields the override states, with their values |
| Overrides.SettingRoundTrip | src/config/expert_overrides.rs:173-269 | storing and reading back is a round trip exactly when all weights are at most 100 |
| Overrides.ReplayRoundTrip | src/config/expert_overrides.rs:173-269 | what a log of edits leaves survives storage exactly when every weight it states last is at most 100 |
| Weights.AutoWeights | src/actions/init.rs:493-509 | rounded percentages with one largest entry corrected through the casts |
| Weights.PercentBounds | src/actions/init.rs:497 | a rounded percentage is the one within half a point, halves rounded up, and never above 100 |
| Weights.CastIsExact | src/actions/init.rs:503 | the `i8` cast never changes the difference, for any list |
| Weights.SumsToHundred | src/actions/init.rs:500-508 | the sum is 100, and the clamp is idle, exactly when the overshoot is at most the largest entry |
| Weights.FifteenSumToHundred | src/actions/init.rs:500-508 | up to 15 experts always sum to 100 |
| Weights.EveryTeamSumsToHundred | src/actions/init.rs:500-508 | every selection from the experts on offer gets weights that sum to 100 |
| Weights.SixteenMayFail | src/actions/init.rs:500-508 | the bound of 15 is tight: sixteen weights, more than are on offer, that end at 101 |
| Feedback.LatestWins | src/feedback.rs:134-147 | the verdict on a finding is its newest record, the later one on ties |
| Feedback.LoadFalsePositives | src/feedback.rs:138-154 | exactly the findings whose winning record is a false positive |
| Feedback.SessionAndRestart | src/feedback.rs:177-193 | whatever writes fail in a session, a restart finds the old log and every record up to the last successful write |
| Feedback.FeedbackStore.Record | src/feedback.rs:186-193 | the record is kept in memory, and the file changes only when the write succeeds |
| Feedback.RecordAndReload | src/feedback.rs:186-193 | a written record survives a restart, a failed write leaves the old log |
| Feedback.FeedbackStore.StatsByCategory | src/feedback.rs:201-237 | overall and per-category counts |
| Feedback.StatsExactly | src/feedback.rs:201-237 | a category counts its records, those called useful and those called false; a record without one is "unknown" |
| Feedback.OverallExactly | src/feedback.rs:201-237 | the totals count all records, the useful and the false ones |
| Feedback.CategoriesAddUp | src/feedback.rs:201-237 | the categories add up to the totals, and both verdicts to the number of records |

## Left out

- Tokenizer: token counts are arbitrary functions of a file and of a hunk.
- Glob matching of file-pattern triggers (`src/diff/large_pr.rs:449-482`): an arbitrary predicate.
- The branch for small diffs, which gives the whole diff to every expert: only chunking and routing are modelled.
- Large-PR assessment, compression levels (the files are those that compression leaves), ignore lists and language detection: threshold tests and table lookups.
- File system, git and symlink handling of full-path review: the model starts from a list of paths and contents.
- Sorting the files by path before printing (`src/input/full_path.rs:137`): the theorems hold for every order. Unreadable, non-UTF-8 and linked files are not in the model's list.
- Floating point: ratios are compared by cross-multiplication, percentages are exact and rounded half up, and the false-positive rates are not modelled.
- Manual weights, prompts and printing of `src/actions/init.rs`.
- Truncation accounting and the debt preview of `src/coverage/mod.rs:122-398`: filtering and counting.
- Sums of line counts are unbounded: a `usize` total would need more changed ranges than memory holds.
- Line numbers inside a parsed diff line are always absent, as in the parser; the model carries them only as fields.
- Logging, locking of the feedback store and the fingerprint hash: fingerprints are opaque keys.
- JSON text: the model starts from a parsed JSON tree whose objects have unique keys.
- ChunkingProperties.HunkRunsWellFilled: budgets below the largest `usize` only; at the largest one nothing is oversized and one chunk holds everything, which FallbackFlag covers.
- SemanticChunking.SemanticChunk: the standard library's sort is a function; StableSortUnique shows that no other result is possible.
- DirectoryReview.ReviewDirectory: takes the large-diff branch without compression, because a compression level may drop files on purpose.
- DiffSections.ModifiedFile: paths that start with `a/` or `b/` are excluded, because the parser strips those prefixes repeatedly and the path comes back shortened (`DirectoryB`).
