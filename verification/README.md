# Houdini: verified models of its hard parts

Houdini is a GraphQL compiler (Go, over a relational store), a language server (TypeScript) and a
React router. This project models, in Dafny, the parts of it whose correctness is not visible from
reading one function, and proves what the code and its documentation promise. Where a promise does
not hold for every input, the model keeps the code as it is, shows an input on which it fails, and
proves exactly when it does hold.

`dafny verify dfyconfig.toml` checks the whole project. Paths below are relative to the repository.

| files | what they model |
|---|---|
| `Strings`, `Wrappers` | splitting and joining text, decimal numerals, optional values |
| `Braces`, `Glob`, `GlobWalker` | glob patterns: brace expansion, the pattern tree on the heap and its recursive matcher, the include/exclude walker |
| `ParallelWalk`, `ParallelWalkProofs`, `ParallelWalkCounts`, `ParallelWalkProgress` | the worker pool that walks a directory tree, over every interleaving |
| `FragmentCycles`, `PersistedQueries` | the depth-first cycle detector and the breadth-first closure of fragment spreads, for any iteration order |
| `TypeRefs`, `ArgumentValues`, `ArgumentRows`, `ArgumentVerdicts`, `ArgumentTrees`, `ArgumentChecks`, `ArgumentAgreement`, `ArgumentSpecs` | argument typing done twice: literals flattened into rows and judged row by row, and the trees of a directive's literals rebuilt on the heap and checked recursively; what the row check does to the latter |
| `LiveValidation`, `LiveValidationProofs`, `LiveValidationProgress`, `LiveValidationHistory`, `LiveValidationRuns`, `LiveValidationJobs`, `LiveServer` | the language server's event loop: debounce timers, the `running`/`rerun` sets, the lock, saves and closes; `LiveServer` is the code with its fields, driven through any script of events and proved to go through a run of the machine |
| `PipelineDiagnostics` | the diagnostics on screen while pipeline runs and the live path publish side by side |
| `Stdio` | the plugin protocol on standard input and output, where a call reads ahead in the main loop's input |
| `Extraction`, `ExtractionRuns` | the reconciliation of discovered documents with the table, and partial against full extraction |
| `Comments`, `CommentLaws`, `Positions` | blanking comments in place, what that does to comments and to quoted text, and positions in a host file against positions in its GraphQL blocks |
| `Manifest` | what each route directory inherits from those above it |
| `Hrefs`, `RoutePatterns`, `PageRoutes` | filling route parameters into a URL, matching it, and reading the parameters back |
| `Words`, `Hash` | 32-bit arithmetic and the MurmurHash3 of fragment arguments |

## How the code's form is kept

What the source changes in place is a class, an array or a loop here: the pattern tree, the cycle
detector, the argument store, the rebuilt argument nodes, the language server, the diagnostics
panel, the plugin's queue and input, the document table, the comment buffer. Each such method is
proved against a function or a declarative predicate, and the theorems are about those. Protocols
(the parallel walk, the event loop) are state machines whose runs are all their interleavings;
the event loop takes no message or timer while a promise continuation is due.
Map iteration is an arbitrary choice from the keys that are left (`Wrappers.AnyOf`).

Parameters of the models stand for what the code calls but does not decide: whether a single glob
token compiles and matches, which files a path resolves to, the outcome of file reads, plugin
handlers (any finite sequence of calls, depending on the answers), `pageID`. `decodeURIComponent` is
modelled (`PageRoutes.Decode`), after ECMA-262, section 19.2.6, on strings of code points.

## Findings

- The walk's channel can fill up. No interleaving gets stuck while the tree has fewer directories
  with subdirectories than there are workers, or fewer without than `capacity + workers` (excluded
  directories and what lies below them do not count); for all numbers from these on there is a tree
  over which every worker can end up waiting for room forever (`StuckExactly`, `NeverStuck`,
  `CanGetStuck`). Counting all directories, the bound is `capacity + 2 * workers` (`StuckFrom`).
  `walker.go` does not mention a limit.
- A literal is judged row by row as an argument of a field, and recursively as a `@with` argument for
  a variable. For one type on both sides the two agree on every literal exactly when every type its
  input fields lead to is known and, under a built-in name, a scalar (`AgreeIffRegular`,
  `CompareVerdicts`; `UnknownTypeSplits` and `DeclaredIntSplits` are literals on which they do not).
- The rows of a `@with` literal are judged too, under the synthetic type they are stored with: they
  are clean exactly if every object reached from the literal's top through lists gives a field named
  `type` only strings (`SpecificationClean`). A valid `@with(filter: {type: CLICK})` is rejected
  (`ValidFilterRejected`). Those of `@when` and `@when_not` are clean exactly if no such object has a
  field at all (`PassthroughClean`).
- A save made before the server is ready, followed by an edit, drops that edit's validation: the
  save handler, resuming later, clears the newer timer (`EarlySaveLosesEdit`). Over every run, an
  open file's newest edit is validated or going to be exactly if no such save has taken its only
  cover since its last change, close or save (`CoveredExactly`, `NoEditForgotten`); a server that is
  ready from the start never loses one.
- A live pass compares version numbers, and a file closed and opened again counts from the start:
  the answer for the closed buffer can be shown for the new one (`ReopenedFileMisled`). Over every
  run, the live diagnostics of a file with no validation pending are those of its buffer exactly if
  no such answer has been published since its last change, close, save or answer, and none is if no
  change reuses a version number that a pass holds (`LiveDiagnosticsCurrent`).
- Closing a file that is not on disk resets its rows outside the lock; an overlay of its buffer that
  waits behind another job puts them back (`MissingFileKeepsBuffer`, `MissingFile`).
- Merging diagnostics compares the pipeline's with the live ones but not with each other: two errors
  with the same message at the same place are shown twice (`SameErrorTwice`, `MergedUnique`). A live
  publication hides the file's pipeline errors until the next run (`PublishHidesError`,
  `PublishHides`).
- A full walk leaves exactly the walked documents, one row each, exactly if no document had two rows
  before: of two rows of one document only one is known to the reconciliation, and the other outlives
  its file (`DoubleRowOutlivesFile`, `FullWalkReflects`). A file listed twice in a partial extraction
  makes such rows (`ListedTwice`). A walk that fails part-way still removes the rows of every file it
  had not reached (`FailedWalkKeepsReached`).
- Partial extraction agrees with a full walk except for two kinds of files: those below an excluded
  directory, and those included for a static runtime only (`PartialExact`, `ListsDiffer`,
  `BelowExcludedDirectory`). A component field's prop renamed in place keeps its old name
  (`PropsExact`, `RenamedProp`).
- The comment in `extract.ts` says positions after an escaped backtick drift by one column; it is
  one column for each escape before it on its line (`HostPlace`, `TwoEscapesBefore`).
- A pipeline error is moved back by the column of the first block on its line; where a block ends on
  the line on which the next one begins, the next one's errors can come out wrong (`EarlierBlockDecides`;
  `ReportIsHost` says exactly when they come out right).
- A filled URL reads back as it was filled exactly if no left-out optional segment takes a value
  meant for a segment behind it (`ReadsBackExactly`, for every route with its rest segment last): an
  optional segment directly before a rest segment takes the rest value's first segment
  (`OptionalRestExact`), and of two adjacent optional segments the second one's value alone is read
  as the first's (`SecondReadAsFirst`, `TwoOpenExact`).
- Parameter values are filled into a link as they are, but decoded, and the URL cut at its first
  question mark, when they are read back: `100%` makes `exec` throw, `%41` comes back as `A`
  (`PercentFails`), and `a?b` as `a` (`QuestionCuts`). From link to page the parameters come back
  exactly if no optional segment takes another's value, no value contains a percent sign, and the link
  no question mark (`ParamsComeBack`). A segment that mixes text and a bracketed name, as `u-[id]`, is
  filled by a link but taken as text by the pattern, so the link never matches (`MixedNeverMatches`).

## Model

| member | source | states |
|---|---|---|
| Braces.ExpandIsProduct | plugins/glob/walker.go:493-514 | for a pattern of plain text and brace groups, the recursive expansion is the Cartesian product of the groups' options, in order, each choice in its place |
| Braces.ExpandedFully | plugins/glob/walker.go:493-514 | for every pattern, no result of the expansion holds another brace group |
| Glob.AcceptsIffCuts | plugins/glob/walker.go:461-484 | the one-pattern reference matcher accepts a token list exactly if the list can be cut into consecutive spans, one per pattern token: any span for a globstar, one matching token otherwise, and no pattern tail on an exhausted list |
| Glob.PatternTree.AddPattern | plugins/glob/walker.go:432-457 | adds exactly the pattern to the tree's patterns if all tokens compile; a bad token reports failure and leaves the accepted patterns as they were, even though nodes have been grown |
| Glob.PatternTree.Grow | plugins/glob/walker.go:446-452 | a new child keeps the tree a tree: paths stay unique and no accepted pattern changes |
| Glob.PatternTree.MatchHelper | plugins/glob/walker.go:461-484 | below any node, the recursive globstar search answers exactly whether some terminal pattern through that node accepts the remaining tokens by the reference matcher |
| Glob.PatternTree.MatchAnySpan | plugins/glob/walker.go:471-478 | the loop over globstar lengths finds a span exactly if one leads to acceptance |
| Glob.PatternTree.Matches | plugins/glob/walker.go:461-484 | the tree accepts a token list exactly if some added pattern accepts it |
| GlobWalker.Walker.AddTo | plugins/glob/walker.go:32-52 | a configured pattern adds exactly its brace expansions up to the first that does not compile, and succeeds exactly if all do |
| GlobWalker.Walker.Configure | packages/houdini-core/plugin/documents/walk.go:31-43 | the configuration loops succeed exactly if every brace expansion of every pattern compiles, and then each tree holds exactly the tokens of all expansions of its patterns |
| GlobWalker.Walker.Matches | plugins/glob/walker.go:54-57 | a path matches exactly if an include pattern and no exclude pattern accepts its segments |
| GlobWalker.AcceptedAll | plugins/glob/walker.go:32-52 | when every pattern compiles, all of them are accepted |
| ParallelWalk.DueExact | plugins/glob/walker.go:127-149 | a file is due exactly once if it exists, is included, and neither it nor a directory above it is excluded; otherwise never |
| ParallelWalkProofs.StepDelta | plugins/glob/walker.go:95-175 | for every weighting of queued, processed and pending work, each step changes the total by exactly what the step accounts for |
| ParallelWalkProofs.RunHolds | plugins/glob/walker.go:73-177 | in every state of every interleaving the pending counter is the queued plus in-process directories, and for each file reported plus still due plus given up is constant |
| ParallelWalkProofs.QuietAfterRelease | plugins/glob/walker.go:174-177 | once the closer has seen the counter at zero nothing is queued, in process or about to be sent, so nothing is sent after the close |
| ParallelWalkProofs.RunsTerminate | plugins/glob/walker.go:63-182 | every run is finite, bounded by the work in the tree |
| ParallelWalkProofs.OnlyDueReported | plugins/glob/walker.go:140-149 | at no point has a file been reported more often than it is due |
| ParallelWalkProofs.ReportedExactly | plugins/glob/walker.go:63-182 | when an uncancelled, error-free walk has returned, onFile has run exactly once for exactly the files that match and lie in no excluded directory |
| ParallelWalkCounts.RunCounts | plugins/glob/walker.go:73-182 | in no state of any interleaving are more directories with or without subdirectories pending than the tree has |
| ParallelWalkProgress.NextStep | plugins/glob/walker.go:95-177 | while the walk has not returned and the tree is below the bounds or it is cancelled, some step is possible |
| ParallelWalkProgress.NeverStuck | plugins/glob/walker.go:73-182 | with fewer directories to go into that have subdirectories than workers, or fewer that have none than the channel's capacity plus one per worker, no interleaving gets stuck |
| ParallelWalkProgress.SmallNeverStuck | plugins/glob/walker.go:73-182 | nor with fewer directories in all than the capacity plus two per worker |
| ParallelWalkProgress.CancelledNeverStuck | plugins/glob/walker.go:131-138 | a cancelled walk can always go on, whatever its size |
| ParallelWalkProgress.CanGetStuck | plugins/glob/walker.go:131-138 | for every capacity and pool size, and all such numbers from the bounds on, there is a tree and an uncancelled run in which all workers wait forever |
| ParallelWalkProgress.StuckExactly | plugins/glob/walker.go:73-182 | exactly from these two bounds on, some tree with these numbers of directories with and without subdirectories has a run that gets stuck |
| ParallelWalkProgress.StuckFrom | plugins/glob/walker.go:73-182 | exactly from the capacity plus two per worker on, some tree with that many directories in all has a run that gets stuck |
| FragmentCycles.BuildGraph | packages/houdini-core/plugin/documents/validate.go:592-600 | the nodes are exactly the sources and targets, and each node's edges are those of its spreads, in their order |
| FragmentCycles.Detector.Dfs | packages/houdini-core/plugin/documents/validate.go:613-647 | from any path, the search settles all it reaches: exactly the spreads to nodes that finished no earlier close a report, each report is a cycle of the graph, and what is added is about nodes not visited before |
| FragmentCycles.Detector.Close | packages/houdini-core/plugin/documents/validate.go:623-644 | an edge back onto the stack yields the cycle from the target's place on the path, once |
| FragmentCycles.DetectCycles | packages/houdini-core/plugin/documents/validate.go:592-655 | for any iteration order: the search terminates, each reported list is a real cycle closed by the reported spread, every cycle of the graph runs through some closing spread, and there is exactly one report for each spread to a node that finished no earlier |
| FragmentCycles.CycleIsHit | packages/houdini-core/plugin/documents/validate.go:613-655 | a cycle cannot drop in finishing order all the way round, so one of its edges was reported |
| FragmentCycles.SilentIffAcyclic | packages/houdini-core/plugin/documents/validate.go:592-655 | nothing is reported exactly if the graph has no cycle |
| PersistedQueries.Closure | packages/houdini-core/plugin/documents/persistentQueries.go:113-124 | for every spread graph, cyclic or not, the worklist terminates with exactly the names reachable from the operation |
| PersistedQueries.CompleteText | packages/houdini-core/plugin/documents/persistentQueries.go:126-138 | the persisted text is the operation's own print followed by the print of every known reachable fragment, each exactly once and nothing else, in some order |
| TypeRefs.ParseTypeRef | packages/houdini-core/plugin/schema/typeRef.go:25-44 | the scan decodes every string as the modifier grammar reads it |
| TypeRefs.DecodeEncode | packages/houdini-core/plugin/schema/typeRef.go:3-44 | decoding the encoding of a type gives the type back |
| TypeRefs.ItemModifiersStrip | packages/houdini-core/plugin/documents/loadDocuments.go:1461-1467 | trimming the suffixes of a list's modifiers leaves exactly its item's modifiers |
| TypeRefs.DisplayIsRender | packages/houdini-core/plugin/documents/validate.go:1271-1275 | prepending one bracket per closing bracket shows the type as GraphQL writes it |
| TypeRefs.DisplayType | packages/houdini-core/plugin/documents/validate.go:1271-1275 | the loop shows a type with its modifiers as GraphQL writes it |
| ArgumentValues.LeavesAgreeIffRegular | packages/houdini-core/plugin/documents/assignability.go:37-97 | row verdict and recursive verdict agree on every unnested literal exactly if the type is known and a built-in name is a scalar |
| ArgumentValues.BuiltInLiterals | packages/houdini-core/plugin/documents/assignability.go:80-97 | both verdicts on a built-in type take exactly the literals of the specification: an integer also as Float or ID, a block string as a string, null unless forbidden, a list for a list |
| ArgumentValues.OwnTypeLiterals | packages/houdini-core/plugin/documents/assignability.go:60-97 | and on the schema's own types: an enum its values, an input object objects, a scalar the kinds recorded for it |
| ArgumentValues.UnknownTypeLiterals | packages/houdini-core/plugin/documents/assignability.go:72-80 | under an unknown name the recursive check takes any literal but a null or list out of place, the row check no object or enum either |
| ArgumentValues.UnknownTypeSplits | packages/houdini-core/plugin/documents/assignability.go:72-75 | an empty object for an unknown type is a row error and accepted recursively |
| ArgumentValues.DeclaredIntSplits | packages/houdini-core/plugin/documents/assignability.go:80-92 | an integer for an input object named Int is a row error and accepted recursively |
| ArgumentRows.ArgumentStore.ProcessArgumentValue | packages/houdini-core/plugin/documents/loadDocuments.go:1416-1585 | flattening stores the literal's rows and links under consecutive fresh ids with the expected types pushed down, touches no other row, and fails exactly where an argument specification's default value has an unsupported kind |
| ArgumentRows.ArgumentStore.Insert | packages/houdini-core/plugin/documents/loadDocuments.go:1416-1585 | every literal stored before is still stored, and the new one is stored too |
| ArgumentRows.StoredKept | packages/houdini-core/plugin/documents/loadDocuments.go:1474-1490 | a stored literal stays stored in any table that keeps its rows |
| ArgumentVerdicts.RowsAgree | packages/houdini-core/plugin/documents/validate.go:1247-1269 | for every variable-free literal (nested lists, nulls in lists, single-value coercion, unknown fields) of a type from which only regular types are reached, the rows are free of errors exactly if the recursive check accepts the literal |
| ArgumentAgreement.AgreeIffRegular | packages/houdini-core/plugin/documents/assignability.go:37-97 | for one expected type on both sides the two checks agree on every stored literal exactly if every type reached from it through input fields is known and, under a built-in name, a scalar |
| ArgumentSpecs.SpecificationClean | packages/houdini-core/plugin/documents/loadDocuments.go:1315-1324 | a literal stored for @with is free of row errors exactly if every object reached from its top through lists gives a field named type only string or block literals, and a defaultValue block only where a type named Block takes it |
| ArgumentSpecs.PassthroughClean | packages/houdini-core/plugin/documents/assignability.go:45-49 | a literal stored for @when or @when_not is free of row errors exactly if no object reached from its top through lists has a field; scalars, enums and null always are |
| ArgumentSpecs.ValidFilterRejected | packages/houdini-core/plugin/schema/write.go:890-897 | a schema and a @with literal that the recursive check accepts and one of whose rows is reported |
| ArgumentVerdicts.CheckItemsAll | packages/houdini-core/plugin/fragmentArguments/validate.go:431-440 | the verdict on list items is the verdict on each of them, whatever their order |
| ArgumentVerdicts.CheckFieldsAll | packages/houdini-core/plugin/fragmentArguments/validate.go:442-456 | the verdict on object fields is the verdict on each of them, whatever their order |
| ArgumentTrees.Select | packages/houdini-core/plugin/fragmentArguments/validate.go:77-105 | the recursive query selects exactly the rows that are referred to or hang below a selected one |
| ArgumentTrees.SelectsLiteral | packages/houdini-core/plugin/fragmentArguments/validate.go:93-103 | with the first row of a stored literal the query has all its rows |
| ArgumentTrees.Rebuild | packages/houdini-core/plugin/fragmentArguments/validate.go:75-139 | for any iteration order every node's children are exactly the nodes whose parent it is, each once |
| ArgumentTrees.RebuildsLiteral | packages/houdini-core/plugin/fragmentArguments/validate.go:75-139 | the tree rebuilt through parent links represents the source literal up to the order of children, without cycles |
| ArgumentChecks.CheckTypeCompatibility | packages/houdini-core/plugin/fragmentArguments/validate.go:411-486 | the recursion over the rebuilt heap nodes, in whatever order the children were attached, gives the verdict on the source literal |
| ArgumentChecks.ValidateWithArguments | packages/houdini-core/plugin/fragmentArguments/validate.go:281-324 | succeeds exactly if every argument fits its declared variable and every required variable is passed; otherwise reports the first failure, arguments before required variables |
| ArgumentChecks.CheckDirective | packages/houdini-core/plugin/fragmentArguments/validate.go:75-245 | one @with directive from the tables to the verdict: every argument's literal is selected, rebuilt and checked whatever type it was stored under; the first argument that fails, or else the first required variable not passed, is reported |
| ArgumentChecks.CompareVerdicts | packages/houdini-core/plugin/documents/validate.go:1247-1269 | a literal that is a field's argument, judged by its rows under the field's type, and the same literal as a @with argument among others, selected, rebuilt and checked for that type, get the same verdict, that on the literal |
| LiveValidation.SaveKeepsCovered | packages/houdini-lsp/src/diagnostics.ts:221-229 | a resuming save handler keeps the newest edit covered exactly if it is the saved one or something besides the cleared timer covers it |
| LiveValidation.StepKeepsOnePass | packages/houdini-lsp/src/overlay.ts:113-133 | every step keeps at most one pass per file and a pass for every running mark |
| LiveValidation.StepCovers | packages/houdini-lsp/src/overlay.ts:74-133 | every step keeps a newest edit validated, in flight, or about to be looked at, unless it is a save of an older edit that takes its only cover |
| LiveValidationHistory.StepCoversExactly | packages/houdini-lsp/src/diagnostics.ts:221-229 | after any step an edit is covered exactly if it was, or the step is its file's next change, close or save, and the step is no save of an older edit that takes its only cover |
| LiveValidationHistory.StepSyncsExactly | packages/houdini-lsp/src/overlay.ts:163-181 | after any step a file's live diagnostics are its buffer's, or a validation is pending, exactly if that was so or the step refreshes them, and the step publishes no answer for another buffer of the same version |
| LiveValidationHistory.StepTells | packages/houdini-lsp/src/overlay.ts:165-166 | as long as no change reuses a version number that a pass of its file holds, equal version numbers mean equal buffers |
| LiveValidationProofs.MissingFile | packages/houdini-lsp/src/overlay.ts:198-206 | a close that finds no file clears the rows; they stay cleared exactly if no overlay of the buffer is the last job left for the file |
| LiveValidationProofs.LastWriterIsBuffer | packages/houdini/src/lib/codegen.ts:775-788 | in a first-in-first-out queue the rows end up from a buffer exactly if the last job for the file is an overlay of it, or none is left and they are now |
| LiveValidationRuns.AtMostOnePass | packages/houdini-lsp/src/overlay.ts:110-133 | over every run, no file has two live passes, and a file is marked as running exactly while it has one |
| LiveValidationRuns.CoveredExactly | packages/houdini-lsp/src/diagnostics.ts:221-229 | over every run, ready or not, a newest edit is validated or going to be exactly if no save of an older edit has taken its only cover since the file's last change, close or save |
| LiveValidationRuns.NoEditForgotten | packages/houdini-lsp/src/overlay.ts:74-87 | over every run, once an open file has no timer, waiting callback, rerun mark or pass, its newest edit has been validated exactly if it was not lost that way; if the server is ready from the start it always has: no lost wake-up between loop test and cleanup |
| LiveValidationRuns.LiveDiagnosticsCurrent | packages/houdini-lsp/src/overlay.ts:89-190 | over every run, live diagnostics belong to open files only; with no validation pending they carry the open buffer's version, and are that buffer's own exactly if no answer for another buffer of the version was published last, which cannot happen if no change reuses a version number held by a pass |
| LiveValidationRuns.ClosedFileFromDisk | packages/houdini-lsp/src/overlay.ts:194-228 | over every run, after a file found on disk has closed and been reconciled, the last job that wrote or will write its rows is not an overlay of its buffer |
| LiveValidationRuns.OwnStepsEnd | packages/houdini-lsp/src/overlay.ts:74-133 | without further messages the loop takes at most a fixed number of steps, from any reachable state |
| LiveValidationProgress.Stirs | packages/houdini-lsp/src/overlay.ts:74-133 | as long as anything is pending the loop has a step of its own |
| LiveValidationRuns.AtRest | packages/houdini-lsp/src/overlay.ts:74-133 | when the loop has come to rest, ready at first or not, every open file's newest edit is validated exactly if it was not lost, its live diagnostics are its buffer's exactly if no answer was misplaced, and the last job for a closed file found on disk was no overlay of its buffer |
| LiveValidationJobs.JobsInOrder | packages/houdini/src/lib/codegen.ts:781-788 | over every run, the jobs asked of the lock so far, by saves, closes, watched changes and rounds of live_validate, are those that have begun followed by those that wait: all begin in their order, and no others |
| LiveValidationJobs.SaveRequests | packages/houdini-lsp/src/diagnostics.ts:221-231 | a save handler that goes on asks for exactly its file's validation |
| LiveValidationJobs.AllServed | packages/houdini-lsp/src/diagnostics.ts:112-118 | when the loop has come to rest every job asked for has begun exactly once |
| LiveValidationJobs.RowsExact | packages/houdini-lsp/src/overlay.ts:194-228 | over every run, a file's rows are those of the last step that put any: a job whose transaction succeeded, an extraction, or a close of a missing file; a failed job changes nothing |
| LiveValidationJobs.MissingExact | packages/houdini-lsp/src/overlay.ts:198-206 | over every run, a file counts as missing exactly if it was not on disk when its last close was reconciled |
| LiveValidationJobs.TimersOpen | packages/houdini-lsp/src/overlay.ts:91-97 | over every run, only open files have a debounce timer |
| LiveValidationRuns.EarlySaveLosesEdit | packages/houdini-lsp/src/diagnostics.ts:221-229 | a run, not ready at first, that comes to rest with the newest edit never validated |
| LiveValidationRuns.MissingFileKeepsBuffer | packages/houdini-lsp/src/overlay.ts:198-206 | a run that comes to rest with buffer rows for a closed file that is not on disk |
| LiveValidationRuns.ReopenedFileMisled | packages/houdini-lsp/src/overlay.ts:165-166 | a run of a ready server that comes to rest with the live diagnostics of a buffer that was closed |
| LiveServer.Serve | packages/houdini-lsp/src/overlay.ts:74-228 | the handlers, called for any script of events, take the server from its start through a run of the machine, with all that holds of runs; a script that is a run is taken whole |
| LiveServer.Server.Validate | packages/houdini-lsp/src/overlay.ts:116-127 | live_validate up to its await: a mark if a pass runs, otherwise the first round |
| LiveServer.Server.OnPassDone | packages/houdini-lsp/src/overlay.ts:123-132 | the loop test and, in the same stretch, the next round or the cleanup |
| LiveServer.Server.OnAnswer | packages/houdini-lsp/src/overlay.ts:163-181 | publishes only for a successful overlay of the version still open |
| PipelineDiagnostics.KeyIsSpot | packages/houdini-lsp/src/diagnostics.ts:92-98 | the string key identifies message, line and character, whatever the message contains |
| PipelineDiagnostics.MergedShows | packages/houdini-lsp/src/diagnostics.ts:90-101 | the merged list has every live diagnostic, and a pipeline diagnostic exactly if no live one has its message and start |
| PipelineDiagnostics.MergedInOrder | packages/houdini-lsp/src/diagnostics.ts:90-101 | the live diagnostics come first, then in their order exactly the pipeline diagnostics no live one has the spot of |
| PipelineDiagnostics.MergedUnique | packages/houdini-lsp/src/diagnostics.ts:90-101 | the merged list is free of duplicates exactly if the live list is and the pipeline reports no diagnostic twice that the live list has not |
| PipelineDiagnostics.SameErrorTwice | packages/houdini-lsp/src/diagnostics.ts:90-101 | in any project, a run with two errors of one message at one place leaves the file with a duplicate |
| PipelineDiagnostics.AlwaysExact | packages/houdini-lsp/src/diagnostics.ts:112-135 | over every run, each file displays its live diagnostics, merged with the last run's errors unless a run is on or the live path wrote since; outside pipeline_diagnostic_uris exactly the live ones |
| PipelineDiagnostics.FinishedRunShows | packages/houdini-lsp/src/diagnostics.ts:206-212 | when a validate finishes, every file shows its live diagnostics and that run's errors; nothing of an earlier run survives, whatever the live path did meanwhile |
| PipelineDiagnostics.Drive | packages/houdini-lsp/src/diagnostics.ts:112-212 | the panel, driven through any live publications and runs that exclude each other, goes through a run of the screen, and after every run's end each file shows its live diagnostics and, next to them, one diagnostic for each of the errors' locations there, at the line and column the location means |
| PipelineDiagnostics.PublishHides | packages/houdini-lsp/src/overlay.ts:187-190 | a live publication keeps the merged display exactly if no pipeline error would have been shown besides it |
| PipelineDiagnostics.PublishHidesError | packages/houdini-lsp/src/overlay.ts:187-190 | a run after which an error of the last validate is not shown although no live diagnostic stands for it |
| PipelineDiagnostics.Collect | packages/houdini-lsp/src/diagnostics.ts:158-204 | each file gets one diagnostic for each location in it, errors and locations in their order, placed at the line counted from 0 and the column, a missing or too small one being 0; an error without location marks the start of the saved file, or nothing |
| PipelineDiagnostics.OnePlaceShown | packages/houdini-lsp/src/diagnostics.ts:180-204 | an error at line n and column c of one file brings to that file what stands for line n - 1 and column c, with its message, and nothing to any other |
| PipelineDiagnostics.Panel.BeginRun | packages/houdini-lsp/src/diagnostics.ts:128-135 | the loop puts every file of the previous run back to its live diagnostics and forgets them |
| PipelineDiagnostics.Panel.FinishRun | packages/houdini-lsp/src/diagnostics.ts:206-212 | the loop sends each collected file its merged list and records it |
| Stdio.Plugin.NextMsg | plugins/stdio.go:226-243 | the next pending message in arrival order, queue before input, malformed lines skipped; none exactly if none is pending |
| Stdio.Plugin.AwaitResult | plugins/stdio.go:109-141 | removes exactly the first result with the call's id and puts all else back in order; without one, everything is put back |
| Stdio.Plugin.StdioInvoke | plugins/stdio.go:80-141 | a call takes the next number, is written, and returns by the first pending result with its id: its error if it has one, else its object, {} if there is none; that result is removed. Without one it reports the closed input and leaves all as it was |
| Stdio.RemoveKeepsRequests | plugins/stdio.go:129-139 | a call never takes a request |
| Stdio.Plugin.HandleRequest | plugins/stdio.go:253-294 | the registered handler for the hook runs on the payload, one call at a time, then exactly one response with its answer is written; without a handler, the response that says so |
| Stdio.HandlerTranscript | plugins/stdio.go:253-294 | a handler's whole run, step by step: each call is the one it makes knowing what it has heard, under the next number, and hears what the messages left by the one before say; its answer is that to all it has heard |
| Stdio.Plugin.RunStdio | plugins/stdio.go:245-315 | the loop writes what serving the pending messages in order writes, and stops with none left |
| Stdio.ServesInOrder | plugins/stdio.go:245-315 | over a whole run the responses are to exactly the requests received, in arrival order, once each, whatever calls the handlers make |
| Stdio.CallsNumbered | plugins/stdio.go:81 | over a whole run the calls carry consecutive numbers |
| Stdio.InvokeIdsDiffer | plugins/stdio.go:81 | calls with different numbers have different ids |
| Extraction.RawDocuments.ExtractDocuments | packages/houdini-core/plugin/documents/walk.go:275-361 | rows found again or not stale keep their ids, stale ones go, new ones are exactly for new documents with their props, and keys are unique exactly if no document comes twice |
| Extraction.RawDocuments.Consume | packages/houdini-core/plugin/documents/walk.go:300-341 | the loop leaves exactly the known documents that were not found |
| Extraction.RawDocuments.DropLeft | packages/houdini-core/plugin/documents/walk.go:347-361 | for any iteration order exactly the left-over stale rows are deleted |
| ExtractionRuns.ExtractFromFilepaths | packages/houdini-core/plugin/documents/walk.go:120-144 | reconciles the table with the documents of the matching listed files, and fails exactly if one of them cannot be opened |
| ExtractionRuns.FullWalkReflects | packages/houdini-core/plugin/documents/walk.go:75-88 | after a full walk the table holds exactly the documents of the walked files, one row each, exactly if no document had two rows before |
| ExtractionRuns.DoubleRowOutlivesFile | packages/houdini-core/plugin/documents/walk.go:283-298 | a document with two rows is still in the table after a full walk that finds no file |
| ExtractionRuns.FailedWalkKeepsReached | packages/houdini-core/plugin/documents/walk.go:168-188 | after a walk that reached any list of files the table holds exactly their documents |
| ExtractionRuns.PartialExact | packages/houdini-core/plugin/documents/walk.go:120-144 | re-extracting the changed files gives what a full walk of the new files would, exactly if every listed file is faithful |
| ExtractionRuns.ListsDiffer | packages/houdini-core/plugin/documents/walk.go:45-68 | partial and full file lists differ on exactly two kinds of files: below an excluded directory, or included for a static runtime only |
| ExtractionRuns.PartialEqualsFull | packages/houdini-core/plugin/documents/walk.go:88-144 | over every sequence of faithful changes the table equals that of a full walk, keys unique |
| ExtractionRuns.SameId | packages/houdini-core/plugin/documents/walk.go:303-314 | a document that stays in the table keeps its row id |
| ExtractionRuns.RepeatChangesNothing | packages/houdini-core/plugin/documents/walk.go:275-361 | extracting the same documents again changes no row and uses no id |
| ExtractionRuns.PropsExact | packages/houdini-core/plugin/documents/walk.go:278-282 | every document's row has its prop afterwards exactly if no known document's prop had changed |
| ExtractionRuns.BelowExcludedDirectory | packages/houdini-core/plugin/documents/walk.go:131-133 | a file on which partial extraction stores a document the walk does not find |
| ExtractionRuns.ListedTwice | packages/houdini-core/plugin/documents/walk.go:126-141 | a file listed twice gets two rows for a document |
| ExtractionRuns.RenamedProp | packages/houdini-core/plugin/documents/walk.go:309-313 | a prop renamed in place keeps its old name in the table |
| Comments.StripComments | packages/houdini-core/plugin/documents/processFile.go:111-169 | the in-place loops blank exactly the characters a comment, string and template lexer puts in comments, newlines excepted; length and all else stay |
| Comments.LineSpan | packages/houdini-lsp/src/extract.ts:72-76 | a line comment reaches exactly to the end of its line |
| Comments.BlockSpan | packages/houdini-lsp/src/extract.ts:77-90 | a block comment reaches exactly to the first closing pair |
| CommentLaws.PlainStays | packages/houdini-core/plugin/documents/processFile.go:164-166 | a character that opens no comment and no literal stays, and what follows is treated on its own |
| CommentLaws.LineBlanked | packages/houdini-core/plugin/documents/processFile.go:116-120 | a line comment becomes blanks up to its newline, and from there on the text is code again |
| CommentLaws.BlockBlanked | packages/houdini-core/plugin/documents/processFile.go:121-136 | a block comment becomes blanks but for its newlines, up to the first closing pair, and behind it the text is code again |
| CommentLaws.OpenBlockBlanked | packages/houdini-core/plugin/documents/processFile.go:121-136 | without a closing pair all the rest is blanked |
| CommentLaws.LiteralStays | packages/houdini-core/plugin/documents/processFile.go:137-163 | a string or template literal stays as it is up to the first of its quotes that is not behind an odd number of backslashes, and behind it the text is code again |
| CommentLaws.OpenLiteralStays | packages/houdini-core/plugin/documents/processFile.go:137-163 | a literal that is not closed leaves all the rest as it is |
| Comments.NoCommentsLeft | packages/houdini-core/plugin/documents/processFile.go:107-110 | nothing of the stripped text is in a comment |
| Comments.StripsOnce | packages/houdini-core/plugin/documents/processFile.go:111-169 | stripping is idempotent |
| Positions.IndexPosition | packages/houdini-lsp/src/extract.ts:125-137 | the binary search over newlines gives the index's line and column |
| Positions.OffsetPosition | packages/houdini-lsp/src/validation.ts:222-232 | the linear scan gives the same position, and goes on in the last line past the end |
| Positions.PlacesOrdered | packages/houdini-core/plugin/documents/processFile.go:50-67 | positions are ordered as their indices |
| Positions.LocalHost | packages/houdini-lsp/src/extract.ts:188-205 | to_local and to_host undo each other |
| Positions.UnescapeUndoes | packages/houdini-lsp/src/extract.ts:52-55 | whatever the document, written into a template literal with its backticks escaped it is read back |
| Positions.NewlinePositions | packages/houdini-lsp/src/extract.ts:35-39 | the loop collects exactly the indices of newlines, in order |
| Positions.HostPlace | packages/houdini-lsp/src/extract.ts:47-60 | a block's character maps to its place in the host exactly if no escaped backtick precedes it on its line; otherwise the column is short by their number |
| Positions.TwoEscapesBefore | packages/houdini-lsp/src/extract.ts:47-60 | a host text whose block's last character maps two columns short of its place |
| Positions.PlainHostPlace | packages/houdini-lsp/src/extract.ts:188-205 | without escapes the j-th character maps to the place of host index start + j, and back |
| Positions.BlockAt | packages/houdini-lsp/src/extract.ts:141-156 | finds the first block that covers the position, or none if none does |
| Positions.FindBlock | packages/houdini-lsp/src/extract.ts:141-156 | for disjoint blocks, the block found at an index is the one it was cut from, and none is found outside |
| Positions.PipelinePosition | packages/houdini-lsp/src/diagnostics.ts:57-73 | the first block on the reported line decides whether its column is taken back |
| Positions.OwnLines | packages/houdini-lsp/src/diagnostics.ts:57-73 | the lines a block is looked for on are exactly those its characters, or its end, stand on in the host |
| Positions.UndoneIsHost | packages/houdini-lsp/src/diagnostics.ts:53-56 | taking the column back turns the pipeline's report into the host position |
| Positions.ReportIsHost | packages/houdini-lsp/src/diagnostics.ts:57-73 | a report from any block comes out as the host position exactly if the first block on its line has the right column to take away |
| Positions.EarlierBlockDecides | packages/houdini-lsp/src/diagnostics.ts:57-73 | a host text with two blocks, and a report at the second's start that comes out nine columns short |
| Manifest.Directories | packages/houdini-react/plugin/manifest.go:150-170 | despite the early break the set is exactly the directories that hold something and all above them |
| Manifest.SortByDepth | packages/houdini-react/plugin/manifest.go:172-188 | every directory once, shallowest first |
| Manifest.Visit | packages/houdini-react/plugin/manifest.go:196-308 | the parent's state is always there, and what is written is what recursive inheritance gives |
| Manifest.LoadManifest | packages/houdini-react/plugin/manifest.go:150-319 | the manifest's maps are those of recursive inheritance over all directories; it fails exactly if a page query has no page view beside it |
| Manifest.LayoutsOnChain | packages/houdini-react/plugin/manifest.go:229-245 | the layouts in a directory are exactly those on its root-to-self chain |
| Manifest.QueriesOnChain | packages/houdini-react/plugin/manifest.go:213-227 | so are the layout queries |
| Manifest.LayoutChain | packages/houdini-react/plugin/manifest.go:229-245 | each layout of the chain is there once, in the order from the root |
| Manifest.QueryChain | packages/houdini-react/plugin/manifest.go:213-227 | and each layout query |
| Manifest.OutermostFirst | packages/houdini-react/plugin/manifest.go:209-245 | what is in scope above comes first, in the same order |
| Manifest.NearestError | packages/houdini-react/plugin/manifest.go:277-301 | the error view is that of the nearest directory with one |
| Manifest.NearestVariable | packages/houdini-react/plugin/manifest.go:211-226 | a variable has the type of the nearest layout query that declares it |
| Manifest.PageInherits | packages/houdini-react/plugin/manifest.go:259-294 | a page with an id of its own is listed with the layouts, layout queries, error view, queries and variables it inherits, its own query and variables added last |
| Manifest.LayoutInherits | packages/houdini-react/plugin/manifest.go:229-245 | a layout with an id of its own is listed with the layouts and queries from outside it, and query options and variables that its own layout query adds to |
| Manifest.DocsListed | packages/houdini-react/plugin/manifest.go:247-257 | every page and layout query document is listed under an id no other document of its kind has |
| Manifest.NothingElse | packages/houdini-react/plugin/manifest.go:190-308 | every key of the manifest is the id of a directory that has the view or document |
| Hrefs.ResolveIsSubstitution | packages/houdini-react/runtime/resolve-href.ts:103-125 | for bracket-free values the three replacements, each on the text the one before left, equal one simultaneous substitution |
| Hrefs.ReplacesFirst | packages/houdini-react/runtime/resolve-href.ts:116-124 | for every text, each replacement renders the first bracketed name from the left, leaves what comes before it and treats what comes behind likewise; a text without one stays |
| RoutePatterns.MatchFits | packages/houdini-react/plugin/runtime.go:942-976 | lazy and greedy priorities, backtracking and the optional trailing slash together match exactly the lists of segments that fit the pattern |
| RoutePatterns.MatchesExactly | packages/houdini-react/plugin/runtime.go:942-976 | for every route, a rest segment in the middle included, and every path, trying alternatives in order and going back finds a match exactly if the path can be cut into pieces for the segments |
| RoutePatterns.LazyStopsFirst | packages/houdini-react/plugin/runtime.go:962-966 | a required parameter captures up to the first place from which the rest matches |
| RoutePatterns.GreedyStopsLast | packages/houdini-react/plugin/runtime.go:951-960 | an optional or rest segment captures up to the last such place |
| RoutePatterns.ReadsBackExactly | packages/houdini/src/router/match.ts:282-312 | for every route with its rest segment last the filled URL matches the pattern under the regular expression's priorities, and the captures are the values exactly if no left-out optional segment takes a later segment's value |
| RoutePatterns.ReadsBack | packages/houdini/src/router/match.ts:282-312 | with at most one optional or rest segment the captures are always the values |
| RoutePatterns.TwoOpenExact | packages/houdini-react/plugin/runtime.go:942-976 | behind any fixed segments, an optional segment, fixed ones, and an optional or rest segment read back right exactly if the first optional value is given or the values behind it do not fit moved up by one |
| RoutePatterns.OptionalRestExact | packages/houdini-react/plugin/runtime.go:942-976 | behind any fixed segments, an optional segment directly before a rest segment reads back exactly if its value is given or the rest value does not begin with a segment |
| RoutePatterns.SecondReadAsFirst | packages/houdini-react/plugin/runtime.go:942-976 | of two adjacent optional segments the second one's value alone is captured as the first's |
| PageRoutes.RouteSegments | packages/houdini-react/plugin/runtime.go:985-1000 | the result lists, in order, exactly the pieces of the URL between slashes that are neither empty nor in parentheses |
| PageRoutes.GroupsDoNotMatter | packages/houdini-react/plugin/runtime.go:1246-1261 | the URL without groups has the same segments |
| PageRoutes.GroupInserted | packages/houdini-react/plugin/runtime.go:985-1000 | putting a group in front of any slash or at the end of a URL changes neither its segments nor the stripped URL, nor the pattern unless that is the root's |
| PageRoutes.StripRouteGroups | packages/houdini-react/plugin/runtime.go:1246-1261 | a slash and the pieces of the URL that are neither empty nor in parentheses, in order, joined by slashes |
| PageRoutes.ParseShown | packages/houdini-react/plugin/runtime.go:950-973 | the switch recognizes every segment of the four kinds as what it is |
| PageRoutes.ParsedExactly | packages/houdini-react/plugin/runtime.go:950-973 | for every text, which of the kinds it is and with what name, by its brackets alone |
| PageRoutes.ParsePagePattern | packages/houdini-react/plugin/runtime.go:942-976 | pattern parts of the segments in order, and one parameter for each segment with a name, in order, with the kind of its segment; the root is its own pattern |
| PageRoutes.PageMatches | packages/houdini/src/router/match.ts:90-101 | a page is found under exactly the paths that can be cut into pieces for its segments, the root page under the bare slash alone |
| PageRoutes.LinkReadsBack | packages/houdini-react/runtime/resolve-href.ts:88-125 | for every page whose segments are plain text or one bracketed name, the root and pages of groups only included, a link filled from the group-free URL matches the page's pattern, and captures the values exactly if no left-out optional segment takes a later one's |
| PageRoutes.MixedNeverMatches | packages/houdini-react/plugin/runtime.go:950-973 | a segment of text and one bracketed name is text for the pattern, and a link that fills it never matches |
| PageRoutes.Exec | packages/houdini/src/router/match.ts:282-312 | the loop sets each parameter from its decoded capture, a missing rest parameter to the empty string, and throws at the first that does not decode |
| PageRoutes.ExecReads | packages/houdini/src/router/match.ts:282-312 | with distinct names every parameter is read back by its name |
| PageRoutes.ExecThrows | packages/houdini/src/router/match.ts:305-307 | exec throws exactly if some capture does not decode |
| PageRoutes.DecodesToItself | packages/houdini/src/router/match.ts:305-307 | decoding neither throws nor changes a value exactly if it contains no percent sign |
| PageRoutes.DecodeSpells | packages/houdini/src/router/match.ts:305-307 | decoding gives a text exactly for its spellings: each character as itself or as the escapes of its shortest UTF-8 form; it throws for all else |
| PageRoutes.OctetReads | packages/houdini/src/router/match.ts:305-307 | an escape stands for the octet with its two digits in base 16, in either case |
| PageRoutes.PercentFails | packages/houdini/src/router/match.ts:305-307 | a value on which decoding throws and one that it changes |
| PageRoutes.MatchTakes | packages/houdini-react/plugin/runtime.go:942-976 | a match takes the whole path but for a slash that may follow, whatever it captures |
| PageRoutes.QuestionCuts | packages/houdini/src/router/match.ts:80-84 | a value with a question mark of which the page receives only the part before it |
| PageRoutes.ParamsComeBack | packages/houdini/src/router/match.ts:80-103 | for every page of such segments, what it receives for a link is what the link was given exactly if no left-out optional parameter takes a later one's value, no value contains a percent sign, and the link no question mark |
| Words.FoldTwice | packages/houdini-core/plugin/fragmentArguments/hash.go:63-67 | folding a word onto itself by 16 undoes itself |
| Words.Fold13Undone | packages/houdini-core/plugin/fragmentArguments/hash.go:65 | folding by 13 is undone by two shifts |
| Words.SplitIsWhole | packages/houdini-core/plugin/fragmentArguments/hash.go:36-38 | a split 16-bit multiplication equals the full one modulo 2^32, for every constant |
| Words.RotatedBits | packages/houdini-core/plugin/fragmentArguments/hash.go:37-40 | every bit moves up by 15 or 13 places, and those that leave the word come in at the bottom |
| Words.FoldedBits | packages/houdini-core/plugin/fragmentArguments/hash.go:63-67 | bit i of a folded word is that of the word and the one n places higher, added without carry |
| Hash.MurmurHash | packages/houdini-core/plugin/fragmentArguments/hash.go:11-82 | the loops compute the hash defined with full multiplications |
| Hash.StepsInvert | packages/houdini-core/plugin/fragmentArguments/hash.go:61-67 | reversible steps on words, one after the other, are a bijection |
| Hash.FinalizationInverts | packages/houdini-core/plugin/fragmentArguments/hash.go:61-67 | the finalization is a bijection on 32-bit words |
| Hash.SameHash | packages/houdini-core/plugin/fragmentArguments/hash.go:61-81 | two inputs have the same hash exactly if they reach the finalization with the same word |
| Hash.OneWordDiffers | packages/houdini-core/plugin/fragmentArguments/hash.go:24-42 | inputs that differ in one group of four at most have the same hash exactly if the group's word is the same |
| Hash.OneTailDiffers | packages/houdini-core/plugin/fragmentArguments/hash.go:44-58 | inputs that differ in the one to three units after the last group at most have the same hash exactly if these make the same word |
| Hash.GroupBits | packages/houdini-core/plugin/fragmentArguments/hash.go:28-34 | the bits of a group's word are those of its units, one octet further up each, the last one's upper half at the bottom, added without carry |
| Hash.TailBits | packages/houdini-core/plugin/fragmentArguments/hash.go:44-54 | and those of the units behind the last group likewise |
| Hash.OctetGroupsDiffer | packages/houdini-core/plugin/fragmentArguments/hash.go:24-42 | inputs that differ in a single group of four units below 256 always have different hashes |
| Hash.OctetTailsDiffer | packages/houdini-core/plugin/fragmentArguments/hash.go:44-58 | and so do those that differ in the units below 256 after the last group |
| Hash.ZerosDiffer | packages/houdini-core/plugin/fragmentArguments/hash.go:62 | zeros at the end tell inputs apart by their number alone |
| Hash.Base62Decodes | packages/houdini-core/plugin/fragmentArguments/hash.go:69-81 | the numeral decodes to the word and begins with 0 only if it is 0 |
| Hash.WordLength | packages/houdini-core/plugin/fragmentArguments/hash.go:73-79 | a word has at most six digits |

## Left out

- Matching of a single glob token (regular expressions, extglobs, negation): a token's text decides whether it compiles and what it matches.
- The file system is fixed during a parallel walk; read errors are steps of the machine.
- ParallelWalk: a cancellation before the root directory is sent leaves the wait group one too high forever; the model has this, and the closer then never closes, which no worker waits for.
- SQLite: tables are maps with fresh increasing ids; statements either take effect or fail.
- Variable arguments in the comparison of the two argument checks, since the recursive one accepts them by design, and types of unknown kind, which the two treat differently on purpose.
- Required fields of input objects, which neither check enforces.
- ArgumentRows: source positions of values and links, which no verdict reads.
- LiveValidation: a pass counts as validating the buffer it read, whatever it finds, and a save as validating the version it saved; a document's identity is the change event it stems from.
- The fast TypeScript checks of a live pass, and the ranges pipeline errors are widened to: a pass is whatever it publishes.
- Restarts after configuration changes, the 500 ms timer of watched files and shutdown; a watched change is a full validation that may be requested at any time.
- The goroutine mode of the plugin protocol, its timeouts, and HTTP and websockets.
- Stdio: each handler makes a bounded number of calls, the bound depending on its payload.
- Extraction: the two regular expressions that find documents in source files; each file has a list of documents. Rows of `documents` deleted along with a raw document are not modelled; rows of `component_fields` stay, as in the code.
- Manifest.SortByDepth: the alphabetical order within a depth, which decides only between directories whose page ids collide.
- Manifest: discovery of view files, conversion of directory names to URLs and ids, and the split of variables into path and search parameters, which is a function of URL and variables.
- Hrefs: custom-scalar marshalling; values are the strings written into the URL. Search parameters.
- RoutePatterns: literal segments match themselves; escaping them for a regular expression is not part of this model. Routes with segments behind a rest segment, empty values of required parameters and values with a slash outside a rest segment are not described.
- PageRoutes: what a browser does to a path before it is matched, unpaired surrogates, and the choice among pages whose patterns match the same path.
- PageRoutes.LinkReadsBack: segments that mix text and bracketed names other than one name behind plain text, and optional values that are given but empty, are not described.
- PageRoutes.ParamsComeBack: the same.
- ParallelWalkProgress.StuckExactly: exact in the numbers of directories with and without subdirectories; which trees with such numbers can get stuck also depends on their shape, which is not described.
- Positions.UndoneIsHost: columns are counted in one unit from one base, while the Go extractor counts bytes, its parser runes from 1, and the editor UTF-16 units from 0.
- Positions.ReportIsHost: the same.
- The conversion of a string to UTF-16 before hashing.
- JSX and TypeScript generation, React components, the editor extensions, build and release scripts, and the validators that are one query each.
