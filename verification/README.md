# Verification of the `mct-index` algorithms

A Dafny model of the algorithmic layer of a code index: what the index stores, how it is kept in step with a disk that
changes, how several processes share one database, and how large answers are cut down without saying anything false.
`dafny verify dfyconfig.toml` checks all of it.

| Modules | What they model |
|---|---|
| `TarjanState`, `Tarjan`, `Cycles` | the iterative search for strongly connected components with explicit call frames, on arrays, against reachability (`Digraph`) |
| `Paths`, `Exclude`, `IgnoreFile`, `PathRows`, `Indexer`, `IndexTheorems`, `ReadFailures`, `IncrementalTheorems`, `ExclusionProtocol` | full and incremental reindexing: hash skipping, prefix deletion, rename cleanup, unreadable paths, transactions, ignore files, exclusion rules of several handles and processes |
| `Coordination` | the access barrier, the writer lock and the migrate-and-recheck opening, as interleaved steps of any number of clients |
| `ContextBudget` | ranking, de-duplication, paging and fitting a page into a token budget |
| `DependencyGraph` | the depth- and node-limited walk over module imports |
| `Traversal`, `Paging` | the bounded walk over relations, and the pages cut from it |
| `LuaRocks` | answers about installed rocks when some stores could not be read |
| `Toon` | the cell writer of the duplicate reports and the row reader of the benchmark |
| `Ordering`, `Digraph`, `Limits`, `Text`, `Wrappers` | lexicographic order, sorting, reachability, machine-word limits, trimming, `Option` |

## How it is set up

Code that updates things in place is a class or a method with loops, proved equal to a function of its inputs or of the
old state; the properties are then lemmas about that function. `Indexer.Index` holds the four tables as maps and its
runs change them table by table; what one path's rows become is a function (`Indexer.FullRows`, `Indexer.ReportsRows`)
that the lemmas of `IndexTheorems`, `ReadFailures` and `IncrementalTheorems` reason about. Protocols (`Coordination`, `ExclusionProtocol`) are step relations over
explicit lock and rule states.

The parts behind an interface are parameters: parsers, manifest readers and the content hash (`PathRows.Registry`), glob
matching and compilation (`Exclude.Globs`), relation queries (`Traversal.Relations`), import resolution
(`DependencyGraph.ModuleIndex`), LuaRocks' version rules (`LuaRocks.Lua`), the rendering cost
(`ContextBudget.Cost`) and the test whether a text reads as a number (`Toon.NeedsQuotes`). What the disk holds, what a
read returns and when a step fails are inputs of the runs. The hash is assumed injective where the cache is concerned
(`PathRows.HashInjective`).

## Where the code and its documentation differ

* `crates/mct-index/src/indexer.rs:662-664` says that an incremental run leaves the index a full one would. That holds
  when every changed path is excluded, or reported itself, or lies under a reported path that is now a directory or gone
  (`IncrementalTheorems.IncrementalRefinesFull`). It fails when a file takes the place of an indexed directory and only
  the file is reported (`IncrementalTheorems.FileReplacesDirectory`). `IncrementalTheorems.IncrementalExact` says for
  every path, before the run, whether the two would agree.
* `crates/mct-index/src/lib.rs:366-380` promises that no excluded path stays stored once the recorded generation is the
  current one. Three runs break it: the generation is recorded before the transaction commits, so a failure in between
  leaves it recorded (`ExclusionProtocol.LateFailureBreaks`); a handle that has just opened an old database records it
  without a run (`ExclusionProtocol.OpenIsNotEnough`); and each process has rules and a generation of its own, so one
  that has not reloaded an edited ignore file writes rows that another excludes (`ExclusionProtocol.OtherRulesBreak`).
  Call a handle sound when a full run through it committed at its recorded generation and no run has since committed
  that let files through under laxer rules. `ExclusionProtocol.PromiseIff` says that the promise holds for a rule set,
  whatever the rules are, exactly when a sound handle of that set has recorded its current generation;
  `ExclusionProtocol.StoredIff` says, for given rules of all processes, exactly where rows can be.
* The same comment says that a failed reindex leaves the rules unapplied, so that the next call tries again. That holds
  exactly when the run failed before it recorded the generation (`Indexer.TriesAgainIff`); `Indexer.FullRunnable` is the
  condition to get that far.
* `crates/mct-index/src/indexer.rs:787-795` keeps the rows of a reported path that may not be looked up, since it may
  still exist. Such a path does not resolve either, so the rename sweep of the same run takes its rows when a file with
  its content is new somewhere else (`ReadFailures.LockedFileSwept`). `ReadFailures.IncrementalRetention` says exactly
  when the rows stay, and `ReadFailures.SweptIff` what the sweep takes, told from the rows before, the reports and the
  disk.
* `crates/mct-index/src/exclude.rs:380-396` says that only a line starting with `!` re-includes. A line such as `/!x`,
  which anchors the name `!x`, loses its slash before the `!` is looked for, and re-includes `x`
  (`IgnoreFile.AnchoredBangFlips`, `IgnoreFile.AnchoredBangIndexes`). `IgnoreFile.RulesExact` says which lines are
  affected, and `IgnoreFile.IgnoreFileExact` what all other files mean.
* `crates/mct-index/src/coordination.rs:167` allows three rounds of opening. Clients that keep to the protocol never
  need a third (`Coordination.SecondRoundSettles`).
* The row reader of the benchmark cuts its input into lines first, at U+2028 and U+2029 too, which the writer leaves as
  they are. `Toon.RoundTrip` is about the row; `Toon.RowOneLine` says when a row survives the cut into lines.

## Model

| member | source | states |
|---|---|---|
| `Cycles.FindCycles` | crates/mct-index/src/cycles.rs:12-91 | the returned list is exactly the strongly connected components with several members or a self-edge, each once, with all members, sorted; the inner loop runs once per node and once per input edge, and each node is pushed once |
| `Cycles.ReportUnique` | crates/mct-index/src/cycles.rs:5-11 | the set of edges determines the report |
| `Cycles.InputOrderIrrelevant` | crates/mct-index/src/cycles.rs:5-11 | permuting or repeating input edges does not change the report |
| `Cycles.ListedIffOnCycle` | crates/mct-index/src/cycles.rs:5-11 | a node appears in the report exactly when a non-empty path leads from it back to itself |
| `Cycles.EmptyIffAcyclic` | crates/mct-index/src/cycles.rs:5-11 | the report is empty exactly when no node reaches itself by a non-empty path |
| `Cycles.IdOf` | crates/mct-index/src/cycles.rs:93-101 | a name gets the next free id once and keeps it; ids and names stay inverse to each other |
| `Cycles.Intern` | crates/mct-index/src/cycles.rs:13-21 | every edge becomes the pair of its end points' ids, and the ids name exactly the end points |
| `Cycles.Adjacency` | crates/mct-index/src/cycles.rs:22-30 | adjacency lists and self-loop flags say exactly which pairs there are; the list lengths add up to the number of pairs |
| `Cycles.Filter` | crates/mct-index/src/cycles.rs:80-90 | of all components exactly the cyclic ones are kept, each once, sorted |
| `Cycles.ComponentNames` | crates/mct-index/src/cycles.rs:80-84 | the sorted names of a component of ids are the component of names, none lost |
| `Tarjan.Components` | crates/mct-index/src/cycles.rs:32-88 | the search lists every strongly connected component exactly once, after nodes plus edges rounds and one push per node |
| `Tarjan.Explore` | crates/mct-index/src/cycles.rs:46-87 | the loop from one root keeps every invariant of the search and ends with empty stacks, in one round per unit of work |
| `Tarjan.OpenTop` | crates/mct-index/src/cycles.rs:47-54 | first visit of the top frame: arrays and stack follow the abstract step |
| `Tarjan.ScanTop` | crates/mct-index/src/cycles.rs:55-65 | scanning one neighbour descends, lowers the low link or skips, as the abstract step does |
| `Tarjan.FinishTop` | crates/mct-index/src/cycles.rs:66-86 | finishing a frame pops a component when it is a root and hands its low link to the parent |
| `Tarjan.PopComponent` | crates/mct-index/src/cycles.rs:72-79 | popping removes exactly the stack from the finished node up, and clears exactly those flags |
| `TarjanState.OpenKeeps` | crates/mct-index/src/cycles.rs:48-54 | a first visit keeps all invariants: order of the stacks, reachability of and from the frames, low links, components found so far |
| `TarjanState.FollowKeeps` | crates/mct-index/src/cycles.rs:55-65 | scanning a neighbour keeps them |
| `TarjanState.MergeKeeps` | crates/mct-index/src/cycles.rs:66-70 | returning a low link below the own index keeps them |
| `TarjanState.PopKeeps` | crates/mct-index/src/cycles.rs:66-86 | a frame whose low link is its index pops exactly its strongly connected component |
| `Paths.InRangeExact` | crates/mct-index/src/indexer.rs:1023-1075 | in byte order the range from `dir/` to `dir0`, with `dir` itself, is exactly what lies at or under `dir` |
| `Paths.RenamedDirectoryFound` | crates/mct-index/src/indexer.rs:989-1003 | when the last names of two directories differ and a path below moved along unchanged, the old directory is found |
| `Paths.RenamedDirectoryAbove` | crates/mct-index/src/indexer.rs:989-1003 | whatever is found is a proper ancestor of the old path |
| `Exclude.BuiltinsAre` | crates/mct-index/src/exclude.rs:270-300 | the built-in rules are the patterns and, for every directory, itself and all below, at any depth |
| `Exclude.CompileFallbacks` | crates/mct-index/src/exclude.rs:311-324 | when the whole does not compile the project's rules have no effect, and when not even the built-in rules do everything is excluded |
| `Exclude.LastRuleDecides` | crates/mct-index/src/exclude.rs:239-246 | a built-in rule wins over everything, otherwise the last rule that matches decides |
| `Exclude.ExcludedBelow` | crates/mct-index/src/exclude.rs:229-251 | nothing below an excluded directory is re-included |
| `Exclude.ExcludedIffPruned` | crates/mct-index/src/exclude.rs:229-251 | the test of one path agrees with a walk that does not enter excluded directories |
| `Exclude.BuildSet` | crates/mct-index/src/exclude.rs:270-324 | built-in patterns, then the project's lines with `!` as re-inclusion; invalid lines dropped; the built-in set alone when the whole does not compile, and everything excluded when not even that does |
| `Exclude.BuiltinsNeverNarrowed` | crates/mct-index/src/exclude.rs:57-105 | whatever the built-in rules exclude stays excluded under any project rules |
| `IgnoreFile.PushLinePatterns` | crates/mct-index/src/exclude.rs:440-461 | the patterns of one line are appended: anchored or at any depth, with the pair for a directory |
| `IgnoreFile.PushLines` | crates/mct-index/src/exclude.rs:417-435 | the patterns of all lines are appended in order, comments and blank lines skipped, those of a `!` line prefixed in place |
| `IgnoreFile.ReadIgnoreFiles` | crates/mct-index/src/exclude.rs:351-374 | the imported file stands where the directive does; an error exactly when a file that is needed cannot be read |
| `IgnoreFile.LineNames` | crates/mct-index/src/exclude.rs:375-396 | a line names what is left of it without white space, `!` and the slashes around; a slash before or within the name anchors it, one after it makes it a directory with all below |
| `IgnoreFile.LineNamesNothing` | crates/mct-index/src/exclude.rs:417-453 | blank lines, comments, a lone `!` and lines of slashes name nothing |
| `IgnoreFile.ImportStands` | crates/mct-index/src/exclude.rs:394-413 | the directive, with white space around it at most, is replaced by the imported lines |
| `IgnoreFile.RulesExact` | crates/mct-index/src/exclude.rs:301-310 | the compiled rules are those the lines mean exactly when no line without `!` has a usable glob that starts with one |
| `IgnoreFile.AnchoredBangFlips` | crates/mct-index/src/exclude.rs:440-461 | a line for which they are not |
| `IgnoreFile.AnchoredBangIndexes` | crates/mct-index/src/exclude.rs:440-461 | a file of two lines and a path it should exclude, which the compiled rules admit |
| `IgnoreFile.LastRuleOfLastLine` | crates/mct-index/src/exclude.rs:239-246 | the last rule that matches a path belongs to the last line that hits it, and is of its kind |
| `IgnoreFile.FileDecides` | crates/mct-index/src/exclude.rs:380-396 | so the built-in rules come first and then the last line that hits decides |
| `IgnoreFile.IgnoreFileExact` | crates/mct-index/src/exclude.rs:227-251 | a path is excluded exactly when the file excludes it or a directory above it |
| `Exclude.ExcludeSet.TryReload` | crates/mct-index/src/exclude.rs:186-203 | the generation moves exactly when the patterns change; an unreadable ignore file is an error and changes nothing |
| `PathRows.VisitKeepsCache` | crates/mct-index/src/indexer.rs:413-550 | after any visit, a stored row whose hash is that of some content is the row of that content |
| `PathRows.VisitIsFresh` | crates/mct-index/src/indexer.rs:413-550 | visiting a source file leaves its fresh rows and issues, skipped by hash or not |
| `PathRows.VisitIdempotent` | crates/mct-index/src/indexer.rs:413-550 | visiting unchanged content again changes nothing |
| `Indexer.Index.IndexFile` | crates/mct-index/src/indexer.rs:286-550 | one visit changes the rows of its own path only, to what the visit function says, for every kind of file and every way the read can go |
| `Indexer.Index.IndexSource` | crates/mct-index/src/indexer.rs:403-550 | hash skip, syntax error, change while parsing and rewrite of one source file |
| `Indexer.Index.IndexAsset` | crates/mct-index/src/indexer.rs:556-638 | size and time skip and rewrite of one asset |
| `Indexer.Index.IndexManifest` | crates/mct-index/src/indexer.rs:339-364 | dependencies and rockspec items of one manifest are replaced |
| `Indexer.Index.WriteParsedFile` | crates/mct-index/src/indexer.rs:1177-1213 | the file row is replaced with all that cascades from it, and its issues are cleared; no other path changes |
| `Indexer.Index.WriteManifestDependencies` | crates/mct-index/src/indexer.rs:1077-1098 | the dependency rows of a manifest become exactly the parsed list, in order |
| `Indexer.Index.WriteRockspec` | crates/mct-index/src/indexer.rs:1100-1138 | summary and items of a rockspec are replaced together |
| `Indexer.Index.RecordReadFailure` | crates/mct-index/src/indexer.rs:232-255 | a read failure is put on record and no other row of any path changes |
| `Indexer.Index.Walk` | crates/mct-index/src/indexer.rs:151-171 | the rows of every path, and the lists of seen, manifest, unreadable and newly created paths, after the events of a walk; it fails exactly when an event does |
| `Indexer.DropRange` | crates/mct-index/src/indexer.rs:1032-1066 | of one table exactly the rows at or under a path go that are neither kept nor retained, and they are counted |
| `Indexer.Index.RemoveUnderPrefix` | crates/mct-index/src/indexer.rs:1023-1066 | the same over all tables, files and manifests by their own lists |
| `Indexer.DropMissing` | crates/mct-index/src/indexer.rs:1346-1389 | exactly the rows go that are excluded, or neither seen nor retained |
| `Indexer.Index.RemoveMissingFiles` | crates/mct-index/src/indexer.rs:1346-1389 | files and issues of excluded or vanished paths go, and the removed files are counted |
| `Indexer.Index.RemoveMissingManifests` | crates/mct-index/src/indexer.rs:1140-1175 | dependencies and rockspec items of excluded or vanished manifests go |
| `Indexer.Index.RemoveRenamedAway` | crates/mct-index/src/indexer.rs:880-984 | exactly the unreported old ends of renames, and everything under directories that moved away, go |
| `Indexer.Index.TouchLastIndexedAt` | crates/mct-index/src/indexer.rs:1413-1438 | the generation grows by one or the run fails; the reconciliation time moves only in a complete full run |
| `Indexer.Index.ReindexInner` | crates/mct-index/src/indexer.rs:124-180 | a full run: reload, walk, sweeps, generation; when it succeeds and what it leaves, the recorded generation also when it fails |
| `Indexer.Index.HandleReport` | crates/mct-index/src/indexer.rs:709-798 | one reported path, by what is on disk: directory, file, not even to be looked up, or nothing |
| `Indexer.Index.HandleReports` | crates/mct-index/src/indexer.rs:709-798 | the reports in turn, each on the rows its predecessors left; it succeeds exactly when each of them does |
| `Indexer.Index.ReindexPathsInner` | crates/mct-index/src/indexer.rs:674-806 | an incremental run: fallback to a full one, the reports in turn, the rename sweep, the generation; exactly when it succeeds and what it leaves |
| `Indexer.Index.Reindex` | crates/mct-index/src/indexer.rs:116-204 | commits as a whole or leaves the database as it was, and exactly when; and exactly when the recorded generation moves, committed or not |
| `Indexer.Index.ReindexPaths` | crates/mct-index/src/lib.rs:393-403 | the same for an incremental run |
| `Indexer.Index.ApplyExclusionChanges` | crates/mct-index/src/lib.rs:366-380 | exactly when it answers that nothing was to do, that it reindexed, or fails; which rules and generation the set and the handle are left with in each case, a failure after the generation was recorded included; after a run no row lies at an excluded path; an error leaves the database as it was |
| `Indexer.FallsBackIff` | crates/mct-index/src/indexer.rs:698-715 | an incremental run is a full one exactly when the root is reported, or an ignore file whose rules changed |
| `Indexer.BesideIff` | crates/mct-index/src/indexer.rs:915-940 | the paths beside a created one are exactly those directly in its directory |
| `Indexer.TriesAgainIff` | crates/mct-index/src/lib.rs:362-370 | after a failed run the next call tries again, however the files read then, exactly when the run failed before it recorded the generation |
| `IndexTheorems.HistoryKeepsCache` | crates/mct-index/src/indexer.rs:124-204 | after any sequence of full, incremental and rolled-back runs over an arbitrarily changing disk, every stored hash speaks the truth |
| `IndexTheorems.CacheInvisible` | crates/mct-index/src/indexer.rs:413-550 | a committed full run after any such history leaves, for every source path, exactly the fresh rows of the disk |
| `IndexTheorems.SameAsFreshIndex` | crates/mct-index/src/indexer.rs:116-180 | so it equals an index built from nothing, forced or not and in any walk order |
| `IndexTheorems.FullCommitRan` | crates/mct-index/src/indexer.rs:124-180 | the full runs of the class are runs in the sense of the histories |
| `IndexTheorems.PathsCommitRan` | crates/mct-index/src/indexer.rs:674-806 | so are its incremental runs |
| `IndexTheorems.FullRunLeaves` | crates/mct-index/src/indexer.rs:286-638 | what a full run over a readable disk leaves of every path, kind by kind: manifests and rockspecs, assets, sources, known languages without a parser, and the rest |
| `IndexTheorems.ForcedRunIsFresh` | crates/mct-index/src/indexer.rs:433-433 | a forced run parses every source file anew, whatever rows it finds, even wrong ones; only a language once called unsupported may linger beside a file that does not parse |
| `ReadFailures.UnreadableKeepsRows` | crates/mct-index/src/indexer.rs:219-255 | in a full run, whatever could not be read keeps its rows with the failure on record, unvisited paths below it are untouched, and the run does not count as a reconciliation |
| `ReadFailures.Retention` | crates/mct-index/src/indexer.rs:1346-1389 | after a full run nothing is left of excluded paths; a path at which nothing was found keeps its rows exactly when it lies at or under what could not be read; other rows were found as a file of their kind |
| `ReadFailures.CommitMetadata` | crates/mct-index/src/indexer.rs:173-176 | a committed full run adds one to the generation, and the reconciliation time moves exactly when everything could be read |
| `ReadFailures.FullRunnableIff` | crates/mct-index/src/indexer.rs:124-180 | a full run gets as far as recording its generation exactly when the ignore files could be read, no statement failed, no source file changed while it was parsed, and the published generation is sound and not the largest |
| `ReadFailures.ReportKeeps` | crates/mct-index/src/indexer.rs:709-798 | one report: what could not be looked up or read is flagged and keeps its rows, what is below it is left alone, and what is said to be gone goes |
| `ReadFailures.IncrementalRetention` | crates/mct-index/src/indexer.rs:709-806 | the same after the whole run, exactly when the rename sweep does not take the path; no incremental run counts as a reconciliation |
| `ReadFailures.SweptIff` | crates/mct-index/src/indexer.rs:880-984 | what the sweep takes in any batch, told from the rows before, the reports and the disk |
| `ReadFailures.OnDiskNotSwept` | crates/mct-index/src/indexer.rs:822-832 | nothing that resolves to itself, with all that is above it, is swept |
| `ReadFailures.LockedFileSwept` | crates/mct-index/src/indexer.rs:787-806 | a path that may not be looked up loses its rows when a copy of it is reported in the same batch |
| `IncrementalTheorems.InStepIff` | crates/mct-index/src/indexer.rs:124-180 | rows are in step with a disk exactly when a full run over it changes nothing, and every full run leaves them so |
| `IncrementalTheorems.FaithfulReportsOk` | crates/mct-index/src/indexer.rs:709-798 | an incremental run over readable files that do not change under it never fails |
| `IncrementalTheorems.IncrementalRefinesFull` | crates/mct-index/src/indexer.rs:662-806 | from rows in step with the old disk, when every changed path is excluded or covered by a report, the incremental run leaves the rows of a full one |
| `IncrementalTheorems.SeriesInStep` | crates/mct-index/src/indexer.rs:662-806 | after any number of such runs over a changing disk the rows are in step with the last disk |
| `IncrementalTheorems.SeriesRefinesFull` | crates/mct-index/src/indexer.rs:662-806 | and are those that full runs in their place would have left, for every kind of file |
| `IncrementalTheorems.SeriesIsFresh` | crates/mct-index/src/indexer.rs:662-806 | for source paths they are those of an index of the last disk built from nothing |
| `IncrementalTheorems.IndexStaysFresh` | crates/mct-index/src/indexer.rs:640-668 | so an index with any history, brought in by a full run, forced or not, and kept up by such runs holds for source paths what indexing the last disk from nothing would |
| `IncrementalTheorems.IncrementalExact` | crates/mct-index/src/indexer.rs:662-806 | for every path and any batch, exactly when the two runs agree, told from the old rows, the reports and the new disk: the path is covered, its rows say what the disk says already, or the sweep takes it |
| `IncrementalTheorems.IncrementalExactSource` | crates/mct-index/src/indexer.rs:662-806 | for source paths the middle condition is that the path has the same rows for both disks |
| `IncrementalTheorems.UpToDateIff` | crates/mct-index/src/indexer.rs:286-638 | rows say what a file says, kind by kind, exactly when a full run leaves them alone |
| `IncrementalTheorems.CreatedByBatch` | crates/mct-index/src/indexer.rs:834-853 | the paths a batch indexes for the first time are exactly the reported, admitted files on disk that had no rows and get some |
| `IncrementalTheorems.SweepExact` | crates/mct-index/src/indexer.rs:880-984 | which stored rows the sweep takes, told from the input: those neither reported nor on disk whose content or whose neighbour is newly indexed, and all of a directory that moved |
| `IncrementalTheorems.FileReplacesDirectory` | crates/mct-index/src/indexer.rs:758-786 | a file with other content in the place of an indexed directory, reported alone: the row below it stays, where a full run drops it |
| `IncrementalTheorems.RenameSweepSafe` | crates/mct-index/src/indexer.rs:880-984 | the rename sweep takes nothing that is on disk |
| `IncrementalTheorems.RenameSweepKeepsDisk` | crates/mct-index/src/indexer.rs:880-984 | rows of a path that is still on disk are left alone by the sweep of a committed run |
| `IncrementalTheorems.RenamedDirectoryCleared` | crates/mct-index/src/indexer.rs:880-1003 | after a directory rename, in any batch that reports one file moved along at its new place and not at its old one, nothing is left under the old name; the directory may have moved to the root |
| `IncrementalTheorems.MovedSource` | crates/mct-index/src/indexer.rs:880-984 | a source file that parses and is new at its place, with the hash of the old row, is such a file |
| `IndexTheorems.ExclusionKept` | crates/mct-index/src/indexer.rs:698-719 | no run brings an excluded path back |
| `ExclusionProtocol.TraceKeepsInv` | crates/mct-index/src/lib.rs:366-380 | in every interleaving of the runs and reloads of any processes, no stored row lies at a path that the rules of a sound handle at its current generation exclude, and the active run keeps to that for the handles it has not overstepped |
| `ExclusionProtocol.NoExcludedRows` | crates/mct-index/src/exclude.rs:186-212 | a sound handle whose recorded generation is that of its rule set sees no row at a path its rules exclude, whoever reloaded them |
| `ExclusionProtocol.SoundLasts` | crates/mct-index/src/lib.rs:366-380 | such a handle stays so while its rules are not swapped and no run lets a file through under laxer rules, whatever is deleted, fails or is rolled back |
| `ExclusionProtocol.StoredIff` | crates/mct-index/src/lib.rs:366-380 | for any rule sets, recorded generations and sound handles: a row can be stored at a path exactly when no sound handle at its current generation excludes it |
| `ExclusionProtocol.PromiseIff` | crates/mct-index/src/lib.rs:366-380 | whatever the rules are, nothing a rule set excludes is stored exactly when a sound handle of that set has recorded its current generation |
| `ExclusionProtocol.OpenIsNotEnough` | crates/mct-index/src/lib.rs:205-232 | without a committed full run the promise fails: a run that shows it |
| `ExclusionProtocol.LateFailureBreaks` | crates/mct-index/src/indexer.rs:176-197 | a failure after the generation was recorded breaks it for a handle that was sound: a run that shows it |
| `ExclusionProtocol.OtherRulesBreak` | crates/mct-index/src/indexer.rs:698-721 | an incremental run of a process with older rules breaks it for a sound handle of another, with every run committing: a run that shows it |
| `Coordination.DoKeepsLocks` | crates/mct-index/src/coordination.rs:131-195 | in every step the locks are held by exactly the clients whose progress says so, and exclusive access excludes all shared access |
| `Coordination.MigratesAlone` | crates/mct-index/src/coordination.rs:184-191 | the stored version changes only in a migration, upwards, to the client's own target, while nobody else holds access or the writer |
| `Coordination.RunKeepsInv` | crates/mct-index/src/coordination.rs:162-195 | any number of clients with their own targets keep the invariant in every interleaving, with timeouts, failures and crashes |
| `Coordination.Safe` | crates/mct-index/src/coordination.rs:131-195 | a connected client sees its own version; at most one client holds the writer; nobody holds anything beside exclusive access |
| `Coordination.NeverFalls` | crates/mct-index/src/coordination.rs:184-191 | the stored version never falls |
| `Coordination.SecondRoundSettles` | crates/mct-index/src/coordination.rs:162-195 | the third round is never entered: in the second the schema is right, or is newer and the migration is refused |
| `Coordination.CommonVersionOpens` | crates/mct-index/src/coordination.rs:162-195 | with one version for all, no older than the stored one, no migration is refused and the second check passes |
| `Coordination.OpeningSucceeds` | crates/mct-index/src/coordination.rs:162-195 | with one version for all, a client that began to open and neither times out, fails nor crashes does twelve steps at most, in the order of the code, whatever others do meanwhile, and has its connection after the fourth or the twelfth, with shared access and without the writer |
| `Coordination.OpeningWaits` | crates/mct-index/src/coordination.rs:98-129 | on the way its next step can be done unless somebody holds the lock it takes |
| `Coordination.OpensCurrent` | crates/mct-index/src/coordination.rs:167-178 | undisturbed, a current database is open after five steps |
| `Coordination.OpensOlder` | crates/mct-index/src/coordination.rs:167-192 | undisturbed, an older one is migrated and then open |
| `Coordination.OpensReadOnly` | crates/mct-index/src/lib.rs:174-201 | read-only, a database of the right version is open after three steps and any other is let go |
| `Coordination.ConnectionWrites` | crates/mct-index/src/lib.rs:258-267 | a write takes the free writer and gives it back; one that times out leaves the client connected |
| `Coordination.ConnectionCloses` | crates/mct-index/src/lib.rs:150-155 | closing gives up everything |
| `Coordination.GivingUpReleases` | crates/mct-index/src/coordination.rs:98-195 | timing out, failing or crashing leaves no writer and no exclusive access behind |
| `Coordination.FutureSchemaRefused` | crates/mct-index/src/lib.rs:174-201 | a database of a later version is never changed and nobody connects to it, read-only or not |
| `Coordination.WaitsDown` | crates/mct-index/src/coordination.rs:143-153 | waiting goes strictly down a rank: access waiters hold nothing, writer waiters hold shared access, holders of the writer or of exclusive access do not wait |
| `Coordination.NoDeadlock` | crates/mct-index/src/coordination.rs:78-129 | every client can move on, or waits, at most at second hand, for one that can |
| `ContextBudget.QuantizeMonotone` | crates/mct-index/src/context_budget.rs:258-264 | quantizing never reverses two scores, puts NaN last, and keeps scores a millionth apart distinct within range |
| `ContextBudget.RankAndDedup` | crates/mct-index/src/context_budget.rs:270-303 | what is kept is ranked, comes from the input, has nothing covered by something better, and covers every input candidate by something ranked no worse |
| `ContextBudget.RankedByRelevance` | crates/mct-index/src/context_budget.rs:258-279 | nothing kept stands before what scores a millionth more, NaN is last, and equal scores stand by evidence, path, start line, larger end line, symbol and role |
| `ContextBudget.DroppedRepeats` | crates/mct-index/src/context_budget.rs:280-300 | whatever was dropped has the symbol, evidence, path, role and lines of something kept, or for fragments lines within, that is not clearly less relevant |
| `ContextBudget.NoneRepeats` | crates/mct-index/src/context_budget.rs:280-300 | nothing kept does so of something before it |
| `ContextBudget.KeptUnique` | crates/mct-index/src/context_budget.rs:270-303 | those conditions determine what is kept |
| `ContextBudget.OrderIrrelevant` | crates/mct-index/src/context_budget.rs:270-303 | so it is the same for any order of the input, up to raw scores that quantize alike |
| `ContextBudget.NewBudget` | crates/mct-index/src/context_budget.rs:101-117 | zeros are refused, large values clamped |
| `ContextBudget.LastLowerable` | crates/mct-index/src/context_budget.rs:351-355 | finds the last row above `Overview`, if any |
| `ContextBudget.ChainLower` | crates/mct-index/src/context_budget.rs:351-358 | lowering that row is one step of the fixed degradation chain |
| `ContextBudget.ChainDrop` | crates/mct-index/src/context_budget.rs:359-362 | dropping the last row, once all are at `Overview`, is one step of it |
| `ContextBudget.Fit` | crates/mct-index/src/context_budget.rs:346-365 | returns the first state of the chain whose cost is within the limit, or the empty one, with its cost, for any cost function; one call of it per state |
| `ContextBudget.Select` | crates/mct-index/src/context_budget.rs:320-391 | the whole selection: the page of the ranked list, the first fitting state, the counts, the next offset; at most 2 + 3 calls per page row |
| `ContextBudget.SelectionIs` | crates/mct-index/src/context_budget.rs:320-391 | the rows are the ranked list from the offset on, as many as the page holds less those dropped; the cost is that of this response with its footer exactly when there is more; nothing is lowered or dropped while the page fits as requested |
| `ContextBudget.ChainShape` | crates/mct-index/src/context_budget.rs:310-319 | levels never rise down the page, at most one row is in between, and rows are missing only when the rest are at `Overview` |
| `ContextBudget.LargerBudgetNoLess` | crates/mct-index/src/context_budget.rs:320-391 | a larger token limit never gives fewer rows or a lower level |
| `ContextBudget.NeededTokensSuffice` | crates/mct-index/src/context_budget.rs:239-245 | raising the limit to the reported need gives at least one row, within the limit |
| `ContextBudget.MinimalIff` | crates/mct-index/src/context_budget.rs:247-256 | a page is minimal exactly when it reports a need, which is above the limit; any other page with a next offset moves on |
| `ContextBudget.OverBudgetIff` | crates/mct-index/src/context_budget.rs:239-241 | over budget exactly when every state of the chain, the empty response included, exceeds the limit; otherwise what is spent is within it |
| `ContextBudget.PagesConcatenate` | crates/mct-index/src/context_budget.rs:225-237 | following the next offset, with any budget per page, neither skips nor repeats, and covers the list when there is no next page |
| `DependencyGraph.WalkDependencyGraph` | crates/mct-index/src/dependency_graph.rs:101-194 | every listed node at its true distance, within the limits, truncated exactly when a module within the depth is left out, edges exactly the imports between listed nodes out of those below the depth, nodes and edges sorted, importers of external names exact |
| `DependencyGraph.WalkUnique` | crates/mct-index/src/dependency_graph.rs:101-194 | that determines the answer, truncated or not: which nodes of the last level are listed follows from their least importer and path |
| `DependencyGraph.EdgesAre` | crates/mct-index/src/dependency_graph.rs:112-176 | edges are exactly the imports, file by file, between listed nodes out of those nearer than the depth, the files of the root taken together and self-imports dropped |
| `DependencyGraph.WalkOrder` | crates/mct-index/src/dependency_graph.rs:182-192 | the root first, nodes by distance and path, edges by depth, source and target |
| `DependencyGraph.LeftOutForRoom` | crates/mct-index/src/dependency_graph.rs:159-166 | a module within the depth is left out only when the limit is reached, and nothing listed is farther |
| `DependencyGraph.Hop` | crates/mct-index/src/dependency_graph.rs:134-181 | one hop extends a correct state of `h` hops to one of `h + 1` |
| `DependencyGraph.Expand` | crates/mct-index/src/dependency_graph.rs:159-174 | the targets of one node, in order: known, over the limit, or new |
| `DependencyGraph.Targets` | crates/mct-index/src/dependency_graph.rs:137-158 | the sorted targets of a node are exactly its non-self imports in the collapsed graph |
| `DependencyGraph.HopEnds` | crates/mct-index/src/dependency_graph.rs:134-181 | a complete hop is exact: distances, edges and truncation |
| `DependencyGraph.NothingDeeper` | crates/mct-index/src/dependency_graph.rs:176-178 | stopping at an empty frontier loses nothing up to any depth |
| `Traversal.FirstHopFiltered` | crates/mct-index/src/traversal.rs:97-124 | doubling pages give exactly the first `budget` rows that pass the filter |
| `Traversal.NextLevel` | crates/mct-index/src/traversal.rs:73-82 | the hits of the next level, all of them or at least as many as there is room for |
| `Traversal.Bfs` | crates/mct-index/src/traversal.rs:42-86 | the bounded walk returns exactly the first `budget` hits of the unbounded one |
| `Traversal.FindBfs` | crates/mct-index/src/traversal.rs:160-251 | the same from the first hop on, for a zero budget too |
| `Traversal.WalkLists` | crates/mct-index/src/traversal.rs:42-86 | the unbounded walk is the kept rows in order, and then, distance by distance up to the clamped depth, the relations of every node first led to at that distance, each node once, in the order they are led to; symbols started from are not expanded |
| `Traversal.WalkDepths` | crates/mct-index/src/traversal.rs:57-62 | depths never fall along the walk and stay within its depth |
| `Paging.RelationPageOf` | crates/mct-index/src/lib.rs:999-1019 | the sentinel page is the slice of the unbounded walk, with exact `has_more` and total |
| `Paging.AffectedTestPage` | crates/mct-index/src/lib.rs:1024-1071 | the doubling loop ends and returns the slice of the filtered list over the unbounded walk, with exact `has_more` and a right total; all rounds together read at most three times the walk |
| `Paging.TestsPrefix` | crates/mct-index/src/lib.rs:1022-1023 | more of a walk only adds tests at the end |
| `Paging.TestsComplete` | crates/mct-index/src/lib.rs:1043-1058 | every callable test with a hit is listed |
| `Paging.TestsDistinct` | crates/mct-index/src/lib.rs:1043-1058 | only tests are listed, none twice, no modules |
| `Paging.TestsFirst` | crates/mct-index/src/lib.rs:1043-1048 | each test is listed at the first of its hits |
| `Paging.TestsAre` | crates/mct-index/src/lib.rs:1043-1058 | the list is exactly those hits, in the order of the walk |
| `Paging.PassesAgree` | crates/mct-index/src/lib.rs:1043-1058 | dropping modules after the first hits were chosen gives the same list |
| `LuaRocks.InstalledIn` | crates/mct-index/src/luarocks.rs:593-620 | the versions in the stores that were read, and how many sources were not |
| `LuaRocks.InstalledIs` | crates/mct-index/src/luarocks.rs:590-620 | found, with its store, is exactly what some read store holds under the rock; the answer is complete exactly when every source was read, and otherwise counts those that were not |
| `LuaRocks.InstalledStands` | crates/mct-index/src/luarocks.rs:590-592 | found and not found stand whatever the unread stores turn out to hold; versions are only added |
| `LuaRocks.UnknownIff` | crates/mct-index/src/luarocks.rs:590-620 | unknown exactly when two ways of reading the rest disagree |
| `LuaRocks.CompleteIff` | crates/mct-index/src/luarocks.rs:590-620 | the list of versions is called complete exactly when nothing can change it |
| `LuaRocks.SatisfactionIn` | crates/mct-index/src/luarocks.rs:622-646 | the loop over versions with its early return |
| `LuaRocks.SatisfactionIs` | crates/mct-index/src/luarocks.rs:622-646 | satisfied by exactly the installed versions that meet the constraint, or all without one; unsatisfied exactly when the list is complete and the constraint is understood and met by none of it |
| `LuaRocks.SatisfactionStands` | crates/mct-index/src/luarocks.rs:622-646 | satisfied, unsatisfied and not installed stand under every completion |
| `LuaRocks.UndecidedIff` | crates/mct-index/src/luarocks.rs:622-646 | for a constraint some version meets, left open exactly when completions disagree |
| `LuaRocks.PinStands` | crates/mct-index/src/luarocks.rs:648-683 | a pin's yes and no stand, and the rest of it does not depend on the stores |
| `LuaRocks.PinIs` | crates/mct-index/src/luarocks.rs:648-683 | the pin is the first of the lockfile for the name in its scope; whether it is installed goes by the listed versions, and whether it is allowed by LuaRocks' reading of the constraint |
| `LuaRocks.MaybeIff` | crates/mct-index/src/luarocks.rs:662-674 | presence is unknown exactly when completions disagree |
| `LuaRocks.OriginIn` | crates/mct-index/src/luarocks.rs:801-831 | for every rock, the versions that list the module in the read stores and the name they list it by |
| `LuaRocks.ListedIff` | crates/mct-index/src/luarocks.rs:801-831 | a version is listed exactly when some read store has it with the module or its `init` |
| `LuaRocks.StoreListsIs` | crates/mct-index/src/luarocks.rs:801-831 | in a store that is what it holds under the rock with the module or its `init` |
| `LuaRocks.ViaIs` | crates/mct-index/src/luarocks.rs:801-831 | the name a module is found by is that of the first version that has it, itself before its `init` |
| `LuaRocks.OriginCompleteIff` | crates/mct-index/src/luarocks.rs:872-872 | `complete` exactly when no source can add a provider |
| `LuaRocks.OriginStands` | crates/mct-index/src/luarocks.rs:801-831 | what is listed stays listed under every completion |
| `Toon.QuoteIfNeeded` | crates/mct-cli/src/duplicates.rs:935-954 | the loop writes the escaped form, or the text itself when it needs no quotes |
| `Toon.Unquote` | benchmarks/score_duplicate_labels.py:48-63 | trims, strips quotes and undoes the escapes, with the short way for bodies without a backslash |
| `Toon.SplitRow` | benchmarks/score_duplicate_labels.py:66-91 | the scanner loop returns the cells of the row |
| `Toon.ShortWayAgrees` | benchmarks/score_duplicate_labels.py:66-69 | for a row without quotes, cutting at every comma gives the cells the scanner would |
| `Toon.RoundTrip` | crates/mct-cli/src/duplicates.rs:930-965 | a written row of any non-empty list of texts is read back as those texts, with control characters that have no escape replaced |
| `Toon.RowsDiffer` | crates/mct-cli/src/duplicates.rs:930-965 | lists of texts without such characters are told apart by their rows |
| `Toon.RowOneLine` | benchmarks/score_duplicate_labels.py:94-101 | a written row stays on one line of the reader exactly when no text has a line or paragraph separator |
| `Toon.CellIsText` | crates/mct-cli/src/duplicates.rs:930-934 | a decoder takes every written cell for its text, and none for a number, boolean, null or list item |
| `Toon.PlainIff` | crates/mct-cli/src/duplicates.rs:956-965 | a cell goes without quotes exactly when its text would be taken for itself, has no structural character and no white space at its ends |
| `Toon.RowVisible` | crates/mct-cli/src/duplicates.rs:935-954 | no control character is ever written |
| `Toon.WritableIff` | crates/mct-cli/src/duplicates.rs:930-934 | a text comes back as it was exactly when it has no control characters but line feeds, carriage returns and tabs |

## Left out

- Unvisited nodes carry the index -1 where the code uses the largest machine word, and the search returns all components, which `Cycles.Filter` then filters in a loop of its own rather than while popping.
- SQL, SQLite and its cascades: a table is a map from path to rows, and deleting or replacing a row takes what cascades from it along.
- Run reports, counters of indexed and skipped files, symbol-change accounting, embeddings and the post-reindex hook; a failure of the accounting is an input of the runs.
- Wall-clock time: `now` is an input, and timeouts are steps that may happen at any moment.
- Symlinks, hard links, case-insensitive file systems and paths outside the root: a reported file is indexed under the spelling it was reported with, or not at all.
- Indexer.Index.IndexAsset: a read of a glTF asset that fails after its metadata was read is not an input of its own: with the recorded size and time it acts like a read, otherwise like an unreadable file.
- File types whose parser refuses the extension.
- Indexer.Index.ReindexPathsInner: reports arrive as sorted, distinct paths inside the root, as `crates/mct-index/src/indexer.rs:685-696` makes them, so only the first can be the root itself.
- Indexer.Index.ReindexPaths: the same.
- Cutting ignore files into lines and decoding them, and the meaning of globs: matching is a parameter.
- ExclusionProtocol.NoExcludedRows: fewer than 2^64 rule swaps of one set are assumed, since the generation wraps; `ExclusionProtocol.PromiseIff` and `ExclusionProtocol.StoredIff` compare numbers of swaps, not wrapped generations.
- Indexer.TriesAgainIff: the same.
- In the exclusion protocol rules are any predicate on paths, the built-in rules included, and what a process reads when it builds or reloads its rules is not tied to the ignore files on disk.
- File-level checks of the coordination files (modes, links, inode identity) and the polling loop of `acquire`: a lock is taken in one step when it is free. A client's early return drops its guards one after the other, as the steps do.
- Migrations are one step: they leave the target version or, failing, what was there. SQL errors while opening are steps that may happen at any moment.
- Scores: the product with a million is exact, not a rounded floating-point product.
- `EstimatedCounter`, level names and their parsing, and accessors of budgets and selections: each says only what its body says.
- `cost` is a function of its arguments; a cost that changes between calls is not modelled.
- Path spelling of the module argument (`trim`, backslashes, trailing slashes) and the SQL that classifies an import.
- Paging.RelationPageOf: the single-hop page, which is counted in SQL, is not part of this model; which hits of hop 1 reach the start is a parameter.
- Walks of more than 2^64 - 1 hits, which no list could hold.
- `build_detail`, the declarations and unmapped rocks of `origin_in`, the interpreter entry and the texts of reasons; a store that stands for a directory that could not be listed counts as one store.
- The rest of the TOON reader and writer: objects, tables, indentation and key lines.
