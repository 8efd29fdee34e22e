# A verified model of the import graph, the write pipeline and the incremental scanner

This project models, in Dafny 4.11, the parts of the repository that hold hard state:

- **The import graph** (`internal/engine/graph`): a graph of modules kept up to date file by file, with a
  reverse index, definition tables and a bounded cache of parsed files, and the analyses on top of it:
  strongly connected components, depth, cycle detection, shortest import chain, invalidation, impact, and the
  flow diagram of `internal/ui/report/formats`.
- **The write pipeline** (`internal/core/app/write_worker.go`, `internal/data/queue`): a bounded memory queue
  that spills to a persistent spool, a worker that may fail at any batch, and the drain at shutdown; and the
  `BatchWriter` of the symbol store.
- **The secret scanner** (`internal/engine/secrets`, `internal/core/app/helpers`): scanning only the changed
  lines must find what a scan of the whole text finds.
- **The scan roots** (`internal/core/app/helpers/utils.go`).

Code that updates things step by step is written as methods and classes and proved against a specification;
what the specification promises is then proved about every input, every run or every interleaving.

| files | contents |
|---|---|
| `Collections`, `Digraphs` | walks, reachability, ordered lists of names |
| `Components`, `Depth`, `Metrics` | Tarjan's search, longest paths in the condensation, module metrics |
| `Cycles`, `Agreement` | the depth-first cycle detector and its agreement with the components |
| `BreadthFirst`, `ImportChain`, `Flow` | shortest chains and the bounded search of the flow diagram |
| `Lru` | the cache, alone and over whole runs |
| `ImportGraph`, `Rebuild`, `Winners`, `FreshRebuild` | the mutable graph, its invariants, and incremental update against rebuild |
| `Peaks` | what `MaxComplexity` says about the files of a module |
| `StaleTables` | what a tracked file that the cache has dropped does to the tables of its module |
| `Impact` | invalidation and impact analysis |
| `WriteQueues`, `WriteWorker`, `WorkerLosses`, `WorkerOrder`, `Drain`, `Shutdown` | store, queue and spool; the worker as a step system; which requests it loses; in which order it hands them on; the drain loop; worker and drain together |
| `BatchWriter`, `WriterOrder`, `WriterRequests`, `WriterAnswers` | the single-writer goroutine, Submit, Flush and Close as a step system; its order; its flush requests; what their answers say |
| `TextLines`, `LineRanges`, `Secrets` | lines and offsets, line ranges, scanning |
| `ScanRoots` | minimal scan roots |

Module names and file paths are numbers, standing for their rank in string order, so that sorting is by rank.
Iteration over a Go map is an arbitrary choice of the next key; every result holds for every choice. In the
two step systems every interleaving of producers, worker and callers is a list of steps, and booleans in the
steps choose which transactions, spool writes and acknowledgements succeed; a step that is not possible
changes nothing. A call that first looks at one shared object and then changes another is two steps, with any others
in between. The worker and the batch writer run as concurrent loops, so they are step systems; the drain
loop runs alone, so it is a method over the queue, spool and store objects.

Where the code does not do what its comments or its purpose suggest, the model follows the code, shows the input,
and says exactly when the promise holds:

- `internal/engine/graph/writer.go:125-126` calls submit-then-flush always coherent. A file that a failed
  transaction dropped in the background stays lost, and a later `Flush` still reports success
  (`FlushHidesEarlierLoss`). An answered flush has written everything submitted before it exactly when no
  transaction that carried such a file has failed (`FlushCoherentIff`, and `CloseCompleteIff` for `Close`). Success
  means exactly that the flush's own transaction dropped nothing (`AnsweredByOwnWrite`).
- `internal/engine/graph/writer.go:77-78` says that `Flush` waits until it is complete. A request still in the
  channel when the writer goroutine leaves is never answered (`FlushCanBeStranded`, `StrandedForever`). A request
  can be stranded without any further call exactly when `Close` was called before (`FlushStrandableIffClosed`).
- A submitter that finds the channel full writes its file itself, in a transaction of its own, which may come before
  or after those of the queued files. If it comes before, an older version of a file can be written over a newer one
  (`DirectWriteLosesUpdate`); if it comes after, nothing is lost (`LateDirectWriteKeepsOrder`). Counting a submission
  from the moment when the file is in the channel or its own transaction is over, order is kept exactly when no direct
  write happens while older files are on their way (`InOrderIffNotOvertaken`), so in particular when no submitter
  finds the channel full; the store ends with the last version of every path exactly when no path's last submission
  was a direct write while an older file of that path was on its way (`LastVersionsIff`).
- Without a spool a failed apply drops the memory batch (`LossWithoutSpool`). If no request is accepted twice, every
  accepted request is somewhere, whatever apply and acknowledgement failures occur, exactly when no spill fails
  (`EverySomewhereIffNeverDrops`, and request by request `SomewhereIffNotDropped`).
- A tracked file that the cache has dropped keeps its old entries when it is added again (`StaleEdgeRemains`), and is
  left out when another file of its module is removed or updated (`SiblingEdgeLost`). For the first such miss the
  names in the module's imports, definitions and exports are right exactly when nothing depended on dropped files
  alone: `RightAfterReturnIff` when the dropped file itself is added again, `RightAfterRemovalIff` when another one is
  removed, `RightAfterUpdateIff` when another one is updated, `RightAfterMove` when another one moves away. A dropped
  file that returns under another module stays listed by the first (`ListedTwice`).
- `internal/engine/graph/graph.go:41` calls `MaxComplexity` the maximum across all files of the module. It is never
  lowered: the value of a removed file stays (`PeakOutlivesFile`). It is never too low (`PeaksCoverFiles`), and after a
  removal it is right exactly when it is zero or another file reaches it (`RightAfterRemovalIff` in `Peaks`).
- When the working directory cannot be found out, paths stay relative, and a path of one character that sorts before
  "." is kept as a root beside "." (`DashIsKept`). By the code's own subpath test that is the only such case
  (`UniqueScanRoots`); the test itself does not see that a relative path lies under ".." (`ParentIsNotSeen`).

## Model

| member | source | states |
|---|---|---|
| `Components.StronglyConnectedComponents` | internal/engine/graph/graph.go:588-646 | for any adjacency closed over its nodes the call ends; the components partition the nodes, `componentOf` is each node's place in the list, two nodes share a component exactly when each reaches the other, and every edge between components goes to a smaller id |
| `Components.Search.StrongConnect` | internal/engine/graph/graph.go:597-637 | what one recursive call adds: it numbers what it reaches, closes finished components and leaves the open calls as they were; its low-link is its own number if its component was closed, else the number of an open node further down that it reaches, and no edge from what it leaves on the stack goes to an open node below that |
| `Components.Search.Follow` | internal/engine/graph/graph.go:606-615 | one turn of the target loop keeps the search invariant whether the target is new, open or closed |
| `Components.Search.PopTo` | internal/engine/graph/graph.go:621-630 | popping down to a root takes exactly the part of the stack from the root up |
| `Components.LowLeadsDown` | internal/engine/graph/graph.go:606-619 | a low-link below the node's own number names an open node further down the stack from which an active node can be reached |
| `Components.RootSegment` | internal/engine/graph/graph.go:617-637 | when low-link and number agree, all nodes from the root up reach each other and no edge leads from them to a node further down |
| `Components.ReachDescends` | internal/engine/graph/graph.go:413-427 | along any import path component ids never rise: ids are a reverse topological order |
| `Depth.ComponentEdges` | internal/engine/graph/graph.go:413-427 | the component graph has an edge exactly where some import joins two different components |
| `Depth.DepthMemo.ComputeDepth` | internal/engine/graph/graph.go:429-446 | the memoised recursion ends and gives the length of the longest path from a component; earlier entries of the memo stay |
| `Depth.LongestFromSuccessors` | internal/engine/graph/graph.go:435-443 | one more than the longest path from the best successor is the longest path |
| `Depth.ProjectWalk` | internal/engine/graph/graph.go:413-427 | every walk of imports projects to a walk of the condensation with one edge per crossing |
| `Depth.LiftWalk` | internal/engine/graph/graph.go:413-427 | every walk of the condensation is the projection of a walk of imports from any module of its first component |
| `Depth.CrossingsAreOneWay` | internal/engine/graph/graph.go:413-427 | a step crosses into another component exactly when its target does not reach its source |
| `Depth.LongestIsDepth` | internal/engine/graph/graph.go:429-471 | the longest path in the condensation is the largest number of one-way steps on a walk of imports, a measure that mentions no components |
| `Metrics.ComputeModuleMetrics` | internal/engine/graph/graph.go:378-478 | every live module and no other gets its depth (largest number of one-way steps), the number of modules that import it, the number it imports, and an importance of two for each importer, one for each import, half the highest complexity of its definitions, and ten for a public name |
| `Metrics.DefinitionsPeak` | internal/engine/graph/graph.go:456-467 | the highest complexity among a module's definitions, stored or weighted, zero if none is higher |
| `Metrics.BuildAdjacency` | internal/engine/graph/graph.go:388-402 | the adjacency lists hold, sorted, exactly the imports between modules of the graph |
| `Metrics.CountFanIn` | internal/engine/graph/graph.go:404-411 | the counter of a module ends as the number of modules that import it |
| `Cycles.DetectCycles` | internal/engine/graph/detect.go:6-84 | every reported cycle is a simple closed walk of live modules along imports, no two close with the same edge, and every closed walk takes the closing edge of some reported cycle: without those edges the graph is acyclic |
| `Cycles.Explore` | internal/engine/graph/detect.go:21-81 | the search from one start with its stack of frames ends and keeps the account of finished modules and reported closing edges |
| `Cycles.GetSortedNeighbors` | internal/engine/graph/detect.go:86-96 | the live targets of a module, sorted, each once |
| `Cycles.FinishedReports` | internal/engine/graph/detect.go:6-84 | when all modules are finished, a closed walk without a reported closing edge cannot exist |
| `Cycles.RankFallsAlong` | internal/engine/graph/detect.go:46-79 | along a walk without reported closing edges the order of finishing strictly falls |
| `Cycles.PopKeeps` | internal/engine/graph/detect.go:74-79 | popping a frame whose neighbours are all handled keeps the invariant |
| `Cycles.ReportKeeps` | internal/engine/graph/detect.go:50-63 | the part of the path from an open neighbour to the top is a cycle, and reporting it keeps the invariant |
| `Cycles.ReportCloses` | internal/engine/graph/detect.go:50-63 | the edge that closes a new report has not been looked at before, so no earlier report closes with it |
| `Agreement.CycleInOneComponent` | internal/engine/graph/detect.go:21-83 | every reported cycle lies in one strongly connected component |
| `Agreement.CyclicIffReported` | internal/engine/graph/graph.go:588-646 | a component has more than one module or a self-import exactly when some reported cycle lies in it |
| `Agreement.NoCyclesIffAcyclic` | internal/engine/graph/detect.go:21-83 | nothing is reported exactly when every component is one module without a self-import |
| `BreadthFirst.Discover` | internal/engine/graph/detect.go:130-154 | giving a new node the distance of its finder plus one keeps the queue ordered by distance within one level |
| `BreadthFirst.Revisit` | internal/ui/report/formats/diagram_modes.go:230-237 | a node already found is at most one further than the node being expanded, so the re-relaxing test of the search never succeeds for it |
| `BreadthFirst.BoundedEnd` | internal/ui/report/formats/diagram_modes.go:214-238 | when the queue of a bounded search is empty, exactly the nodes within the bound are found, each at its shortest distance |
| `BreadthFirst.UnboundedEnd` | internal/engine/graph/detect.go:117-157 | when the queue of an unbounded search is empty, everything reachable is found |
| `ImportChain.FindImportChain` | internal/engine/graph/detect.go:99-158 | a chain is found exactly when both modules are live and the second is reachable from the first through live modules; it starts and ends there, follows imports, is as short as any, and of the shortest chains the first in dictionary order |
| `ImportChain.Rebuild` | internal/engine/graph/detect.go:138-150 | following the predecessors back from the target and reversing gives the chain by which the target was found |
| `ImportChain.DiscoveredFirst` | internal/engine/graph/detect.go:117-153 | the chain to a node found next comes before every other walk of its length |
| `ImportChain.DiscoverInOrder` | internal/engine/graph/detect.go:128-153 | taking the targets in sorted order keeps the queue, level by level, in the dictionary order of the chains |
| `ImportChain.FinishInOrder` | internal/engine/graph/detect.go:117-153 | when a node's targets are exhausted the order carries over to the next node, on the same level or the next |
| `ImportChain.ReversePath` | internal/engine/graph/detect.go:147-149 | the swap loop reverses the path |
| `Flow.BuildFlow` | internal/ui/report/formats/diagram_modes.go:181-259 | fails exactly for a bound below one or an empty graph; otherwise the nodes are exactly the modules within the bound of the entry set, sorted, each at its shortest distance and marked if it is an entry, and the edges are exactly the live imports of modules strictly inside the bound |
| `Flow.DefaultEntryModules` | internal/ui/report/formats/diagram_modes.go:261-284 | the default entries are exactly the modules that no module imports |
| `Flow.EntryModules` | internal/ui/report/formats/diagram_modes.go:196-202 | the entries asked for, else the modules nobody imports, else the first module by name |
| `Flow.Search` | internal/ui/report/formats/diagram_modes.go:204-238 | the search ends for any entry set and bound, with an empty queue, everything found expanded up to the bound, and the edges exactly those out of expanded modules |
| `Flow.SearchMeansFlow` | internal/ui/report/formats/diagram_modes.go:214-258 | a finished search, listed by name, is the flow data as defined by distances alone |
| `Lru.LRUCache.constructor` | internal/engine/graph/lru.go:32-41 | an empty cache; a capacity that is not positive becomes one |
| `Lru.LRUCache.Get` | internal/engine/graph/lru.go:45-56 | returns the value of a held key and makes it the most recent; a miss changes nothing |
| `Lru.LRUCache.Put` | internal/engine/graph/lru.go:60-79 | stores the value as most recent; a new key in a full cache drops exactly the least recent one |
| `Lru.LRUCache.Evict` | internal/engine/graph/lru.go:83-93 | removes exactly the given key |
| `Lru.LRUCache.Peek` | internal/engine/graph/lru.go:96-106 | returns what is held without changing the order |
| `Lru.LRUCache.SetCapacity` | internal/engine/graph/lru.go:142-154 | the capacity is the given one, at least one; the order is cut to its most recent keys that fit, and their values stay |
| `Lru.LRUCache.EvictLeastRecent` | internal/engine/graph/lru.go:158-165 | removes the last key of the order and its value |
| `Lru.LRUCache.Prune` | internal/engine/graph/lru.go:169-187 | drops the keys at the end of the order; their number is returned and is the given percentage of the size, rounded down, none from zero downwards and all from a hundred upwards |
| `Lru.Inclusion` | internal/engine/graph/lru.go:45-93 | on any common trace of Get, Put and Evict the larger cache always holds every key and value of the smaller one, in the same order |
| `Lru.HitsAreIncluded` | internal/engine/graph/lru.go:45-56 | a hit in the smaller cache is a hit with the same value in the larger |
| `Lru.OrderIsRecency` | internal/engine/graph/lru.go:45-79 | on any trace the order list is strictly descending by the last Put or successful Get of each key |
| `Lru.HoldsLastPut` | internal/engine/graph/lru.go:45-93 | on any trace a held value is the one last put under its key, and the key has not been evicted since |
| `Lru.RoomForAll` | internal/engine/graph/lru.go:60-93 | a cache with room for all keys that are ever put holds exactly what was last put under each |
| `Lru.PutWellFormed` | internal/engine/graph/lru.go:60-79 | a Put keeps the agreement of map, list and capacity, stores the value, invents nothing, and drops nothing while there is room |
| `ImportGraph.Graph.constructor` | internal/engine/graph/graph.go:63-74 | a new graph is empty and satisfies the invariant |
| `ImportGraph.Graph.AddFile` | internal/engine/graph/graph.go:92-181 | the whole new state: the earlier version is taken out if the cache still holds it, then cache, file list, definitions, exports, peak complexity, imports and reverse index take the file in; the invariant is kept |
| `ImportGraph.Graph.RemoveFile` | internal/engine/graph/graph.go:183-271 | the whole new state: the module's tables are rebuilt from its other files still in the cache, or the module goes with its last file |
| `ImportGraph.Graph.GetFile` | internal/engine/graph/graph.go:327-335 | without a loader, a cached file is returned, belongs to the path asked for and to the module it is tracked for, and becomes the most recent; nothing else changes |
| `ImportGraph.Graph.UpdateCapacity` | internal/engine/graph/graph.go:82-86 | only the cache changes, and the invariant is kept |
| `ImportGraph.Graph.PruneCache` | internal/engine/graph/graph.go:88-90 | only the cache changes, the number of dropped files is returned, and the invariant is kept |
| `ImportGraph.Graph.RebuildModule` | internal/engine/graph/graph.go:214-257 | clearing, replaying the remaining files in order and unlinking the targets no longer imported |
| `ImportGraph.Graph.MergeDefinitions` | internal/engine/graph/graph.go:222-234 | merging definitions one by one into the table and the exports |
| `ImportGraph.Graph.MergeImports` | internal/engine/graph/graph.go:160-173 | each import becomes an edge and an entry of the reverse index |
| `ImportGraph.ReachableOk` | internal/engine/graph/graph.go:82-271 | after any run of AddFile, RemoveFile, GetFile, UpdateCapacity and PruneCache, for any capacity, tables, tracked files, cache and reverse index agree |
| `ImportGraph.ReverseIndexExact` | internal/engine/graph/graph.go:82-271 | after any such run, `from` is in `importedBy[to]` exactly when `to` is in `imports[from]`, and every importer is a live module with files |
| `ImportGraph.ReplayStaysLive` | internal/engine/graph/graph.go:220-249 | while files are replayed, every cached file belongs to a module that still has an import table, so no write goes to a missing table |
| `ImportGraph.AddedKeeps` | internal/engine/graph/graph.go:92-181 | adding a file keeps the invariant |
| `ImportGraph.RemovedKeeps` | internal/engine/graph/graph.go:189-271 | removing a file keeps the invariant |
| `ImportGraph.RebuildKeepsReverse` | internal/engine/graph/graph.go:217-257 | replay followed by unlinking the targets no longer imported leaves the reverse index exact |
| `Rebuild.IncrementalIsCanonical` | internal/engine/graph/graph.go:92-271 | along every run in which each lookup of a tracked file finds it in the cache, whatever else is dropped, each module's imports, definitions and exports are the folds over the last versions of the files it lists, in their order, and exactly the modules with files exist |
| `Rebuild.EvictionFreeHits` | internal/engine/graph/graph.go:92-271 | a run in which the cache drops nothing is such a run, and the cache then holds exactly the tracked files |
| `Rebuild.RemovedShape` | internal/engine/graph/graph.go:189-271 | whichever siblings the cache still holds, a removal leaves the module with the folds over those of its files that are cached |
| `Rebuild.ReplayAllFolds` | internal/engine/graph/graph.go:220-249 | replaying files from the cache computes the folds |
| `Winners.TablesHoldWinners` | internal/engine/graph/graph.go:92-271 | after a run in which each lookup of a tracked file hits, among the last versions of the listed files: there is an import entry for exactly the modules that some file imports, with the importing file, the location and the module of the last import in the last such file; each definition or export has at least the score of every other of its name, at equal scores at least the lines, then branches, parameters and nesting, and is the first with these five values; nothing else is in the tables |
| `Winners.MergeKeepsFirstBest` | internal/engine/graph/graph.go:499-535 | merging a list of definitions keeps, for every name in it, the one with the highest score, then lines, branches, parameters and nesting, and the first of those that agree in all five |
| `Winners.FoldEdgesLast` | internal/engine/graph/graph.go:160-167 | folding files gives an edge to every module that some file imports, made from the last import in the last such file |
| `Winners.PreferMeans` | internal/engine/graph/graph.go:499-535 | a definition is preferred exactly when the other does not have at least its score, lines, branches, parameters and nesting, compared in this order; the score is the stored one if positive, else twice the branches and nesting, the parameters and a tenth of the lines |
| `Winners.AtLeastTransitive` | internal/engine/graph/graph.go:499-535 | the comparison is transitive |
| `Peaks.PeaksCoverFiles` | internal/engine/graph/graph.go:92-271 | after any run, with any cache, no definition of a tracked file is more complex than the `MaxComplexity` of its module |
| `Peaks.PeakWasAdded` | internal/engine/graph/graph.go:129-154 | `MaxComplexity` is zero or the complexity of a definition that some AddFile of the run brought to the module |
| `Peaks.FilePeakMeans` | internal/engine/graph/graph.go:129-150 | the complexity of a file is the highest of its definitions, a stored score unless zero, else the weight, and zero if none is higher |
| `Peaks.RightAfterRemovalIff` | internal/engine/graph/graph.go:189-271 | after a removal `MaxComplexity` of a remaining module is the maximum over its files exactly when it is zero or a file other than the removed one reaches it |
| `Peaks.AddingKeepsRight` | internal/engine/graph/graph.go:92-154 | adding a file that is not tracked keeps every `MaxComplexity` that is right |
| `Peaks.PeakOutlivesFile` | internal/engine/graph/graph.go:92-271 | a concrete run in which the most complex file is removed and its complexity stays |
| `FreshRebuild.IncrementalEqualsRebuild` | internal/engine/graph/graph.go:92-271 | after a run in which each lookup of a tracked file hits, adding the tracked files to a new graph of any capacity, module lists in their order, gives the same modules, files, languages, exports, imports, definitions and reverse index |
| `FreshRebuild.EvictionFreeRebuild` | internal/engine/graph/graph.go:92-271 | if the cache drops nothing, and the new graph has room, the cached files are the same too and nothing is dropped |
| `FreshRebuild.RebuildIsPossible` | internal/engine/graph/graph.go:92-271 | such a rebuild exists for every run in which the lookups of tracked files hit |
| `StaleTables.RightAfterReturnIff` | internal/engine/graph/graph.go:96-173 | when a tracked file that the cache has dropped is added again to its module, the module's imports, definitions or exports have the names that a rebuild gives exactly when everything the earlier version gave is given by the new version or by another file of the module |
| `StaleTables.RightAfterRemovalIff` | internal/engine/graph/graph.go:195-259 | when a file is removed, each of the module's tables has the names that a rebuild gives exactly when everything a remaining file gives is given by one that the cache still holds |
| `StaleTables.RightAfterUpdateIff` | internal/engine/graph/graph.go:96-259 | when a cached file is added again to its module, each of the module's tables has the names that a rebuild gives exactly when everything another file of the module gives is given by one that the cache still holds or by the new version |
| `StaleTables.RightAfterMove` | internal/engine/graph/graph.go:96-259 | when a cached file moves to another module, the earlier module is left as a removal leaves it and the new one has the names that a rebuild gives |
| `StaleTables.FoldNames` | internal/engine/graph/graph.go:222-247 | the names in the folded tables are exactly those that some listed file gives |
| `StaleTables.ListedTwice` | internal/engine/graph/graph.go:96-124 | if the dropped file comes back under another module, the earlier module goes on listing it |
| `StaleTables.StaleEdgeRemains` | internal/engine/graph/graph.go:96-173 | a concrete run after which an edge remains that no tracked file makes and no fresh build has |
| `StaleTables.SiblingEdgeLost` | internal/engine/graph/graph.go:96-259 | a concrete run in which updating one file loses the edge of another file of the module, which a fresh build has |
| `Impact.InvalidateTransitive` | internal/engine/graph/detect.go:160-197 | nothing for an untracked file; otherwise the file first, then without duplicates exactly the files of the other modules with an import path to its module |
| `Impact.AnalyzeImpact` | internal/engine/graph/impact.go:31-50 | a tracked file or a module name gives a report, anything else an error; for a module the first of its files is the target path |
| `Impact.AnalyzeModule` | internal/engine/graph/impact.go:52-106 | direct importers are exactly the modules that import the target, transitive ones exactly those with only longer paths to it, both sorted; exported symbols are listed when somebody imports the target |
| `Impact.TransitiveImporters` | internal/engine/graph/impact.go:65-92 | the search over the reverse index ends with everything that reaches a direct importer |
| `Impact.ImpactAgreesWithInvalidation` | internal/engine/graph/impact.go:52-92 | apart from the target the direct and transitive importers, which are disjoint, are exactly the modules whose files an invalidation collects |
| `Impact.WorklistEnd` | internal/engine/graph/detect.go:173-194 | when the queue is empty exactly the nodes reachable from the sources have been seen |
| `WriteQueues.SymbolStore.ApplyWriteBatch` | internal/core/app/write_worker.go:234-267 | all of the batch is committed, in order, or nothing; an unsupported operation refuses the batch; and a path is stored with a version exactly when some request of the log writes that version and none after it writes the path, deletes it, or prunes to paths without it |
| `WriteQueues.StoredIffLastWritten` | internal/core/app/write_worker.go:234-267 | for every log: performing it leaves a path stored with a version exactly when some request writes that version and none after it settles the path in another way |
| `WriteQueues.MemoryQueue.constructor` | internal/data/queue/memory_queue.go:19-24 | an empty open queue of at least one place |
| `WriteQueues.MemoryQueue.Enqueue` | internal/data/queue/memory_queue.go:26-38 | accepted at the end exactly when open and not full, else dropped without change |
| `WriteQueues.MemoryQueue.DequeueBatch` | internal/data/queue/memory_queue.go:40-93 | takes a prefix of the queue of at most the batch size; end of file only when closed and empty, cancellation only with an empty batch, without waiting a short batch only when the queue is empty |
| `WriteQueues.MemoryQueue.Close` | internal/data/queue/memory_queue.go:95-104 | closes the queue and keeps what it holds |
| `WriteQueues.SQLiteSpool.Enqueue` | internal/data/queue/sqlite_spool.go:73-91 | appends a row with a new id, due now, or fails without change |
| `WriteQueues.SQLiteSpool.DequeueBatch` | internal/data/queue/sqlite_spool.go:93-137 | the first due rows by id, up to the limit; the table is unchanged |
| `WriteQueues.SQLiteSpool.Ack` | internal/data/queue/sqlite_spool.go:139-166 | deletes exactly the rows with the given ids, or fails without change |
| `WriteQueues.SQLiteSpool.Nack` | internal/data/queue/sqlite_spool.go:168-200 | counts one more attempt and puts off exactly the rows of the batch, or fails without change |
| `WriteQueues.DueTakesFirst` | internal/data/queue/sqlite_spool.go:93-137 | a due row is left out only when the batch is full and every taken row has a smaller id |
| `WriteQueues.RemovalSplits` | internal/data/queue/sqlite_spool.go:139-166 | acknowledging a batch removes exactly its requests from those in the table |
| `WriteQueues.DeferredKeeps` | internal/data/queue/sqlite_spool.go:168-200 | putting rows off changes neither their order nor their requests |
| `WriteQueues.PutOffOnce` | internal/data/queue/sqlite_spool.go:168-200 | putting off a batch gives each of its rows one more attempt and the new due time, and leaves every other row as it is |
| `WriteWorker.BackoffDelay` | internal/core/app/write_worker.go:172-194 | the doubling loop gives the base delay times a power of two, cut off at the maximum |
| `WriteWorker.BackoffMonotone` | internal/core/app/write_worker.go:172-194 | delays are positive, never shrink with more attempts and never exceed the maximum |
| `WriteWorker.BackoffDoubles` | internal/core/app/write_worker.go:172-194 | the first delay is the base delay and each later one twice the one before, as far as the maximum allows |
| `WriteWorker.RunOk` | internal/core/app/write_worker.go:67-170 | in every reachable state spool ids are distinct and ordered, the rows in hand are rows of the spool, and batches are empty where the worker holds none |
| `WriteWorker.Conservation` | internal/core/app/write_worker.go:67-232 | in every interleaving, copies of a request waiting, in hand, spooled, committed or lost add up to its acceptances plus the commits whose acknowledgement failed or is still to come |
| `WriteWorker.NothingLost` | internal/core/app/write_worker.go:86-170 | if no spill fails, every accepted request is, after every step and whatever apply or ack failures occur, in the channel, in the batch in hand, in the spool or committed |
| `WriteWorker.SpoolPreventsDrops` | internal/core/app/write_worker.go:141-156 | with a spool whose writes succeed no spill fails |
| `WriteWorker.LostIffDropped` | internal/core/app/write_worker.go:141-156 | the ledger of lost requests is empty exactly when no spill fails for want of a spool or of a successful write |
| `WorkerLosses.RequestLostIff` | internal/core/app/write_worker.go:141-156 | a request is in that ledger exactly when some step of the run spills it and cannot |
| `WorkerLosses.SomewhereIffNotDropped` | internal/core/app/write_worker.go:67-232 | a request accepted once is, after every step and whatever apply and acknowledgement failures occur, in the channel, in hand, in the spool or committed exactly when no step has dropped it |
| `WorkerLosses.EverySomewhereIffNeverDrops` | internal/core/app/write_worker.go:67-232 | if no request is accepted twice, then after every step and whatever apply and acknowledgement failures occur every accepted request is somewhere exactly when no spill has failed |
| `WorkerLosses.RunOneSide` | internal/core/app/write_worker.go:67-232 | a request accepted once is never both in memory or lost and in the spool or committed |
| `WorkerOrder.ChannelOrder` | internal/core/app/write_worker.go:67-170 | for every run: the requests that entered the channel, in step order, are those that left the memory batch by commit, spill or loss, in step order, followed by the batch in hand and the channel |
| `WorkerOrder.CommitsKeepOrder` | internal/core/app/write_worker.go:67-135 | if no apply fails, the requests that came by memory are committed in the order in which they entered the channel, a prefix of what entered |
| `WorkerOrder.SpillsAscend` | internal/core/app/write_worker.go:141-156 | spilled requests get spool ids in the order in which they entered the channel |
| `WorkerOrder.ApplyAppends` | internal/core/app/write_worker.go:86-117 | a successful apply appends to the log the memory batch and then rows of the spool, due and by ascending id, together no more than the batch size |
| `WorkerOrder.PutOffWaits` | internal/core/app/write_worker.go:158-194 | a row that fails again counts one more attempt and waits at least the back-off of that many attempts, exactly that of the row with the most attempts in the batch |
| `WorkerOrder.StopsOnlyIfClosed` | internal/core/app/write_worker.go:67-116 | unless it is cancelled the worker stops only when the queue is closed and empty |
| `WorkerOrder.RequestsHaveProject` | internal/core/app/write_worker.go:196-201 | as long as a project is active no request is kept without one |
| `WorkerOrder.EveryCallIsSettled` | internal/core/app/write_worker.go:196-232 | each call that enqueues is under way, accepted, or refused, and refused only when the queue is full or closed, no spool write succeeds and no direct write does |
| `WriteWorker.EveryCopyIffNeverDrops` | internal/core/app/write_worker.go:67-170 | if every acknowledgement succeeds, then except between a commit and its acknowledgement the copies of each request in channel, hand, spool and committed log are as many as its acceptances exactly when no spill fails |
| `WriteWorker.AgainIffUnacked` | internal/core/app/write_worker.go:126-134 | the ledger of commits whose rows stay in the spool is empty exactly when every acknowledgement succeeds |
| `WriteWorker.NoExtraCopyIffAcked` | internal/core/app/write_worker.go:118-135 | if no spill fails, then except between a commit and its acknowledgement no request is in more places than it was accepted exactly when every acknowledgement succeeds |
| `WriteWorker.RepeatedIffUnacked` | internal/core/app/write_worker.go:67-170 | when everything is delivered and no spill has failed, some request is committed more often than it was accepted exactly when some acknowledgement has failed |
| `WriteWorker.ExactlyOnce` | internal/core/app/write_worker.go:67-170 | if no spill and no acknowledgement fails, every request waits or is committed exactly as often as it was accepted, except between a commit and its acknowledgement |
| `WriteWorker.NothingInvented` | internal/core/app/write_worker.go:67-232 | whatever is held, committed or lost was accepted |
| `WriteWorker.LossWithoutSpool` | internal/core/app/write_worker.go:141-144 | a concrete run without a spool in which an accepted request is in none of the places left |
| `Drain.DrainWriteQueue` | internal/core/app/write_worker.go:319-367 | with no producers the loop ends; what was taken from the channel is a prefix, committed in order except for the part that an error result gives up; whatever the result, every spool row not committed is still there with its request, and committed rows are gone unless the acknowledgement failed; success means an empty channel, no row due at the end, and rows taken when due, overtaking only rows not due; on success the store holds for every path what the log last says of it |
| `Drain.BatchProgress` | internal/core/app/write_worker.go:334-356 | taking the due rows and deleting them keeps the order in which rows are taken |
| `Drain.NothingDue` | internal/core/app/write_worker.go:334-361 | an empty batch with room left means that no row is due |
| `Shutdown.StopWriteWorker` | internal/core/app/write_worker.go:285-317 | nothing is touched if the worker is not seen to leave in time; otherwise the drain's outcome, the queue is closed exactly when the drain succeeds, and a failure to close the spool is reported |
| `Shutdown.ShutdownLosesNothing` | internal/core/app/write_worker.go:67-367 | from the first request on: when the worker has left without a failed spill and the drain succeeds, every accepted request is committed or a spool row not yet due, and with all acknowledgements successful exactly as often as it was accepted |
| `Shutdown.LateRequest` | internal/core/app/write_worker.go:196-213 | a request after the worker has left and the drain is over is accepted into the channel exactly when the queue is still open and has room, and then nothing takes it out any more |
| `BatchWriter.FlushIsCoherent` | internal/engine/graph/writer.go:65-147 | in every interleaving, when a flush is answered every file submitted before it was issued has been written, or dropped by a failed transaction |
| `BatchWriter.CloseIsComplete` | internal/engine/graph/writer.go:90-95 | when Close returns every file submitted before the call has been written, or dropped by a failed transaction |
| `BatchWriter.NothingLost` | internal/engine/graph/writer.go:65-181 | no file is dropped while all transactions succeed |
| `BatchWriter.LostIffFailed` | internal/engine/graph/writer.go:65-181 | nothing is lost exactly when no transaction that carries a file fails |
| `BatchWriter.FileLostIffFailed` | internal/engine/graph/writer.go:65-181 | a file is lost exactly when some step of the run is a failing transaction that carries it |
| `BatchWriter.InOnePlace` | internal/engine/graph/writer.go:65-181 | for files submitted once: a file is submitted exactly when it is in the channel, in the batch, in the hands of Close, written or lost, and a written or lost file is nowhere else |
| `BatchWriter.FlushCoherentIff` | internal/engine/graph/writer.go:65-147 | an answered flush has written every file submitted before it exactly when no transaction has failed that carried one of them |
| `BatchWriter.CloseCompleteIff` | internal/engine/graph/writer.go:90-181 | when Close returns, every file submitted before the call is written exactly when no transaction has failed that carried one of them |
| `BatchWriter.RunKeeps` | internal/engine/graph/writer.go:98-147 | after every step each submitted file is in the channel, in the batch, in the hands of Close, written or dropped, exactly as often as it was submitted |
| `WriterOrder.FlushAndCloseKeepOrder` | internal/engine/graph/writer.go:98-196 | when all transactions succeed and no direct write overtakes files on their way, files are written in the order of submission, and an answered flush or a finished Close has written everything submitted before it |
| `WriterOrder.InOrderIffNotOvertaken` | internal/engine/graph/writer.go:65-75 | for distinct files and successful transactions, the written files are a prefix of the submitted ones exactly when no direct write happens while older files are on their way |
| `WriterOrder.QueuedIsNotOvertaken` | internal/engine/graph/writer.go:65-75 | if no submitter finds the channel full, no direct write overtakes anything |
| `WriterOrder.LastVersionsIff` | internal/engine/graph/writer.go:65-75 | for distinct files and successful transactions, once nothing is on its way the store holds the last submitted version of every path exactly when no path's last submission was a direct write while an older file of that path was on its way |
| `WriterOrder.LineMoves` | internal/engine/graph/writer.go:65-181 | the files written and those on their way form one line that only a completed submission changes: a queued file joins the end, a file written directly goes ahead of all that is on its way at that moment |
| `WriterOrder.LateDirectWriteKeepsOrder` | internal/engine/graph/writer.go:65-75 | a concrete run in which a submitter finds the channel full and its write still comes in order |
| `WriterOrder.DirectWriteLosesUpdate` | internal/engine/graph/writer.go:65-75 | a concrete run in which the direct write lets an older version of a file overwrite a newer one |
| `WriterRequests.StrandedForever` | internal/engine/graph/writer.go:79-87 | a flush request in the channel when the writer goroutine has returned is never answered |
| `WriterRequests.UnansweredIffQueued` | internal/engine/graph/writer.go:79-147 | once the writer goroutine has returned, the unanswered flush requests are exactly those still in the channel |
| `WriterRequests.SafeBeforeClose` | internal/engine/graph/writer.go:79-147 | as long as Close has not been called no request is stranded |
| `WriterRequests.LeavesRequest` | internal/engine/graph/writer.go:98-147 | once Close has been called, the writer goroutine by itself can end with a queued request stranded |
| `WriterRequests.StrandableIffClosed` | internal/engine/graph/writer.go:79-147 | a queued request can be stranded without any further call exactly when Close has been called |
| `WriterRequests.FlushStrandableIffClosed` | internal/engine/graph/writer.go:79-95 | what a caller can check before Flush: a request that gets into the channel can be stranded without any further call exactly when Close was called before |
| `WriterRequests.AnswerableIff` | internal/engine/graph/writer.go:98-147 | a queued request can still be answered exactly when the writer goroutine is not on its way out |
| `WriterRequests.FlushCanBeStranded` | internal/engine/graph/writer.go:79-147 | a concrete run that strands a flush request issued before Close |
| `WriterRequests.LateFlushCanBeStranded` | internal/engine/graph/writer.go:79-147 | a concrete run that strands a flush request issued after Close was called |
| `WriterRequests.SafeIfTakenBeforeClose` | internal/engine/graph/writer.go:79-147 | a request that has left the flush channel before Close is called is stranded at no moment of the run |
| `WriterAnswers.AnsweredByOwnWrite` | internal/engine/graph/writer.go:98-147 | a flush request is answered exactly when a transaction has been made for it, of which there is only one, and with success exactly when that transaction drops no file |
| `WriterAnswers.SuccessMissesOnlyEarlierDrops` | internal/engine/graph/writer.go:98-147 | a flush that reports success can miss a file submitted before it only if a step before its own transaction has dropped the file, and for files submitted once it misses exactly those |
| `WriterAnswers.SubmitsAreRecorded` | internal/engine/graph/writer.go:65-75 | every call of Submit is complete, its file queued or its own transaction over, or about to write its file itself |
| `WriterAnswers.AskedIsSubmitted` | internal/engine/graph/writer.go:79-87 | what a flush is answerable for is what had been submitted when it was issued |
| `WriterAnswers.SeenIsSubmitted` | internal/engine/graph/writer.go:90-95 | what Close is answerable for is what had been submitted when it was called |
| `WriterAnswers.RunBound` | internal/engine/graph/writer.go:98-123 | the channel never holds more than twice the batch size, and the writer goes on collecting without writing only while its batch is not full |
| `BatchWriter.FlushHidesEarlierLoss` | internal/engine/graph/writer.go:115-133 | a concrete run in which a flush reports success although an earlier background transaction dropped a file |
| `TextLines.SplitJoin` | internal/engine/secrets/detector.go:295-318 | splitting joined lines gives the lines back |
| `TextLines.JoinSplit` | internal/engine/secrets/detector.go:295-318 | joining the lines of a text gives the text back |
| `TextLines.BuildLineIndex` | internal/engine/secrets/detector.go:494-502 | the index holds the offset at which each line begins |
| `TextLines.LineCol` | internal/engine/secrets/detector.go:504-517 | the binary search finds the last line that begins at or before the offset, and the column from it |
| `TextLines.OffsetOnLine` | internal/engine/secrets/detector.go:504-517 | an offset within a line is found on that line and no other |
| `LineRanges.ChangedLineRanges` | internal/engine/secrets/detector.go:373-407 | nothing for equal texts; otherwise one range in bounds, outside which the texts agree from the front and from the back, and which is as narrow as that allows |
| `LineRanges.NormalizeRanges` | internal/engine/secrets/detector.go:323-371 | sorted ranges in bounds with a line between any two, covering exactly the existing lines that some input range asks for: those between its ends in either order, a start below one meaning the first line and a missing end the start |
| `LineRanges.LineWithinRanges` | internal/core/app/helpers/secrets.go:61-68 | true exactly when some range covers the line |
| `Secrets.BuildScanSegments` | internal/engine/secrets/detector.go:289-321 | the segments are the right lines at the right offsets, disjoint and in order, and cover exactly the wanted lines |
| `Secrets.ScanSegment` | internal/engine/secrets/detector.go:139-144 | scanning a segment sets, for each of its lines, exactly the findings of that line on its own, and touches no other line |
| `Secrets.DetectWithRanges` | internal/engine/secrets/detector.go:132-167 | exactly the best candidates of the wanted lines, each once, in the order of line, column and kind; a candidate is best when none with its position and value is more confident and none before it is as confident |
| `Secrets.Detect` | internal/engine/secrets/detector.go:96-98 | exactly the best candidates of every line, each once and in order |
| `Secrets.TableHoldsBest` | internal/engine/secrets/detector.go:433-441 | inserting candidates one by one leaves, under each position and value that some candidate has, the first of the most confident, and nothing else |
| `Secrets.ReportsEverySpot` | internal/engine/secrets/detector.go:96-167 | a full scan reports for every candidate something at its position and value that is at least as confident, and only one finding there |
| `Secrets.RangeScanFilters` | internal/engine/secrets/detector.go:100-102 | a scan of ranges is the full scan restricted to the lines of the clamped ranges |
| `Secrets.DetectSecrets` | internal/core/app/helpers/secrets.go:21-59 | if the previous findings are the full scan of the previous text, the result is the full scan of the new text, on every path through the code, and repeats nothing if they repeated nothing |
| `Secrets.MergeIsFullScan` | internal/core/app/helpers/secrets.go:44-58 | findings kept from outside the change and those found again inside it are together the full scan |
| `ScanRoots.UniqueScanRoots` | internal/core/app/helpers/utils.go:28-70 | the result is sorted and holds exactly the cleaned paths, absolute or relative, that come before every other path above them; these are exactly the paths that lie under no other unless the working directory comes after a one-character path that lies in it |
| `ScanRoots.LeadsIsMinimalIff` | internal/core/app/helpers/utils.go:45-67 | the paths kept by the sorted sweep are the minimal ones exactly when "." is not among the paths together with a one-character relative path that sorts before it |
| `ScanRoots.RootedIsSafe` | internal/core/app/helpers/utils.go:37-39 | absolute paths are never in that case |
| `ScanRoots.DashIsKept` | internal/core/app/helpers/utils.go:45-67 | with "." and "-" both are kept although one lies in the other |
| `ScanRoots.ParentIsNotSeen` | internal/core/app/helpers/utils.go:72-87 | the subpath test does not see that "." or a path in it lies under "..": both are minimal and kept |
| `ScanRoots.SubpathMeans` | internal/core/app/helpers/utils.go:72-87 | for cleaned paths the subpath test holds exactly when the paths are the same or a relative path whose first name is not ".." leads from the root to the candidate |
| `ScanRoots.LexMeans` | internal/core/app/helpers/utils.go:45-50 | the order of strings: one is cut short, or has the smaller character at the first difference |
| `ScanRoots.SubpathTransitive` | internal/core/app/helpers/utils.go:72-87 | the subpath test is transitive on cleaned paths, absolute or relative |
| `ScanRoots.EveryPathHasOneRoot` | internal/core/app/helpers/utils.go:28-87 | when the result is the minimal paths, every input lies under exactly one root and no root under another |
| `ScanRoots.RootsUnique` | internal/core/app/helpers/utils.go:28-70 | the result depends only on the set of cleaned paths, not on order or repetition |
| `ScanRoots.HasRoot` | internal/core/app/helpers/utils.go:54-67 | above every path of the set there is a minimal one |
| `ScanRoots.AncestorsComparable` | internal/core/app/helpers/utils.go:72-87 | of two paths above a third, one lies above the other |

## Left out

- Pointers: a `*Module` or a list element shared between tables is modelled as a value updated in every table that shows it; the cache's linked list is a sequence of keys.
- Strings: names are ranks in string order, and their text plays no part; the empty project key is 0.
- Locks inside the graph and the cache: each locked method is one atomic call.
- The loader path of `GetFile`, which can put stored files into the cache, `SetLoader`, the dirty set, clones handed to callers, metrics and tracing.
- ComputeModuleMetrics: does not model the rounding of the importance score; it is computed over the reals, and whether a module's name suggests a public interface is a parameter.
- IncrementalEqualsRebuild: is proved for runs in which each lookup of a tracked file hits, and leaves out `MaxComplexity`, of which `Peaks` says when it is right. Other runs can agree with a rebuild by chance of the contents; for the first miss after such a run `StaleTables` says exactly when the names in the tables agree, not which of several definitions or edges of one name is kept. The reverse index is exact without any condition.
- The stack of the recursive Go functions: recursion is unbounded.
- BuildFlow: does not model the text of the edge keys and the order of the edge list, since edges are a set of pairs; which modules the requested entry points resolve to, a match on file path suffixes, is a parameter.
- The moment between reading the clock and using it: a row of the spool is due, or put off, from the moment when it is written, and the due rows are those of the moment when they are read.
- Waiting: `DequeueBatch` of the memory queue may return at any moment its `select` allows; producers run between any two steps of the worker.
- Backoff: does not model 64-bit overflow; delays are unbounded integers in milliseconds, and the doubling stops at the maximum long before the width of a nanosecond count matters for sensible settings.
- JSON, SQL, files and connections: the spool is a table of rows, the store a transactional map with the log of what was committed; failures are choices of the environment. Rows of other projects in the same spool file do not appear.
- Process crashes, and the spool as found by a later process.
- Last-writer order across memory queue and spool, and across batches put off: memory requests go first in each batch.
- Writes while the queue is switched off, which go straight to the store.
- DrainWriteQueue: does not promise that memory requests survive a failed apply or spool read, because the code gives them up; the result names them. Spool rows survive every failure.
- The immediate nil result of a `Flush` that finds `done` closed: it changes no state.
- The write of each single file within a transaction of the batch writer: a transaction succeeds or fails as a whole.
- Regular expressions and entropy: a detector is a list of passes, each a function from one line to its matches. A custom pattern that matches across lines is not such a function.
- Cleaning of paths, `TrimSpace`, `Clean` and `Abs`: a parameter that gives a clean path, absolute or relative, or nothing.
- `Keys`, `Len`, `Cap` and `Clear` of the cache, and the getters of the graph, which would only add easy members.
