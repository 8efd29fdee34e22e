/** The incrementally kept tables are those that the tracked files make, as long as every lookup of a tracked
    file in the cache finds it. */
module Rebuild {
  import opened Digraphs
  import opened Lru
  import opened ImportGraph

  type FileTable = map<Name, File>

  // ----- folds over the files of a module, oldest first

  ghost function FoldDefs(items: FileTable, files: seq<Name>): DefTable {
    if files == [] then map[]
    else
      var sofar, p := FoldDefs(items, files[..|files| - 1]), files[|files| - 1];
      if p in items then MergeDefs(sofar, items[p].definitions) else sofar
  }

  ghost function FoldExports(items: FileTable, files: seq<Name>): DefTable {
    if files == [] then map[]
    else
      var sofar, p := FoldExports(items, files[..|files| - 1]), files[|files| - 1];
      if p in items then MergeExports(sofar, items[p].definitions) else sofar
  }

  ghost function FoldEdges(items: FileTable, files: seq<Name>): EdgeTable {
    if files == [] then map[]
    else
      var sofar, p := FoldEdges(items, files[..|files| - 1]), files[|files| - 1];
      if p in items then MergeEdges(sofar, items[p], |items[p].imports|) else sofar
  }

  /** Module `m` is what its files, in the order in which it lists them, make it. */
  ghost predicate Canonical(s: State, items: FileTable, m: Name)
    requires m in s.modules && m in s.imports && m in s.definitions
  {
    var files := s.modules[m].files;
    && s.imports[m] == FoldEdges(items, files)
    && s.definitions[m] == FoldDefs(items, files)
    && s.modules[m].exports == FoldExports(items, files)
  }

  /** Every listed file is tracked for the module that lists it. */
  ghost predicate ListedOk(s: State) {
    forall m, p :: m in s.modules && p in s.modules[m].files ==> p in s.fileToModule && s.fileToModule[p] == m
  }

  /** `items` holds the tracked files, and the cache holds some of them. */
  ghost predicate ItemsOk(s: State, items: FileTable) {
    && items.Keys == s.fileToModule.Keys
    && (forall p :: p in items ==>
          && items[p].path == p && s.fileToModule[p] == items[p].mod
          && p in s.fileToLanguage && s.fileToLanguage[p] == items[p].language)
    && (forall p :: p in s.cache.items ==> p in items && items[p] == s.cache.items[p])
  }

  ghost predicate FullOk(s: State, items: FileTable) {
    && GraphOk(s) && ItemsOk(s, items) && ListedOk(s)
    && (forall m :: m in s.modules && m in s.imports && m in s.definitions ==> Canonical(s, items, m))
  }

  // ----- the tracked files, and runs in which every lookup of one finds it

  /** The last version of every file that was added and not removed since. */
  function Latest(ops: seq<GraphOp>): FileTable {
    if ops == [] then map[] else Track(Latest(ops[..|ops| - 1]), ops[|ops| - 1])
  }

  function Track(items: FileTable, op: GraphOp): FileTable {
    match op
    case AddFile(f) => items[f.path := f]
    case RemoveFile(path) => items - {path}
    case _ => items
  }

  /** The other files of the module of `path` are cached. */
  predicate SiblingsCached(s: State, path: Name)
    requires path in s.fileToModule
  {
    var m := s.fileToModule[path];
    m in s.modules ==> forall q :: q in s.modules[m].files && q != path ==> q in s.cache.items
  }

  /** Every lookup of a tracked file that the operation makes in the cache finds it. */
  predicate Hits(s: State, op: GraphOp) {
    match op
    case AddFile(f) => f.path in s.fileToModule ==> f.path in s.cache.items && SiblingsCached(s, f.path)
    case RemoveFile(path) => path in s.fileToModule ==> SiblingsCached(s, path)
    case _ => true
  }

  predicate NeverMisses(capacity: int, ops: seq<GraphOp>) {
    ops == [] ||
    (NeverMisses(capacity, ops[..|ops| - 1]) && Hits(RunGraph(capacity, ops[..|ops| - 1]), ops[|ops| - 1]))
  }

  // ----- runs in which the cache drops nothing on its own

  predicate DropsNothing(s: State, op: GraphOp) {
    match op
    case AddFile(f) => f.path in s.cache.items || |s.cache.order| < s.cache.capacity
    case UpdateCapacity(capacity) => |s.cache.order| <= if capacity <= 0 then 1 else capacity
    case PruneCache(percentage) => PruneTarget(|s.cache.order|, percentage) == 0
    case _ => true
  }

  predicate NeverEvicts(capacity: int, ops: seq<GraphOp>) {
    ops == [] ||
    (NeverEvicts(capacity, ops[..|ops| - 1]) && DropsNothing(RunGraph(capacity, ops[..|ops| - 1]), ops[|ops| - 1]))
  }

  // ----- the folds depend only on the listed files

  lemma {:induction false} FoldsFrame(items: FileTable, items': FileTable, files: seq<Name>)
    requires forall p :: p in files ==> (p in items <==> p in items') && (p in items ==> items[p] == items'[p])
    ensures FoldDefs(items, files) == FoldDefs(items', files)
    ensures FoldExports(items, files) == FoldExports(items', files)
    ensures FoldEdges(items, files) == FoldEdges(items', files)
    decreases |files|
  {
    if files != [] {
      FoldsFrame(items, items', files[..|files| - 1]);
      assert files[|files| - 1] in files;
    }
  }

  /** The folds over one more file. */
  lemma FoldsSnoc(items: FileTable, files: seq<Name>, p: Name)
    requires p in items
    ensures FoldDefs(items, files + [p]) == MergeDefs(FoldDefs(items, files), items[p].definitions)
    ensures FoldExports(items, files + [p]) == MergeExports(FoldExports(items, files), items[p].definitions)
    ensures FoldEdges(items, files + [p]) == MergeEdges(FoldEdges(items, files), items[p], |items[p].imports|)
  {
    assert (files + [p])[..|files|] == files;
  }

  lemma ContributeCanonical(s: State, items: FileTable, f: File, m: Name)
    requires TablesOk(s) && (m in s.modules ==> Canonical(s, items, m))
    requires f.path !in ModuleOf(s.modules, m).files
    requires m == f.mod || m in s.modules
    ensures var r := Contribute(s, f);
            m in r.modules && m in r.imports && m in r.definitions && Canonical(r, items[f.path := f], m)
  {
    hide AfterPut, MergeImporters, MergeDefs, MergeEdges, MergeExports, FilePeak, FoldDefs, FoldExports, FoldEdges;
    var listed := ModuleOf(s.modules, m).files;
    FoldsFrame(items, items[f.path := f], listed);
    FoldsSnoc(items[f.path := f], listed, f.path);
    FoldsNone(items);
  }

  lemma FoldsNone(items: FileTable)
    ensures FoldDefs(items, []) == map[] && FoldExports(items, []) == map[] && FoldEdges(items, []) == map[]
  {
  }

  lemma ContributeTracks(s: State, items: FileTable, f: File)
    requires TablesOk(s) && ListedOk(s) && ItemsOk(s, items) && WellFormed(s.cache)
    requires f.path !in s.fileToModule
    ensures ListedOk(Contribute(s, f)) && ItemsOk(Contribute(s, f), items[f.path := f])
  {
    hide ListedOk, ItemsOk, Contribute, TablesOk, WellFormed;
    ContributeLists(s, f);
    ContributeItems(s, items, f);
  }

  lemma ContributeLists(s: State, f: File)
    requires ListedOk(s) && f.path !in s.fileToModule
    ensures ListedOk(Contribute(s, f))
  {
    hide AfterPut, MergeImporters, MergeDefs, MergeEdges, MergeExports, FilePeak;
  }

  lemma ContributeItems(s: State, items: FileTable, f: File)
    requires ItemsOk(s, items) && WellFormed(s.cache)
    ensures ItemsOk(Contribute(s, f), items[f.path := f])
  {
    hide AfterPut, WellFormed, MergeImporters, MergeDefs, MergeEdges, MergeExports, FilePeak;
    PutWellFormed(s.cache, f.path, f);
  }

  lemma ContributeFull(s: State, items: FileTable, f: File)
    requires FullOk(s, items) && f.path !in s.fileToModule
    ensures FullOk(Contribute(s, f), items[f.path := f])
  {
    hide Canonical, ListedOk, Contribute;
    var r := Contribute(s, f);
    ContributeKeeps(s, f);
    ContributeTracks(s, items, f);
    forall m | m in r.modules && m in r.imports && m in r.definitions
      ensures Canonical(r, items[f.path := f], m)
    {
      NotListed(s, f.path, m);
      ContributesTo(s, f, m);
      ContributeCanonical(s, items, f, m);
    }
  }

  lemma NotListed(s: State, path: Name, m: Name)
    requires ListedOk(s) && path !in s.fileToModule
    ensures path !in ModuleOf(s.modules, m).files
  {
  }

  lemma ContributesTo(s: State, f: File, m: Name)
    requires m in Contribute(s, f).modules
    ensures m == f.mod || m in s.modules
  {
  }

  ghost predicate ReplayedTo(s: State, m: Name, files: seq<Name>, r: State)
    requires m in s.modules
  {
    && r.imports == s.imports[m := FoldEdges(s.cache.items, files)]
    && r.definitions == s.definitions[m := FoldDefs(s.cache.items, files)]
    && r.modules == s.modules[m := s.modules[m].(exports := FoldExports(s.cache.items, files))]
    && r.cache.items == s.cache.items
  }

  lemma ReplayOneMore(s: State, m: Name, files: seq<Name>, r: State)
    requires files != [] && m in s.modules && ReplayedTo(s, m, files[..|files| - 1], r)
    requires var p := files[|files| - 1]; p in s.cache.items ==> s.cache.items[p].mod == m
    ensures ReplayedTo(s, m, files, Replay(r, m, files[|files| - 1]))
  {
    hide Without, MergeImporters, MergeDefs, MergeEdges, MergeExports;
    var init, p := files[..|files| - 1], files[|files| - 1];
    Overwritten(s.imports, m, FoldEdges(s.cache.items, init), FoldEdges(s.cache.items, files));
    Overwritten(s.definitions, m, FoldDefs(s.cache.items, init), FoldDefs(s.cache.items, files));
  }

  lemma {:induction false} ReplayAllFolds(s: State, m: Name, files: seq<Name>)
    requires m in s.modules && m in s.definitions && m in s.imports
    requires s.imports[m] == map[] && s.definitions[m] == map[] && s.modules[m].exports == map[]
    requires forall p :: p in files && p in s.cache.items ==> s.cache.items[p].mod == m
    ensures ReplayedTo(s, m, files, ReplayAll(s, m, files))
    decreases |files|
  {
    if files != [] {
      hide Replay, ReplayedTo;
      var init := files[..|files| - 1];
      assert forall p :: p in init ==> p in files;
      ReplayAllFolds(s, m, init);
      assert files[|files| - 1] in files;
      ReplayOneMore(s, m, files, ReplayAll(s, m, init));
    }
  }

  lemma RebuildFull(s: State, m: Name, files: seq<Name>)
    requires TablesOk(s) && m in s.modules
    requires forall p :: p in files && p in s.cache.items ==> s.cache.items[p].mod == m
    ensures var r := Rebuild(s, m, files);
            && r.imports == s.imports[m := FoldEdges(s.cache.items, files)]
            && r.definitions == s.definitions[m := FoldDefs(s.cache.items, files)]
            && r.modules == s.modules[m := s.modules[m].(files := files, exports := FoldExports(s.cache.items, files))]
            && r.cache.items == s.cache.items
  {
    hide Replay, ReplayAll;
    var c := Cleared(s, m, files);
    ReplayAllFolds(c, m, files);
    Overwritten(s.imports, m, map[], FoldEdges(s.cache.items, files));
    Overwritten(s.definitions, m, map[], FoldDefs(s.cache.items, files));
  }

  /** The tables after a removal of `path` from module `m`. */
  ghost predicate RemovedTo(s: State, path: Name, m: Name, files: seq<Name>, t: State) {
    && t.cache.items == s.cache.items - {path} && t.cache.capacity == s.cache.capacity
    && t.fileToModule == s.fileToModule - {path} && t.fileToLanguage == s.fileToLanguage - {path}
    && t.modules.Keys == (if files == [] then s.modules.Keys - {m} else s.modules.Keys)
    && t.modules.Keys == t.imports.Keys == t.definitions.Keys
    && (forall x :: x in t.modules && x in s.modules && x != m ==> t.modules[x] == s.modules[x])
    && (forall x :: x in t.imports && x in s.imports && x != m ==> t.imports[x] == s.imports[x])
    && (forall x :: x in t.definitions && x in s.definitions && x != m ==> t.definitions[x] == s.definitions[x])
    && (m in t.modules && m in t.imports && m in t.definitions ==>
          && t.modules[m].files == files
          && t.imports[m] == FoldEdges(s.cache.items, files)
          && t.definitions[m] == FoldDefs(s.cache.items, files)
          && t.modules[m].exports == FoldExports(s.cache.items, files))
  }

  lemma DropShape(s: State, path: Name, m: Name, files: seq<Name>)
    requires GraphOk(s) && path in s.fileToModule && m == s.fileToModule[path]
    requires files == RemoveFirst(s.modules[m].files, path) && files == []
    ensures RemovedTo(s, path, m, files, Removed(s, path))
  {
    EvictWellFormed(s.cache, path);
    hide WellFormed, AfterEvict, Unlink, RemoveFirst, ReverseOk, CacheOk;
  }

  lemma RebuildFrame(s: State, path: Name, m: Name, files: seq<Name>)
    requires GraphOk(s) && path in s.fileToModule && m == s.fileToModule[path]
    requires files == RemoveFirst(s.modules[m].files, path) && files != []
    ensures var r := Rebuild(s, m, files);
            && r.fileToModule == s.fileToModule && r.fileToLanguage == s.fileToLanguage
            && WellFormed(r.cache) && r.cache.capacity == s.cache.capacity
            && Removed(s, path) ==
               r.(cache := AfterEvict(r.cache, path), fileToModule := r.fileToModule - {path},
                  fileToLanguage := r.fileToLanguage - {path})
  {
    RebuildKeepsReverse(s, m, files);
  }

  lemma RebuildShape(s: State, path: Name, m: Name, files: seq<Name>)
    requires GraphOk(s) && path in s.fileToModule && m == s.fileToModule[path]
    requires files == RemoveFirst(s.modules[m].files, path) && files != []
    requires forall p :: p in files && p in s.cache.items ==> s.cache.items[p].mod == m
    ensures RemovedTo(s, path, m, files, Removed(s, path))
  {
    RebuildFrame(s, path, m, files);
    RebuildFull(s, m, files);
    RebuildShapeParts(s, path, m, files, Rebuild(s, m, files), Removed(s, path));
  }

  lemma RebuildShapeParts(s: State, path: Name, m: Name, files: seq<Name>, r: State, t: State)
    requires TablesOk(s) && m in s.modules && files != []
    requires r.imports == s.imports[m := FoldEdges(s.cache.items, files)]
    requires r.definitions == s.definitions[m := FoldDefs(s.cache.items, files)]
    requires r.modules == s.modules[m := s.modules[m].(files := files, exports := FoldExports(s.cache.items, files))]
    requires r.cache.items == s.cache.items
    requires r.fileToModule == s.fileToModule && r.fileToLanguage == s.fileToLanguage
    requires WellFormed(r.cache) && r.cache.capacity == s.cache.capacity
    requires t == r.(cache := AfterEvict(r.cache, path), fileToModule := r.fileToModule - {path},
                     fileToLanguage := r.fileToLanguage - {path})
    ensures RemovedTo(s, path, m, files, t)
  {
    EvictWellFormed(r.cache, path);
    EvictCapacity(r.cache, path);
    hide AfterEvict, WellFormed, FoldDefs, FoldEdges, FoldExports;
  }

  lemma EvictCapacity(c: Cache<Name, File>, path: Name)
    ensures AfterEvict(c, path).capacity == c.capacity
  {
  }

  /** What a removal leaves, whichever siblings the cache still holds. */
  lemma RemovedShape(s: State, items: FileTable, path: Name)
    requires FullOk(s, items) && path in s.fileToModule
    ensures var m := s.fileToModule[path];
            RemovedTo(s, path, m, RemoveFirst(s.modules[m].files, path), Removed(s, path))
  {
    hide Removed, Canonical, ReverseOk;
    var m := s.fileToModule[path];
    var files := RemoveFirst(s.modules[m].files, path);
    RemoveFirstContents(s.modules[m].files, path);
    if files == [] {
      DropShape(s, path, m, files);
    } else {
      RebuildShape(s, path, m, files);
    }
  }

  lemma RemovedFull(s: State, items: FileTable, path: Name)
    requires FullOk(s, items) && (path in s.fileToModule ==> SiblingsCached(s, path))
    ensures FullOk(Removed(s, path), items - {path})
    ensures path !in Removed(s, path).fileToModule
    ensures Removed(s, path).cache.items == if path in s.fileToModule then s.cache.items - {path} else s.cache.items
    ensures Removed(s, path).cache.capacity == s.cache.capacity
  {
    RemovedKeeps(s, path);
    if path in s.fileToModule {
      RemovedShape(s, items, path);
      var m, t := s.fileToModule[path], Removed(s, path);
      RemovedTracks(s, items, path, m, t);
      RemovedItems(s, items, path, m, t);
      hide Removed, ReverseOk, CacheOk, ListedOk, ItemsOk, Canonical;
      forall x | x in t.modules && x in t.imports && x in t.definitions
        ensures Canonical(t, items - {path}, x)
      {
        RemovedCanonical(s, items, path, m, t, x);
      }
    } else {
      assert items - {path} == items;
    }
  }

  lemma RemovedTracks(s: State, items: FileTable, path: Name, m: Name, t: State)
    requires FullOk(s, items) && path in s.fileToModule && m == s.fileToModule[path]
    requires RemovedTo(s, path, m, RemoveFirst(s.modules[m].files, path), t)
    ensures ListedOk(t)
  {
    hide Canonical, ReverseOk, CacheOk, RemovedTo, ListedOk, ItemsOk;
    RemovedLists(s, path, m, t);
  }

  lemma RemovedLists(s: State, path: Name, m: Name, t: State)
    requires TablesOk(s) && ListedOk(s) && m in s.modules
    requires RemovedTo(s, path, m, RemoveFirst(s.modules[m].files, path), t)
    requires path in s.fileToModule && m == s.fileToModule[path]
    ensures ListedOk(t)
  {
    hide RemovedTo, RemoveFirst;
    RemoveFirstContents(s.modules[m].files, path);
    forall x, p | x in t.modules && p in t.modules[x].files
      ensures p in t.fileToModule && t.fileToModule[p] == x
    {
      FilesKept(s, path, m, t, x);
      assert p in s.modules[x].files && s.fileToModule[p] == x;
    }
  }

  lemma FilesKept(s: State, path: Name, m: Name, t: State, x: Name)
    requires TablesOk(s) && m in s.modules && x in t.modules
    requires RemovedTo(s, path, m, RemoveFirst(s.modules[m].files, path), t)
    ensures t.fileToModule == s.fileToModule - {path} && x in s.modules
    ensures t.modules[x].files == if x == m then RemoveFirst(s.modules[m].files, path) else s.modules[x].files
  {
    hide RemoveFirst, FoldDefs, FoldEdges, FoldExports;
  }

  lemma RemovedItems(s: State, items: FileTable, path: Name, m: Name, t: State)
    requires ItemsOk(s, items) && path in s.fileToModule
    requires RemovedTo(s, path, m, RemoveFirst(ModuleOf(s.modules, m).files, path), t)
    ensures ItemsOk(t, items - {path})
  {
    hide RemoveFirst, FoldDefs, FoldEdges, FoldExports;
    assert (items - {path}).Keys == items.Keys - {path};
  }

  lemma RemovedCanonical(s: State, items: FileTable, path: Name, m: Name, t: State, x: Name)
    requires FullOk(s, items) && path in s.fileToModule && m == s.fileToModule[path] && SiblingsCached(s, path)
    requires RemovedTo(s, path, m, RemoveFirst(s.modules[m].files, path), t)
    requires x in t.modules && x in t.imports && x in t.definitions
    ensures Canonical(t, items - {path}, x)
  {
    hide ReverseOk, CacheOk, RemoveFirst, FoldDefs, FoldEdges, FoldExports;
    RemoveFirstContents(s.modules[m].files, path);
    assert path !in t.modules[x].files;
    if x == m {
      FoldsFrame(s.cache.items, items - {path}, t.modules[x].files);
    } else {
      FoldsFrame(items, items - {path}, t.modules[x].files);
      assert Canonical(s, items, x);
    }
  }

  lemma AddedFull(s: State, items: FileTable, f: File)
    requires FullOk(s, items) && Hits(s, AddFile(f))
    ensures FullOk(Added(s, f), items[f.path := f])
  {
    hide FullOk, Contribute, Removed;
    var looked := s.(cache := AfterGet(s.cache, f.path));
    LookupFull(s, items, f.path);
    if f.path in s.cache.items {
      CachedIsTracked(s, items, f.path);
      RemovedFull(looked, items, f.path);
      ContributeFull(Removed(looked, f.path), items - {f.path}, f);
      assert (items - {f.path})[f.path := f] == items[f.path := f];
    } else {
      ContributeFull(looked, items, f);
    }
  }

  lemma CachedIsTracked(s: State, items: FileTable, path: Name)
    requires FullOk(s, items) && path in s.cache.items
    ensures path in s.fileToModule
  {
  }

  lemma LookupFull(s: State, items: FileTable, path: Name)
    requires FullOk(s, items)
    ensures FullOk(s.(cache := AfterGet(s.cache, path)), items)
  {
    hide FullOk;
    SameTablesFull(s, items, GetFile(path));
  }

  /** The other operations touch only the cache, and drop files from it at most. */
  lemma SameTablesFull(s: State, items: FileTable, op: GraphOp)
    requires FullOk(s, items) && !op.AddFile? && !op.RemoveFile?
    ensures FullOk(Apply(s, op), items)
  {
    hide Apply, TablesOk, TrackedOk, ReverseOk, WellFormed, Canonical, ListedOk, ItemsOk;
    ApplyKeeps(s, op);
    CacheShrinks(s, op);
    OnlyCacheDiffers(s, items, Apply(s, op));
  }

  lemma OnlyCacheDiffers(s: State, items: FileTable, t: State)
    requires FullOk(s, items) && GraphOk(t) && t == s.(cache := t.cache)
    requires forall p :: p in t.cache.items ==> p in s.cache.items && t.cache.items[p] == s.cache.items[p]
    ensures FullOk(t, items)
  {
    hide GraphOk, FoldDefs, FoldEdges, FoldExports;
    forall m | m in t.modules && m in t.imports && m in t.definitions
      ensures Canonical(t, items, m)
    {
      assert Canonical(s, items, m);
    }
  }

  lemma CacheShrinks(s: State, op: GraphOp)
    requires WellFormed(s.cache) && !op.AddFile? && !op.RemoveFile?
    ensures Apply(s, op) == s.(cache := Apply(s, op).cache)
    ensures forall p :: p in Apply(s, op).cache.items ==>
              p in s.cache.items && Apply(s, op).cache.items[p] == s.cache.items[p]
  {
  }

  lemma ApplyFull(s: State, items: FileTable, op: GraphOp)
    requires FullOk(s, items) && Hits(s, op)
    ensures FullOk(Apply(s, op), Track(items, op))
  {
    match op
    case AddFile(f) => AddedFull(s, items, f);
    case RemoveFile(path) => RemovedFull(s, items, path);
    case _ => SameTablesFull(s, items, op);
  }

  /** Main theorem: along every run in which each lookup of a tracked file finds it in the cache, whatever else the
      cache drops, each module's imports, definitions and exports are the folds over the files it lists, in their
      last version, and exactly the modules with files exist. */
  lemma {:induction false} IncrementalIsCanonical(capacity: int, ops: seq<GraphOp>)
    requires NeverMisses(capacity, ops)
    ensures FullOk(RunGraph(capacity, ops), Latest(ops))
    decreases |ops|
  {
    if ops != [] {
      IncrementalIsCanonical(capacity, ops[..|ops| - 1]);
      ApplyFull(RunGraph(capacity, ops[..|ops| - 1]), Latest(ops[..|ops| - 1]), ops[|ops| - 1]);
    }
  }

  // ----- a cache that drops nothing holds all tracked files

  lemma OrderSize(c: Cache<Name, File>)
    requires WellFormed(c)
    ensures |c.order| == |c.items|
  {
    SizeOfDistinct(c.order);
    assert Elements(c.order) == c.items.Keys;
  }

  lemma AllCachedHits(s: State, items: FileTable, op: GraphOp)
    requires FullOk(s, items) && s.cache.items == items
    ensures Hits(s, op)
  {
  }

  lemma StaysCached(s: State, items: FileTable, op: GraphOp)
    requires FullOk(s, items) && s.cache.items == items && DropsNothing(s, op)
    ensures Apply(s, op).cache.items == Track(items, op)
  {
    match op
    case AddFile(f) => AddStaysCached(s, items, f);
    case RemoveFile(path) =>
      AllCachedHits(s, items, op);
      RemovedFull(s, items, path);
      if path !in s.fileToModule {
        assert items - {path} == items;
      }
    case GetFile(path) =>
    case UpdateCapacity(capacity) =>
    case PruneCache(percentage) =>
  }

  lemma AddStaysCached(s: State, items: FileTable, f: File)
    requires FullOk(s, items) && s.cache.items == items && DropsNothing(s, AddFile(f))
    ensures Added(s, f).cache.items == items[f.path := f]
  {
    hide FullOk, Removed;
    var looked := s.(cache := AfterGet(s.cache, f.path));
    LookupFull(s, items, f.path);
    if f.path in s.cache.items {
      CachedIsTracked(s, items, f.path);
      AllCachedHits(looked, items, AddFile(f));
      RemovedFull(looked, items, f.path);
      RoomAfterRemoval(looked, items, f.path);
      PutHasRoom(Removed(looked, f.path), items - {f.path}, f);
      assert (items - {f.path})[f.path := f] == items[f.path := f];
    } else {
      PutHasRoom(looked, items, f);
    }
  }

  lemma PutHasRoom(s: State, items: FileTable, f: File)
    requires FullOk(s, items) && |s.cache.order| < s.cache.capacity
    ensures Contribute(s, f).cache.items == s.cache.items[f.path := f]
  {
    PutWellFormed(s.cache, f.path, f);
  }

  lemma RoomAfterRemoval(s: State, items: FileTable, path: Name)
    requires FullOk(s, items) && path in s.cache.items && FullOk(Removed(s, path), items - {path})
    requires Removed(s, path).cache.items == s.cache.items - {path}
    requires Removed(s, path).cache.capacity == s.cache.capacity
    ensures |Removed(s, path).cache.order| < Removed(s, path).cache.capacity
  {
    hide Removed;
    var t := Removed(s, path);
    OrderSize(s.cache);
    OrderSize(t.cache);
    assert t.cache.items.Keys == s.cache.items.Keys - {path};
    assert |t.cache.items.Keys| == |s.cache.items.Keys| - 1;
  }

  /** Along a run in which the cache drops nothing, every lookup of a tracked file finds it, and the cache holds
      exactly the tracked files. */
  lemma {:induction false} EvictionFreeHits(capacity: int, ops: seq<GraphOp>)
    requires NeverEvicts(capacity, ops)
    ensures NeverMisses(capacity, ops) && RunGraph(capacity, ops).cache.items == Latest(ops)
    decreases |ops|
  {
    hide FullOk, Hits, DropsNothing, Apply, Track;
    if ops != [] {
      var init, op := ops[..|ops| - 1], ops[|ops| - 1];
      EvictionFreeHits(capacity, init);
      IncrementalIsCanonical(capacity, init);
      AllCachedHits(RunGraph(capacity, init), Latest(init), op);
      StaysCached(RunGraph(capacity, init), Latest(init), op);
    }
  }
}
