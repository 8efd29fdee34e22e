/** What a tracked file that the cache has dropped does to the tables of its module. */
module StaleTables {
  import opened Collections
  import opened Digraphs
  import opened Lru
  import opened ImportGraph
  import opened Rebuild
  import opened FreshRebuild

  // ----- the names in the three tables of a module

  datatype Table = Imports | Definitions | Exports

  /** The file contributes an entry named `k` to the table. */
  predicate Gives(t: Table, f: File, k: Name) {
    match t
    case Imports => exists i :: 0 <= i < |f.imports| && f.imports[i].mod == k
    case Definitions => exists i :: 0 <= i < |f.definitions| && f.definitions[i].name == k
    case Exports => exists i :: 0 <= i < |f.definitions| && f.definitions[i].name == k && f.definitions[i].exported
  }

  predicate Entry(t: Table, s: State, m: Name, k: Name) {
    match t
    case Imports => ImportsEdge(s, m, k)
    case Definitions => m in s.definitions && k in s.definitions[m]
    case Exports => m in s.modules && k in s.modules[m].exports
  }

  /** The names that the listed files make. */
  ghost function Fold(t: Table, items: FileTable, files: seq<Name>): set<Name> {
    match t
    case Imports => FoldEdges(items, files).Keys
    case Definitions => FoldDefs(items, files).Keys
    case Exports => FoldExports(items, files).Keys
  }

  ghost predicate SomeGives(t: Table, items: FileTable, files: seq<Name>, k: Name) {
    exists p :: p in files && p in items && Gives(t, items[p], k)
  }

  lemma {:induction false} MergeDefsNames(t: DefTable, ds: seq<Definition>, k: Name)
    ensures k in MergeDefs(t, ds) <==> k in t || exists i :: 0 <= i < |ds| && ds[i].name == k
    decreases |ds|
  {
    if ds != [] {
      MergeDefsNames(t, ds[..|ds| - 1], k);
      assert ds == ds[..|ds| - 1] + [ds[|ds| - 1]];
    }
  }

  lemma {:induction false} MergeExportsNames(t: DefTable, ds: seq<Definition>, k: Name)
    ensures k in MergeExports(t, ds) <==> k in t || exists i :: 0 <= i < |ds| && ds[i].name == k && ds[i].exported
    decreases |ds|
  {
    if ds != [] {
      MergeExportsNames(t, ds[..|ds| - 1], k);
      assert ds == ds[..|ds| - 1] + [ds[|ds| - 1]];
    }
  }

  lemma FoldOneMore(t: Table, items: FileTable, files: seq<Name>, p: Name, k: Name)
    ensures k in Fold(t, items, files + [p]) <==> k in Fold(t, items, files) || (p in items && Gives(t, items[p], k))
  {
    assert (files + [p])[..|files|] == files;
    if p in items {
      MergeEdgesKeys(FoldEdges(items, files), items[p], |items[p].imports|);
      MergeDefsNames(FoldDefs(items, files), items[p].definitions, k);
      MergeExportsNames(FoldExports(items, files), items[p].definitions, k);
    }
  }

  lemma SomeGivesSnoc(t: Table, items: FileTable, files: seq<Name>, p: Name, k: Name)
    ensures SomeGives(t, items, files + [p], k) <==>
            SomeGives(t, items, files, k) || (p in items && Gives(t, items[p], k))
  {
    hide Gives;
    if SomeGives(t, items, files, k) {
      var q :| q in files && q in items && Gives(t, items[q], k);
      assert q in files + [p];
    }
  }

  lemma {:induction false} FoldNames(t: Table, items: FileTable, files: seq<Name>, k: Name)
    ensures k in Fold(t, items, files) <==> SomeGives(t, items, files, k)
    decreases |files|
  {
    hide Gives, SomeGives;
    if files == [] {
      FoldNone(t, items, k);
    } else {
      var init, p := files[..|files| - 1], files[|files| - 1];
      assert files == init + [p];
      FoldNames(t, items, init, k);
      FoldOneMore(t, items, init, p, k);
      SomeGivesSnoc(t, items, init, p, k);
    }
  }

  lemma FoldNone(t: Table, items: FileTable, k: Name)
    ensures k !in Fold(t, items, []) && !SomeGives(t, items, [], k)
  {
  }

  lemma CanonicalEntries(t: Table, s: State, items: FileTable, m: Name, k: Name)
    requires FullOk(s, items) && m in s.modules
    ensures Entry(t, s, m, k) <==> SomeGives(t, items, s.modules[m].files, k)
  {
    hide ReverseOk, CacheOk, SomeGives;
    assert Canonical(s, items, m);
    FoldNames(t, items, s.modules[m].files, k);
  }

  lemma ContributedEntries(t: Table, s: State, f: File, k: Name)
    ensures Entry(t, Contribute(s, f), f.mod, k) <==> Entry(t, s, f.mod, k) || Gives(t, f, k)
    ensures forall m :: m != f.mod ==> (Entry(t, Contribute(s, f), m, k) <==> Entry(t, s, m, k))
  {
    hide AfterPut, FilePeak, MergeExports, MergeDefs, MergeImporters, MergeEdges;
    MergeEdgesKeys(Edges(s.imports, f.mod), f, |f.imports|);
    MergeDefsNames(Defs(s.definitions, f.mod), f.definitions, k);
    MergeExportsNames(ModuleOf(s.modules, f.mod).exports, f.definitions, k);
  }

  // ----- a file that the cache has dropped is added again

  /** Adding a file that the cache has dropped takes nothing out first. */
  lemma AddedAfterMiss(s: State, f: File)
    requires f.path !in s.cache.items
    ensures Added(s, f) == Contribute(s, f)
  {
    hide Contribute, Removed;
    assert s.(cache := AfterGet(s.cache, f.path)) == s;
  }

  /** The listed files make an entry named `k` if `f` takes the place of the earlier version. */
  ghost predicate Rebuilt(t: Table, items: FileTable, files: seq<Name>, f: File, k: Name) {
    k in Fold(t, items[f.path := f], files)
  }

  /** Some other listed file contributes it. */
  ghost predicate OtherGives(t: Table, items: FileTable, files: seq<Name>, path: Name, k: Name) {
    exists q :: q in files && q != path && q in items && Gives(t, items[q], k)
  }

  lemma OneOfThem(t: Table, items: FileTable, files: seq<Name>, f: File, k: Name)
    requires f.path in files && f.path in items
    ensures SomeGives(t, items, files, k) <==> Gives(t, items[f.path], k) || OtherGives(t, items, files, f.path, k)
    ensures Rebuilt(t, items, files, f, k) <==> Gives(t, f, k) || OtherGives(t, items, files, f.path, k)
  {
    hide Gives, Fold;
    var table := items[f.path := f];
    FoldNames(t, table, files, k);
    if OtherGives(t, items, files, f.path, k) {
      var q :| q in files && q != f.path && q in items && Gives(t, items[q], k);
      assert q in table && Gives(t, table[q], k);
    }
    if Gives(t, f, k) {
      assert f.path in table && Gives(t, table[f.path], k);
    }
  }

  /** An entry that only the earlier version gave stays. */
  lemma EntryStaysIff(t: Table, s: State, items: FileTable, f: File, k: Name)
    requires FullOk(s, items) && f.path in items && s.fileToModule[f.path] == f.mod && f.path !in s.cache.items
    ensures f.mod in s.modules && Added(s, f).modules.Keys == s.modules.Keys
    ensures Added(s, f).modules[f.mod].files == s.modules[f.mod].files
    ensures var files := s.modules[f.mod].files;
            && (Entry(t, Added(s, f), f.mod, k) <==>
                  Gives(t, items[f.path], k) || Gives(t, f, k) || OtherGives(t, items, files, f.path, k))
            && (Rebuilt(t, items, files, f, k) <==> Gives(t, f, k) || OtherGives(t, items, files, f.path, k))
  {
    hide ReverseOk, CacheOk, Canonical, Gives, Entry, SomeGives, OtherGives, Rebuilt, Added;
    hide AfterPut, FilePeak, MergeExports, MergeDefs, MergeImporters, MergeEdges;
    AddedAfterMiss(s, f);
    ContributedEntries(t, s, f, k);
    CanonicalEntries(t, s, items, f.mod, k);
    OneOfThem(t, items, s.modules[f.mod].files, f, k);
  }

  /** When a tracked file that the cache has dropped is added again to its module, the module's table has the names
      that a rebuild gives it exactly when everything that the earlier version gave is given by the new version or by
      another file of the module. */
  lemma RightAfterReturnIff(t: Table, s: State, items: FileTable, f: File)
    requires FullOk(s, items) && f.path in items && s.fileToModule[f.path] == f.mod && f.path !in s.cache.items
    ensures f.mod in s.modules && f.mod in Added(s, f).modules
    ensures var files := s.modules[f.mod].files;
            && Added(s, f).modules[f.mod].files == files
            && ((forall k :: Entry(t, Added(s, f), f.mod, k) <==> Rebuilt(t, items, files, f, k)) <==>
                (forall k :: Gives(t, items[f.path], k) ==> Gives(t, f, k) || OtherGives(t, items, files, f.path, k)))
  {
    hide FullOk, Added, Entry, Gives, OtherGives, Rebuilt;
    EntryStaysIff(t, s, items, f, 0);
    var files := s.modules[f.mod].files;
    forall k
      ensures Entry(t, Added(s, f), f.mod, k) <==>
              Gives(t, items[f.path], k) || Gives(t, f, k) || OtherGives(t, items, files, f.path, k)
      ensures Rebuilt(t, items, files, f, k) <==> Gives(t, f, k) || OtherGives(t, items, files, f.path, k)
    {
      EntryStaysIff(t, s, items, f, k);
    }
  }

  /** If it comes back under another module, the earlier module goes on listing it. */
  lemma ListedTwice(s: State, items: FileTable, f: File)
    requires FullOk(s, items) && f.path in items && s.fileToModule[f.path] != f.mod && f.path !in s.cache.items
    ensures var m, t := s.fileToModule[f.path], Added(s, f);
            m in t.modules && f.path in t.modules[m].files && t.fileToModule[f.path] == f.mod != m
  {
    hide ReverseOk, CacheOk, Canonical, AfterPut, FilePeak, MergeExports, MergeDefs, MergeImporters, MergeEdges, Added;
    AddedAfterMiss(s, f);
  }

  // ----- a file is removed while the cache has dropped others of its module

  /** The files of the module of `path` that remain when it is removed. */
  ghost function Remaining(s: State, path: Name): seq<Name>
    requires path in s.fileToModule
  {
    RemoveFirst(ModuleOf(s.modules, s.fileToModule[path]).files, path)
  }

  /** Whatever the cache has dropped, a removal leaves the entries of the remaining files that it still holds. */
  lemma EntriesLeft(t: Table, s: State, items: FileTable, path: Name, k: Name)
    requires FullOk(s, items) && path in items
    ensures path !in Remaining(s, path)
    ensures Entry(t, Removed(s, path), s.fileToModule[path], k) <==> SomeGives(t, s.cache.items, Remaining(s, path), k)
    ensures SomeGives(t, s.cache.items, Remaining(s, path), k) ==> SomeGives(t, items, Remaining(s, path), k)
    ensures k in Fold(t, items - {path}, Remaining(s, path)) <==> SomeGives(t, items, Remaining(s, path), k)
    ensures var m := s.fileToModule[path];
            && (m in Removed(s, path).modules <==> Remaining(s, path) != [])
            && ModuleOf(Removed(s, path).modules, m).files == Remaining(s, path)
  {
    hide ReverseOk, CacheOk, Canonical, FoldEdges, FoldDefs, FoldExports, Removed, RemoveFirst, Gives;
    RemovedShape(s, items, path);
    var files := Remaining(s, path);
    RemoveFirstContents(s.modules[s.fileToModule[path]].files, path);
    FoldNames(t, s.cache.items, files, k);
    FoldNames(t, items - {path}, files, k);
    WithoutOne(t, items, files, path, k);
    CachedGives(t, s, items, files, k);
  }

  lemma WithoutOne(t: Table, items: FileTable, files: seq<Name>, path: Name, k: Name)
    requires path !in files
    ensures SomeGives(t, items - {path}, files, k) <==> SomeGives(t, items, files, k)
  {
    hide Gives;
    if SomeGives(t, items, files, k) {
      var p :| p in files && p in items && Gives(t, items[p], k);
      assert p in items - {path} && Gives(t, (items - {path})[p], k);
    }
  }

  lemma CachedGives(t: Table, s: State, items: FileTable, files: seq<Name>, k: Name)
    requires ItemsOk(s, items)
    ensures SomeGives(t, s.cache.items, files, k) ==> SomeGives(t, items, files, k)
  {
    hide Gives;
    if SomeGives(t, s.cache.items, files, k) {
      var p :| p in files && p in s.cache.items && Gives(t, s.cache.items[p], k);
      assert p in items && Gives(t, items[p], k);
    }
  }

  /** When a file is removed, the module's table has the names that a rebuild gives it exactly when everything that a
      remaining file gives is given by one that the cache still holds. */
  lemma RightAfterRemovalIff(t: Table, s: State, items: FileTable, path: Name)
    requires FullOk(s, items) && path in items
    ensures path in s.fileToModule
    ensures (forall k :: Entry(t, Removed(s, path), s.fileToModule[path], k) <==>
                         k in Fold(t, items - {path}, Remaining(s, path))) <==>
            (forall k :: SomeGives(t, items, Remaining(s, path), k) ==>
                         SomeGives(t, s.cache.items, Remaining(s, path), k))
  {
    hide FullOk, Removed, Entry, SomeGives, Fold, Remaining;
    KeysOf(s, items);
    forall k
      ensures Entry(t, Removed(s, path), s.fileToModule[path], k) <==>
              SomeGives(t, s.cache.items, Remaining(s, path), k)
      ensures k in Fold(t, items - {path}, Remaining(s, path)) <==> SomeGives(t, items, Remaining(s, path), k)
      ensures SomeGives(t, s.cache.items, Remaining(s, path), k) ==> SomeGives(t, items, Remaining(s, path), k)
    {
      EntriesLeft(t, s, items, path, k);
    }
  }

  // ----- a cached file is added again while the cache has dropped others of its module

  /** Adding a cached file takes its earlier version out first. */
  lemma AddedAfterHit(s: State, items: FileTable, f: File)
    requires FullOk(s, items) && f.path in s.cache.items
    ensures var looked := s.(cache := AfterGet(s.cache, f.path));
            && FullOk(looked, items) && looked.cache.items == s.cache.items
            && Added(s, f) == Contribute(Removed(looked, f.path), f)
  {
    hide FullOk, Contribute, Removed;
    LookupFull(s, items, f.path);
  }

  /** The entries are those that the new version and the cached other files give; a rebuild counts all other files. */
  lemma EntriesAfterUpdate(t: Table, s: State, items: FileTable, f: File, k: Name)
    requires FullOk(s, items) && f.path in s.cache.items && f.path in s.fileToModule
    ensures var m, files := s.fileToModule[f.path], Remaining(s, f.path);
            && (m == f.mod ==>
                  && (Entry(t, Added(s, f), m, k) <==> SomeGives(t, s.cache.items, files, k) || Gives(t, f, k))
                  && (Rebuilt(t, items, files + [f.path], f, k) <==> SomeGives(t, items, files, k) || Gives(t, f, k)))
            && (m != f.mod ==> (Entry(t, Added(s, f), m, k) <==> Entry(t, Removed(s, f.path), m, k)))
            && (SomeGives(t, s.cache.items, files, k) ==> SomeGives(t, items, files, k))
  {
    hide FullOk, Contribute, Removed, Added, Entry, Gives, Fold, SomeGives, RemoveFirst;
    KeysOf(s, items);
    var looked := s.(cache := AfterGet(s.cache, f.path));
    AddedAfterHit(s, items, f);
    assert Remaining(looked, f.path) == Remaining(s, f.path);
    EntriesLeft(t, s, items, f.path, k);
    EntriesLeft(t, looked, items, f.path, k);
    ContributedEntries(t, Removed(looked, f.path), f, k);
    ReplacedLast(t, items, Remaining(s, f.path), f, k);
  }

  lemma ReplacedLast(t: Table, items: FileTable, files: seq<Name>, f: File, k: Name)
    requires f.path !in files
    ensures Rebuilt(t, items, files + [f.path], f, k) <==> SomeGives(t, items, files, k) || Gives(t, f, k)
  {
    hide Gives, Fold;
    var table := items[f.path := f];
    FoldNames(t, table, files + [f.path], k);
    SomeGivesSnoc(t, table, files, f.path, k);
    if SomeGives(t, table, files, k) {
      var p :| p in files && p in table && Gives(t, table[p], k);
      assert p in items && Gives(t, items[p], k);
    }
    if SomeGives(t, items, files, k) {
      var p :| p in files && p in items && Gives(t, items[p], k);
      assert p in table && Gives(t, table[p], k);
    }
  }

  /** The module lists the other files first, then the one added. */
  lemma ListedLast(s: State, items: FileTable, f: File)
    requires FullOk(s, items) && f.path in s.cache.items && f.path in s.fileToModule && s.fileToModule[f.path] == f.mod
    ensures ModuleOf(Added(s, f).modules, f.mod).files == Remaining(s, f.path) + [f.path]
  {
    hide FullOk, Removed, Added, RemoveFirst, AfterPut, FilePeak;
    hide MergeExports, MergeDefs, MergeImporters, MergeEdges;
    KeysOf(s, items);
    AddedAfterHit(s, items, f);
    EntriesLeft(Imports, s.(cache := AfterGet(s.cache, f.path)), items, f.path, 0);
  }

  /** When a cached file is added again to its module, the module's table has the names that a rebuild gives it exactly
      when everything that another file of the module gives is given by one that the cache still holds or by the new
      version. */
  lemma RightAfterUpdateIff(t: Table, s: State, items: FileTable, f: File)
    requires FullOk(s, items) && f.path in s.cache.items && f.path in s.fileToModule && s.fileToModule[f.path] == f.mod
    ensures var files := Remaining(s, f.path);
            && ModuleOf(Added(s, f).modules, f.mod).files == files + [f.path]
            && ((forall k :: Entry(t, Added(s, f), f.mod, k) <==> Rebuilt(t, items, files + [f.path], f, k)) <==>
                (forall k :: SomeGives(t, items, files, k) ==>
                             SomeGives(t, s.cache.items, files, k) || Gives(t, f, k)))
  {
    hide FullOk, Added, Removed, Entry, Gives, SomeGives, Rebuilt, Remaining;
    var files := Remaining(s, f.path);
    ListedLast(s, items, f);
    forall k
      ensures Entry(t, Added(s, f), f.mod, k) <==> SomeGives(t, s.cache.items, files, k) || Gives(t, f, k)
      ensures Rebuilt(t, items, files + [f.path], f, k) <==> SomeGives(t, items, files, k) || Gives(t, f, k)
      ensures SomeGives(t, s.cache.items, files, k) ==> SomeGives(t, items, files, k)
    {
      EntriesAfterUpdate(t, s, items, f, k);
    }
  }

  /** When a cached file moves to another module, the earlier module is left as a removal leaves it, and the new one
      has the names that a rebuild gives it. */
  lemma RightAfterMove(t: Table, s: State, items: FileTable, f: File, k: Name)
    requires FullOk(s, items) && f.path in s.cache.items && f.path in s.fileToModule && s.fileToModule[f.path] != f.mod
    ensures Entry(t, Added(s, f), s.fileToModule[f.path], k) <==>
            Entry(t, Removed(s, f.path), s.fileToModule[f.path], k)
    ensures var files := ModuleOf(s.modules, f.mod).files;
            Entry(t, Added(s, f), f.mod, k) <==> Rebuilt(t, items, files + [f.path], f, k)
  {
    hide FullOk, Contribute, Removed, Added, Gives, SomeGives, RemoveFirst, Rebuilt;
    EntriesAfterUpdate(t, s, items, f, k);
    KeysOf(s, items);
    AddedAfterHit(s, items, f);
    var looked := s.(cache := AfterGet(s.cache, f.path));
    ContributedEntries(t, Removed(looked, f.path), f, k);
    OtherModuleStays(t, looked, items, f.path, f.mod, k);
    var files := ModuleOf(s.modules, f.mod).files;
    NotListedThere(s, items, f);
    ReplacedLast(t, items, files, f, k);
    if f.mod in s.modules {
      CanonicalEntries(t, s, items, f.mod, k);
    } else {
      FoldNone(t, items, k);
    }
  }

  lemma NotListedThere(s: State, items: FileTable, f: File)
    requires FullOk(s, items) && f.path in s.fileToModule && s.fileToModule[f.path] != f.mod
    ensures f.path !in ModuleOf(s.modules, f.mod).files
  {
  }

  lemma OtherModuleStays(t: Table, s: State, items: FileTable, path: Name, m: Name, k: Name)
    requires FullOk(s, items) && path in s.fileToModule && s.fileToModule[path] != m
    ensures Entry(t, Removed(s, path), m, k) <==> Entry(t, s, m, k)
  {
    hide ReverseOk, CacheOk, Canonical, FoldEdges, FoldDefs, FoldExports, Removed, RemoveFirst;
    RemovedShape(s, items, path);
  }

  // ----- a run that goes wrong

  const VERSION1 := File(1, 10, 0, [Import(20, 0)], [])
  const VERSION2 := File(1, 10, 0, [], [])
  const OTHER := File(2, 30, 0, [], [])

  /** A file, then another one that pushes it out of the cache, then the file again without its import. */
  function Run(): seq<GraphOp> {
    [AddFile(VERSION1), AddFile(OTHER), AddFile(VERSION2)]
  }

  /** A file without imports and definitions, not cached, is only listed. */
  lemma ContributeBare(s: State, f: File)
    requires f.path !in s.cache.items && f.imports == [] && f.definitions == []
    ensures Added(s, f).imports == s.imports[f.mod := Edges(s.imports, f.mod)]
    ensures var files := ModuleOf(s.modules, f.mod).files;
            forall m :: ModuleOf(Added(s, f).modules, m).files ==
              if m == f.mod && f.path !in files then files + [f.path] else ModuleOf(s.modules, m).files
  {
    hide Added, AfterPut, FilePeak, MergeDefs, MergeImporters;
    AddedAfterMiss(s, f);
  }

  lemma RunEnds(ops: seq<GraphOp>)
    requires ops == Run()
    ensures ImportsEdge(RunGraph(1, ops), 10, 20)
    ensures forall m :: ModuleOf(RunGraph(1, ops).modules, m).files ==
              if m == 10 then [1] else if m == 30 then [2] else []
  {
    hide Added, RunGraph, ModuleOf;
    var s1 := Added(NewState(1), VERSION1);
    var s2 := Added(s1, OTHER);
    RunUnfolds(ops);
    FirstStep(NewState(1), s1);
    ContributeBare(s1, OTHER);
    PushedOut(s1, s2);
    ContributeBare(s2, VERSION2);
  }

  lemma RunUnfolds(ops: seq<GraphOp>)
    requires ops == Run()
    ensures RunGraph(1, ops) == Added(Added(Added(NewState(1), VERSION1), OTHER), VERSION2)
  {
    hide Added, NewState;
    assert ops[..1][..0] == ops[..0] && ops[..2][..1] == ops[..1] && ops[..3] == ops;
    assert RunGraph(1, ops[..0]) == NewState(1);
    assert RunGraph(1, ops[..1]) == Added(NewState(1), VERSION1);
    assert RunGraph(1, ops[..2]) == Added(Added(NewState(1), VERSION1), OTHER);
  }

  lemma FirstStep(s0: State, s1: State)
    requires s0 == NewState(1) && s1 == Added(s0, VERSION1)
    ensures ImportsEdge(s1, 10, 20) && 2 !in s1.cache.items
    ensures s1.cache.order == [1] && s1.cache.capacity == 1 && s1.cache.items.Keys == {1}
    ensures forall m :: ModuleOf(s1.modules, m).files == if m == 10 then [1] else []
  {
    hide Contribute, Added, Removed;
    AddedAfterMiss(s0, VERSION1);
    ContributedEntries(Imports, s0, VERSION1, 20);
    assert VERSION1.imports[0].mod == 20;
    FirstContribution(s0);
  }

  lemma FirstContribution(s0: State)
    requires s0 == NewState(1)
    ensures var s1 := Contribute(s0, VERSION1);
            && s1.cache.order == [1] && s1.cache.capacity == 1 && s1.cache.items.Keys == {1}
            && forall m :: ModuleOf(s1.modules, m).files == if m == 10 then [1] else []
  {
    hide FilePeak, MergeExports, MergeDefs, MergeImporters, MergeEdges;
  }

  lemma PushedOut(s1: State, s2: State)
    requires s1.cache.order == [1] && s1.cache.capacity == 1 && s1.cache.items.Keys == {1}
    requires s2 == Added(s1, OTHER)
    ensures 1 !in s2.cache.items
  {
    AddedAfterMiss(s1, OTHER);
    hide Added, FilePeak, MergeExports, MergeDefs, MergeImporters, MergeEdges;
  }

  lemma RunTracks(ops: seq<GraphOp>)
    requires ops == Run()
    ensures Latest(ops) == map[1 := VERSION2, 2 := OTHER]
  {
    assert ops[..1][..0] == ops[..0] && ops[..2][..1] == ops[..1] && ops[..3] == ops;
    assert Latest(ops[..0]) == map[];
    assert Latest(ops[..1]) == map[1 := VERSION1];
    assert Latest(ops[..2]) == map[1 := VERSION1, 2 := OTHER];
  }

  lemma ListingOfRun(fs: seq<File>)
    requires fs == [OTHER, VERSION2]
    ensures forall m :: PathsOf(fs, m) == if m == 10 then [1] else if m == 30 then [2] else []
    ensures DistinctPaths(fs) && TableIs(map[1 := VERSION2, 2 := OTHER], fs)
  {
    forall m
      ensures PathsOf(fs, m) == if m == 10 then [1] else if m == 30 then [2] else []
    {
      PathsOfRun(fs, m);
    }
    hide PathsOf;
    assert fs[0] in fs && fs[1] in fs;
  }

  lemma PathsOfRun(fs: seq<File>, m: Name)
    requires fs == [OTHER, VERSION2]
    ensures PathsOf(fs, m) == if m == 10 then [1] else if m == 30 then [2] else []
  {
    assert fs[..1] == [OTHER] && fs[..1][..0] == [];
    assert PathsOf(fs[..1], m) == if m == 30 then [2] else [];
  }

  /** The edge of the first version is still there, although no tracked file has that import, and no fresh build from
      the tracked files has that edge. */
  lemma StaleEdgeRemains(room: int)
    ensures var s, fs := RunGraph(1, Run()), [OTHER, VERSION2];
            && IsListing(Latest(Run()), s.modules, fs)
            && ImportsEdge(s, 10, 20) && !ImportsEdge(RunGraph(room, Adds(fs)), 10, 20)
            && !SameTables(s, RunGraph(room, Adds(fs)))
  {
    hide RunGraph, Latest, Adds, PathsOf, ModuleOf, FullOk, NeverMisses;
    var fs := [OTHER, VERSION2];
    RunEnds(Run());
    RunTracks(Run());
    ListingOfRun(fs);
    FillAll(fs, room);
    IncrementalIsCanonical(room, Adds(fs));
    LatestOfAdds(fs);
    NoEdge(RunGraph(room, Adds(fs)), Latest(Adds(fs)), fs);
  }

  lemma NoEdge(s: State, items: FileTable, fs: seq<File>)
    requires FullOk(s, items) && TableIs(items, fs) && forall i :: 0 <= i < |fs| ==> fs[i].imports == []
    ensures !ImportsEdge(s, 10, 20)
  {
    hide ReverseOk, CacheOk, Canonical;
    if 10 in s.modules {
      CanonicalEntries(Imports, s, items, 10, 20);
    }
  }

  // ----- another run that goes wrong

  const SIBLING := File(2, 10, 0, [], [])

  /** A file, then another one of the same module that pushes it out of the cache, then that one again. */
  function EditRun(): seq<GraphOp> {
    [AddFile(VERSION1), AddFile(SIBLING), AddFile(SIBLING)]
  }

  lemma EditRunTracks(ops: seq<GraphOp>)
    requires ops == EditRun()
    ensures Latest(ops) == Latest(ops[..2]) == map[1 := VERSION1, 2 := SIBLING]
  {
    assert ops[..1][..0] == ops[..0] && ops[..2][..1] == ops[..1] && ops[..3] == ops;
    assert Latest(ops[..0]) == map[];
    assert Latest(ops[..1]) == map[1 := VERSION1];
    assert Latest(ops[..2]) == map[1 := VERSION1, 2 := SIBLING];
  }

  lemma EditRunUnfolds(ops: seq<GraphOp>)
    requires ops == EditRun()
    ensures RunGraph(1, ops[..2]) == Added(Added(NewState(1), VERSION1), SIBLING)
    ensures RunGraph(1, ops) == Added(RunGraph(1, ops[..2]), SIBLING)
    ensures ops[..2] == Adds([VERSION1, SIBLING])
  {
    hide Added, NewState;
    assert ops[..1][..0] == ops[..0] && ops[..2][..1] == ops[..1] && ops[..3] == ops;
    assert RunGraph(1, ops[..0]) == NewState(1);
    assert RunGraph(1, ops[..1]) == Added(NewState(1), VERSION1);
  }

  lemma SiblingPushes(s1: State, s2: State)
    requires s1.cache.order == [1] && s1.cache.capacity == 1 && s1.cache.items.Keys == {1}
    requires s2 == Added(s1, SIBLING)
    ensures s2.cache.items == map[2 := SIBLING]
  {
    AddedAfterMiss(s1, SIBLING);
    hide Added, FilePeak, MergeExports, MergeDefs, MergeImporters, MergeEdges;
  }

  lemma PathsOfSiblings(fs: seq<File>, m: Name)
    requires fs == [VERSION1, SIBLING]
    ensures PathsOf(fs, m) == if m == 10 then [1, 2] else []
  {
    assert fs[..1] == [VERSION1] && fs[..1][..0] == [];
    assert PathsOf(fs[..1], m) == if m == 10 then [1] else [];
  }

  /** Updating one file loses the edge of the other, which the cache has dropped; a fresh build has it. */
  lemma SiblingEdgeLost(room: int)
    ensures var s, fs := RunGraph(1, EditRun()), [VERSION1, SIBLING];
            && TableIs(Latest(EditRun()), fs) && ModuleOf(s.modules, 10).files == PathsOf(fs, 10) == [1, 2]
            && !ImportsEdge(s, 10, 20) && ImportsEdge(RunGraph(room, Adds(fs)), 10, 20)
            && !SameTables(s, RunGraph(room, Adds(fs)))
  {
    hide RunGraph, Latest, Adds, PathsOf, FullOk, NeverMisses, Added, Gives;
    var fs, ops := [VERSION1, SIBLING], EditRun();
    EditRunTracks(ops);
    EditRunUnfolds(ops);
    PathsOfSiblings(fs, 10);
    FirstStep(NewState(1), Added(NewState(1), VERSION1));
    SiblingPushes(Added(NewState(1), VERSION1), RunGraph(1, ops[..2]));
    FillAll(fs, 1);
    IncrementalIsCanonical(1, ops[..2]);
    LostOnUpdate(RunGraph(1, ops[..2]), Latest(ops[..2]));
    assert fs[0] in fs && fs[1] in fs;
    FillAll(fs, room);
    IncrementalIsCanonical(room, Adds(fs));
    HasEdge(RunGraph(room, Adds(fs)), Latest(Adds(fs)));
  }

  lemma LostOnUpdate(s: State, items: FileTable)
    requires FullOk(s, items) && s.cache.items == map[2 := SIBLING] && ModuleOf(s.modules, 10).files == [1, 2]
    requires items == map[1 := VERSION1, 2 := SIBLING]
    ensures !ImportsEdge(Added(s, SIBLING), 10, 20) && ModuleOf(Added(s, SIBLING).modules, 10).files == [1, 2]
  {
    hide Added, FullOk;
    KeysOf(s, items);
    assert s.fileToModule[2] == items[2].mod == 10;
    assert RemoveFirst([1, 2], 2) == [1] + RemoveFirst([1, 2][1..], 2);
    assert Remaining(s, 2) == [1];
    EntriesAfterUpdate(Imports, s, items, SIBLING, 20);
    ListedLast(s, items, SIBLING);
  }

  lemma HasEdge(s: State, items: FileTable)
    requires FullOk(s, items) && items == map[1 := VERSION1, 2 := SIBLING] && ModuleOf(s.modules, 10).files == [1, 2]
    ensures ImportsEdge(s, 10, 20)
  {
    hide ReverseOk, CacheOk, Canonical;
    CanonicalEntries(Imports, s, items, 10, 20);
    assert VERSION1.imports[0].mod == 20;
    assert Gives(Imports, items[1], 20);
    assert 1 in [1, 2];
  }
}
