/** Adding the tracked files to an empty graph gives the tables that the incremental updates gave. */
module FreshRebuild {
  import opened Collections
  import opened Digraphs
  import opened Lru
  import opened ImportGraph
  import opened Rebuild

  function Adds(fs: seq<File>): seq<GraphOp> {
    seq(|fs|, i requires 0 <= i < |fs| => AddFile(fs[i]))
  }

  /** The paths of the files of module `m` in `fs`, in order. */
  ghost function PathsOf(fs: seq<File>, m: Name): seq<Name> {
    if fs == [] then []
    else PathsOf(fs[..|fs| - 1], m) + if fs[|fs| - 1].mod == m then [fs[|fs| - 1].path] else []
  }

  ghost predicate HasPath(fs: seq<File>, p: Name) {
    exists i :: 0 <= i < |fs| && fs[i].path == p
  }

  ghost predicate DistinctPaths(fs: seq<File>) {
    forall i, j :: 0 <= i < j < |fs| ==> fs[i].path != fs[j].path
  }

  /** `items` holds the files in `fs` and no others. */
  ghost predicate TableIs(items: FileTable, fs: seq<File>) {
    && (forall i :: 0 <= i < |fs| ==> fs[i].path in items && items[fs[i].path] == fs[i])
    && (forall p :: p in items ==> items[p] in fs)
  }

  /** `fs` lists the tracked files, those of each module in the order in which it lists them. */
  ghost predicate IsListing(items: FileTable, modules: map<Name, Module>, fs: seq<File>) {
    && DistinctPaths(fs) && TableIs(items, fs)
    && (forall m :: PathsOf(fs, m) == ModuleOf(modules, m).files)
  }

  // ----- a graph built from a list of files

  lemma AddsSnoc(fs: seq<File>)
    requires fs != []
    ensures Adds(fs)[..|fs| - 1] == Adds(fs[..|fs| - 1]) && Adds(fs)[|fs| - 1] == AddFile(fs[|fs| - 1])
  {
  }

  lemma LatestSnoc(init: seq<File>, f: File)
    ensures Latest(Adds(init + [f])) == Latest(Adds(init))[f.path := f]
  {
    AddsSnoc(init + [f]);
    assert (init + [f])[..|init|] == init;
  }

  lemma {:induction false} LatestOfAdds(fs: seq<File>)
    requires DistinctPaths(fs)
    ensures TableIs(Latest(Adds(fs)), fs) && |Latest(Adds(fs))| == |fs|
    ensures forall p :: p in Latest(Adds(fs)) ==> HasPath(fs, p)
    decreases |fs|
  {
    hide Adds, Latest;
    if fs == [] {
      NothingTracked();
      assert Adds(fs) == [] by {
        NoAdds();
      }
    } else {
      var init, f := fs[..|fs| - 1], fs[|fs| - 1];
      assert fs == init + [f];
      LatestOfAdds(init);
      LatestSnoc(init, f);
      var items := Latest(Adds(init));
      assert f.path !in items by {
        assert forall i :: 0 <= i < |init| ==> init[i] == fs[i] && fs[i].path != f.path;
      }
      TableGrows(items, init, f);
    }
  }

  lemma NothingTracked()
    ensures Latest([]) == map[]
  {
  }

  lemma NoAdds()
    ensures Adds([]) == []
  {
  }

  lemma TableGrows(items: FileTable, fs: seq<File>, f: File)
    requires TableIs(items, fs) && f.path !in items
    requires forall p :: p in items ==> HasPath(fs, p)
    ensures TableIs(items[f.path := f], fs + [f]) && |items[f.path := f]| == |items| + 1
    ensures forall p :: p in items[f.path := f] ==> HasPath(fs + [f], p)
  {
    var all, table := fs + [f], items[f.path := f];
    forall p | p in table
      ensures table[p] in all && HasPath(all, p)
    {
      if p == f.path {
        assert all[|fs|] == f;
      } else {
        assert items[p] in fs;
        var i :| 0 <= i < |fs| && fs[i].path == p;
        assert all[i].path == p;
      }
    }
  }

  lemma NotYetThere(fs: seq<File>, f: File)
    requires DistinctPaths(fs + [f])
    ensures DistinctPaths(fs) && f.path !in Latest(Adds(fs))
  {
    hide Adds, Latest;
    var all := fs + [f];
    forall i, j | 0 <= i < j < |fs|
      ensures fs[i].path != fs[j].path
    {
      assert all[i].path != all[j].path;
    }
    forall i | 0 <= i < |fs|
      ensures fs[i].path != f.path
    {
      assert all[i].path != all[|fs|].path;
    }
    LatestOfAdds(fs);
  }

  lemma AddedShape(s: State, items: FileTable, f: File)
    requires FullOk(s, items) && f.path !in items
    ensures Hits(s, AddFile(f)) && f.path !in s.cache.items && Added(s, f) == Contribute(s, f)
    ensures forall m :: f.path !in ModuleOf(s.modules, m).files
  {
    hide ReverseOk, Contribute, Removed;
    assert s.(cache := AfterGet(s.cache, f.path)) == s;
  }

  lemma FillModules(s: State, fs: seq<File>, f: File, r: State)
    requires r == Contribute(s, f)
    requires forall m :: f.path !in ModuleOf(s.modules, m).files
    requires forall m :: ModuleOf(s.modules, m).files == PathsOf(fs, m)
    ensures forall m :: ModuleOf(r.modules, m).files == PathsOf(fs + [f], m)
  {
    hide AfterPut, MergeImporters, MergeDefs, MergeEdges, MergeExports, FilePeak;
    forall m
      ensures ModuleOf(r.modules, m).files == PathsOf(fs + [f], m)
    {
      assert (fs + [f])[..|fs|] == fs;
      assert ModuleOf(s.modules, m).files == PathsOf(fs, m) && f.path !in ModuleOf(s.modules, m).files;
    }
  }

  lemma RunSnoc(room: int, init: seq<File>, f: File)
    ensures RunGraph(room, Adds(init + [f])) == Added(RunGraph(room, Adds(init)), f)
    ensures NeverMisses(room, Adds(init + [f])) <==>
            NeverMisses(room, Adds(init)) && Hits(RunGraph(room, Adds(init)), AddFile(f))
    ensures NeverEvicts(room, Adds(init + [f])) <==>
            NeverEvicts(room, Adds(init)) && DropsNothing(RunGraph(room, Adds(init)), AddFile(f))
  {
    hide Adds, Added, Hits, DropsNothing;
    AddsSnoc(init + [f]);
    assert (init + [f])[..|init|] == init && (init + [f])[|init|] == f;
    assert |Adds(init + [f])| == |init| + 1 by {
      AddsSize(init + [f]);
    }
  }

  lemma AddsSize(fs: seq<File>)
    ensures |Adds(fs)| == |fs|
  {
  }

  /** Adding files with different paths to an empty graph makes no lookup of a tracked file, however small the
      cache, and lists the files in order. */
  lemma {:induction false} FillAll(fs: seq<File>, room: int)
    requires DistinctPaths(fs)
    ensures NeverMisses(room, Adds(fs))
    ensures forall m :: ModuleOf(RunGraph(room, Adds(fs)).modules, m).files == PathsOf(fs, m)
    decreases |fs|
  {
    if fs != [] {
      hide FullOk, Added, Contribute, PathsOf, ModuleOf, Adds, Latest, NeverMisses, RunGraph, Hits;
      var init, f := fs[..|fs| - 1], fs[|fs| - 1];
      assert fs == init + [f];
      NotYetThere(init, f);
      FillAll(init, room);
      IncrementalIsCanonical(room, Adds(init));
      RunSnoc(room, init, f);
      var s := RunGraph(room, Adds(init));
      AddedShape(s, Latest(Adds(init)), f);
      FillModules(s, init, f, Added(s, f));
    }
  }

  /** With room for all of them none is dropped. */
  lemma {:induction false} FillDropsNothing(fs: seq<File>, room: int)
    requires DistinctPaths(fs) && |fs| <= room
    ensures NeverEvicts(room, Adds(fs)) && RunGraph(room, Adds(fs)).cache.capacity == if room <= 0 then 1 else room
    decreases |fs|
  {
    if fs != [] {
      hide FullOk, Added, Contribute, Adds, Latest, NeverMisses, NeverEvicts, RunGraph, Hits;
      var init, f := fs[..|fs| - 1], fs[|fs| - 1];
      assert fs == init + [f];
      NotYetThere(init, f);
      FillDropsNothing(init, room);
      EvictionFreeHits(room, Adds(init));
      IncrementalIsCanonical(room, Adds(init));
      LatestOfAdds(init);
      var s := RunGraph(room, Adds(init));
      AddedShape(s, Latest(Adds(init)), f);
      CacheSize(s, Latest(Adds(init)));
      ContributeCapacity(s, f);
      RunSnoc(room, init, f);
    }
  }

  lemma CacheSize(s: State, items: FileTable)
    requires FullOk(s, items) && s.cache.items == items
    ensures |s.cache.order| == |items|
  {
    OrderSize(s.cache);
  }

  lemma ContributeCapacity(s: State, f: File)
    ensures Contribute(s, f).cache.capacity == s.cache.capacity
  {
  }

  // ----- the same graph

  /** Everything a reader of the tables can see, apart from `MaxComplexity`. */
  ghost predicate SameTables(s: State, r: State) {
    && r.fileToModule == s.fileToModule && r.fileToLanguage == s.fileToLanguage
    && r.modules.Keys == s.modules.Keys
    && (forall m :: m in s.modules && m in r.modules ==>
          r.modules[m].files == s.modules[m].files && r.modules[m].exports == s.modules[m].exports)
    && r.imports == s.imports
    && r.definitions == s.definitions
    && (forall from, to :: ImporterEntry(s, to, from) <==> ImporterEntry(r, to, from))
  }

  lemma SameTable(items: FileTable, other: FileTable, fs: seq<File>)
    requires TableIs(items, fs) && TableIs(other, fs)
    requires forall p :: p in items ==> items[p].path == p
    requires forall p :: p in other ==> other[p].path == p
    ensures items == other
  {
    forall p
      ensures p in items <==> p in other
      ensures p in items ==> other[p] == items[p]
    {
      if p in items {
        var i :| 0 <= i < |fs| && fs[i] == items[p];
        assert fs[i].path == p;
      }
      if p in other {
        var i :| 0 <= i < |fs| && fs[i] == other[p];
        assert fs[i].path == p;
      }
    }
    assert items.Keys == other.Keys;
  }

  lemma SameFiles(s: State, r: State, items: FileTable)
    requires ItemsOk(s, items) && ItemsOk(r, items)
    requires s.fileToLanguage.Keys == s.fileToModule.Keys && r.fileToLanguage.Keys == r.fileToModule.Keys
    ensures r.fileToModule == s.fileToModule && r.fileToLanguage == s.fileToLanguage
  {
    assert r.fileToModule.Keys == s.fileToModule.Keys;
    assert r.fileToLanguage.Keys == s.fileToLanguage.Keys;
    forall p | p in s.fileToModule
      ensures r.fileToModule[p] == s.fileToModule[p] && r.fileToLanguage[p] == s.fileToLanguage[p]
    {
      assert p in items;
    }
  }

  lemma SameModule(s: State, r: State, items: FileTable, m: Name)
    requires FullOk(s, items) && FullOk(r, items)
    requires ModuleOf(r.modules, m).files == ModuleOf(s.modules, m).files
    ensures m in s.modules <==> m in r.modules
    ensures m in s.modules ==>
              && m in s.imports && m in r.imports && m in s.definitions && m in r.definitions
              && r.modules[m].files == s.modules[m].files && r.modules[m].exports == s.modules[m].exports
              && r.imports[m] == s.imports[m] && r.definitions[m] == s.definitions[m]
  {
    hide ReverseOk, CacheOk, FoldDefs, FoldEdges, FoldExports;
    if m in s.modules && m in r.modules {
      assert Canonical(s, items, m) && Canonical(r, items, m);
    }
  }

  lemma BothFull(s: State, r: State, items: FileTable)
    requires FullOk(s, items) && FullOk(r, items)
    requires forall m :: ModuleOf(r.modules, m).files == ModuleOf(s.modules, m).files
    ensures SameTables(s, r)
  {
    hide FullOk, ModuleOf;
    KeysOf(s, items);
    KeysOf(r, items);
    SameFiles(s, r, items);
    forall m
      ensures m in s.modules <==> m in r.modules
      ensures m in s.modules ==>
              && m in s.imports && m in r.imports && m in s.definitions && m in r.definitions
              && r.modules[m].files == s.modules[m].files && r.modules[m].exports == s.modules[m].exports
              && r.imports[m] == s.imports[m] && r.definitions[m] == s.definitions[m]
    {
      SameModule(s, r, items, m);
    }
    assert r.modules.Keys == s.modules.Keys;
    assert r.imports == s.imports;
    assert r.definitions == s.definitions;
    forall from, to
      ensures ImporterEntry(s, to, from) <==> ImporterEntry(r, to, from)
    {
      ReverseAt(s, items, from, to);
      ReverseAt(r, items, from, to);
    }
  }

  lemma KeysOf(s: State, items: FileTable)
    requires FullOk(s, items)
    ensures s.modules.Keys == s.imports.Keys == s.definitions.Keys
    ensures s.fileToLanguage.Keys == s.fileToModule.Keys && ItemsOk(s, items)
  {
  }

  lemma ReverseAt(s: State, items: FileTable, from: Name, to: Name)
    requires FullOk(s, items)
    ensures ImportsEdge(s, from, to) <==> ImporterEntry(s, to, from)
  {
  }

  lemma ItemPaths(s: State, items: FileTable)
    requires FullOk(s, items)
    ensures forall p :: p in items ==> items[p].path == p
  {
  }

  lemma ListedAgain(capacity: int, ops: seq<GraphOp>, fs: seq<File>, room: int)
    requires NeverMisses(capacity, ops) && IsListing(Latest(ops), RunGraph(capacity, ops).modules, fs)
    ensures NeverMisses(room, Adds(fs)) && Latest(Adds(fs)) == Latest(ops)
    ensures FullOk(RunGraph(capacity, ops), Latest(ops)) && FullOk(RunGraph(room, Adds(fs)), Latest(ops))
  {
    hide FullOk, NeverMisses, RunGraph, Latest, Adds;
    IncrementalIsCanonical(capacity, ops);
    FillAll(fs, room);
    IncrementalIsCanonical(room, Adds(fs));
    LatestOfAdds(fs);
    ItemPaths(RunGraph(capacity, ops), Latest(ops));
    ItemPaths(RunGraph(room, Adds(fs)), Latest(Adds(fs)));
    SameTable(Latest(ops), Latest(Adds(fs)), fs);
  }

  /** Main theorem: after a run in which each lookup of a tracked file finds it in the cache, adding the tracked files
      to a new graph, module lists in their order, gives the same tables, whatever the room in its cache. */
  lemma IncrementalEqualsRebuild(capacity: int, ops: seq<GraphOp>, fs: seq<File>, room: int)
    requires NeverMisses(capacity, ops) && IsListing(Latest(ops), RunGraph(capacity, ops).modules, fs)
    ensures SameTables(RunGraph(capacity, ops), RunGraph(room, Adds(fs)))
  {
    hide FullOk, NeverMisses, RunGraph, Latest, Adds, PathsOf, ModuleOf;
    ListedAgain(capacity, ops, fs, room);
    FillAll(fs, room);
    BothFull(RunGraph(capacity, ops), RunGraph(room, Adds(fs)), Latest(ops));
  }

  /** If the cache drops nothing in the run, and has room for all files in the new graph, then also the cached files
      are the same. */
  lemma EvictionFreeRebuild(capacity: int, ops: seq<GraphOp>, fs: seq<File>, room: int)
    requires NeverEvicts(capacity, ops) && |fs| <= room
    requires IsListing(RunGraph(capacity, ops).cache.items, RunGraph(capacity, ops).modules, fs)
    ensures NeverEvicts(room, Adds(fs)) && SameTables(RunGraph(capacity, ops), RunGraph(room, Adds(fs)))
    ensures RunGraph(room, Adds(fs)).cache.items == RunGraph(capacity, ops).cache.items
  {
    hide FullOk, NeverMisses, NeverEvicts, RunGraph, Latest, Adds, PathsOf, ModuleOf, SameTables;
    EvictionFreeHits(capacity, ops);
    ListedAgain(capacity, ops, fs, room);
    IncrementalEqualsRebuild(capacity, ops, fs, room);
    FillDropsNothing(fs, room);
    EvictionFreeHits(room, Adds(fs));
  }

  // ----- such a listing always exists

  lemma {:induction false} PathsOfConcat(a: seq<File>, b: seq<File>, m: Name)
    ensures PathsOf(a + b, m) == PathsOf(a, m) + PathsOf(b, m)
    decreases |b|
  {
    if b == [] {
      assert a + b == a;
    } else {
      PathsOfConcat(a, b[..|b| - 1], m);
      assert (a + b)[..|a + b| - 1] == a + b[..|b| - 1];
    }
  }

  /** The listed paths are those of module `x`. */
  ghost predicate PathsAt(items: FileTable, paths: seq<Name>, x: Name) {
    forall i :: 0 <= i < |paths| ==>
      paths[i] in items && items[paths[i]].path == paths[i] && items[paths[i]].mod == x
  }

  ghost function FilesAt(items: FileTable, paths: seq<Name>): (fs: seq<File>)
    requires forall i :: 0 <= i < |paths| ==> paths[i] in items
    ensures |fs| == |paths| && forall i :: 0 <= i < |paths| ==> fs[i] == items[paths[i]]
  {
    seq(|paths|, i requires 0 <= i < |paths| => items[paths[i]])
  }

  lemma {:induction false} PathsOfModule(items: FileTable, paths: seq<Name>, x: Name, m: Name)
    requires PathsAt(items, paths, x)
    ensures PathsOf(FilesAt(items, paths), m) == if m == x then paths else []
    decreases |paths|
  {
    if paths != [] {
      var init := paths[..|paths| - 1];
      var fs := FilesAt(items, paths);
      PathsOfModule(items, init, x, m);
      assert fs[..|fs| - 1] == FilesAt(items, init);
      assert fs[|fs| - 1] == items[paths[|paths| - 1]];
      assert paths == init + [paths[|paths| - 1]];
    }
  }

  /** `fs` lists the files of the modules in `ms`. */
  ghost predicate Gathered(s: State, items: FileTable, ms: set<Name>, fs: seq<File>) {
    && DistinctPaths(fs)
    && (forall i :: 0 <= i < |fs| ==>
          fs[i].path in items && items[fs[i].path] == fs[i] && fs[i].mod in ms)
    && (forall p :: p in items && items[p].mod in ms ==> items[p] in fs)
    && (forall m :: PathsOf(fs, m) == if m in ms then ModuleOf(s.modules, m).files else [])
  }

  lemma GatherOneMore(s: State, items: FileTable, ms: set<Name>, x: Name, fs: seq<File>, paths: seq<Name>)
    returns (all: seq<File>)
    requires x in s.modules && x !in ms && Gathered(s, items, ms, fs) && paths == s.modules[x].files
    requires PathsAt(items, paths, x) && Distinct(paths)
    requires forall p :: p in items && items[p].mod == x ==> p in paths
    ensures Gathered(s, items, ms + {x}, all)
  {
    hide PathsOf, DistinctPaths, ModuleOf, Distinct;
    all := fs + FilesAt(items, paths);
    GatherDistinct(s, items, ms, x, fs, paths);
    GatherMembers(s, items, ms, x, fs, paths);
    GatherPaths(s, items, ms, x, fs, paths);
    hide PathsAt;
  }

  lemma GatherPaths(s: State, items: FileTable, ms: set<Name>, x: Name, fs: seq<File>, paths: seq<Name>)
    requires x in s.modules && x !in ms && paths == s.modules[x].files && PathsAt(items, paths, x)
    requires forall m :: PathsOf(fs, m) == if m in ms then ModuleOf(s.modules, m).files else []
    ensures forall m :: PathsOf(fs + FilesAt(items, paths), m) ==
              if m in ms + {x} then ModuleOf(s.modules, m).files else []
  {
    hide PathsOf;
    forall m
      ensures PathsOf(fs + FilesAt(items, paths), m) == if m in ms + {x} then ModuleOf(s.modules, m).files else []
    {
      PathsOfConcat(fs, FilesAt(items, paths), m);
      PathsOfModule(items, paths, x, m);
    }
  }

  lemma GatherNone(s: State, items: FileTable)
    ensures Gathered(s, items, {}, [])
  {
  }

  lemma GatherDistinct(s: State, items: FileTable, ms: set<Name>, x: Name, fs: seq<File>, paths: seq<Name>)
    requires x !in ms && Gathered(s, items, ms, fs)
    requires PathsAt(items, paths, x) && Distinct(paths)
    ensures DistinctPaths(fs + FilesAt(items, paths))
  {
    var all := fs + FilesAt(items, paths);
    forall i, j | 0 <= i < j < |all|
      ensures all[i].path != all[j].path
    {
      if i < |fs| <= j {
        assert items[fs[i].path].mod in ms;
        assert all[j] == items[paths[j - |fs|]];
      } else if i >= |fs| {
        assert all[i].path == paths[i - |fs|] && all[j].path == paths[j - |fs|];
      }
    }
  }

  lemma GatherMembers(s: State, items: FileTable, ms: set<Name>, x: Name, fs: seq<File>, paths: seq<Name>)
    requires PathsAt(items, paths, x)
    requires forall p :: p in items && items[p].mod == x ==> p in paths
    requires Gathered(s, items, ms, fs)
    ensures var all := fs + FilesAt(items, paths);
            && (forall i :: 0 <= i < |all| ==>
                  all[i].path in items && items[all[i].path] == all[i] && all[i].mod in ms + {x})
            && (forall p :: p in items && items[p].mod in ms + {x} ==> items[p] in all)
  {
    var more := FilesAt(items, paths);
    var all := fs + more;
    forall i | 0 <= i < |all|
      ensures all[i].path in items && items[all[i].path] == all[i] && all[i].mod in ms + {x}
    {
      if i >= |fs| {
        assert all[i] == items[paths[i - |fs|]];
      }
    }
    forall p | p in items && items[p].mod in ms + {x}
      ensures items[p] in all
    {
      if items[p].mod == x {
        var i :| 0 <= i < |paths| && paths[i] == p;
        assert more[i] == items[p];
        assert more[i] in more;
      } else {
        assert items[p] in fs;
      }
    }
  }

  lemma ModulePaths(s: State, items: FileTable, x: Name)
    requires FullOk(s, items) && x in s.modules
    ensures PathsAt(items, s.modules[x].files, x) && Distinct(s.modules[x].files)
    ensures forall p :: p in items && items[p].mod == x ==> p in s.modules[x].files
  {
    var paths := s.modules[x].files;
    forall i | 0 <= i < |paths|
      ensures paths[i] in items && items[paths[i]].path == paths[i] && items[paths[i]].mod == x
    {
      var p := paths[i];
      assert p in s.modules[x].files;
      assert p in s.fileToModule && s.fileToModule[p] == x;
      assert p in items.Keys;
    }
  }

  lemma {:induction false} Gather(s: State, items: FileTable, ms: set<Name>) returns (fs: seq<File>)
    requires FullOk(s, items) && ms <= s.modules.Keys
    ensures Gathered(s, items, ms, fs)
    decreases ms
  {
    hide FullOk, Gathered, PathsAt;
    if ms == {} {
      GatherNone(s, items);
      fs := [];
    } else {
      SomeElement(ms);
      var x :| x in ms;
      var rest := Gather(s, items, ms - {x});
      ModulePaths(s, items, x);
      fs := GatherOneMore(s, items, ms - {x}, x, rest, s.modules[x].files);
      assert ms - {x} + {x} == ms;
    }
  }

  lemma ItemModules(s: State, items: FileTable)
    requires FullOk(s, items)
    ensures forall p :: p in items ==> items[p].mod in s.modules
  {
  }

  lemma GatheredAll(s: State, items: FileTable, fs: seq<File>)
    requires Gathered(s, items, s.modules.Keys, fs) && forall p :: p in items ==> items[p].mod in s.modules
    ensures IsListing(items, s.modules, fs)
  {
    hide PathsOf, DistinctPaths;
  }

  lemma ListingExists(s: State, items: FileTable) returns (fs: seq<File>)
    requires FullOk(s, items)
    ensures IsListing(items, s.modules, fs)
  {
    hide FullOk, Gathered, IsListing;
    fs := Gather(s, items, s.modules.Keys);
    ItemModules(s, items);
    GatheredAll(s, items, fs);
  }

  /** Every run in which the lookups of tracked files hit can be replaced by a fresh build from the tracked files. */
  lemma RebuildIsPossible(capacity: int, ops: seq<GraphOp>)
    requires NeverMisses(capacity, ops)
    ensures exists fs :: IsListing(Latest(ops), RunGraph(capacity, ops).modules, fs) && NeverEvicts(|fs|, Adds(fs)) &&
              SameTables(RunGraph(capacity, ops), RunGraph(|fs|, Adds(fs)))
  {
    hide FullOk, NeverMisses, NeverEvicts, RunGraph, Latest, Adds, SameTables;
    IncrementalIsCanonical(capacity, ops);
    var fs := ListingExists(RunGraph(capacity, ops), Latest(ops));
    IncrementalEqualsRebuild(capacity, ops, fs, |fs|);
    FillDropsNothing(fs, |fs|);
  }
}
