/** What `MaxComplexity` says about the files of a module. It is raised when files are added and never lowered. */
module Peaks {
  import opened Digraphs
  import opened Lru
  import opened ImportGraph
  import opened Rebuild
  import opened Winners

  /** The complexity that counts for the module: the stored score unless it is zero, otherwise the weight. */
  ghost predicate PeakIs(d: Definition, score: int) {
    if d.complexityScore != 0 then score == d.complexityScore else WeightIs(d, score)
  }

  lemma PeakIsScore(d: Definition, score: int)
    ensures PeakIs(d, score) <==> score == PeakScore(d)
  {
  }

  ghost predicate Reaches(ds: seq<Definition>, score: int) {
    exists i :: 0 <= i < |ds| && PeakIs(ds[i], score)
  }

  ghost predicate StaysBelow(ds: seq<Definition>, score: int) {
    forall i, x :: 0 <= i < |ds| && PeakIs(ds[i], x) ==> x <= score
  }

  /** The complexity of a file is the highest of its definitions, and zero if none is higher. */
  lemma {:induction false} FilePeakMeans(ds: seq<Definition>)
    ensures FilePeak(ds) >= 0 && StaysBelow(ds, FilePeak(ds)) && (FilePeak(ds) == 0 || Reaches(ds, FilePeak(ds)))
    decreases |ds|
  {
    hide PeakIs, PeakScore;
    if ds != [] {
      var init, d := ds[..|ds| - 1], ds[|ds| - 1];
      FilePeakMeans(init);
      forall x
        ensures PeakIs(d, x) <==> x == PeakScore(d)
      {
        PeakIsScore(d, x);
      }
      assert forall i :: 0 <= i < |init| ==> ds[i] == init[i];
      if FilePeak(ds) == PeakScore(d) {
        assert PeakIs(ds[|ds| - 1], FilePeak(ds));
      } else if FilePeak(ds) != 0 {
        var i :| 0 <= i < |init| && PeakIs(init[i], FilePeak(ds));
        assert PeakIs(ds[i], FilePeak(ds));
      }
    }
  }

  // ----- over whole runs

  function MaxOf(s: State, m: Name): int {
    ModuleOf(s.modules, m).maxComplexity
  }

  /** `items` holds the tracked files. */
  ghost predicate Tracks(s: State, items: FileTable) {
    items.Keys == s.fileToModule.Keys && forall p :: p in items ==> s.fileToModule[p] == items[p].mod
  }

  /** No tracked file has a definition above the maximum of its module. */
  ghost predicate PeaksCover(s: State, items: FileTable) {
    && (forall m :: MaxOf(s, m) >= 0)
    && (forall p :: p in items ==> StaysBelow(items[p].definitions, MaxOf(s, items[p].mod)))
  }

  /** Some file tracked for `m` has a definition of this complexity. */
  ghost predicate ReachedIn(items: FileTable, m: Name, score: int) {
    exists p :: p in items && items[p].mod == m && Reaches(items[p].definitions, score)
  }

  /** The maximum of `m` is what its files have now: none is above it, and it is zero or some file reaches it. */
  ghost predicate PeakRight(s: State, items: FileTable, m: Name) {
    && (forall p :: p in items && items[p].mod == m ==> StaysBelow(items[p].definitions, MaxOf(s, m)))
    && (MaxOf(s, m) == 0 || ReachedIn(items, m, MaxOf(s, m)))
  }

  lemma ContributeMax(s: State, f: File)
    ensures var t := Contribute(s, f);
            && t.fileToModule == s.fileToModule[f.path := f.mod]
            && (forall m :: m != f.mod ==> MaxOf(t, m) == MaxOf(s, m))
            && MaxOf(t, f.mod) == if FilePeak(f.definitions) > MaxOf(s, f.mod) then FilePeak(f.definitions)
                                  else MaxOf(s, f.mod)
  {
    hide AfterPut, FilePeak, MergeDefs, MergeExports, MergeEdges, MergeImporters;
  }

  lemma ContributePeaks(s: State, items: FileTable, f: File)
    requires Tracks(s, items) && PeaksCover(s, items)
    ensures Tracks(Contribute(s, f), items[f.path := f]) && PeaksCover(Contribute(s, f), items[f.path := f])
    ensures forall m :: m != f.mod ==> MaxOf(Contribute(s, f), m) == MaxOf(s, m)
    ensures MaxOf(Contribute(s, f), f.mod) >= MaxOf(s, f.mod)
    ensures MaxOf(Contribute(s, f), f.mod) == MaxOf(s, f.mod) || Reaches(f.definitions, MaxOf(Contribute(s, f), f.mod))
  {
    hide Contribute, MaxOf, Reaches, StaysBelow, FilePeak;
    var t, more := Contribute(s, f), items[f.path := f];
    FilePeakMeans(f.definitions);
    ContributeMax(s, f);
    forall p | p in more
      ensures StaysBelow(more[p].definitions, MaxOf(t, more[p].mod))
    {
      if p == f.path {
        BelowMore(f.definitions, FilePeak(f.definitions), MaxOf(t, f.mod));
      } else {
        BelowMore(items[p].definitions, MaxOf(s, items[p].mod), MaxOf(t, items[p].mod));
      }
    }
  }

  lemma BelowMore(ds: seq<Definition>, x: int, y: int)
    requires StaysBelow(ds, x) && x <= y
    ensures StaysBelow(ds, y)
  {
    hide PeakIs;
  }

  /** A removal leaves the maximum of every module that is still there as it was. */
  lemma RemovedMax(s: State, path: Name)
    requires GraphOk(s)
    ensures var t := Removed(s, path);
            && t.fileToModule == s.fileToModule - {path}
            && forall m :: m in t.modules ==> m in s.modules && MaxOf(t, m) == MaxOf(s, m)
  {
    hide GraphOk, RemoveFirst, Unlink, ReverseOk, CacheOk;
    if path in s.fileToModule && s.fileToModule[path] in s.modules {
      var m := s.fileToModule[path];
      var files := RemoveFirst(s.modules[m].files, path);
      if files != [] {
        RebuildKeepsReverse(s, m, files);
        RebuiltMax(s, m, files, ImportGraph.Rebuild(s, m, files));
        hide ImportGraph.Rebuild;
      }
    }
  }

  lemma RebuiltMax(s: State, m: Name, files: seq<Name>, r: State)
    requires m in s.modules && Replaying(Cleared(s, m, files), r, m)
    ensures r.fileToModule == s.fileToModule
    ensures forall x :: x in r.modules ==> x in s.modules && MaxOf(r, x) == MaxOf(s, x)
  {
    hide WellFormed;
    var c := Cleared(s, m, files);
    forall x | x in r.modules
      ensures x in s.modules && MaxOf(r, x) == MaxOf(s, x)
    {
      assert x in c.modules && r.modules[x].(exports := c.modules[x].exports) == c.modules[x];
    }
  }

  lemma RemovedPeaks(s: State, items: FileTable, path: Name)
    requires GraphOk(s) && Tracks(s, items) && PeaksCover(s, items)
    ensures Tracks(Removed(s, path), items - {path}) && PeaksCover(Removed(s, path), items - {path})
  {
    hide GraphOk, Removed, StaysBelow;
    RemovedKeeps(s, path);
    RemovedMax(s, path);
    LiveModules(Removed(s, path));
    var t, left := Removed(s, path), items - {path};
    forall p | p in left
      ensures StaysBelow(left[p].definitions, MaxOf(t, left[p].mod))
    {
      assert t.fileToModule[p] == left[p].mod;
    }
    forall m
      ensures MaxOf(t, m) >= 0
    {
      if m in t.modules {
        assert MaxOf(s, m) >= 0;
      }
    }
  }

  lemma LiveModules(s: State)
    requires GraphOk(s)
    ensures forall p :: p in s.fileToModule ==> s.fileToModule[p] in s.modules
  {
  }

  /** The state in which an added file meets the tables. */
  function Before(s: State, f: File): State {
    var looked := s.(cache := AfterGet(s.cache, f.path));
    if f.path in s.cache.items then Removed(looked, f.path) else looked
  }

  lemma BeforePeaks(s: State, items: FileTable, f: File)
    requires GraphOk(s) && Tracks(s, items) && PeaksCover(s, items)
    ensures var r := Before(s, f);
            && ((Tracks(r, items - {f.path}) && PeaksCover(r, items - {f.path})) ||
                (Tracks(r, items) && PeaksCover(r, items)))
            && forall m :: m in r.modules ==> m in s.modules && MaxOf(r, m) == MaxOf(s, m)
  {
    hide GraphOk, Removed, AfterGet, StaysBelow;
    var looked := s.(cache := AfterGet(s.cache, f.path));
    if f.path in s.cache.items {
      Looked(s, f.path);
      SamePeaks(s, looked, items);
      RemovedPeaks(looked, items, f.path);
      RemovedMax(looked, f.path);
    } else {
      SamePeaks(s, looked, items);
    }
  }

  lemma Looked(s: State, path: Name)
    requires GraphOk(s)
    ensures GraphOk(s.(cache := AfterGet(s.cache, path)))
  {
    ApplyKeeps(s, GetFile(path));
  }

  lemma SamePeaks(s: State, t: State, items: FileTable)
    requires t.modules == s.modules && t.fileToModule == s.fileToModule && Tracks(s, items) && PeaksCover(s, items)
    ensures Tracks(t, items) && PeaksCover(t, items)
    ensures forall m :: MaxOf(t, m) == MaxOf(s, m)
  {
    assert forall m :: MaxOf(t, m) == MaxOf(s, m);
    hide MaxOf, StaysBelow;
  }

  lemma AddedPeaks(s: State, items: FileTable, f: File)
    requires GraphOk(s) && Tracks(s, items) && PeaksCover(s, items)
    ensures Tracks(Added(s, f), items[f.path := f]) && PeaksCover(Added(s, f), items[f.path := f])
    ensures forall m :: m in Added(s, f).modules ==>
              || (m in s.modules && MaxOf(Added(s, f), m) == MaxOf(s, m)) || MaxOf(Added(s, f), m) == 0
              || (m == f.mod && Reaches(f.definitions, MaxOf(Added(s, f), m)))
  {
    hide GraphOk, Contribute, Tracks, PeaksCover, Removed, Reaches, MaxOf;
    var r := Before(s, f);
    BeforePeaks(s, items, f);
    if Tracks(r, items - {f.path}) && PeaksCover(r, items - {f.path}) {
      ContributePeaks(r, items - {f.path}, f);
      assert (items - {f.path})[f.path := f] == items[f.path := f];
    } else {
      ContributePeaks(r, items, f);
    }
    assert Added(s, f) == Contribute(r, f);
    hide Added, Before;
    forall m | m in Contribute(r, f).modules
      ensures (m in s.modules && MaxOf(Contribute(r, f), m) == MaxOf(s, m)) || MaxOf(Contribute(r, f), m) == 0
              || (m == f.mod && Reaches(f.definitions, MaxOf(Contribute(r, f), m)))
    {
      NoMaxYet(r, m);
      ContributesTo(r, f, m);
    }
  }

  lemma NoMaxYet(s: State, m: Name)
    ensures m !in s.modules ==> MaxOf(s, m) == 0
  {
  }

  /** After any run, with any cache: no definition of a tracked file is above the maximum of its module. */
  lemma {:induction false} PeaksCoverFiles(capacity: int, ops: seq<GraphOp>)
    ensures Tracks(RunGraph(capacity, ops), Latest(ops)) && PeaksCover(RunGraph(capacity, ops), Latest(ops))
    decreases |ops|
  {
    hide GraphOk, Tracks, PeaksCover, Added, Removed, AfterGet, AfterPrune, AfterSetCapacity;
    if ops == [] {
      NoPeaks(capacity);
    } else {
      var init, op := ops[..|ops| - 1], ops[|ops| - 1];
      var s, items := RunGraph(capacity, init), Latest(init);
      PeaksCoverFiles(capacity, init);
      ReachableOk(capacity, init);
      match op
      case AddFile(f) => AddedPeaks(s, items, f);
      case RemoveFile(path) => RemovedPeaks(s, items, path);
      case _ => SamePeaks(s, Apply(s, op), items);
    }
  }

  lemma NoPeaks(capacity: int)
    ensures Tracks(NewState(capacity), map[]) && PeaksCover(NewState(capacity), map[])
  {
  }

  /** The run has added a file to `m` with a definition of this complexity. */
  ghost predicate WasAdded(ops: seq<GraphOp>, m: Name, score: int) {
    exists k :: 0 <= k < |ops| && ops[k].AddFile? && ops[k].file.mod == m && Reaches(ops[k].file.definitions, score)
  }

  lemma WasAddedSnoc(init: seq<GraphOp>, op: GraphOp, m: Name, score: int)
    ensures WasAdded(init, m, score) ==> WasAdded(init + [op], m, score)
    ensures op.AddFile? && op.file.mod == m && Reaches(op.file.definitions, score) ==> WasAdded(init + [op], m, score)
  {
    hide Reaches;
    var ops := init + [op];
    if WasAdded(init, m, score) {
      var k :| 0 <= k < |init| && init[k].AddFile? && init[k].file.mod == m &&
        Reaches(init[k].file.definitions, score);
      assert ops[k] == init[k];
    }
    assert ops[|init|] == op;
  }

  /** The maximum of a module is zero or the complexity of a definition that was added to it at some time. */
  lemma {:induction false} PeakWasAdded(capacity: int, ops: seq<GraphOp>, m: Name)
    requires m in RunGraph(capacity, ops).modules
    ensures MaxOf(RunGraph(capacity, ops), m) == 0 || WasAdded(ops, m, MaxOf(RunGraph(capacity, ops), m))
    decreases |ops|
  {
    hide GraphOk, Tracks, PeaksCover, Added, Removed, AfterGet, AfterPrune, AfterSetCapacity, WasAdded;
    if ops != [] {
      var init, op := ops[..|ops| - 1], ops[|ops| - 1];
      var s := RunGraph(capacity, init);
      assert init + [op] == ops;
      ReachableOk(capacity, init);
      WasAddedSnoc(init, op, m, MaxOf(Apply(s, op), m));
      match op
      case AddFile(f) =>
        PeaksCoverFiles(capacity, init);
        AddedPeaks(s, Latest(init), f);
        if m in s.modules {
          PeakWasAdded(capacity, init, m);
        }
      case RemoveFile(path) =>
        RemovedMax(s, path);
        PeakWasAdded(capacity, init, m);
      case _ => PeakWasAdded(capacity, init, m);
    }
  }

  // ----- when the maximum is that of the current files

  /** A removal leaves the maximum of a remaining module right exactly when it is zero or a file other than the removed
      one reaches it. */
  lemma RightAfterRemovalIff(capacity: int, ops: seq<GraphOp>, path: Name, m: Name)
    requires m in RunGraph(capacity, ops + [RemoveFile(path)]).modules
    ensures var s := RunGraph(capacity, ops);
            PeakRight(RunGraph(capacity, ops + [RemoveFile(path)]), Latest(ops + [RemoveFile(path)]), m) <==>
            MaxOf(s, m) == 0 || ReachedIn(Latest(ops) - {path}, m, MaxOf(s, m))
  {
    var after := ops + [RemoveFile(path)];
    assert after[..|after| - 1] == ops;
    hide GraphOk, Removed, ReachedIn, StaysBelow;
    ReachableOk(capacity, ops);
    PeaksCoverFiles(capacity, after);
    RemovedMax(RunGraph(capacity, ops), path);
  }

  /** Adding a file that is not tracked keeps the maximum of every module right. */
  lemma AddingKeepsRight(capacity: int, ops: seq<GraphOp>, f: File, m: Name)
    requires f.path !in RunGraph(capacity, ops).fileToModule && PeakRight(RunGraph(capacity, ops), Latest(ops), m)
    ensures PeakRight(RunGraph(capacity, ops + [AddFile(f)]), Latest(ops + [AddFile(f)]), m)
  {
    var after := ops + [AddFile(f)];
    assert after[..|after| - 1] == ops;
    var s, items := RunGraph(capacity, ops), Latest(ops);
    ReachableOk(capacity, ops);
    PeaksCoverFiles(capacity, ops);
    PeaksCoverFiles(capacity, after);
    hide RunGraph, Latest, GraphOk, Contribute, Reaches, StaysBelow, Removed;
    NotCached(s, f.path);
    SamePeaks(s, Before(s, f), items);
    ContributePeaks(Before(s, f), items, f);
    NewlyReached(items, f, m);
  }

  lemma NotCached(s: State, path: Name)
    requires GraphOk(s) && path !in s.fileToModule
    ensures path !in s.cache.items
  {
  }

  lemma NewlyReached(items: FileTable, f: File, m: Name)
    requires f.path !in items
    ensures forall x :: ReachedIn(items, m, x) ==> ReachedIn(items[f.path := f], m, x)
    ensures forall x :: f.mod == m && Reaches(f.definitions, x) ==> ReachedIn(items[f.path := f], m, x)
  {
    hide Reaches;
    var more := items[f.path := f];
    forall x | ReachedIn(items, m, x)
      ensures ReachedIn(more, m, x)
    {
      var p :| p in items && items[p].mod == m && Reaches(items[p].definitions, x);
      assert more[p] == items[p];
    }
    forall x | f.mod == m && Reaches(f.definitions, x)
      ensures ReachedIn(more, m, x)
    {
      assert more[f.path] == f;
    }
  }

  // ----- a concrete run

  const COMPLEX := File(1, 10, 0, [], [Definition(100, true, 9, 0, 0, 0, 0, 0)])
  const SIMPLE := File(2, 10, 0, [], [Definition(101, true, 2, 0, 0, 0, 0, 0)])

  lemma AddedMax(s: State, f: File)
    requires GraphOk(s) && f.path !in s.fileToModule
    ensures var t := Added(s, f);
            && t.fileToModule == s.fileToModule[f.path := f.mod] && GraphOk(t)
            && MaxOf(t, f.mod) == if FilePeak(f.definitions) > MaxOf(s, f.mod) then FilePeak(f.definitions)
                                  else MaxOf(s, f.mod)
  {
    AddedKeeps(s, f);
    NotCached(s, f.path);
    hide GraphOk, FilePeak, Contribute;
    ContributeMax(s.(cache := AfterGet(s.cache, f.path)), f);
  }

  lemma OnePeak(d: Definition)
    requires d.complexityScore > 0
    ensures FilePeak([d]) == d.complexityScore
    ensures forall x :: Reaches([d], x) <==> x == d.complexityScore
  {
    assert [d][..0] == [];
    assert PeakIs([d][0], d.complexityScore);
  }

  lemma TwoTracked(ops: seq<GraphOp>)
    requires ops == [AddFile(COMPLEX), AddFile(SIMPLE)]
    ensures Latest(ops) - {1} == map[2 := SIMPLE]
  {
    assert ops[..1] == [AddFile(COMPLEX)] && ops[..1][..0] == [];
    assert Latest(ops[..1]) == map[1 := COMPLEX];
    assert Latest(ops) == map[1 := COMPLEX, 2 := SIMPLE];
  }

  lemma TwoAdded(capacity: int, ops: seq<GraphOp>)
    requires ops == [AddFile(COMPLEX), AddFile(SIMPLE)]
    ensures RunGraph(capacity, ops).fileToModule == map[1 := 10, 2 := 10] && GraphOk(RunGraph(capacity, ops))
    ensures MaxOf(RunGraph(capacity, ops), 10) == 9
  {
    assert ops[..1] == [AddFile(COMPLEX)] && ops[..1][..0] == [];
    ReachableOk(capacity, []);
    OnePeak(COMPLEX.definitions[0]);
    OnePeak(SIMPLE.definitions[0]);
    hide GraphOk, Added, FilePeak;
    AddedMax(NewState(capacity), COMPLEX);
    AddedMax(Added(NewState(capacity), COMPLEX), SIMPLE);
  }

  /** The most complex file of a module is removed, and its complexity stays the maximum of the module. */
  lemma PeakOutlivesFile(capacity: int)
    ensures var ops := [AddFile(COMPLEX), AddFile(SIMPLE), RemoveFile(1)];
            var s := RunGraph(capacity, ops);
            && Latest(ops) == map[2 := SIMPLE] && 10 in s.modules && MaxOf(s, 10) == 9
            && !PeakRight(s, Latest(ops), 10)
  {
    hide GraphOk, Apply, Track, FilePeak, Reaches, MaxOf, PeakRight, ReachedIn;
    var two, op := [AddFile(COMPLEX), AddFile(SIMPLE)], RemoveFile(1);
    var ops := two + [op];
    assert ops == [AddFile(COMPLEX), AddFile(SIMPLE), RemoveFile(1)] && ops[..|ops| - 1] == two;
    TwoAdded(capacity, two);
    TwoTracked(two);
    AfterRemoval(RunGraph(capacity, two), Latest(two));
    ReachableOk(capacity, ops);
    LiveModules(RunGraph(capacity, ops));
    assert 2 in RunGraph(capacity, ops).fileToModule;
    RightAfterRemovalIff(capacity, two, 1, 10);
    OnlySimple(Latest(two) - {1});
  }

  lemma AfterRemoval(s: State, items: FileTable)
    requires GraphOk(s) && s.fileToModule == map[1 := 10, 2 := 10]
    ensures var t := Apply(s, RemoveFile(1));
            && Track(items, RemoveFile(1)) == items - {1} && t.fileToModule == map[2 := 10]
            && (10 in t.modules ==> MaxOf(t, 10) == MaxOf(s, 10))
  {
    hide GraphOk, Removed, MaxOf;
    RemovedMax(s, 1);
  }

  lemma OnlySimple(items: FileTable)
    requires items == map[2 := SIMPLE]
    ensures !ReachedIn(items, 10, 9)
  {
    OnePeak(SIMPLE.definitions[0]);
    hide Reaches;
  }
}
