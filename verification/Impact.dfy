/** Which files and modules a change can affect: reverse reachability over the importers. */
module Impact {
  import opened Collections
  import opened Digraphs
  import opened Cycles
  import opened ImportGraph

  /** The imports of every module with an edge table, internal or not. */
  function AllImports(s: State): Digraph {
    map m | m in s.imports :: s.imports[m].Keys
  }

  lemma ImportersAreReverse(s: State)
    requires ReverseOk(s)
    ensures IsReverse(AllImports(s), s.importedBy)
  {
    forall x, y
      ensures Edge(AllImports(s), x, y) <==> Edge(s.importedBy, y, x)
    {
      assert ImportsEdge(s, x, y) <==> ImporterEntry(s, y, x);
    }
  }

  // ----- a worklist over the importers

  ghost predicate ReachedFrom(h: Digraph, sources: set<Name>, x: Name) {
    exists s :: s in sources && Reach(h, s, x)
  }

  lemma ReachedStep(h: Digraph, sources: set<Name>, x: Name, y: Name)
    requires ReachedFrom(h, sources, x) && Edge(h, x, y)
    ensures ReachedFrom(h, sources, y)
  {
    var s :| s in sources && Reach(h, s, x);
    ReachStep(h, s, x, y);
  }

  /** `seen` holds the sources and what was found from them; all of it but the queue is expanded. */
  ghost predicate Worklist(h: Digraph, sources: set<Name>, seen: set<Name>, queue: seq<Name>) {
    && sources <= seen
    && (forall x :: x in queue ==> x in seen)
    && (forall x :: x in seen ==> ReachedFrom(h, sources, x))
    && (forall x, y :: x in seen && x !in queue && Edge(h, x, y) ==> y in seen)
  }

  /** While the successors of `curr` are looked at; those in `rest` are still to come. */
  ghost predicate Expanding(h: Digraph, sources: set<Name>, seen: set<Name>, queue: seq<Name>, curr: Name,
                            rest: set<Name>) {
    && sources <= seen && curr in seen
    && (forall x :: x in queue ==> x in seen)
    && (forall x :: x in seen ==> ReachedFrom(h, sources, x))
    && (forall x, y :: x in seen && x !in queue && x != curr && Edge(h, x, y) ==> y in seen)
    && (forall y :: Edge(h, curr, y) ==> y in seen || y in rest)
    && (forall y :: y in rest ==> Edge(h, curr, y))
  }

  lemma Take(h: Digraph, sources: set<Name>, seen: set<Name>, queue: seq<Name>, rest: set<Name>)
    requires Worklist(h, sources, seen, queue) && queue != []
    requires forall y :: y in rest <==> Edge(h, queue[0], y)
    ensures Expanding(h, sources, seen, queue[1..], queue[0], rest) && sources <= seen
  {
    hide ReachedFrom;
    assert queue == [queue[0]] + queue[1..];
  }

  lemma Find(h: Digraph, sources: set<Name>, seen: set<Name>, queue: seq<Name>, curr: Name, rest: set<Name>, y: Name)
    requires Expanding(h, sources, seen, queue, curr, rest) && y in rest
    ensures Expanding(h, sources, seen + {y}, queue + [y], curr, rest - {y})
  {
    hide ReachedFrom;
    ReachedStep(h, sources, curr, y);
  }

  lemma Pass(h: Digraph, sources: set<Name>, seen: set<Name>, queue: seq<Name>, curr: Name, rest: set<Name>, y: Name)
    requires Expanding(h, sources, seen, queue, curr, rest) && y in seen
    ensures Expanding(h, sources, seen, queue, curr, rest - {y})
  {
    hide ReachedFrom;
  }

  lemma Done(h: Digraph, sources: set<Name>, seen: set<Name>, queue: seq<Name>, curr: Name)
    requires Expanding(h, sources, seen, queue, curr, {})
    ensures Worklist(h, sources, seen, queue)
  {
    hide ReachedFrom;
  }

  /** At the end exactly the reachable nodes have been seen. */
  lemma WorklistEnd(h: Digraph, sources: set<Name>, seen: set<Name>, x: Name)
    requires Worklist(h, sources, seen, [])
    ensures x in seen <==> ReachedFrom(h, sources, x)
  {
    if ReachedFrom(h, sources, x) {
      var s :| s in sources && Reach(h, s, x);
      assert forall u, w :: u in seen && Edge(h, u, w) ==> w in seen;
      hide Worklist;
      ReachClosed(h, seen, s, x);
    }
  }

  // ----- the files to look at again after a change

  /** The modules other than `m` with an import path to `m`. */
  ghost predicate DependsOn(s: State, x: Name, m: Name) {
    x != m && Reach(AllImports(s), x, m)
  }

  /** `f` belongs to one of the modules in `ms` other than `m`. */
  ghost predicate FileOfOne(s: State, ms: set<Name>, m: Name, f: Name) {
    exists x :: x in ms && x != m && x in s.modules && f in s.modules[x].files
  }

  ghost predicate Collected(s: State, changed: Name, m: Name, ms: set<Name>, files: seq<Name>) {
    && |files| >= 1 && files[0] == changed
    && Distinct(files)
    && (forall f :: f in files <==> f == changed || FileOfOne(s, ms, m, f))
  }

  /** The answer: the changed file first, then all files of the modules that depend on its module. */
  ghost predicate IsInvalidation(s: State, changed: Name, files: seq<Name>) {
    if changed !in s.fileToModule then files == []
    else
      && |files| >= 1 && files[0] == changed && Distinct(files)
      && (forall f :: f in files <==>
            f == changed ||
            exists x :: x in s.modules && DependsOn(s, x, s.fileToModule[changed]) && f in s.modules[x].files)
  }

  method AppendUnseen(files0: seq<Name>, seen0: set<Name>, more: seq<Name>) returns (files: seq<Name>, seen: set<Name>)
    requires Distinct(files0) && seen0 == Elements(files0)
    ensures Distinct(files) && seen == Elements(files) && files0 <= files
    ensures Elements(files) == Elements(files0) + Elements(more)
  {
    files, seen := files0, seen0;
    for i := 0 to |more|
      invariant Distinct(files) && seen == Elements(files) && files0 <= files
      invariant Elements(files) == Elements(files0) + Elements(more[..i])
    {
      PrefixGrows(more, i);
      if more[i] !in seen {
        seen := seen + {more[i]};
        files := files + [more[i]];
      }
    }
    WholePrefix(more);
  }

  lemma CollectMore(s: State, changed: Name, m: Name, ms: set<Name>, files: seq<Name>, x: Name, all: seq<Name>)
    requires Collected(s, changed, m, ms, files) && x in s.modules && x != m
    requires Distinct(all) && files <= all && Elements(all) == Elements(files) + Elements(s.modules[x].files)
    ensures Collected(s, changed, m, ms + {x}, all)
  {
    forall f
      ensures f in all <==> f == changed || FileOfOne(s, ms + {x}, m, f)
    {
      assert f in all <==> f in Elements(all);
      assert FileOfOne(s, ms + {x}, m, f) <==> FileOfOne(s, ms, m, f) || f in s.modules[x].files;
    }
  }

  method InvalidateTransitive(g: Graph, changedFile: Name) returns (toRecheck: seq<Name>)
    requires g.Valid()
    ensures IsInvalidation(g.Current(), changedFile, toRecheck)
  {
    hide Worklist, Collected, GraphOk, Distinct, IsInvalidation;
    ghost var s := g.Current();
    if changedFile !in g.fileToModule {
      NothingToInvalidate(s, changedFile);
      return [];
    }
    var moduleName := g.fileToModule[changedFile];
    toRecheck := [changedFile];
    var seen, modSeen, queue := {changedFile}, {moduleName}, [moduleName];
    StartWorklist(s.importedBy, moduleName);
    StartCollected(s, changedFile, moduleName);
    while |queue| > 0
      invariant Worklist(s.importedBy, {moduleName}, modSeen, queue)
      invariant Collected(s, changedFile, moduleName, modSeen, toRecheck) && seen == Elements(toRecheck)
      invariant modSeen <= s.modules.Keys + {moduleName}
      decreases s.modules.Keys + {moduleName} - modSeen, |queue|
    {
      var mod := queue[0];
      ghost var before := modSeen;
      toRecheck, seen, modSeen, queue :=
        ExpandImporters(g, changedFile, moduleName, mod, toRecheck, seen, modSeen, queue);
      Shrinks(s.modules.Keys + {moduleName}, before, modSeen);
    }
    CollectedIsInvalidation(s, changedFile, moduleName, modSeen, toRecheck);
  }

  lemma NothingToInvalidate(s: State, changed: Name)
    requires changed !in s.fileToModule
    ensures IsInvalidation(s, changed, [])
  {
  }

  lemma StartCollected(s: State, changed: Name, m: Name)
    ensures Collected(s, changed, m, {m}, [changed])
  {
  }

  lemma StartWorklist(h: Digraph, m: Name)
    ensures Worklist(h, {m}, {m}, [m])
  {
    ReachRefl(h, m);
    assert ReachedFrom(h, {m}, m);
  }

  /** The importers of one module: the new ones are queued and their files collected. */
  method ExpandImporters(g: Graph, ghost changed: Name, ghost m: Name, mod: Name, files0: seq<Name>, seen0: set<Name>,
                         modSeen0: set<Name>, queue0: seq<Name>)
    returns (files: seq<Name>, seen: set<Name>, modSeen: set<Name>, queue: seq<Name>)
    requires g.Valid() && queue0 != [] && mod == queue0[0]
    requires Worklist(g.importedBy, {m}, modSeen0, queue0)
    requires Collected(g.Current(), changed, m, modSeen0, files0) && seen0 == Elements(files0)
    requires modSeen0 <= g.modules.Keys + {m}
    ensures Worklist(g.importedBy, {m}, modSeen, queue)
    ensures Collected(g.Current(), changed, m, modSeen, files) && seen == Elements(files)
    ensures modSeen0 <= modSeen <= g.modules.Keys + {m}
    ensures modSeen == modSeen0 ==> queue == queue0[1..]
  {
    files, seen, modSeen, queue := files0, seen0, modSeen0, queue0[1..];
    ghost var s := g.Current();
    var rest := Importers(g.importedBy, mod);
    ImportersLive(s, mod);
    Take(s.importedBy, {m}, modSeen0, queue0, rest);
    ghost var all := rest;
    hide Worklist, Collected, GraphOk;
    assert m in modSeen;
    while rest != {}
      invariant rest <= all && modSeen0 <= modSeen <= g.modules.Keys + {m} && m in modSeen
      invariant Expanding(s.importedBy, {m}, modSeen, queue, mod, rest)
      invariant Collected(s, changed, m, modSeen, files) && seen == Elements(files)
      invariant modSeen == modSeen0 ==> queue == queue0[1..]
      decreases rest
    {
      hide Expanding;
      SomeElement(rest);
      var importer :| importer in rest;
      if importer in modSeen {
        Pass(s.importedBy, {m}, modSeen, queue, mod, rest, importer);
      } else {
        Find(s.importedBy, {m}, modSeen, queue, mod, rest, importer);
        var files', seen' := Append(g, changed, m, modSeen, importer, files, seen);
        files, seen := files', seen';
        modSeen := modSeen + {importer};
        queue := queue + [importer];
      }
      rest := rest - {importer};
    }
    Done(s.importedBy, {m}, modSeen, queue, mod);
  }

  method Append(g: Graph, ghost changed: Name, ghost m: Name, ghost ms: set<Name>, importer: Name, files0: seq<Name>,
                seen0: set<Name>)
    returns (files: seq<Name>, seen: set<Name>)
    requires importer in g.modules && importer != m
    requires Collected(g.Current(), changed, m, ms, files0) && seen0 == Elements(files0)
    ensures Collected(g.Current(), changed, m, ms + {importer}, files) && seen == Elements(files)
  {
    files, seen := AppendUnseen(files0, seen0, g.modules[importer].files);
    CollectMore(g.Current(), changed, m, ms, files0, importer, files);
  }

  lemma ImportersLive(s: State, mod: Name)
    requires GraphOk(s)
    ensures Importers(s.importedBy, mod) <= s.modules.Keys
    ensures forall y :: y in Importers(s.importedBy, mod) <==> Edge(s.importedBy, mod, y)
  {
    forall y | y in Importers(s.importedBy, mod)
      ensures y in s.modules
    {
      assert ImporterEntry(s, mod, y);
      assert ImportsEdge(s, y, mod);
    }
  }

  lemma CollectedIsInvalidation(s: State, changed: Name, m: Name, ms: set<Name>, files: seq<Name>)
    requires GraphOk(s) && changed in s.fileToModule && m == s.fileToModule[changed]
    requires Worklist(s.importedBy, {m}, ms, []) && Collected(s, changed, m, ms, files)
    ensures IsInvalidation(s, changed, files)
  {
    ImportersAreReverse(s);
    ReachedAreDependents(s, m, ms);
    hide Worklist, GraphOk, Reach;
  }

  lemma ReachedAreDependents(s: State, m: Name, ms: set<Name>)
    requires IsReverse(AllImports(s), s.importedBy) && Worklist(s.importedBy, {m}, ms, [])
    ensures forall x :: x in ms <==> Reach(AllImports(s), x, m)
  {
    hide Worklist, Reach, IsReverse;
    forall x
      ensures x in ms <==> Reach(AllImports(s), x, m)
    {
      WorklistEnd(s.importedBy, {m}, ms, x);
      ReachReversed(AllImports(s), s.importedBy, x, m);
      assert ReachedFrom(s.importedBy, {m}, x) <==> Reach(s.importedBy, m, x);
    }
  }

  // ----- the impact report

  datatype ImpactReport = ImpactReport(targetPath: Option<Name>, targetModule: Name, directImporters: seq<Name>,
    transitiveImporters: seq<Name>, externallyUsedSymbols: seq<Name>)

  datatype ImpactResult = Report(report: ImpactReport) | TargetNotFound(target: Name)

  /** The importers of `m`: direct ones import it, transitive ones have a longer import path to it only. */
  ghost predicate IsImpact(s: State, m: Name, r: ImpactReport) {
    && r.targetModule == m
    && Increasing(r.directImporters)
    && (forall x :: x in r.directImporters <==> Edge(AllImports(s), x, m))
    && Increasing(r.transitiveImporters)
    && (forall x :: x in r.transitiveImporters <==> ReachPlus(AllImports(s), x, m) && x !in r.directImporters)
    && Increasing(r.externallyUsedSymbols)
    && Elements(r.externallyUsedSymbols) ==
         if m in s.modules && (r.directImporters != [] || r.transitiveImporters != []) then s.modules[m].exports.Keys
         else {}
  }

  /** Non-empty paths can be reversed together with the graph. */
  lemma PlusReversed(g: Digraph, h: Digraph, x: Name, t: Name)
    requires IsReverse(g, h) && ReachPlus(h, t, x)
    ensures ReachPlus(g, x, t)
  {
    var z :| Edge(h, t, z) && Reach(h, z, x);
    ReachReversed(g, h, x, z);
    if x == z {
      ReachRefl(g, t);
    } else {
      ReachDistinctIsPlus(g, x, z);
      var y :| Edge(g, x, y) && Reach(g, y, z);
      ReachStep(g, y, z, t);
    }
  }

  lemma ReverseSymmetric(g: Digraph, h: Digraph)
    requires IsReverse(g, h)
    ensures IsReverse(h, g)
  {
  }

  /** What the worklist from the direct importers has seen at the end. */
  lemma SeenIsPlus(s: State, m: Name, direct: set<Name>, seen: set<Name>, x: Name)
    requires ReverseOk(s) && direct == Importers(s.importedBy, m)
    requires Worklist(s.importedBy, direct, seen, [])
    ensures x in seen <==> ReachPlus(AllImports(s), x, m)
  {
    var g, h := AllImports(s), s.importedBy;
    ImportersAreReverse(s);
    ReverseSymmetric(g, h);
    WorklistEnd(h, direct, seen, x);
    hide Worklist, ReverseOk, IsReverse, Reach;
    if ReachedFrom(h, direct, x) {
      var d :| d in direct && Reach(h, d, x);
      assert Edge(h, m, d);
      PlusReversed(g, h, x, m);
    }
    if ReachPlus(g, x, m) {
      PlusReversed(h, g, m, x);
      var d :| Edge(h, m, d) && Reach(h, d, x);
      assert d in direct;
    }
  }

  method TransitiveImporters(g: Graph, direct: seq<Name>) returns (transitive: seq<Name>, ghost seen: set<Name>)
    requires g.Valid()
    requires Elements(direct) <= g.modules.Keys
    ensures Worklist(g.importedBy, Elements(direct), seen, [])
    ensures Increasing(transitive) && Elements(transitive) == seen - Elements(direct)
  {
    var directSet := Elements(direct);
    var queue, found := direct, directSet;
    var beyond: set<Name> := {};
    StartFrom(g.importedBy, directSet, queue);
    while |queue| > 0
      invariant Worklist(g.importedBy, directSet, found, queue)
      invariant beyond == found - directSet && found <= g.modules.Keys
      decreases g.modules.Keys - found, |queue|
    {
      var curr := queue[0];
      ghost var before := found;
      found, queue, beyond := ExpandTransitive(g, directSet, curr, found, queue, beyond);
      Shrinks(g.modules.Keys, before, found);
    }
    transitive := SortedKeys(beyond);
    seen := found;
  }

  lemma StartFrom(h: Digraph, sources: set<Name>, queue: seq<Name>)
    requires Elements(queue) == sources
    ensures Worklist(h, sources, sources, queue)
  {
    forall x | x in sources
      ensures ReachedFrom(h, sources, x)
    {
      ReachRefl(h, x);
    }
    hide ReachedFrom;
    assert forall x :: x in queue <==> x in Elements(queue);
  }

  method ExpandTransitive(g: Graph, directSet: set<Name>, curr: Name, seen0: set<Name>, queue0: seq<Name>,
                          beyond0: set<Name>)
    returns (seen: set<Name>, queue: seq<Name>, beyond: set<Name>)
    requires g.Valid() && queue0 != [] && curr == queue0[0]
    requires Worklist(g.importedBy, directSet, seen0, queue0)
    requires beyond0 == seen0 - directSet && seen0 <= g.modules.Keys
    ensures Worklist(g.importedBy, directSet, seen, queue)
    ensures beyond == seen - directSet && seen0 <= seen <= g.modules.Keys
    ensures seen == seen0 ==> queue == queue0[1..]
  {
    hide Worklist, Expanding, GraphOk;
    ghost var h := g.importedBy;
    seen, queue, beyond := seen0, queue0[1..], beyond0;
    var rest := Importers(g.importedBy, curr);
    ghost var all := rest;
    ImportersLive(g.Current(), curr);
    Take(h, directSet, seen0, queue0, rest);
    while rest != {}
      invariant rest <= all && seen0 <= seen <= g.modules.Keys && directSet <= seen && beyond == seen - directSet
      invariant Expanding(h, directSet, seen, queue, curr, rest)
      invariant seen == seen0 ==> queue == queue0[1..]
      decreases rest
    {
      SomeElement(rest);
      var next :| next in rest;
      if next in seen {
        Pass(h, directSet, seen, queue, curr, rest, next);
      } else {
        Find(h, directSet, seen, queue, curr, rest, next);
        seen := seen + {next};
        queue := queue + [next];
        if next !in directSet {
          beyond := beyond + {next};
        }
      }
      rest := rest - {next};
    }
    Done(h, directSet, seen, queue, curr);
  }

  method AnalyzeModule(g: Graph, targetModule: Name, targetPath: Option<Name>) returns (report: ImpactReport)
    requires g.Valid()
    ensures IsImpact(g.Current(), targetModule, report) && report.targetPath == targetPath
  {
    ghost var s := g.Current();
    ImportersLive(s, targetModule);
    var importers := Importers(g.importedBy, targetModule);
    var direct := SortedKeys(importers);
    var transitive, seen := TransitiveImporters(g, direct);
    var symbols: seq<Name> := [];
    if targetModule in g.modules && (|direct| > 0 || |transitive| > 0) {
      symbols := SortedKeys(g.modules[targetModule].exports.Keys);
    }
    report := ImpactReport(targetPath, targetModule, direct, transitive, symbols);
    ReportIsImpact(s, targetModule, seen, report);
  }

  lemma ReportIsImpact(s: State, m: Name, seen: set<Name>, r: ImpactReport)
    requires GraphOk(s) && r.targetModule == m
    requires Increasing(r.directImporters) && Elements(r.directImporters) == Importers(s.importedBy, m)
    requires Worklist(s.importedBy, Elements(r.directImporters), seen, [])
    requires Increasing(r.transitiveImporters) && Elements(r.transitiveImporters) == seen - Elements(r.directImporters)
    requires Increasing(r.externallyUsedSymbols)
    requires Elements(r.externallyUsedSymbols) ==
               if m in s.modules && (r.directImporters != [] || r.transitiveImporters != [])
               then s.modules[m].exports.Keys else {}
    ensures IsImpact(s, m, r)
  {
    ImportersAreReverse(s);
    var direct := Elements(r.directImporters);
    forall x
      ensures x in r.directImporters <==> Edge(AllImports(s), x, m)
      ensures x in r.transitiveImporters <==> ReachPlus(AllImports(s), x, m) && x !in r.directImporters
    {
      SeenIsPlus(s, m, direct, seen, x);
      assert x in r.directImporters <==> x in direct;
      assert x in r.transitiveImporters <==> x in Elements(r.transitiveImporters);
      assert x in direct <==> Edge(s.importedBy, m, x);
      assert Edge(AllImports(s), x, m) <==> Edge(s.importedBy, m, x);
    }
  }

  /** A target may be given as a tracked file or as a module name. */
  method AnalyzeImpact(g: Graph, path: Name) returns (r: ImpactResult)
    requires g.Valid()
    ensures path in g.fileToModule ==>
              r.Report? && r.report.targetPath == Some(path) && IsImpact(g.Current(), g.fileToModule[path], r.report)
    ensures path !in g.fileToModule && path in g.modules ==>
              && r.Report? && IsImpact(g.Current(), path, r.report)
              && r.report.targetPath.Some? && r.report.targetPath.value in g.modules[path].files
              && forall f :: f in g.modules[path].files ==> r.report.targetPath.value <= f
    ensures path !in g.fileToModule && path !in g.modules ==> r == TargetNotFound(path)
  {
    if path in g.fileToModule {
      var report := AnalyzeModule(g, g.fileToModule[path], Some(path));
      return Report(report);
    }
    if path !in g.modules {
      return TargetNotFound(path);
    }
    var listed := g.modules[path].files;
    assert listed[0] in Elements(listed);
    var files := SortedKeys(Elements(listed));
    FirstFile(files, Elements(listed));
    var report := AnalyzeModule(g, path, Some(files[0]));
    return Report(report);
  }

  lemma FirstFile(files: seq<Name>, all: set<Name>)
    requires Increasing(files) && Elements(files) == all && all != {}
    ensures files != [] && files[0] in all && forall f :: f in all ==> files[0] <= f
  {
    assert files == [] ==> Elements(files) == {};
    forall f | f in all
      ensures files[0] <= f
    {
      var i :| 0 <= i < |files| && files[i] == f;
    }
  }

  /** Both analyses name the same modules: apart from the target itself, the direct and transitive importers
      are exactly the modules whose files an invalidation collects. */
  lemma ImpactAgreesWithInvalidation(s: State, m: Name, r: ImpactReport, x: Name)
    requires IsImpact(s, m, r) && x != m
    ensures x in r.directImporters || x in r.transitiveImporters <==> DependsOn(s, x, m)
    ensures !(x in r.directImporters && x in r.transitiveImporters)
  {
    if DependsOn(s, x, m) {
      ReachDistinctIsPlus(AllImports(s), x, m);
    }
    if Edge(AllImports(s), x, m) {
      ReachEdge(AllImports(s), x, m);
    }
    if ReachPlus(AllImports(s), x, m) {
      ReachPlusIsReach(AllImports(s), x, m);
    }
  }
}
