/** Depth, fan-in and fan-out of every module. */
module Metrics {
  import opened Digraphs
  import opened Components
  import opened Cycles
  import opened Depth
  import opened ImportGraph
  import opened Peaks

  datatype ModuleMetrics = ModuleMetrics(depth: nat, fanIn: nat, fanOut: nat, importance: real)

  /** The importance of a module; whether its name suggests a public interface is told by `isApi`. */
  function ImportanceScore(fanIn: int, fanOut: int, complexity: int, isApi: bool): real {
    (fanIn * 2) as real + (fanOut * 1) as real + complexity as real * 0.5 + if isApi then 10.0 else 0.0
  }

  /** In halves: an importer weighs four, an import two, a point of complexity one, and the name of a public interface
      twenty. */
  predicate IsImportance(x: ModuleMetrics, peak: int, isApi: bool) {
    x.importance + x.importance == (4 * x.fanIn + 2 * x.fanOut + peak + if isApi then 20 else 0) as real
  }

  /** The highest score among the definitions of a module, zero if none is higher. */
  ghost predicate IsPeak(defs: DefTable, peak: int) {
    && 0 <= peak
    && (forall n, x :: n in defs && PeakIs(defs[n], x) ==> x <= peak)
    && (peak == 0 || exists n :: n in defs && PeakIs(defs[n], peak))
  }

  lemma PeakIsOnly(d: Definition)
    ensures forall x :: PeakIs(d, x) <==> x == PeakScore(d)
  {
    forall x
      ensures PeakIs(d, x) <==> x == PeakScore(d)
    {
      PeakIsScore(d, x);
    }
  }

  method DefinitionsPeak(defs: DefTable) returns (peak: int)
    ensures IsPeak(defs, peak)
  {
    hide PeakIs, PeakScore;
    peak := 0;
    var rest := defs.Keys;
    ghost var all := rest;
    while rest != {}
      invariant rest <= all && 0 <= peak
      invariant forall n, x :: n in all - rest && PeakIs(defs[n], x) ==> x <= peak
      invariant peak == 0 || exists n :: n in all - rest && PeakIs(defs[n], peak)
      decreases rest
    {
      SomeElement(rest);
      var n :| n in rest;
      var score := PeakScore(defs[n]);
      PeakIsOnly(defs[n]);
      ghost var before := rest;
      rest := rest - {n};
      assert all - rest == (all - before) + {n};
      if score > peak {
        peak := score;
      }
    }
  }

  /** What the metrics of module `m` say apart from its depth. */
  ghost predicate CountsOk(s: State, isApi: Name -> bool, m: Name, x: ModuleMetrics)
    requires m in InternalGraph(s)
  {
    var ig := InternalGraph(s);
    && x.fanIn == |InNeighbors(ig, ig.Keys, m)|
    && x.fanOut == |ig[m]|
    && exists peak :: IsPeak(Defs(s.definitions, m), peak) &&
         IsImportance(x, peak, isApi(m))
  }

  /** The nodes of `from` with an edge to `x`. */
  ghost function InNeighbors(g: Digraph, from: set<Name>, x: Name): set<Name> {
    set y | y in from && Edge(g, y, x)
  }

  method BuildAdjacency(g: Graph, moduleNames: seq<Name>) returns (adjacency: map<Name, seq<Name>>)
    requires Elements(moduleNames) == g.modules.Keys
    ensures AdjacencyGraph(adjacency) == InternalGraph(g.Current())
    ensures forall m :: m in adjacency ==> Increasing(adjacency[m])
  {
    ghost var ig := InternalGraph(g.Current());
    adjacency := map[];
    for k := 0 to |moduleNames|
      invariant adjacency.Keys == Elements(moduleNames[..k])
      invariant forall m :: m in adjacency ==> m in ig && Increasing(adjacency[m]) && Elements(adjacency[m]) == ig[m]
    {
      PrefixGrows(moduleNames, k);
      var targets := GetSortedNeighbors(g, moduleNames[k]);
      adjacency := adjacency[moduleNames[k] := targets];
    }
    WholePrefix(moduleNames);
  }

  /** One more source: its targets gain one importer each. */
  lemma OneMoreSource(g: Digraph, done: set<Name>, from: Name, x: Name)
    requires from !in done
    ensures |InNeighbors(g, done + {from}, x)| == |InNeighbors(g, done, x)| + if Edge(g, from, x) then 1 else 0
  {
    if Edge(g, from, x) {
      assert InNeighbors(g, done + {from}, x) == InNeighbors(g, done, x) + {from};
    } else {
      assert InNeighbors(g, done + {from}, x) == InNeighbors(g, done, x);
    }
  }

  lemma NextCount(g: Digraph, done: set<Name>, from: Name, targets: seq<Name>, before: map<Name, nat>,
                  after: map<Name, nat>)
    requires from !in done && after.Keys == before.Keys
    requires forall m :: Edge(g, from, m) <==> m in targets
    requires forall m :: m in before ==> before[m] == |InNeighbors(g, done, m)|
    requires forall m :: m in before ==> after[m] == before[m] + if m in targets then 1 else 0
    ensures forall m :: m in before ==> after[m] == |InNeighbors(g, done + {from}, m)|
  {
    forall m | m in before
      ensures after[m] == |InNeighbors(g, done + {from}, m)|
    {
      OneMoreSource(g, done, from, m);
    }
  }

  lemma NoneYet(g: Digraph)
    ensures forall m :: InNeighbors(g, {}, m) == {}
  {
  }

  method CountFanIn(moduleNames: seq<Name>, adjacency: map<Name, seq<Name>>) returns (fanIn: map<Name, nat>)
    requires Increasing(moduleNames) && Elements(moduleNames) == adjacency.Keys
    requires Closed(AdjacencyGraph(adjacency)) && forall m :: m in adjacency ==> Increasing(adjacency[m])
    ensures fanIn.Keys == adjacency.Keys
    ensures forall m :: m in adjacency ==> fanIn[m] == |InNeighbors(AdjacencyGraph(adjacency), adjacency.Keys, m)|
  {
    hide InNeighbors, Increasing;
    ghost var g := AdjacencyGraph(adjacency);
    fanIn := map m | m in adjacency :: 0;
    NoneYet(g);
    assert Elements(moduleNames[..0]) == {};
    for k := 0 to |moduleNames|
      invariant fanIn.Keys == adjacency.Keys
      invariant forall m :: m in adjacency ==> fanIn[m] == |InNeighbors(g, Elements(moduleNames[..k]), m)|
    {
      var from := moduleNames[k];
      PrefixGrows(moduleNames, k);
      ghost var done, before := Elements(moduleNames[..k]), fanIn;
      assert forall j :: 0 <= j < |adjacency[from]| ==> Edge(g, from, adjacency[from][j]);
      fanIn := CountTargets(adjacency[from], fanIn);
      NextCount(g, done, from, adjacency[from], before, fanIn);
    }
    WholePrefix(moduleNames);
  }

  method ComputeDepths(edges: Digraph, count: nat) returns (depthByComp: map<int, nat>)
    requires Descending(edges)
    ensures forall c :: 0 <= c < count ==> c in depthByComp && IsLongest(edges, c, depthByComp[c])
  {
    var memo := new DepthMemo(edges);
    for comp := 0 to count
      invariant fresh(memo) && memo.Valid() && memo.componentEdges == edges
      invariant forall c :: 0 <= c < comp ==> c in memo.depthByComp
    {
      var _ := memo.ComputeDepth(comp);
    }
    return memo.depthByComp;
  }

  /** The metrics of every module: its depth, how many modules import it, how many it imports, and the importance
      that follows from these and from its most complex definition. */
  method ComputeModuleMetrics(g: Graph, isApi: Name -> bool) returns (metrics: map<Name, ModuleMetrics>)
    ensures metrics.Keys == g.modules.Keys == InternalGraph(g.Current()).Keys
    ensures forall m :: m in metrics ==>
              && IsDepth(InternalGraph(g.Current()), m, metrics[m].depth)
              && CountsOk(g.Current(), isApi, m, metrics[m])
  {
    hide IsCondensation, IsDepth, IsLongest, Closed, InNeighbors, CountsOk;
    ghost var ig := InternalGraph(g.Current());
    var moduleNames := SortedKeys(g.modules.Keys);
    var adjacency := BuildAdjacency(g, moduleNames);
    assert adjacency.Keys == ig.Keys;
    InternalClosed(g.Current());
    var fanIn := CountFanIn(moduleNames, adjacency);
    var componentOf, components := StronglyConnectedComponents(moduleNames, adjacency);
    var edges := ComponentEdges(moduleNames, adjacency, componentOf);
    CondensationDescends(ig, componentOf, edges);
    var depthByComp := ComputeDepths(edges, |components|);
    forall m | m in ig
      ensures componentOf[m] < |components| && IsDepth(ig, m, depthByComp[componentOf[m]])
      ensures |adjacency[m]| == |ig[m]|
    {
      assert componentOf[m] < |components|;
      LongestIsDepth(ig, componentOf, components, edges, m, depthByComp[componentOf[m]]);
      SizeOfDistinct(adjacency[m]);
    }
    hide AreComponents;
    metrics := Assemble(g, isApi, moduleNames, componentOf, depthByComp, fanIn, adjacency);
  }

  lemma ScoreIsImportance(depth: nat, fanIn: nat, fanOut: nat, peak: int, isApi: bool)
    ensures IsImportance(ModuleMetrics(depth, fanIn, fanOut, ImportanceScore(fanIn, fanOut, peak, isApi)), peak, isApi)
  {
  }

  method Assemble(g: Graph, isApi: Name -> bool, moduleNames: seq<Name>, componentOf: map<Name, nat>,
                  depthByComp: map<int, nat>, fanIn: map<Name, nat>, adjacency: map<Name, seq<Name>>)
    returns (metrics: map<Name, ModuleMetrics>)
    requires forall m :: m in moduleNames ==>
               && m in componentOf && componentOf[m] in depthByComp && m in fanIn && m in adjacency
               && m in InternalGraph(g.Current())
               && fanIn[m] == |InNeighbors(InternalGraph(g.Current()), InternalGraph(g.Current()).Keys, m)|
               && |adjacency[m]| == |InternalGraph(g.Current())[m]|
    ensures metrics.Keys == Elements(moduleNames)
    ensures forall m :: m in metrics ==>
              && metrics[m].depth == depthByComp[componentOf[m]]
              && CountsOk(g.Current(), isApi, m, metrics[m])
  {
    hide InNeighbors, IsPeak, IsImportance, ImportanceScore, InternalGraph;
    metrics := map[];
    for k := 0 to |moduleNames|
      invariant metrics.Keys == Elements(moduleNames[..k]) && metrics.Keys <= Elements(moduleNames)
      invariant forall m :: m in metrics ==>
                  && metrics[m].depth == depthByComp[componentOf[m]]
                  && CountsOk(g.Current(), isApi, m, metrics[m])
    {
      var name := moduleNames[k];
      PrefixGrows(moduleNames, k);
      var fi, fo := fanIn[name], |adjacency[name]|;
      var peak := DefinitionsPeak(Defs(g.definitions, name));
      var score := ImportanceScore(fi, fo, peak, isApi(name));
      ScoreIsImportance(depthByComp[componentOf[name]], fi, fo, peak, isApi(name));
      metrics := metrics[name := ModuleMetrics(depthByComp[componentOf[name]], fi, fo, score)];
    }
    WholePrefix(moduleNames);
  }
}
