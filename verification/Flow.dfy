/** The modules and imports within a bounded number of hops of a set of entry modules. */
module Flow {
  import opened Collections
  import opened Digraphs
  import opened BreadthFirst
  import opened Cycles
  import opened ImportGraph

  datatype FlowNode = FlowNode(name: Name, depth: nat, entry: bool)

  datatype FlowError = DepthTooSmall | NoModules

  datatype FlowResult = FlowData(nodes: seq<FlowNode>, edges: set<(Name, Name)>) | FlowFailed(error: FlowError)

  /** The modules that no module of the graph imports. */
  ghost function Roots(g: Digraph): set<Name> {
    set m | m in g && forall x :: !Edge(g, x, m)
  }

  /** The entry modules: those that were asked for, else the roots, else the first module. */
  ghost predicate IsEntrySet(g: Digraph, resolved: set<Name>, starts: set<Name>) {
    if resolved != {} then starts == resolved
    else if Roots(g) != {} then starts == Roots(g)
    else exists m :: starts == {m} && m in g && forall x :: x in g ==> m <= x
  }

  method DefaultEntryModules(g: Graph) returns (roots: set<Name>)
    ensures roots == Roots(InternalGraph(g.Current()))
  {
    ghost var ig := InternalGraph(g.Current());
    var fanIn: map<Name, nat> := map m | m in g.modules :: 0;
    var froms := g.modules.Keys;
    ghost var all := froms;
    while froms != {}
      invariant froms <= all && fanIn.Keys == all
      invariant forall y :: y in all ==> (fanIn[y] > 0 <==> exists x :: x in all - froms && Edge(ig, x, y))
      decreases froms
    {
      SomeElement(froms);
      var from :| from in froms;
      var targets := GetSortedNeighbors(g, from);
      ghost var before, done := fanIn, all - froms;
      assert forall t :: t in targets <==> Edge(ig, from, t);
      assert forall j :: 0 <= j < |targets| ==> Edge(ig, from, targets[j]);
      fanIn := CountTargets(targets, fanIn);
      froms := froms - {from};
      assert all - froms == done + {from};
      forall y | y in all
        ensures fanIn[y] > 0 <==> exists x :: x in done + {from} && Edge(ig, x, y)
      {
        assert before[y] > 0 <==> exists x :: x in done && Edge(ig, x, y);
      }
    }
    roots := set m | m in fanIn && fanIn[m] == 0;
    assert forall x, y :: Edge(ig, x, y) ==> x in all;
  }

  /** The entry set as the code chooses it, given the modules that the requested entry points resolve to. */
  method EntryModules(g: Graph, resolved: set<Name>, moduleNames: seq<Name>) returns (starts: set<Name>)
    requires resolved <= g.modules.Keys && g.modules != map[]
    requires Increasing(moduleNames) && Elements(moduleNames) == g.modules.Keys
    ensures IsEntrySet(InternalGraph(g.Current()), resolved, starts)
    ensures starts <= g.modules.Keys
  {
    starts := resolved;
    if starts == {} {
      starts := DefaultEntryModules(g);
    }
    if starts == {} {
      FirstIsLeast(moduleNames, g.modules.Keys);
      starts := {moduleNames[0]};
    }
  }

  lemma FirstIsLeast(names: seq<Name>, keys: set<Name>)
    requires Increasing(names) && Elements(names) == keys && keys != {}
    ensures names != [] && names[0] in keys && forall x :: x in keys ==> names[0] <= x
  {
    assert names == [] ==> Elements(names) == {};
    forall x | x in keys
      ensures names[0] <= x
    {
      var i :| 0 <= i < |names| && names[i] == x;
    }
  }

  /** The edges out of the found modules that were expanded. */
  ghost predicate EdgesAre(g: Digraph, dist: map<Name, nat>, limit: nat, queue: seq<Name>, edges: set<(Name, Name)>) {
    forall x, y :: (x, y) in edges <==> x in dist && x !in queue && dist[x] < limit && Edge(g, x, y)
  }

  /** The same while the targets of `current` are looked at; those in `done` have been. */
  ghost predicate EdgesWithin(g: Digraph, dist: map<Name, nat>, limit: nat, queue: seq<Name>, edges: set<(Name, Name)>,
                              current: Name, done: set<Name>) {
    && Distinct(queue) && current !in queue
    && (forall x :: x in queue ==> x in dist)
    && (forall x, y :: (x, y) in edges <==>
          (x in dist && x !in queue && x != current && dist[x] < limit && Edge(g, x, y)) || (x == current && y in done))
  }

  lemma EdgesDequeue(g: Digraph, starts: set<Name>, dist: map<Name, nat>, limit: nat, queue: seq<Name>,
                     edges: set<(Name, Name)>)
    requires Between(g, starts, Some(limit), queue, dist)
    requires EdgesAre(g, dist, limit, queue, edges) && queue != [] && Distinct(queue)
    ensures EdgesWithin(g, dist, limit, queue[1..], edges, queue[0], {})
  {
    assert queue == [queue[0]] + queue[1..];
    hide QueueOk, Expanded, Found;
    assert queue[0] !in queue[1..];
  }

  lemma EdgesNew(g: Digraph, dist: map<Name, nat>, limit: nat, queue: seq<Name>, edges: set<(Name, Name)>,
                 current: Name, done: set<Name>, y: Name, d: nat)
    requires EdgesWithin(g, dist, limit, queue, edges, current, done) && y !in dist && current in dist
    ensures EdgesWithin(g, dist[y := d], limit, queue + [y], edges + {(current, y)}, current, done + {y})
  {
  }

  lemma EdgesSeen(g: Digraph, dist: map<Name, nat>, limit: nat, queue: seq<Name>, edges: set<(Name, Name)>,
                  current: Name, done: set<Name>, y: Name)
    requires EdgesWithin(g, dist, limit, queue, edges, current, done)
    ensures EdgesWithin(g, dist, limit, queue, edges + {(current, y)}, current, done + {y})
  {
  }

  lemma EdgesFinish(g: Digraph, dist: map<Name, nat>, limit: nat, queue: seq<Name>, edges: set<(Name, Name)>,
                    current: Name, done: set<Name>)
    requires EdgesWithin(g, dist, limit, queue, edges, current, done)
    requires current in dist && dist[current] < limit && forall y :: Edge(g, current, y) <==> y in done
    ensures EdgesAre(g, dist, limit, queue, edges) && Distinct(queue)
  {
  }

  /** The bounded search: its result is exact whatever the entry set. */
  method Search(g: Graph, starts: set<Name>, maxDepth: nat)
    returns (depthByModule: map<Name, nat>, edges: set<(Name, Name)>)
    requires starts <= g.modules.Keys
    ensures depthByModule.Keys <= g.modules.Keys
    ensures Between(InternalGraph(g.Current()), starts, Some(maxDepth), [], depthByModule)
    ensures EdgesAre(InternalGraph(g.Current()), depthByModule, maxDepth, [], edges)
  {
    hide Between, Increasing, EdgesAre, Distinct;
    ghost var ig := InternalGraph(g.Current());
    InternalClosed(g.Current());
    var queue := SortedKeys(starts);
    depthByModule := map s | s in starts :: 0;
    edges := {};
    Start(ig, starts, Some(maxDepth), queue, depthByModule);
    NoEdgesYet(ig, maxDepth, queue, depthByModule);
    while |queue| > 0
      invariant depthByModule.Keys <= ig.Keys && Distinct(queue)
      invariant Between(ig, starts, Some(maxDepth), queue, depthByModule)
      invariant EdgesAre(ig, depthByModule, maxDepth, queue, edges)
      decreases ig.Keys - depthByModule.Keys, |queue|
    {
      var current := queue[0];
      ghost var before := depthByModule;
      Dequeue(ig, starts, Some(maxDepth), queue, depthByModule);
      if depthByModule[current] >= maxDepth {
        DropAtLimit(ig, starts, Some(maxDepth), queue, depthByModule);
        DropEdges(ig, depthByModule, maxDepth, queue, edges);
        queue := queue[1..];
      } else {
        queue, depthByModule, edges := ExpandTargets(g, starts, maxDepth, queue, depthByModule, edges);
        Shrinks(ig.Keys, before.Keys, depthByModule.Keys);
      }
    }
  }

  lemma NoEdgesYet(g: Digraph, limit: nat, queue: seq<Name>, dist: map<Name, nat>)
    requires Increasing(queue) && Elements(queue) == dist.Keys
    ensures EdgesAre(g, dist, limit, queue, {}) && Distinct(queue)
  {
    assert forall x :: x in dist ==> x in Elements(queue);
  }

  lemma DropEdges(g: Digraph, dist: map<Name, nat>, limit: nat, queue: seq<Name>, edges: set<(Name, Name)>)
    requires EdgesAre(g, dist, limit, queue, edges) && queue != [] && queue[0] in dist && dist[queue[0]] >= limit
    requires Distinct(queue)
    ensures EdgesAre(g, dist, limit, queue[1..], edges) && Distinct(queue[1..])
  {
    assert queue == [queue[0]] + queue[1..];
  }

  method ExpandTargets(g: Graph, ghost starts: set<Name>, maxDepth: nat, queue0: seq<Name>, depth0: map<Name, nat>,
                       edges0: set<(Name, Name)>)
    returns (queue: seq<Name>, depthByModule: map<Name, nat>, edges: set<(Name, Name)>)
    requires queue0 != [] && Distinct(queue0) && depth0.Keys <= g.modules.Keys
    requires Between(InternalGraph(g.Current()), starts, Some(maxDepth), queue0, depth0)
    requires queue0[0] in depth0 && depth0[queue0[0]] < maxDepth
    requires EdgesAre(InternalGraph(g.Current()), depth0, maxDepth, queue0, edges0)
    ensures depth0.Keys <= depthByModule.Keys <= g.modules.Keys && Distinct(queue)
    ensures depthByModule.Keys == depth0.Keys ==> queue == queue0[1..]
    ensures Between(InternalGraph(g.Current()), starts, Some(maxDepth), queue, depthByModule)
    ensures EdgesAre(InternalGraph(g.Current()), depthByModule, maxDepth, queue, edges)
  {
    ghost var ig, limit := InternalGraph(g.Current()), Some(maxDepth);
    InternalClosed(g.Current());
    var current := queue0[0];
    var currentDepth := depth0[current];
    Dequeue(ig, starts, limit, queue0, depth0);
    EdgesDequeue(ig, starts, depth0, maxDepth, queue0, edges0);
    queue, depthByModule, edges := queue0[1..], depth0, edges0;
    var targets := GetSortedNeighbors(g, current);
    assert forall y :: Edge(ig, current, y) <==> y in Elements(targets);
    hide Between, Within, Increasing, EdgesAre, EdgesWithin, Distinct;
    assert Elements(targets[..0]) == {};
    for k := 0 to |targets|
      invariant depth0.Keys <= depthByModule.Keys <= ig.Keys
      invariant depthByModule.Keys == depth0.Keys ==> queue == queue0[1..]
      invariant current in depthByModule && depthByModule[current] == currentDepth
      invariant Within(ig, starts, limit, queue, depthByModule, current, Elements(targets[..k]))
      invariant EdgesWithin(ig, depthByModule, maxDepth, queue, edges, current, Elements(targets[..k]))
    {
      var target := targets[k];
      PrefixGrows(targets, k);
      assert Edge(ig, current, target);
      var nextDepth := currentDepth + 1;
      if target in depthByModule {
        EdgesSeen(ig, depthByModule, maxDepth, queue, edges, current, Elements(targets[..k]), target);
        Revisit(ig, starts, limit, queue, depthByModule, current, Elements(targets[..k]), target);
      } else {
        EdgesNew(ig, depthByModule, maxDepth, queue, edges, current, Elements(targets[..k]), target, nextDepth);
        Discover(ig, starts, limit, queue, depthByModule, current, Elements(targets[..k]), target);
      }
      edges := edges + {(current, target)};
      if target !in depthByModule || nextDepth < depthByModule[target] {
        depthByModule := depthByModule[target := nextDepth];
        queue := queue + [target];
      }
    }
    WholePrefix(targets);
    Finish(ig, starts, limit, queue, depthByModule, current, Elements(targets));
    EdgesFinish(ig, depthByModule, maxDepth, queue, edges, current, Elements(targets));
  }

  /** What the flow diagram shows for the entry set `starts`: the modules within `maxDepth` hops, each at
      its distance, and the imports of those strictly inside. */
  ghost predicate IsFlow(g: Digraph, starts: set<Name>, maxDepth: nat, nodes: seq<FlowNode>, edges: set<(Name, Name)>) {
    && (forall i, j :: 0 <= i < j < |nodes| ==> nodes[i].name < nodes[j].name)
    && (forall i :: 0 <= i < |nodes| ==>
          && nodes[i].depth <= maxDepth && IsDistance(g, starts, nodes[i].name, nodes[i].depth)
          && (nodes[i].entry <==> nodes[i].name in starts))
    && (forall x, d: nat :: d <= maxDepth && IsDistance(g, starts, x, d) ==> FlowNode(x, d, x in starts) in nodes)
    && (forall x, y :: (x, y) in edges <==>
          Edge(g, x, y) && exists d: nat :: d < maxDepth && IsDistance(g, starts, x, d))
  }

  lemma DistanceUnique(g: Digraph, starts: set<Name>, x: Name, d: nat, e: nat)
    requires IsDistance(g, starts, x, d) && IsDistance(g, starts, x, e)
    ensures d == e
  {
  }

  lemma SearchMeansFlow(g: Digraph, starts: set<Name>, maxDepth: nat, dist: map<Name, nat>, edges: set<(Name, Name)>,
                        names: seq<Name>, nodes: seq<FlowNode>)
    requires Between(g, starts, Some(maxDepth), [], dist) && EdgesAre(g, dist, maxDepth, [], edges)
    requires Increasing(names) && Elements(names) == dist.Keys && |nodes| == |names|
    requires forall i :: 0 <= i < |names| ==>
               names[i] in dist && nodes[i] == FlowNode(names[i], dist[names[i]], names[i] in starts)
    ensures IsFlow(g, starts, maxDepth, nodes, edges)
  {
    forall x
      ensures x in dist ==> IsDistance(g, starts, x, dist[x]) && dist[x] <= maxDepth
      ensures x !in dist ==> forall e: nat :: HasWalk(g, starts, x, e) ==> maxDepth < e
    {
      BoundedEnd(g, starts, maxDepth, dist, x);
    }
    forall x, d: nat | d <= maxDepth && IsDistance(g, starts, x, d)
      ensures x in dist && dist[x] == d && FlowNode(x, d, x in starts) in nodes
    {
      assert x in dist;
      DistanceUnique(g, starts, x, d, dist[x]);
      assert x in Elements(names);
      var i :| 0 <= i < |names| && names[i] == x;
      assert nodes[i] == FlowNode(x, d, x in starts);
    }
    hide HasWalk, Between;
    forall x, y
      ensures (x, y) in edges <==> Edge(g, x, y) && exists d: nat :: d < maxDepth && IsDistance(g, starts, x, d)
    {
      if (x, y) in edges {
        assert IsDistance(g, starts, x, dist[x]);
      }
    }
  }

  method BuildFlow(g: Graph, resolved: set<Name>, maxDepth: int) returns (r: FlowResult, ghost starts: set<Name>)
    requires resolved <= g.modules.Keys
    ensures r.FlowFailed? ==> r.error == if maxDepth < 1 then DepthTooSmall else NoModules
    ensures r.FlowFailed? <==> maxDepth < 1 || g.modules == map[]
    ensures r.FlowData? ==>
              && IsEntrySet(InternalGraph(g.Current()), resolved, starts)
              && IsFlow(InternalGraph(g.Current()), starts, maxDepth, r.nodes, r.edges)
  {
    hide IsEntrySet, IsFlow, Between, EdgesAre;
    starts := {};
    if maxDepth < 1 {
      return FlowFailed(DepthTooSmall), starts;
    }
    var moduleNames := SortedKeys(g.modules.Keys);
    if |moduleNames| == 0 {
      assert g.modules.Keys == {};
      return FlowFailed(NoModules), starts;
    }
    assert moduleNames[0] in Elements(moduleNames);
    var startSet := EntryModules(g, resolved, moduleNames);
    starts := startSet;
    var depthByModule, edges := Search(g, startSet, maxDepth);
    var names := SortedKeys(depthByModule.Keys);
    assert forall i :: 0 <= i < |names| ==> names[i] in Elements(names);
    var nodes: seq<FlowNode> := [];
    for i := 0 to |names|
      invariant |nodes| == i
      invariant forall k :: 0 <= k < i ==> nodes[k] == FlowNode(names[k], depthByModule[names[k]], names[k] in startSet)
    {
      nodes := nodes + [FlowNode(names[i], depthByModule[names[i]], names[i] in startSet)];
    }
    SearchMeansFlow(InternalGraph(g.Current()), startSet, maxDepth, depthByModule, edges, names, nodes);
    r := FlowData(nodes, edges);
  }
}
