/** Longest paths in the condensation, as the memoised `computeDepth` finds them. */
module Depth {
  import opened Digraphs
  import opened Components

  /** The longest walk from `x` takes `d` edges. */
  ghost predicate IsLongest(g: Digraph, x: Name, d: nat) {
    && (exists p :: IsWalk(g, p) && p[0] == x && |p| == d + 1)
    && (forall p :: IsWalk(g, p) && p[0] == x ==> |p| <= d + 1)
  }

  ghost predicate Descending(g: Digraph) {
    forall a, b :: Edge(g, a, b) ==> 0 <= b < a
  }

  /** `edges` joins two different components exactly when some import joins their members. */
  ghost predicate IsCondensation(g: Digraph, componentOf: map<Name, nat>, edges: Digraph) {
    forall a, b :: Edge(edges, a, b) <==> a != b && ImportJoins(g, componentOf, a, b)
  }

  ghost predicate ImportJoins(g: Digraph, componentOf: map<Name, nat>, a: int, b: int) {
    exists x, y :: x in componentOf && y in componentOf && componentOf[x] == a && componentOf[y] == b && Edge(g, x, y)
  }

  lemma CondensationDescends(g: Digraph, componentOf: map<Name, nat>, edges: Digraph)
    requires EdgesDescend(g, componentOf) && IsCondensation(g, componentOf, edges)
    ensures Descending(edges)
  {
    forall a, b | Edge(edges, a, b)
      ensures 0 <= b < a
    {
      assert ImportJoins(g, componentOf, a, b);
    }
  }

  method ComponentEdges(nodes: seq<Name>, adjacency: map<Name, seq<Name>>, componentOf: map<Name, nat>)
    returns (edges: Digraph)
    requires Elements(nodes) == adjacency.Keys == componentOf.Keys && Closed(AdjacencyGraph(adjacency))
    ensures IsCondensation(AdjacencyGraph(adjacency), componentOf, edges)
  {
    ghost var g := AdjacencyGraph(adjacency);
    edges := map[];
    ghost var done: set<(Name, Name)> := {};
    for i := 0 to |nodes|
      invariant forall a, b :: Edge(edges, a, b) <==> a != b && JoinedBy(done, componentOf, a, b)
      invariant forall e :: e in done ==> Edge(g, e.0, e.1)
      invariant forall k, y :: 0 <= k < i && Edge(g, nodes[k], y) ==> (nodes[k], y) in done
    {
      var from := nodes[i];
      assert from in Elements(nodes);
      var targets := adjacency[from];
      for j := 0 to |targets|
        invariant forall a, b :: Edge(edges, a, b) <==> a != b && JoinedBy(done, componentOf, a, b)
        invariant forall e :: e in done ==> Edge(g, e.0, e.1)
        invariant forall k, y :: 0 <= k < i && Edge(g, nodes[k], y) ==> (nodes[k], y) in done
        invariant forall k :: 0 <= k < j ==> (from, targets[k]) in done
      {
        var to := targets[j];
        assert Edge(g, from, to);
        ghost var before, edgesBefore := done, edges;
        done := done + {(from, to)};
        var fromComp, toComp := componentOf[from], componentOf[to];
        JoinedByGrows(before, componentOf, from, to);
        if fromComp != toComp {
          if fromComp !in edges {
            edges := edges[fromComp := {}];
          }
          edges := edges[fromComp := edges[fromComp] + {toComp}];
        }
        assert forall a, b :: Edge(edges, a, b) <==>
            Edge(edgesBefore, a, b) || (fromComp != toComp && a == fromComp && b == toComp);
      }
    }
    forall a, b
      ensures JoinedBy(done, componentOf, a, b) <==> ImportJoins(g, componentOf, a, b)
    {
      AllJoined(g, nodes, componentOf, done, a, b);
    }
  }

  ghost predicate JoinedBy(done: set<(Name, Name)>, componentOf: map<Name, nat>, a: int, b: int) {
    exists e :: e in done && e.0 in componentOf && e.1 in componentOf && componentOf[e.0] == a && componentOf[e.1] == b
  }

  lemma JoinedByGrows(done: set<(Name, Name)>, componentOf: map<Name, nat>, x: Name, y: Name)
    requires x in componentOf && y in componentOf
    ensures forall a, b :: JoinedBy(done + {(x, y)}, componentOf, a, b) <==>
              JoinedBy(done, componentOf, a, b) || (a == componentOf[x] && b == componentOf[y])
  {
    var more := done + {(x, y)};
    assert (x, y) in more;
    forall a, b | JoinedBy(done, componentOf, a, b)
      ensures JoinedBy(more, componentOf, a, b)
    {
      var e :| e in done && e.0 in componentOf && e.1 in componentOf && componentOf[e.0] == a && componentOf[e.1] == b;
      assert e in more;
    }
  }

  lemma AllJoined(g: Digraph, nodes: seq<Name>, componentOf: map<Name, nat>, done: set<(Name, Name)>, a: int, b: int)
    requires Elements(nodes) == g.Keys
    requires forall e :: e in done ==> Edge(g, e.0, e.1)
    requires forall k, y :: 0 <= k < |nodes| && Edge(g, nodes[k], y) ==> (nodes[k], y) in done
    ensures JoinedBy(done, componentOf, a, b) <==> ImportJoins(g, componentOf, a, b)
  {
    if ImportJoins(g, componentOf, a, b) {
      var x, y :| x in componentOf && y in componentOf && componentOf[x] == a && componentOf[y] == b && Edge(g, x, y);
      assert x in Elements(nodes);
      assert (x, y) in done;
    }
  }

  // ----- the memoised recursion

  /** The longest walk from `x` is one edge longer than the longest from the best successor. */
  lemma LongestFromSuccessors(g: Digraph, x: Name, d: nat)
    requires d == 0 || exists y, e: nat :: Edge(g, x, y) && IsLongest(g, y, e) && d == e + 1
    requires forall y :: Edge(g, x, y) ==> exists e: nat :: IsLongest(g, y, e) && e + 1 <= d
    ensures IsLongest(g, x, d)
  {
    if d == 0 {
      assert IsWalk(g, [x]);
    } else {
      var y, e: nat :| Edge(g, x, y) && IsLongest(g, y, e) && d == e + 1;
      var q :| IsWalk(g, q) && q[0] == y && |q| == e + 1;
      var p := [x] + q;
      forall i, j | 0 <= i < |p| && j == i + 1 && j < |p|
        ensures Edge(g, p[i], p[j])
      {
        if i > 0 {
          assert p[i] == q[i - 1] && p[j] == q[j - 1];
        }
      }
      assert IsWalk(g, p);
    }
    forall p | IsWalk(g, p) && p[0] == x
      ensures |p| <= d + 1
    {
      if |p| > 1 {
        assert Edge(g, p[0], p[1]);
        var e: nat :| IsLongest(g, p[1], e) && e + 1 <= d;
        WalkSlice(g, p, 1, |p|);
        assert |p[1..]| <= e + 1;
      }
    }
  }

  class DepthMemo {
    const componentEdges: Digraph
    var depthByComp: map<int, nat>

    ghost predicate Valid()
      reads this
    {
      && Descending(componentEdges)
      && forall c :: c in depthByComp ==> IsLongest(componentEdges, c, depthByComp[c])
    }

    constructor (componentEdges: Digraph)
      requires Descending(componentEdges)
      ensures Valid() && this.componentEdges == componentEdges
    {
      this.componentEdges := componentEdges;
      depthByComp := map[];
    }

    method ComputeDepth(comp: int) returns (depth: nat)
      requires Valid() && 0 <= comp
      modifies this
      ensures Valid() && IsLongest(componentEdges, comp, depth)
      ensures old(depthByComp).Keys + {comp} <= depthByComp.Keys
      ensures depthByComp[comp] == depth
      ensures forall c :: c in old(depthByComp) ==> depthByComp[c] == old(depthByComp)[c]
      decreases comp
    {
      if comp in depthByComp {
        return depthByComp[comp];
      }
      var maxDepth := 0;
      var rest := if comp in componentEdges then componentEdges[comp] else {};
      ghost var all := rest;
      while rest != {}
        invariant Valid() && rest <= all && old(depthByComp).Keys <= depthByComp.Keys
        invariant maxDepth == 0 ||
                  (exists y, e: nat ::
                     Edge(componentEdges, comp, y) && IsLongest(componentEdges, y, e) && maxDepth == e + 1)
        invariant forall c :: c in old(depthByComp) ==> depthByComp[c] == old(depthByComp)[c]
        invariant forall y :: y in all - rest ==> y in depthByComp && depthByComp[y] + 1 <= maxDepth
        decreases rest
      {
        SomeElement(rest);
        var next :| next in rest;
        assert Edge(componentEdges, comp, next);
        var candidate := ComputeDepth(next);
        assert IsLongest(componentEdges, next, candidate);
        candidate := candidate + 1;
        if candidate > maxDepth {
          maxDepth := candidate;
        }
        rest := rest - {next};
      }
      forall y | Edge(componentEdges, comp, y)
        ensures exists e: nat :: IsLongest(componentEdges, y, e) && e + 1 <= maxDepth
      {
        assert y in all - rest;
        assert IsLongest(componentEdges, y, depthByComp[y]);
      }
      LongestFromSuccessors(componentEdges, comp, maxDepth);
      depthByComp := depthByComp[comp := maxDepth];
      return maxDepth;
    }
  }

  // ----- depth in terms of modules

  function ComponentAt(componentOf: map<Name, nat>, x: Name): int {
    if x in componentOf then componentOf[x] else -1
  }

  /** How many steps of the walk `p` pass from one component to another. */
  ghost function Crossings(componentOf: map<Name, nat>, p: seq<Name>): nat {
    if |p| <= 1 then 0
    else
      Crossings(componentOf, p[..|p| - 1]) +
      if ComponentAt(componentOf, p[|p| - 2]) != ComponentAt(componentOf, p[|p| - 1]) then 1 else 0
  }

  lemma {:induction false} CrossingsGrow(componentOf: map<Name, nat>, p: seq<Name>, q: seq<Name>)
    ensures Crossings(componentOf, p) <= Crossings(componentOf, p + q)
    decreases |q|
  {
    if q == [] {
      assert p + q == p;
    } else {
      CrossingsGrow(componentOf, p, q[..|q| - 1]);
      assert (p + q)[..|p + q| - 1] == p + q[..|q| - 1];
    }
  }

  /** A walk of modules follows a walk of components with one edge for each crossing. */
  lemma {:induction false} ProjectWalk(g: Digraph, componentOf: map<Name, nat>, edges: Digraph, p: seq<Name>)
    returns (q: seq<Name>)
    requires IsCondensation(g, componentOf, edges) && EdgesDescend(g, componentOf)
    requires IsWalk(g, p) && p[0] in componentOf
    ensures p[|p| - 1] in componentOf
    ensures WalkFromTo(edges, componentOf[p[0]], q, componentOf[p[|p| - 1]])
    ensures |q| == Crossings(componentOf, p) + 1
    decreases |p|
  {
    if |p| == 1 {
      return [componentOf[p[0]]];
    }
    var prefix := p[..|p| - 1];
    WalkSlice(g, p, 0, |p| - 1);
    var q' := ProjectWalk(g, componentOf, edges, prefix);
    var x, y := p[|p| - 2], p[|p| - 1];
    assert Edge(g, x, y);
    if componentOf[x] == componentOf[y] {
      return q';
    }
    assert ImportJoins(g, componentOf, componentOf[x], componentOf[y]);
    WalkAppend(edges, componentOf[p[0]], q', componentOf[x], componentOf[y]);
    return q' + [componentOf[y]];
  }

  /** A walk of components is followed by a walk of modules from any member of its first. */
  lemma {:induction false} LiftWalk(g: Digraph, componentOf: map<Name, nat>, edges: Digraph, q: seq<Name>, x: Name)
    returns (p: seq<Name>)
    requires IsCondensation(g, componentOf, edges) && MutualReachability(g, componentOf)
    requires IsWalk(edges, q) && x in componentOf && componentOf[x] == q[0]
    ensures IsWalk(g, p) && p[0] == x && ComponentAt(componentOf, p[|p| - 1]) == q[|q| - 1]
    ensures Crossings(componentOf, p) >= |q| - 1 && p[|p| - 1] in componentOf
    decreases |q|
  {
    if |q| == 1 {
      return [x];
    }
    var prefix := q[..|q| - 1];
    WalkSlice(edges, q, 0, |q| - 1);
    var p' := LiftWalk(g, componentOf, edges, prefix, x);
    var a, b, z := q[|q| - 2], q[|q| - 1], p'[|p'| - 1];
    assert Edge(edges, a, b);
    assert ImportJoins(g, componentOf, a, b);
    var u, w :| u in componentOf && w in componentOf && componentOf[u] == a && componentOf[w] == b && Edge(g, u, w);
    var r :| WalkFromTo(g, z, r, u);
    WalkConcat(g, x, p', z, r, u);
    CrossingsGrow(componentOf, p', r[1..]);
    var along := p' + r[1..];
    WalkAppend(g, x, along, u, w);
    p := along + [w];
    assert p[..|p| - 1] == along;
  }

  /** How many steps of the walk `p` cannot be undone: the target does not reach the source. */
  ghost function OneWaySteps(g: Digraph, p: seq<Name>): nat {
    if |p| <= 1 then 0
    else OneWaySteps(g, p[..|p| - 1]) + if Reach(g, p[|p| - 1], p[|p| - 2]) then 0 else 1
  }

  /** The largest number of one-way steps on a walk of imports from `x`. */
  ghost predicate IsDepth(g: Digraph, x: Name, d: nat) {
    && (exists p :: IsWalk(g, p) && p[0] == x && OneWaySteps(g, p) == d)
    && (forall p :: IsWalk(g, p) && p[0] == x ==> OneWaySteps(g, p) <= d)
  }

  /** A step of a walk crosses into another component exactly when it is one-way. */
  lemma {:induction false} CrossingsAreOneWay(g: Digraph, componentOf: map<Name, nat>, p: seq<Name>)
    requires MutualReachability(g, componentOf) && EdgesDescend(g, componentOf)
    requires IsWalk(g, p) && p[0] in componentOf
    ensures Crossings(componentOf, p) == OneWaySteps(g, p) && p[|p| - 1] in componentOf
    decreases |p|
  {
    if |p| > 1 {
      WalkSlice(g, p, 0, |p| - 1);
      CrossingsAreOneWay(g, componentOf, p[..|p| - 1]);
      var x, y := p[|p| - 2], p[|p| - 1];
      assert Edge(g, x, y);
      ReachEdge(g, x, y);
    }
  }

  /** The longest path in the condensation, from the component of a module, is the module's depth. */
  lemma LongestIsDepth(g: Digraph, componentOf: map<Name, nat>, components: seq<seq<Name>>, edges: Digraph,
                       x: Name, d: nat)
    requires AreComponents(g, componentOf, components) && IsCondensation(g, componentOf, edges)
    requires x in g && IsLongest(edges, componentOf[x], d)
    ensures IsDepth(g, x, d)
  {
    forall p | IsWalk(g, p) && p[0] == x
      ensures OneWaySteps(g, p) <= d
    {
      var q := ProjectWalk(g, componentOf, edges, p);
      CrossingsAreOneWay(g, componentOf, p);
    }
    var q :| IsWalk(edges, q) && q[0] == componentOf[x] && |q| == d + 1;
    var p := LiftWalk(g, componentOf, edges, q, x);
    CrossingsAreOneWay(g, componentOf, p);
    assert OneWaySteps(g, p) == d;
  }
}
