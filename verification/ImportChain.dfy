/** The shortest chain of imports between two modules; of several, the first in dictionary order. */
module ImportChain {
  import opened Collections
  import opened Digraphs
  import opened BreadthFirst
  import opened Cycles
  import opened ImportGraph

  // ----- dictionary order of chains

  /** `a` comes before `b`: where they first differ it has the smaller name. */
  ghost predicate Sooner(a: seq<Name>, b: seq<Name>) {
    exists k :: 0 <= k < |a| && k < |b| && a[..k] == b[..k] && a[k] < b[k]
  }

  lemma SoonerTransitive(a: seq<Name>, b: seq<Name>, c: seq<Name>)
    requires Sooner(a, b) && Sooner(b, c)
    ensures Sooner(a, c)
  {
    var i :| 0 <= i < |a| && i < |b| && a[..i] == b[..i] && a[i] < b[i];
    var j :| 0 <= j < |b| && j < |c| && b[..j] == c[..j] && b[j] < c[j];
    var k := if i < j then i else j;
    assert a[..k] == a[..i][..k] && b[..k] == b[..i][..k] == b[..j][..k] && c[..k] == c[..j][..k];
    if i < j {
      assert b[i] == b[..j][i] == c[..j][i] == c[i];
    } else if j < i {
      assert a[j] == a[..i][j] == b[..i][j] == b[j];
    }
    assert a[k] < c[k];
  }

  lemma SoonerExtends(a: seq<Name>, b: seq<Name>, x: Name, y: Name)
    requires |a| == |b|
    ensures Sooner(a, b) ==> Sooner(a + [x], b + [y])
    ensures a == b && x < y ==> Sooner(a + [x], b + [y])
  {
    if Sooner(a, b) {
      var k :| 0 <= k < |a| && k < |b| && a[..k] == b[..k] && a[k] < b[k];
      assert (a + [x])[..k] == a[..k] && (b + [y])[..k] == b[..k];
      assert (a + [x])[k] < (b + [y])[k];
    }
    if a == b && x < y {
      assert (a + [x])[..|a|] == a == (b + [y])[..|a|];
    }
  }

  /** `c` is a walk from `from` to `x` that comes before all others of its length. */
  ghost predicate FirstWalk(g: Digraph, from: Name, x: Name, c: seq<Name>) {
    WalkFromTo(g, from, c, x) && forall p :: WalkFromTo(g, from, p, x) && |p| == |c| ==> p == c || Sooner(c, p)
  }

  /** `c` is a shortest chain, and the first of those. */
  ghost predicate BestChain(g: Digraph, from: Name, x: Name, c: seq<Name>) {
    FirstWalk(g, from, x, c) && forall p :: WalkFromTo(g, from, p, x) ==> |c| <= |p|
  }

  // ----- the chains that the search builds

  type Chains = map<Name, seq<Name>>

  /** `prev` leads each found node back along its chain, which is the first walk of its length. */
  ghost predicate ChainsOk(g: Digraph, from: Name, dist: map<Name, nat>, prev: map<Name, Name>, chain: Chains) {
    && chain.Keys == dist.Keys
    && from in chain && chain[from] == [from]
    && (forall x :: x in chain ==> |chain[x]| == dist[x] + 1 && FirstWalk(g, from, x, chain[x]))
    && (forall x :: x in chain && x != from ==> Linked(dist, prev, chain, x))
  }

  /** The chain of `x` is that of its predecessor and `x`. */
  ghost predicate Linked(dist: map<Name, nat>, prev: map<Name, Name>, chain: Chains, x: Name) {
    && x in prev && x in chain && prev[x] in chain && x in dist && prev[x] in dist
    && dist[x] == dist[prev[x]] + 1 && chain[x] == chain[prev[x]] + [x]
  }

  /** Of the queued nodes, those at the same distance are queued in the order of their chains. */
  ghost predicate QueueInOrder(queue: seq<Name>, chain: Chains) {
    && (forall i :: 0 <= i < |queue| ==> queue[i] in chain)
    && (forall i, j :: 0 <= i < j < |queue| && |chain[queue[i]]| == |chain[queue[j]]| ==>
          Sooner(chain[queue[i]], chain[queue[j]]))
  }

  ghost predicate ReachedBefore(c: seq<Name>, current: seq<Name>, z: Name, done: set<Name>) {
    |c| >= 1 && (Sooner(c[..|c| - 1], current) || (c[..|c| - 1] == current && z in done))
  }

  /** What has been found one level further came from nodes before `curr`, or from `curr` itself. */
  ghost predicate NextLevelOk(chain: Chains, curr: Name, done: set<Name>)
    requires curr in chain
  {
    forall z :: z in chain && |chain[z]| == |chain[curr]| + 1 ==> ReachedBefore(chain[z], chain[curr], z, done)
  }

  ghost predicate OrderBetween(queue: seq<Name>, chain: Chains) {
    QueueInOrder(queue, chain) && (queue != [] ==> NextLevelOk(chain, queue[0], {}))
  }

  ghost predicate OrderWithin(queue: seq<Name>, chain: Chains, curr: Name, done: set<Name>) {
    && curr in chain
    && QueueInOrder(queue, chain)
    && (forall i :: 0 <= i < |queue| && |chain[queue[i]]| == |chain[curr]| ==> Sooner(chain[curr], chain[queue[i]]))
    && NextLevelOk(chain, curr, done)
  }

  lemma StartInOrder(g: Digraph, from: Name)
    ensures ChainsOk(g, from, map[from := 0], map[], map[from := [from]])
    ensures OrderBetween([from], map[from := [from]])
  {
    assert WalkFromTo(g, from, [from], from);
    forall p | WalkFromTo(g, from, p, from) && |p| == 1
      ensures p == [from]
    {
    }
  }

  lemma DequeueInOrder(queue: seq<Name>, chain: Chains)
    requires queue != [] && OrderBetween(queue, chain)
    ensures OrderWithin(queue[1..], chain, queue[0], {})
  {
    hide Sooner, ReachedBefore;
  }

  /** The last step of a shortest walk to a node not yet found starts from `curr` or from a queued node of its level. */
  lemma LastStep(g: Digraph, from: Name, queue: seq<Name>, dist: map<Name, nat>, curr: Name, done: set<Name>, y: Name,
                 q: seq<Name>, u: Name)
    requires Within(g, {from}, None, queue, dist, curr, done) && y !in dist
    requires WalkFromTo(g, from, q, u) && Edge(g, u, y) && |q| == dist[curr] + 1
    ensures u in dist && dist[u] == dist[curr] && (u == curr || u in queue)
  {
    var d := dist[curr];
    var f: Name -> nat := z => if z in dist then dist[z] else d + 1;
    forall v, w | Edge(g, v, w)
      ensures f(w) <= f(v) + 1
    {
      if v in dist && v !in queue && v != curr {
        assert Expanded(g, dist, v);
      }
    }
    assert from in dist && f(from) == 0;
    PotentialBoundsWalk(g, f, q);
    if u in dist && u !in queue && u != curr {
      assert false;
    }
  }

  lemma DiscoveredFirst(g: Digraph, from: Name, queue: seq<Name>, dist: map<Name, nat>, prev: map<Name, Name>,
                        chain: Chains, curr: Name, done: set<Name>, y: Name)
    requires Within(g, {from}, None, queue, dist, curr, done) && Edge(g, curr, y) && y !in dist
    requires ChainsOk(g, from, dist, prev, chain) && OrderWithin(queue, chain, curr, done)
    ensures FirstWalk(g, from, y, chain[curr] + [y])
  {
    hide Sooner, Within, NextLevelOk, IsWalk, Linked;
    var c := chain[curr] + [y];
    WalkAppend(g, from, chain[curr], curr, y);
    forall p | WalkFromTo(g, from, p, y) && |p| == |c|
      ensures p == c || Sooner(c, p)
    {
      var q, u := p[..|p| - 1], p[|p| - 2];
      LastTaken(g, from, p, y);
      LastStep(g, from, queue, dist, curr, done, y, q, u);
      assert p == q + [y];
      assert chain[u] == q || Sooner(chain[u], q);
      assert chain[curr] == chain[u] || Sooner(chain[curr], chain[u]);
      if chain[curr] != q {
        if chain[curr] != chain[u] && chain[u] != q {
          SoonerTransitive(chain[curr], chain[u], q);
        }
        SoonerExtends(chain[curr], q, y, y);
      }
    }
  }

  lemma LastTaken(g: Digraph, from: Name, p: seq<Name>, y: Name)
    requires WalkFromTo(g, from, p, y) && |p| >= 2
    ensures WalkFromTo(g, from, p[..|p| - 1], p[|p| - 2]) && Edge(g, p[|p| - 2], y)
  {
  }

  lemma ChainsGrow(g: Digraph, from: Name, dist: map<Name, nat>, prev: map<Name, Name>, chain: Chains, curr: Name,
                   y: Name)
    requires ChainsOk(g, from, dist, prev, chain) && curr in chain && y !in chain
    requires FirstWalk(g, from, y, chain[curr] + [y])
    ensures ChainsOk(g, from, dist[y := dist[curr] + 1], prev[y := curr], chain[y := chain[curr] + [y]])
  {
    hide FirstWalk;
  }

  /** A node found from before `curr`, or from `curr` earlier, has the earlier chain. */
  lemma FoundEarlier(c: seq<Name>, current: seq<Name>, z: Name, done: set<Name>, y: Name)
    requires ReachedBefore(c, current, z, done) && |c| == |current| + 1 && c[|c| - 1] == z
    requires forall x :: x in done ==> x < y
    ensures Sooner(c, current + [y])
  {
    assert c == c[..|c| - 1] + [z];
    SoonerExtends(c[..|c| - 1], current, z, y);
  }

  lemma DiscoverInOrder(g: Digraph, from: Name, queue: seq<Name>, dist: map<Name, nat>, prev: map<Name, Name>,
                        chain: Chains, curr: Name, done: set<Name>, y: Name)
    requires ChainsOk(g, from, dist, prev, chain) && OrderWithin(queue, chain, curr, done)
    requires y !in chain && forall z :: z in done ==> z < y
    requires forall i :: 0 <= i < |queue| ==> queue[i] in chain && |chain[queue[i]]| <= |chain[curr]| + 1
    ensures OrderWithin(queue + [y], chain[y := chain[curr] + [y]], curr, done + {y})
  {
    hide Sooner, Linked, IsWalk;
    var c := chain[curr] + [y];
    assert c[..|c| - 1] == chain[curr];
    forall i | 0 <= i < |queue| && |chain[queue[i]]| == |c|
      ensures Sooner(chain[queue[i]], c)
    {
      var z := queue[i];
      assert FirstWalk(g, from, z, chain[z]);
      FoundEarlier(chain[z], chain[curr], z, done, y);
    }
    hide ChainsOk, ReachedBefore;
    assert ReachedBefore(c, chain[curr], y, done + {y}) by {
      Itself(c, chain[curr], y, done + {y});
    }
    MoreDone(chain, curr, done, y);
  }

  lemma Itself(c: seq<Name>, current: seq<Name>, y: Name, done: set<Name>)
    requires c == current + [y] && y in done
    ensures ReachedBefore(c, current, y, done)
  {
    assert c[..|c| - 1] == current;
  }

  lemma MoreDone(chain: Chains, curr: Name, done: set<Name>, y: Name)
    requires curr in chain && NextLevelOk(chain, curr, done)
    ensures NextLevelOk(chain, curr, done + {y})
  {
    hide Sooner;
  }

  lemma FinishInOrder(queue: seq<Name>, chain: Chains, curr: Name, done: set<Name>)
    requires OrderWithin(queue, chain, curr, done)
    requires forall i :: 0 <= i < |queue| ==> queue[i] in chain && |chain[curr]| <= |chain[queue[i]]|
    requires forall z :: z in chain ==> |chain[z]| <= |chain[curr]| + 1
    ensures OrderBetween(queue, chain)
  {
    hide Sooner;
    if queue != [] {
      var head := queue[0];
      forall z | z in chain && |chain[z]| == |chain[head]| + 1
        ensures ReachedBefore(chain[z], chain[head], z, {})
      {
        var init := chain[z][..|chain[z]| - 1];
        assert |chain[head]| == |chain[curr]|;
        assert ReachedBefore(chain[z], chain[curr], z, done);
        if init != chain[curr] {
          SoonerTransitive(init, chain[curr], chain[head]);
        }
      }
    }
  }

  /** The lengths of the chains follow the levels of the search. */
  lemma LevelLengths(g: Digraph, from: Name, queue: seq<Name>, dist: map<Name, nat>, prev: map<Name, Name>,
                     chain: Chains, curr: Name, done: set<Name>)
    requires Within(g, {from}, None, queue, dist, curr, done) && ChainsOk(g, from, dist, prev, chain)
    ensures curr in chain && forall z :: z in chain ==> |chain[z]| <= |chain[curr]| + 1
    ensures forall i :: 0 <= i < |queue| ==>
              queue[i] in chain && |chain[curr]| <= |chain[queue[i]]| <= |chain[curr]| + 1
  {
    hide FirstWalk, Found, Expanded, Linked;
    forall i | 0 <= i < |queue|
      ensures queue[i] in chain && |chain[curr]| <= |chain[queue[i]]| <= |chain[curr]| + 1
    {
      var z := queue[i];
      assert z in dist && dist[curr] <= dist[z] <= dist[curr] + 1;
      assert z in chain && |chain[z]| == dist[z] + 1;
    }
  }

  /** A new node keeps the chains right and the queue in order. */
  lemma NewNode(g: Digraph, from: Name, queue: seq<Name>, dist: map<Name, nat>, prev: map<Name, Name>,
                chain: Chains, curr: Name, neighbors: seq<Name>, k: nat)
    requires k < |neighbors| && Increasing(neighbors)
    requires var done := Elements(neighbors[..k]);
             Within(g, {from}, None, queue, dist, curr, done) && OrderWithin(queue, chain, curr, done)
    requires ChainsOk(g, from, dist, prev, chain) && curr in dist
    requires Edge(g, curr, neighbors[k]) && neighbors[k] !in dist
    ensures var y := neighbors[k];
            curr in chain &&
            ChainsOk(g, from, dist[y := dist[curr] + 1], prev[y := curr], chain[y := chain[curr] + [y]]) &&
            OrderWithin(queue + [y], chain[y := chain[curr] + [y]], curr, Elements(neighbors[..k]) + {y})
  {
    var y, done := neighbors[k], Elements(neighbors[..k]);
    EarlierNeighbors(neighbors, k);
    hide Within, ChainsOk, OrderWithin, FirstWalk, Increasing;
    LevelLengths(g, from, queue, dist, prev, chain, curr, done);
    KeysMatch(g, from, dist, prev, chain);
    DiscoveredFirst(g, from, queue, dist, prev, chain, curr, done, y);
    ChainsGrow(g, from, dist, prev, chain, curr, y);
    DiscoverInOrder(g, from, queue, dist, prev, chain, curr, done, y);
  }

  // ----- the methods

  ghost function Reversed(s: seq<Name>): seq<Name> {
    seq(|s|, i requires 0 <= i < |s| => s[|s| - 1 - i])
  }

  method ReversePath(path: seq<Name>) returns (r: seq<Name>)
    ensures r == Reversed(path)
  {
    r := path;
    var i, j := 0, |path| - 1;
    while i < j
      invariant |r| == |path| && 0 <= i && j == |path| - 1 - i && i <= j + 1
      invariant forall k :: i <= k <= j ==> r[k] == path[k]
      invariant forall k :: 0 <= k < i || j < k < |r| ==> r[k] == path[|path| - 1 - k]
      decreases j - i
    {
      r := r[i := r[j]][j := r[i]];
      i, j := i + 1, j - 1;
    }
  }

  /** Follows `prev` from `to` back to `from`. */
  method Rebuild(ghost g: Digraph, from: Name, to: Name, ghost dist: map<Name, nat>, prev: map<Name, Name>,
                 ghost chain: Chains)
    returns (path: seq<Name>)
    requires ChainsOk(g, from, dist, prev, chain) && to in dist
    ensures path == chain[to]
  {
    hide ChainsOk;
    var back := [to];
    var node := to;
    OneBack(g, from, dist, prev, chain, to);
    while node != from
      invariant node in dist && node in chain && |chain[node]| >= 1
      invariant to in chain && chain[to] == chain[node][..|chain[node]| - 1] + Reversed(back)
      invariant node == from ==> chain[node] == [from]
      decreases if node in dist then dist[node] else 0
    {
      StepBack(g, from, dist, prev, chain, node);
      var p := prev[node];
      OneBack(g, from, dist, prev, chain, p);
      assert Reversed(back + [p]) == [p] + Reversed(back);
      back := back + [p];
      node := p;
    }
    path := ReversePath(back);
  }

  lemma OneBack(g: Digraph, from: Name, dist: map<Name, nat>, prev: map<Name, Name>, chain: Chains, x: Name)
    requires ChainsOk(g, from, dist, prev, chain) && x in dist
    ensures x in chain && |chain[x]| >= 1 && chain[x] == chain[x][..|chain[x]| - 1] + [x]
    ensures x == from ==> chain[x] == [from]
    ensures Reversed([x]) == [x]
  {
    hide Linked;
    assert FirstWalk(g, from, x, chain[x]);
  }

  lemma StepBack(g: Digraph, from: Name, dist: map<Name, nat>, prev: map<Name, Name>, chain: Chains, x: Name)
    requires ChainsOk(g, from, dist, prev, chain) && x in dist && x != from
    ensures x in prev && prev[x] in dist && dist[x] == dist[prev[x]] + 1
    ensures x in chain && prev[x] in chain && chain[x][..|chain[x]| - 1] == chain[prev[x]]
  {
    hide FirstWalk;
    assert Linked(dist, prev, chain, x);
  }

  /** A chain is found exactly when one exists; it is as short as any, and the first in dictionary order of those. */
  method FindImportChain(g: Graph, from: Name, to: Name) returns (path: seq<Name>, ok: bool)
    ensures var ig := InternalGraph(g.Current());
            && (ok <==> from in ig && to in ig && Reach(ig, from, to))
            && (ok ==> BestChain(ig, from, to, path))
            && (!ok ==> path == [])
  {
    ghost var ig := InternalGraph(g.Current());
    InternalClosed(g.Current());
    if from !in g.modules || to !in g.modules {
      return [], false;
    }
    if from == to {
      ReachRefl(ig, from);
      NoStep(ig, from);
      return [from], true;
    }
    path, ok := Search(g, from, to);
  }

  lemma NoStep(g: Digraph, from: Name)
    ensures BestChain(g, from, from, [from])
  {
    forall p | WalkFromTo(g, from, p, from) && |p| == 1
      ensures p == [from]
    {
    }
  }

  method Search(g: Graph, from: Name, to: Name) returns (path: seq<Name>, ok: bool)
    requires from in g.modules && to in g.modules && from != to
    ensures var ig := InternalGraph(g.Current());
            && (ok <==> Reach(ig, from, to))
            && (ok ==> BestChain(ig, from, to, path))
            && (!ok ==> path == [])
  {
    ghost var ig := InternalGraph(g.Current());
    InternalClosed(g.Current());
    var queue, visited := [from], {from};
    var prev: map<Name, Name> := map[];
    ghost var dist: map<Name, nat> := map[from := 0];
    ghost var chain: Chains := map[from := [from]];
    Start(ig, {from}, None, queue, dist);
    StartInOrder(ig, from);
    while |queue| > 0
      invariant visited == dist.Keys <= ig.Keys && to !in visited
      invariant Between(ig, {from}, None, queue, dist) && ChainsOk(ig, from, dist, prev, chain)
      invariant OrderBetween(queue, chain)
      decreases ig.Keys - visited, |queue|
    {
      hide Between, Within, ChainsOk, OrderBetween, OrderWithin, IsDistance, IsWalk, WalkFromTo, Reach, Increasing;
      var curr := queue[0];
      Dequeue(ig, {from}, None, queue, dist);
      DequeueInOrder(queue, chain);
      ghost var before := visited;
      var found;
      queue, visited, prev, dist, chain, found :=
        ExpandTargets(g, from, to, curr, queue[1..], visited, prev, dist, chain);
      if found {
        path := Rebuild(ig, from, to, dist, prev, chain);
        ChainIsBest(ig, from, to, dist, prev, chain);
        return path, true;
      }
      Shrinks(ig.Keys, before, visited);
    }
    NotFound(ig, from, to, dist);
    return [], false;
  }

  /** Looks at the imports of `curr`; stops as soon as `to` is discovered. */
  method ExpandTargets(g: Graph, from: Name, to: Name, curr: Name, queue0: seq<Name>, visited0: set<Name>,
                       prev0: map<Name, Name>, ghost dist0: map<Name, nat>, ghost chain0: Chains)
    returns (queue: seq<Name>, visited: set<Name>, prev: map<Name, Name>, ghost dist: map<Name, nat>,
             ghost chain: Chains, found: bool)
    requires curr in g.modules && visited0 == dist0.Keys <= g.modules.Keys && to !in visited0
    requires Within(InternalGraph(g.Current()), {from}, None, queue0, dist0, curr, {})
    requires ChainsOk(InternalGraph(g.Current()), from, dist0, prev0, chain0) && OrderWithin(queue0, chain0, curr, {})
    ensures ChainsOk(InternalGraph(g.Current()), from, dist, prev, chain)
    ensures found ==> to in dist && IsDistance(InternalGraph(g.Current()), {from}, to, dist[to])
    ensures !found ==> Between(InternalGraph(g.Current()), {from}, None, queue, dist) && OrderBetween(queue, chain)
    ensures !found ==> visited == dist.Keys <= g.modules.Keys && to !in visited && visited0 <= visited
    ensures !found && visited == visited0 ==> queue == queue0
  {
    hide Between, Within, ChainsOk, OrderBetween, OrderWithin, IsDistance, Increasing, InternalGraph, Edges;
    ghost var ig := InternalGraph(g.Current());
    InternalKeys(g.Current());
    InternalClosed(g.Current());
    HeadFound(ig, from, queue0, dist0, curr);
    queue, visited, prev, dist, chain, found := queue0, visited0, prev0, dist0, chain0, false;
    var neighbors := GetSortedNeighbors(g, curr);
    assert Elements(neighbors[..0]) == {};
    for k := 0 to |neighbors|
      invariant visited == dist.Keys <= ig.Keys && to !in visited && visited0 <= visited && curr in dist
      invariant visited == visited0 ==> queue == queue0
      invariant Within(ig, {from}, None, queue, dist, curr, Elements(neighbors[..k]))
      invariant ChainsOk(ig, from, dist, prev, chain)
      invariant OrderWithin(queue, chain, curr, Elements(neighbors[..k]))
    {
      var next := neighbors[k];
      PrefixGrows(neighbors, k);
      assert Edge(ig, curr, next);
      if next in visited {
        Revisit(ig, {from}, None, queue, dist, curr, Elements(neighbors[..k]), next);
        RevisitInOrder(queue, chain, curr, Elements(neighbors[..k]), next);
      } else {
        Discover(ig, {from}, None, queue, dist, curr, Elements(neighbors[..k]), next);
        NewNode(ig, from, queue, dist, prev, chain, curr, neighbors, k);
        visited := visited + {next};
        prev := prev[next := curr];
        chain := chain[next := chain[curr] + [next]];
        dist := dist[next := dist[curr] + 1];
        queue := queue + [next];
        if next == to {
          DistanceWithin(ig, {from}, queue, dist, curr, Elements(neighbors[..k + 1]), to);
          found := true;
          return;
        }
      }
    }
    WholePrefix(neighbors);
    LevelLengths(ig, from, queue, dist, prev, chain, curr, Elements(neighbors));
    FinishInOrder(queue, chain, curr, Elements(neighbors));
    Finish(ig, {from}, None, queue, dist, curr, Elements(neighbors));
  }

  lemma InternalKeys(s: State)
    ensures InternalGraph(s).Keys == s.modules.Keys
  {
  }

  lemma HeadFound(g: Digraph, from: Name, queue: seq<Name>, dist: map<Name, nat>, curr: Name)
    requires Within(g, {from}, None, queue, dist, curr, {})
    ensures curr in dist
  {
  }

  lemma RevisitInOrder(queue: seq<Name>, chain: Chains, curr: Name, done: set<Name>, y: Name)
    requires OrderWithin(queue, chain, curr, done)
    ensures OrderWithin(queue, chain, curr, done + {y})
  {
    hide Sooner, QueueInOrder;
  }

  lemma KeysMatch(g: Digraph, from: Name, dist: map<Name, nat>, prev: map<Name, Name>, chain: Chains)
    requires ChainsOk(g, from, dist, prev, chain)
    ensures chain.Keys == dist.Keys
  {
  }

  lemma EarlierNeighbors(neighbors: seq<Name>, k: nat)
    requires Increasing(neighbors) && k < |neighbors|
    ensures forall z :: z in Elements(neighbors[..k]) ==> z < neighbors[k]
  {
  }

  lemma ChainIsBest(g: Digraph, from: Name, to: Name, dist: map<Name, nat>, prev: map<Name, Name>, chain: Chains)
    requires ChainsOk(g, from, dist, prev, chain) && to in dist && IsDistance(g, {from}, to, dist[to])
    ensures Reach(g, from, to) && BestChain(g, from, to, chain[to])
  {
    assert FirstWalk(g, from, to, chain[to]);
    forall p | WalkFromTo(g, from, p, to)
      ensures |chain[to]| <= |p|
    {
      assert HasWalk(g, {from}, to, |p| - 1);
    }
  }

  lemma NotFound(g: Digraph, from: Name, to: Name, dist: map<Name, nat>)
    requires Between(g, {from}, None, [], dist) && to !in dist
    ensures !Reach(g, from, to)
  {
    if Reach(g, from, to) {
      UnboundedEnd(g, {from}, dist, from, to);
    }
  }
}
