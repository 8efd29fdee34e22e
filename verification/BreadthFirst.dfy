/** What breadth-first search keeps, for several sources and an optional bound on the depth. */
module BreadthFirst {
  import opened Collections
  import opened Digraphs

  /** Some walk of `d` edges leads from a start to `x`. */
  ghost predicate HasWalk(g: Digraph, starts: set<Name>, x: Name, d: nat) {
    exists p :: IsWalk(g, p) && p[0] in starts && p[|p| - 1] == x && |p| == d + 1
  }

  /** `d` is the length of a shortest walk from a start to `x`. */
  ghost predicate IsDistance(g: Digraph, starts: set<Name>, x: Name, d: nat) {
    && HasWalk(g, starts, x, d)
    && (forall e: nat :: HasWalk(g, starts, x, e) ==> d <= e)
  }

  predicate Expands(limit: Option<nat>, d: nat) {
    limit.Some? ==> d < limit.value
  }

  ghost predicate Found(g: Digraph, starts: set<Name>, limit: Option<nat>, dist: map<Name, nat>) {
    && (forall s :: s in starts ==> s in dist)
    && (forall x :: x in dist ==> HasWalk(g, starts, x, dist[x]))
    && (forall x :: x in dist && x in starts ==> dist[x] == 0)
    && (limit.Some? ==> forall x :: x in dist ==> dist[x] <= limit.value)
  }

  /** The queue holds found nodes nearest first, none more than one level beyond `d`. */
  ghost predicate QueueOk(queue: seq<Name>, dist: map<Name, nat>, d: nat) {
    && (forall i :: 0 <= i < |queue| ==> queue[i] in dist && d <= dist[queue[i]] <= d + 1)
    && (forall i, j :: 0 <= i < j < |queue| ==> dist[queue[i]] <= dist[queue[j]])
    && (forall x :: x in dist ==> dist[x] <= d + 1 && (x !in queue ==> dist[x] <= d))
  }

  ghost predicate Expanded(g: Digraph, dist: map<Name, nat>, x: Name)
    requires x in dist
  {
    forall y :: Edge(g, x, y) ==> y in dist && dist[y] <= dist[x] + 1
  }

  /** Between two turns of the outer loop. */
  ghost predicate Between(g: Digraph, starts: set<Name>, limit: Option<nat>, queue: seq<Name>, dist: map<Name, nat>) {
    && Found(g, starts, limit, dist)
    && (forall i :: 0 <= i < |queue| ==> queue[i] in dist)
    && (queue != [] ==> QueueOk(queue, dist, dist[queue[0]]))
    && (forall x :: x in dist && x !in queue && Expands(limit, dist[x]) ==> Expanded(g, dist, x))
  }

  /** While the targets of `curr` are looked at; those in `done` have been. */
  ghost predicate Within(g: Digraph, starts: set<Name>, limit: Option<nat>, queue: seq<Name>, dist: map<Name, nat>,
                         curr: Name, done: set<Name>) {
    && Found(g, starts, limit, dist)
    && curr in dist && Expands(limit, dist[curr])
    && QueueOk(queue, dist, dist[curr])
    && (forall x :: x in dist && x !in queue && x != curr && Expands(limit, dist[x]) ==> Expanded(g, dist, x))
    && (forall y :: y in done ==> y in dist && dist[y] <= dist[curr] + 1)
  }

  lemma Start(g: Digraph, starts: set<Name>, limit: Option<nat>, queue: seq<Name>, dist: map<Name, nat>)
    requires Elements(queue) == starts == dist.Keys && forall s :: s in dist ==> dist[s] == 0
    ensures Between(g, starts, limit, queue, dist)
  {
    forall s | s in starts
      ensures HasWalk(g, starts, s, 0)
    {
      assert IsWalk(g, [s]);
    }
    forall i | 0 <= i < |queue|
      ensures queue[i] in dist && dist[queue[i]] == 0
    {
      var x := queue[i];
      assert x in queue;
      assert x in Elements(queue) && x in dist.Keys;
    }
  }

  lemma QueueTail(queue: seq<Name>, dist: map<Name, nat>)
    requires queue != [] && queue[0] in dist && QueueOk(queue, dist, dist[queue[0]])
    ensures QueueOk(queue[1..], dist, dist[queue[0]])
  {
    var rest := queue[1..];
    assert queue == [queue[0]] + rest;
    forall x | x in dist && x !in rest
      ensures dist[x] <= dist[queue[0]]
    {
      if x in queue {
        assert x == queue[0];
      }
    }
  }

  lemma Dequeue(g: Digraph, starts: set<Name>, limit: Option<nat>, queue: seq<Name>, dist: map<Name, nat>)
    requires Between(g, starts, limit, queue, dist) && queue != []
    ensures queue[0] in dist
    ensures Expands(limit, dist[queue[0]]) ==> Within(g, starts, limit, queue[1..], dist, queue[0], {})
  {
    QueueTail(queue, dist);
    assert queue == [queue[0]] + queue[1..];
    hide QueueOk, Found, Expanded;
  }

  /** A node at the bound is dropped without being expanded. */
  lemma DropAtLimit(g: Digraph, starts: set<Name>, limit: Option<nat>, queue: seq<Name>, dist: map<Name, nat>)
    requires Between(g, starts, limit, queue, dist) && queue != [] && !Expands(limit, dist[queue[0]])
    ensures Between(g, starts, limit, queue[1..], dist)
  {
    QueueTail(queue, dist);
    Close(g, starts, limit, queue[1..], dist, queue[0]);
  }

  /** From the queue invariant relative to the node just taken to the one relative to the new head. */
  lemma Close(g: Digraph, starts: set<Name>, limit: Option<nat>, queue: seq<Name>, dist: map<Name, nat>, curr: Name)
    requires Found(g, starts, limit, dist) && curr in dist && QueueOk(queue, dist, dist[curr])
    requires forall x :: x in dist && x !in queue && x != curr && Expands(limit, dist[x]) ==> Expanded(g, dist, x)
    requires Expands(limit, dist[curr]) && curr !in queue ==> Expanded(g, dist, curr)
    ensures Between(g, starts, limit, queue, dist)
  {
    if queue != [] {
      var d := dist[queue[0]];
      forall x | x in dist
        ensures dist[x] <= d + 1 && (x !in queue ==> dist[x] <= d)
      {
      }
      assert forall i :: 0 <= i < |queue| ==> d <= dist[queue[i]];
      assert QueueOk(queue, dist, d);
    }
  }

  lemma Finish(g: Digraph, starts: set<Name>, limit: Option<nat>, queue: seq<Name>, dist: map<Name, nat>, curr: Name,
               done: set<Name>)
    requires Within(g, starts, limit, queue, dist, curr, done)
    requires forall y :: Edge(g, curr, y) ==> y in done
    ensures Between(g, starts, limit, queue, dist)
  {
    Close(g, starts, limit, queue, dist, curr);
  }

  lemma Discover(g: Digraph, starts: set<Name>, limit: Option<nat>, queue: seq<Name>, dist: map<Name, nat>,
                 curr: Name, done: set<Name>, y: Name)
    requires Within(g, starts, limit, queue, dist, curr, done)
    requires Edge(g, curr, y) && y !in dist
    ensures Within(g, starts, limit, queue + [y], dist[y := dist[curr] + 1], curr, done + {y})
  {
    var dist' := dist[y := dist[curr] + 1];
    var p :| IsWalk(g, p) && p[0] in starts && p[|p| - 1] == curr && |p| == dist[curr] + 1;
    WalkAppend(g, p[0], p, curr, y);
    assert HasWalk(g, starts, y, dist[curr] + 1) by {
      assert IsWalk(g, p + [y]);
    }
    assert Found(g, starts, limit, dist');
    hide HasWalk, IsWalk;
    assert QueueOk(queue + [y], dist', dist'[curr]);
    forall x | x in dist' && x !in queue + [y] && x != curr && Expands(limit, dist'[x])
      ensures Expanded(g, dist', x)
    {
      assert x in dist && x !in queue;
      assert Expanded(g, dist, x);
    }
  }

  /** A target that was found before. */
  lemma Revisit(g: Digraph, starts: set<Name>, limit: Option<nat>, queue: seq<Name>, dist: map<Name, nat>,
                curr: Name, done: set<Name>, y: Name)
    requires Within(g, starts, limit, queue, dist, curr, done) && y in dist
    ensures Within(g, starts, limit, queue, dist, curr, done + {y}) && dist[y] <= dist[curr] + 1
  {
  }

  /** No shorter walk leads to a node found this way. */
  lemma DistanceWithin(g: Digraph, starts: set<Name>, queue: seq<Name>, dist: map<Name, nat>,
                       curr: Name, done: set<Name>, x: Name)
    requires Within(g, starts, None, queue, dist, curr, done) && x in dist
    ensures IsDistance(g, starts, x, dist[x])
  {
    var d := dist[curr];
    var f: Name -> nat := z => if z in dist then dist[z] else d + 1;
    forall u, w | Edge(g, u, w)
      ensures f(w) <= f(u) + 1
    {
      if u in dist && u !in queue && u != curr {
        assert Expanded(g, dist, u);
      }
    }
    PotentialIsDistance(g, starts, f, x, dist[x]);
  }

  lemma PotentialIsDistance(g: Digraph, starts: set<Name>, f: Name -> nat, x: Name, d: nat)
    requires forall u, w :: Edge(g, u, w) ==> f(w) <= f(u) + 1
    requires forall s :: s in starts ==> f(s) == 0
    requires HasWalk(g, starts, x, d) && f(x) == d
    ensures IsDistance(g, starts, x, d)
  {
    forall e: nat | HasWalk(g, starts, x, e)
      ensures d <= e
    {
      var p :| IsWalk(g, p) && p[0] in starts && p[|p| - 1] == x && |p| == e + 1;
      var s := p[0];
      assert s in starts;
      assert f(s) == 0;
      PotentialBoundsWalk(g, f, p);
    }
  }

  /** At the end of a bounded search exactly the nodes within the bound are found, at their distance. */
  lemma BoundedEnd(g: Digraph, starts: set<Name>, limit: nat, dist: map<Name, nat>, x: Name)
    requires Between(g, starts, Some(limit), [], dist)
    ensures x in dist ==> IsDistance(g, starts, x, dist[x]) && dist[x] <= limit
    ensures x !in dist ==> forall e: nat :: HasWalk(g, starts, x, e) ==> limit < e
  {
    var f: Name -> nat := z => if z in dist then dist[z] else limit + 1;
    forall u, w | Edge(g, u, w)
      ensures f(w) <= f(u) + 1
    {
      if u in dist && dist[u] < limit {
        assert Expanded(g, dist, u);
      }
    }
    if x in dist {
      PotentialIsDistance(g, starts, f, x, dist[x]);
    } else {
      forall e: nat | HasWalk(g, starts, x, e)
        ensures limit < e
      {
        var p :| IsWalk(g, p) && p[0] in starts && p[|p| - 1] == x && |p| == e + 1;
        var s := p[0];
        assert s in starts;
        assert s in dist;
        PotentialBoundsWalk(g, f, p);
      }
    }
  }

  /** At the end of an unbounded search everything reachable is found. */
  lemma UnboundedEnd(g: Digraph, starts: set<Name>, dist: map<Name, nat>, s: Name, x: Name)
    requires Between(g, starts, None, [], dist) && s in starts && Reach(g, s, x)
    ensures x in dist
  {
    forall u, w | u in dist.Keys && Edge(g, u, w)
      ensures w in dist.Keys
    {
      assert Expanded(g, dist, u);
    }
    ReachClosed(g, dist.Keys, s, x);
  }
}
