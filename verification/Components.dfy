/** Tarjan's strongly connected components, as `stronglyConnectedComponents` computes them. */
module Components {
  import opened Collections
  import opened Digraphs

  /** The graph that an adjacency table of target lists denotes. */
  function AdjacencyGraph(adjacency: map<Name, seq<Name>>): Digraph {
    map x | x in adjacency :: Elements(adjacency[x])
  }

  // ----- what the result means

  /** `components` lists the nodes of `componentOf` once each, every list sorted and non-empty. */
  ghost predicate IsNumbering(componentOf: map<Name, nat>, components: seq<seq<Name>>) {
    && (forall x :: x in componentOf ==> componentOf[x] < |components| && x in components[componentOf[x]])
    && (forall k, x :: 0 <= k < |components| && x in components[k] ==> x in componentOf && componentOf[x] == k)
    && (forall k :: 0 <= k < |components| ==> components[k] != [] && Increasing(components[k]))
  }

  /** Two nodes share a component exactly when each reaches the other. */
  ghost predicate MutualReachability(g: Digraph, componentOf: map<Name, nat>) {
    forall x, y :: x in componentOf && y in componentOf ==>
      (componentOf[x] == componentOf[y] <==> Reach(g, x, y) && Reach(g, y, x))
  }

  /** Ids are in reverse topological order: no edge climbs to a larger id. */
  ghost predicate EdgesDescend(g: Digraph, componentOf: map<Name, nat>) {
    forall x, y :: x in componentOf && Edge(g, x, y) ==> y in componentOf && componentOf[y] <= componentOf[x]
  }

  ghost predicate AreComponents(g: Digraph, componentOf: map<Name, nat>, components: seq<seq<Name>>) {
    && componentOf.Keys == g.Keys
    && IsNumbering(componentOf, components)
    && MutualReachability(g, componentOf)
    && EdgesDescend(g, componentOf)
  }

  // ----- the state of the search

  /** The variables of the search at one moment. `active` holds the nodes whose call to
      `strongConnect` has not returned. */
  datatype Snapshot = Snapshot(
    index: nat, stack: seq<Name>, num: map<Name, nat>, low: map<Name, nat>,
    comp: map<Name, nat>, comps: seq<seq<Name>>, active: set<Name>)

  /** The stack holds the numbered nodes that have no component yet, oldest number first. */
  ghost predicate StackOk(g: Digraph, s: Snapshot) {
    && s.num.Keys <= g.Keys
    && s.low.Keys == s.num.Keys
    && (forall x :: x in s.num ==> s.num[x] < s.index)
    && (forall i :: 0 <= i < |s.stack| ==> s.stack[i] in s.num)
    && (forall i, j :: 0 <= i < j < |s.stack| ==> s.num[s.stack[i]] < s.num[s.stack[j]])
    && (forall x :: x in s.comp <==> x in s.num && x !in s.stack)
    && (forall x :: x in s.active ==> x in s.stack)
  }

  ghost predicate ReturnsToActive(g: Digraph, s: Snapshot, i: nat)
    requires i < |s.stack|
  {
    exists j :: 0 <= j <= i && s.stack[j] in s.active && Reach(g, s.stack[i], s.stack[j])
  }

  /** A finished node has no unnumbered successor; an active node reaches everything above it on
      the stack; every node on the stack reaches an active node at or below it. */
  ghost predicate SearchOk(g: Digraph, s: Snapshot) {
    && (forall x, y :: x in s.num && x !in s.active && Edge(g, x, y) ==> y in s.num)
    && (forall i, j :: 0 <= i <= j < |s.stack| && s.stack[i] in s.active ==> Reach(g, s.stack[i], s.stack[j]))
    && (forall i :: 0 <= i < |s.stack| ==> ReturnsToActive(g, s, i))
  }

  /** The components closed so far are correct and no edge leaves them for an open node. */
  ghost predicate CompsOk(g: Digraph, s: Snapshot) {
    && IsNumbering(s.comp, s.comps)
    && (forall x, y :: x in s.comp && y in s.comp && s.comp[x] == s.comp[y] ==> Reach(g, x, y))
    && EdgesDescend(g, s.comp)
  }

  ghost predicate Inv(g: Digraph, s: Snapshot) {
    StackOk(g, s) && SearchOk(g, s) && CompsOk(g, s)
  }

  /** Nothing recorded in `s` has changed in `t`, except perhaps the low-link of `v`. */
  ghost predicate Extends(s: Snapshot, t: Snapshot) {
    && s.index <= t.index
    && s.stack <= t.stack
    && s.comps <= t.comps
    && (forall x :: x in s.num ==> x in t.num && t.num[x] == s.num[x])
    && (forall x :: x in s.low ==> x in t.low && t.low[x] == s.low[x])
    && (forall x :: x in s.comp ==> x in t.comp && t.comp[x] == s.comp[x])
    && (forall x :: x in t.num && x !in s.num ==> s.index <= t.num[x])
  }

  /** What a call `strongConnect(v)` made in state `s` achieves when it returns in state `t`. */
  ghost predicate Connected(g: Digraph, s: Snapshot, v: Name, t: Snapshot) {
    && Inv(g, t)
    && Extends(s, t)
    && t.active == s.active
    && v in t.num && t.num[v] == s.index
    && (|t.stack| == |s.stack| ==> t.low[v] == t.num[v])
    && (|t.stack| > |s.stack| ==> t.stack[|s.stack|] == v && LowIsBelow(g, s, v, t.low[v]))
    && EdgesStayAbove(g, t, |s.stack| - 1, t.low[v])
  }

  ghost predicate LowIsBelow(g: Digraph, s: Snapshot, v: Name, low: nat) {
    exists z :: z in s.stack && z in s.num && low == s.num[z] && Reach(g, v, z)
  }

  /** The call on `v`, entered from `s`, is still running in `t`. */
  ghost predicate Running(g: Digraph, s: Snapshot, v: Name, t: Snapshot) {
    && Inv(g, s)
    && Inv(g, t)
    && Extends(s, t)
    && t.active == s.active + {v}
    && v !in s.num && v in t.num && t.num[v] == s.index && s.index < t.index
    && s.stack + [v] <= t.stack
    && LowIsBelow(g, t, v, t.low[v]) && t.low[v] <= t.num[v]
  }

  /** No edge from above position `p` to an open node goes below `low`. */
  ghost predicate EdgesStayAbove(g: Digraph, t: Snapshot, p: int, low: nat)
    requires p >= -1
  {
    forall i, y :: p < i < |t.stack| && Edge(g, t.stack[i], y) && y in t.stack && y in t.num ==> low <= t.num[y]
  }

  ghost predicate TargetsStayAbove(t: Snapshot, targets: seq<Name>, k: nat, low: nat)
    requires k <= |targets|
  {
    && (forall j :: 0 <= j < k ==> targets[j] in t.num)
    && (forall j :: 0 <= j < k && targets[j] in t.num && targets[j] in t.stack ==> low <= t.num[targets[j]])
  }

  /** The state inside the loop of `strongConnect(v)`, entered from `s`, when the first `k` targets
      of `v` have been handled. */
  ghost predicate Exploring(g: Digraph, s: Snapshot, v: Name, targets: seq<Name>, k: nat, t: Snapshot)
    requires k <= |targets|
  {
    && Running(g, s, v, t)
    && EdgesStayAbove(g, t, |s.stack|, t.low[v])
    && TargetsStayAbove(t, targets, k, t.low[v])
  }

  // ----- each step of the search keeps the invariant

  function Push(s: Snapshot, v: Name): Snapshot {
    s.(index := s.index + 1, stack := s.stack + [v], num := s.num[v := s.index],
       low := s.low[v := s.index], active := s.active + {v})
  }

  lemma PushKeepsSearch(g: Digraph, s: Snapshot, v: Name)
    requires Inv(g, s) && v in g && v !in s.num
    requires forall i :: 0 <= i < |s.stack| && s.stack[i] in s.active ==> Reach(g, s.stack[i], v)
    ensures SearchOk(g, Push(s, v))
  {
    var t := Push(s, v);
    ReachRefl(g, v);
    forall i | 0 <= i < |t.stack|
      ensures ReturnsToActive(g, t, i)
    {
      if i < |s.stack| {
        assert ReturnsToActive(g, s, i);
        var j :| 0 <= j <= i && s.stack[j] in s.active && Reach(g, s.stack[i], s.stack[j]);
        assert t.stack[j] in t.active;
      } else {
        assert t.stack[i] in t.active;
      }
    }
  }

  lemma PushKeepsStack(g: Digraph, s: Snapshot, v: Name)
    requires Inv(g, s) && v in g && v !in s.num
    ensures StackOk(g, Push(s, v)) && Extends(s, Push(s, v))
  {
    var t := Push(s, v);
    assert v !in s.comp && v !in s.stack;
    assert forall i :: 0 <= i < |s.stack| ==> t.stack[i] == s.stack[i] && t.num[t.stack[i]] == s.num[s.stack[i]];
  }

  lemma PushExplores(g: Digraph, s: Snapshot, v: Name, targets: seq<Name>)
    requires Inv(g, s) && v in g && v !in s.num
    requires forall i :: 0 <= i < |s.stack| && s.stack[i] in s.active ==> Reach(g, s.stack[i], v)
    ensures Exploring(g, s, v, targets, 0, Push(s, v))
  {
    var t := Push(s, v);
    PushKeepsSearch(g, s, v);
    PushKeepsStack(g, s, v);
    assert CompsOk(g, t);
    ReachRefl(g, v);
    assert v in t.stack;
    assert LowIsBelow(g, t, v, t.low[v]);
  }

  /** Every active node reaches the node being explored. */
  lemma ActiveReachesTop(g: Digraph, s: Snapshot, v: Name, t: Snapshot, i: nat)
    requires Running(g, s, v, t)
    requires i < |t.stack| && t.stack[i] in t.active
    ensures i <= |s.stack| && Reach(g, t.stack[i], v)
  {
    assert t.stack[|s.stack|] == v;
    var x := t.stack[i];
    if x != v {
      var j :| 0 <= j < |s.stack| && s.stack[j] == x;
      assert t.stack[j] == x;
    }
  }

  function Lower(t: Snapshot, v: Name, low: nat): Snapshot
    requires v in t.low
  {
    if low < t.low[v] then t.(low := t.low[v := low]) else t
  }

  lemma LowerKeepsInv(g: Digraph, t: Snapshot, v: Name, low: nat)
    requires Inv(g, t) && v in t.num
    ensures Inv(g, Lower(t, v, low))
  {
    var r := Lower(t, v, low);
    forall i | 0 <= i < |r.stack|
      ensures ReturnsToActive(g, r, i)
    {
      assert ReturnsToActive(g, t, i);
    }
  }

  /** Lowering the low-link of `v` to the number of an open node it reaches. */
  lemma LowerKeepsRunning(g: Digraph, s: Snapshot, v: Name, t: Snapshot, z: Name)
    requires Running(g, s, v, t)
    requires z in t.stack && Reach(g, v, z)
    ensures z in t.num && Running(g, s, v, Lower(t, v, t.num[z]))
  {
    assert z in t.num;
    LowerKeepsInv(g, t, v, t.num[z]);
    var r := Lower(t, v, t.num[z]);
    assert z in r.stack && r.num == t.num && r.stack == t.stack;
    assert LowIsBelow(g, r, v, r.low[v]);
  }

  lemma FollowsActive(g: Digraph, s: Snapshot, v: Name, t: Snapshot, w: Name)
    requires Running(g, s, v, t) && Edge(g, v, w)
    ensures forall i :: 0 <= i < |t.stack| && t.stack[i] in t.active ==> Reach(g, t.stack[i], w)
  {
    forall i | 0 <= i < |t.stack| && t.stack[i] in t.active
      ensures Reach(g, t.stack[i], w)
    {
      ActiveReachesTop(g, s, v, t, i);
      ReachStep(g, t.stack[i], v, w);
    }
  }

  lemma SegmentFrame(g: Digraph, s: Snapshot, v: Name, t: Snapshot)
    requires Running(g, s, v, t)
    ensures Distinct(t.stack) && |s.stack| < |t.stack| && t.stack[|s.stack|] == v
    ensures t.stack[..|s.stack|] == s.stack && t.active == s.active + {v} && v in t.num && v in t.low
  {
  }

  /** The call on an unseen target leaves the caller running. */
  lemma ChildKeepsRunning(g: Digraph, s: Snapshot, v: Name, t: Snapshot, w: Name, u: Snapshot)
    requires Running(g, s, v, t) && w !in t.num && Connected(g, t, w, u)
    ensures Running(g, s, v, u) && u.low[v] == t.low[v]
  {
    var z :| z in t.stack && z in t.num && t.low[v] == t.num[z] && Reach(g, v, z);
    var j :| 0 <= j < |t.stack| && t.stack[j] == z;
    assert u.stack[j] == z;
    assert LowIsBelow(g, u, v, u.low[v]);
    assert Extends(s, u) by {
      assert s.stack <= u.stack;
    }
  }

  /** A node finished before the call on `w` has no edge to a node first numbered in that call. */
  lemma FinishedEdge(g: Digraph, s: Snapshot, v: Name, t: Snapshot, w: Name, u: Snapshot, i: nat, y: Name)
    requires Running(g, s, v, t) && Connected(g, t, w, u)
    requires |s.stack| < i < |t.stack| && Edge(g, t.stack[i], y) && y in u.stack
    ensures y in t.num && y in t.stack
  {
    if t.stack[i] in t.active {
      ActiveReachesTop(g, s, v, t, i);
    }
    assert y in t.num;
    assert y in t.comp ==> y in u.comp;
  }

  lemma ChildEdgesStayAbove(g: Digraph, s: Snapshot, v: Name, t: Snapshot, w: Name, u: Snapshot, low: nat)
    requires Running(g, s, v, t) && w !in t.num && Connected(g, t, w, u)
    requires EdgesStayAbove(g, t, |s.stack|, t.low[v])
    requires low <= t.low[v] && low <= u.low[w]
    ensures EdgesStayAbove(g, u, |s.stack|, low)
  {
    hide SearchOk, CompsOk, LowIsBelow;
    forall i, y | |s.stack| < i < |u.stack| && Edge(g, u.stack[i], y) && y in u.stack && y in u.num
      ensures low <= u.num[y]
    {
      if i < |t.stack| {
        assert t.stack[i] == u.stack[i];
        FinishedEdge(g, s, v, t, w, u, i, y);
      }
    }
  }

  lemma ChildTargetsStayAbove(g: Digraph, s: Snapshot, v: Name, targets: seq<Name>, k: nat, t: Snapshot, u: Snapshot,
                              low: nat)
    requires k < |targets| && Running(g, s, v, t) && targets[k] !in t.num && Connected(g, t, targets[k], u)
    requires TargetsStayAbove(t, targets, k, t.low[v])
    requires low <= t.low[v] && low <= u.low[targets[k]]
    ensures TargetsStayAbove(u, targets, k + 1, low)
  {
    hide SearchOk, CompsOk;
    forall j | 0 <= j < k + 1
      ensures targets[j] in u.num && (targets[j] in u.stack ==> low <= u.num[targets[j]])
    {
      var y := targets[j];
      if j < k {
        assert y in t.num;
        assert y in t.comp ==> y in u.comp;
      } else if y in u.stack {
        assert u.low[y] <= u.num[y];
      }
    }
  }

  /** Returning from the call on an unseen target. */
  lemma ChildExplored(g: Digraph, s: Snapshot, v: Name, targets: seq<Name>, k: nat, t: Snapshot, u: Snapshot)
    requires k < |targets| && Exploring(g, s, v, targets, k, t)
    requires targets[k] !in t.num && Edge(g, v, targets[k])
    requires Connected(g, t, targets[k], u)
    ensures Exploring(g, s, v, targets, k + 1, Lower(u, v, u.low[targets[k]]))
  {
    var r := ChildRunning(g, s, v, t, targets[k], u);
    ChildStaysAbove(g, s, v, targets, k, t, u, r);
  }

  lemma ChildStaysAbove(g: Digraph, s: Snapshot, v: Name, targets: seq<Name>, k: nat, t: Snapshot, u: Snapshot,
                        r: Snapshot)
    requires k < |targets| && Exploring(g, s, v, targets, k, t)
    requires targets[k] !in t.num && Connected(g, t, targets[k], u)
    requires r.stack == u.stack && r.num == u.num && v in r.low && r.low[v] <= t.low[v] && r.low[v] <= u.low[targets[k]]
    ensures EdgesStayAbove(g, r, |s.stack|, r.low[v]) && TargetsStayAbove(r, targets, k + 1, r.low[v])
  {
    ChildEdgesStayAbove(g, s, v, t, targets[k], u, r.low[v]);
    ChildTargetsStayAbove(g, s, v, targets, k, t, u, r.low[v]);
  }

  lemma ChildRunning(g: Digraph, s: Snapshot, v: Name, t: Snapshot, w: Name, u: Snapshot) returns (r: Snapshot)
    requires Running(g, s, v, t) && w !in t.num && Edge(g, v, w) && Connected(g, t, w, u)
    ensures v in u.low && w in u.low && r == Lower(u, v, u.low[w]) && Running(g, s, v, r)
    ensures r.low[v] <= t.low[v] && r.low[v] <= u.low[w]
  {
    ChildKeepsRunning(g, s, v, t, w, u);
    r := Lower(u, v, u.low[w]);
    if u.low[w] < t.low[v] {
      var z := ChildLow(g, s, v, t, w, u);
      LowerKeepsRunning(g, s, v, u, z);
    }
  }

  /** A low-link that the call on `w` brings below that of `v` names an open node which `v` reaches. */
  lemma ChildLow(g: Digraph, s: Snapshot, v: Name, t: Snapshot, w: Name, u: Snapshot) returns (z: Name)
    requires Running(g, s, v, t) && w !in t.num && Edge(g, v, w) && Connected(g, t, w, u) && u.low[w] < t.low[v]
    ensures z in u.stack && z in u.num && u.num[z] == u.low[w] && Reach(g, v, z)
  {
    ReachEdge(g, v, w);
    z :| z in t.stack && z in t.num && u.low[w] == t.num[z] && Reach(g, w, z);
    ReachTrans(g, v, w, z);
    var j :| 0 <= j < |t.stack| && t.stack[j] == z;
    assert u.stack[j] == z;
  }

  lemma LowerKeepsBounds(g: Digraph, t: Snapshot, p: nat, v: Name, targets: seq<Name>, k: nat)
    requires k < |targets| && targets[k] in t.num && v in t.low
    requires EdgesStayAbove(g, t, p, t.low[v]) && TargetsStayAbove(t, targets, k, t.low[v])
    ensures var r := Lower(t, v, t.num[targets[k]]);
            EdgesStayAbove(g, r, p, r.low[v]) && TargetsStayAbove(r, targets, k + 1, r.low[v])
  {
  }

  /** A target that was already numbered and is on the stack. */
  lemma OpenExplored(g: Digraph, s: Snapshot, v: Name, targets: seq<Name>, k: nat, t: Snapshot)
    requires k < |targets| && Exploring(g, s, v, targets, k, t)
    requires targets[k] in t.num && Edge(g, v, targets[k]) && targets[k] in t.stack
    ensures Exploring(g, s, v, targets, k + 1, Lower(t, v, t.num[targets[k]]))
  {
    ReachEdge(g, v, targets[k]);
    LowerKeepsBounds(g, t, |s.stack|, v, targets, k);
    LowerKeepsRunning(g, s, v, t, targets[k]);
  }

  /** A target that already has a component. */
  lemma ClosedExplored(g: Digraph, s: Snapshot, v: Name, targets: seq<Name>, k: nat, t: Snapshot)
    requires k < |targets| && Exploring(g, s, v, targets, k, t)
    requires targets[k] in t.num && targets[k] !in t.stack
    ensures Exploring(g, s, v, targets, k + 1, t)
  {
  }

  /** Every edge out of the nodes above and including `v` has been followed. */
  lemma OpenEdges(g: Digraph, s: Snapshot, v: Name, targets: seq<Name>, t: Snapshot, i: nat, y: Name)
    requires Exploring(g, s, v, targets, |targets|, t)
    requires forall y :: Edge(g, v, y) ==> y in targets
    requires |s.stack| <= i < |t.stack| && Edge(g, t.stack[i], y)
    ensures y in t.num && (y in t.stack ==> t.low[v] <= t.num[y])
  {
    assert t.stack[|s.stack|] == v;
    if i > |s.stack| {
      if t.stack[i] in t.active {
        ActiveReachesTop(g, s, v, t, i);
      }
    } else {
      assert y in targets;
    }
  }

  /** The return without closing a component: `v` stays on the stack. */
  function Return(t: Snapshot, v: Name): Snapshot {
    t.(active := t.active - {v})
  }

  /** A low-link under the node's own number names an open node further down the stack, from where
      an active node other than `v` can be reached. */
  lemma LowLeadsDown(g: Digraph, s: Snapshot, v: Name, t: Snapshot) returns (a: nat)
    requires Running(g, s, v, t) && t.low[v] != t.num[v]
    ensures LowIsBelow(g, s, v, t.low[v])
    ensures a < |s.stack| && s.stack[a] in s.active && Reach(g, v, s.stack[a])
  {
    var p := |s.stack|;
    assert t.stack[p] == v;
    var z :| z in t.stack && z in t.num && t.low[v] == t.num[z] && Reach(g, v, z);
    var q :| 0 <= q < |t.stack| && t.stack[q] == z;
    assert q < p;
    assert s.stack[q] == z;
    assert ReturnsToActive(g, s, q);
    a :| 0 <= a <= q && s.stack[a] in s.active && Reach(g, z, s.stack[a]);
    ReachTrans(g, v, z, s.stack[a]);
  }

  lemma ReturnKeepsReturning(g: Digraph, s: Snapshot, v: Name, t: Snapshot, i: nat, a: nat)
    requires Running(g, s, v, t) && i < |t.stack|
    requires a < |s.stack| && s.stack[a] in s.active && Reach(g, v, s.stack[a])
    ensures ReturnsToActive(g, Return(t, v), i)
  {
    var r := Return(t, v);
    assert ReturnsToActive(g, t, i);
    var j :| 0 <= j <= i && t.stack[j] in t.active && Reach(g, t.stack[i], t.stack[j]);
    assert t.stack[|s.stack|] == v && t.stack[a] == s.stack[a];
    assert t.active == s.active + {v} && s.stack[a] in s.num && Distinct(t.stack);
    hide StackOk, SearchOk, CompsOk, Extends, LowIsBelow;
    if t.stack[j] == v {
      ReachTrans(g, t.stack[i], v, t.stack[a]);
      assert a <= i && r.stack[a] in r.active;
    } else {
      assert r.stack[j] in r.active;
    }
  }

  lemma ReturnKeepsSearch(g: Digraph, s: Snapshot, v: Name, targets: seq<Name>, t: Snapshot)
    requires Exploring(g, s, v, targets, |targets|, t)
    requires forall y :: Edge(g, v, y) ==> y in targets
    requires t.low[v] != t.num[v]
    ensures SearchOk(g, Return(t, v))
  {
    var r := Return(t, v);
    var a := LowLeadsDown(g, s, v, t);
    forall i | 0 <= i < |r.stack|
      ensures ReturnsToActive(g, r, i)
    {
      ReturnKeepsReturning(g, s, v, t, i, a);
    }
  }

  lemma SegmentStaysAbove(g: Digraph, s: Snapshot, v: Name, targets: seq<Name>, t: Snapshot)
    requires Exploring(g, s, v, targets, |targets|, t)
    requires forall y :: Edge(g, v, y) ==> y in targets
    ensures EdgesStayAbove(g, t, |s.stack| - 1, t.low[v])
  {
    forall i, y | |s.stack| - 1 < i < |t.stack| && Edge(g, t.stack[i], y) && y in t.stack && y in t.num
      ensures t.low[v] <= t.num[y]
    {
      OpenEdges(g, s, v, targets, t, i, y);
    }
  }

  lemma ReturnKeepsStack(g: Digraph, s: Snapshot, v: Name, t: Snapshot)
    requires Running(g, s, v, t)
    ensures var r := Return(t, v);
            StackOk(g, r) && CompsOk(g, r) && Extends(s, r) && r.active == s.active
    ensures |t.stack| > |s.stack| && t.stack[|s.stack|] == v
  {
  }

  lemma ReturnConnects(g: Digraph, s: Snapshot, v: Name, targets: seq<Name>, t: Snapshot)
    requires Exploring(g, s, v, targets, |targets|, t)
    requires forall y :: Edge(g, v, y) ==> y in targets
    requires t.low[v] != t.num[v]
    ensures Connected(g, s, v, Return(t, v))
  {
    var r := Return(t, v);
    ReturnKeepsSearch(g, s, v, targets, t);
    ReturnKeepsStack(g, s, v, t);
    SegmentStaysAbove(g, s, v, targets, t);
    assert EdgesStayAbove(g, r, |s.stack| - 1, r.low[v]);
    var _ := LowLeadsDown(g, s, v, t);
  }

  /** The return that closes the component rooted at `v`: it is the part of the stack from `v` up. */
  function Close(s: Snapshot, t: Snapshot, v: Name, component: seq<Name>): Snapshot {
    t.(stack := s.stack, active := t.active - {v}, comps := t.comps + [component],
       comp := t.comp + map x | x in component :: |t.comps|)
  }

  /** The nodes from `v` up reach each other, and no edge leads from them to a node further down. */
  lemma RootSegment(g: Digraph, s: Snapshot, v: Name, targets: seq<Name>, t: Snapshot, i: nat)
    requires Exploring(g, s, v, targets, |targets|, t)
    requires forall y :: Edge(g, v, y) ==> y in targets
    requires t.low[v] == t.num[v]
    requires |s.stack| <= i < |t.stack|
    ensures Reach(g, v, t.stack[i]) && Reach(g, t.stack[i], v)
    ensures forall y :: Edge(g, t.stack[i], y) ==> y in t.num && (y in t.stack ==> y !in s.stack)
  {
    var p := |s.stack|;
    assert t.stack[p] == v;
    assert ReturnsToActive(g, t, i);
    var j :| 0 <= j <= i && t.stack[j] in t.active && Reach(g, t.stack[i], t.stack[j]);
    ActiveReachesTop(g, s, v, t, j);
    ReachTrans(g, t.stack[i], t.stack[j], v);
    forall y | Edge(g, t.stack[i], y)
      ensures y in t.num && (y in t.stack ==> y !in s.stack)
    {
      OpenEdges(g, s, v, targets, t, i, y);
      assert forall q :: 0 <= q < |s.stack| ==> t.stack[q] == s.stack[q];
    }
  }

  /** What the popped component is: the part of the stack from `v` up, sorted. */
  ghost predicate IsSegment(s: Snapshot, t: Snapshot, component: seq<Name>) {
    && |s.stack| <= |t.stack|
    && Increasing(component)
    && Elements(component) == Elements(t.stack[|s.stack|..])
  }

  lemma SegmentMember(s: Snapshot, t: Snapshot, component: seq<Name>, x: Name)
    requires IsSegment(s, t, component)
    ensures x in component <==> exists i :: |s.stack| <= i < |t.stack| && t.stack[i] == x
  {
    assert x in component <==> x in t.stack[|s.stack|..];
    if x in t.stack[|s.stack|..] {
      var k :| 0 <= k < |t.stack[|s.stack|..]| && t.stack[|s.stack|..][k] == x;
      assert t.stack[|s.stack| + k] == x;
    }
    if i :| |s.stack| <= i < |t.stack| && t.stack[i] == x {
      assert t.stack[|s.stack|..][i - |s.stack|] == x;
    }
  }

  /** A numbered node is in the component, on the rest of the stack, or closed; never two of these. */
  lemma SegmentSplits(g: Digraph, s: Snapshot, v: Name, t: Snapshot, component: seq<Name>, x: Name)
    requires Running(g, s, v, t) && IsSegment(s, t, component)
    ensures x in component ==> x in t.num && x !in s.stack && x !in t.comp
    ensures x in t.num ==> x in component || x in s.stack || x in t.comp
    ensures x in t.stack <==> x in component || x in s.stack
  {
    SegmentMember(s, t, component, x);
    assert forall q :: 0 <= q < |s.stack| ==> t.stack[q] == s.stack[q];
    if x in t.stack {
      var i :| 0 <= i < |t.stack| && t.stack[i] == x;
      assert i < |s.stack| ==> s.stack[i] == x;
    }
    if x in s.stack {
      var q :| 0 <= q < |s.stack| && s.stack[q] == x;
      assert t.stack[q] == x;
    }
  }

  /** Membership in the component table after closing. */
  lemma CloseComp(g: Digraph, s: Snapshot, v: Name, t: Snapshot, component: seq<Name>, x: Name)
    requires Running(g, s, v, t) && IsSegment(s, t, component)
    ensures var comp := Close(s, t, v, component).comp;
            && (x in comp <==> x in t.num && x !in s.stack)
            && (x in comp <==> x in t.comp || x in component)
            && (x in t.comp ==> comp[x] == t.comp[x] && x !in component)
            && (x in component ==> comp[x] == |t.comps|)
  {
    SegmentSplits(g, s, v, t, component, x);
  }

  /** Popping leaves a prefix of the stack in order. */
  lemma PrefixKeepsStack(g: Digraph, t: Snapshot, r: Snapshot)
    requires StackOk(g, t) && r.num == t.num && r.low == t.low && r.index == t.index && r.stack <= t.stack
    requires forall x :: x in r.comp <==> x in r.num && x !in r.stack
    requires forall x :: x in r.active ==> x in r.stack
    ensures StackOk(g, r)
  {
    assert forall i :: 0 <= i < |r.stack| ==> r.stack[i] == t.stack[i];
  }

  lemma ActiveRestored(g: Digraph, s: Snapshot, v: Name, t: Snapshot)
    requires Running(g, s, v, t)
    ensures t.active - {v} == s.active && s.stack <= t.stack && StackOk(g, t)
    ensures forall x :: x in s.active ==> x in s.stack
  {
  }

  lemma CloseCompKeys(g: Digraph, s: Snapshot, v: Name, t: Snapshot, component: seq<Name>)
    requires Running(g, s, v, t) && IsSegment(s, t, component)
    ensures var comp := Close(s, t, v, component).comp;
            forall x :: x in comp <==> x in t.num && x !in s.stack
  {
    forall x
      ensures x in Close(s, t, v, component).comp <==> x in t.num && x !in s.stack
    {
      CloseComp(g, s, v, t, component, x);
    }
  }

  lemma CloseKeepsStack(g: Digraph, s: Snapshot, v: Name, t: Snapshot, component: seq<Name>)
    requires Running(g, s, v, t) && IsSegment(s, t, component)
    ensures var r := Close(s, t, v, component);
            StackOk(g, r) && r.active == s.active
  {
    CloseCompKeys(g, s, v, t, component);
    ActiveRestored(g, s, v, t);
    PrefixKeepsStack(g, t, Close(s, t, v, component));
  }

  lemma CloseExtends(g: Digraph, s: Snapshot, v: Name, t: Snapshot, component: seq<Name>)
    requires Running(g, s, v, t) && IsSegment(s, t, component)
    ensures Extends(s, Close(s, t, v, component))
  {
    var r := Close(s, t, v, component);
    forall x | x in s.comp
      ensures x in r.comp && r.comp[x] == s.comp[x]
    {
      CloseComp(g, s, v, t, component, x);
    }
  }

  /** With the stack and the active nodes as they were, only the finished nodes need checking. */
  lemma SameStackKeepsSearch(g: Digraph, s: Snapshot, r: Snapshot)
    requires SearchOk(g, s) && r.stack == s.stack && r.active == s.active
    requires forall x, y :: x in r.num && x !in r.active && Edge(g, x, y) ==> y in r.num
    ensures SearchOk(g, r)
  {
    forall i | 0 <= i < |r.stack|
      ensures ReturnsToActive(g, r, i)
    {
      assert ReturnsToActive(g, s, i);
    }
  }

  lemma CloseKeepsSearch(g: Digraph, s: Snapshot, v: Name, targets: seq<Name>, t: Snapshot, component: seq<Name>)
    requires Exploring(g, s, v, targets, |targets|, t)
    requires forall y :: Edge(g, v, y) ==> y in targets
    ensures SearchOk(g, Close(s, t, v, component))
  {
    var r := Close(s, t, v, component);
    assert r.active == s.active;
    forall x, y | x in r.num && x !in r.active && Edge(g, x, y)
      ensures y in r.num
    {
      if x == v {
        assert t.stack[|s.stack|] == v;
        OpenEdges(g, s, v, targets, t, |s.stack|, y);
      }
    }
    SameStackKeepsSearch(g, s, r);
  }

  lemma AppendNumbering(comp: map<Name, nat>, comps: seq<seq<Name>>, component: seq<Name>, comp': map<Name, nat>)
    requires IsNumbering(comp, comps) && component != [] && Increasing(component)
    requires comp'.Keys == comp.Keys + Elements(component)
    requires forall x :: x in comp ==> comp'[x] == comp[x] && x !in component
    requires forall x :: x in component && x in comp' ==> comp'[x] == |comps|
    ensures IsNumbering(comp', comps + [component])
  {
  }

  lemma CloseKeepsNumbering(g: Digraph, s: Snapshot, v: Name, t: Snapshot, component: seq<Name>)
    requires Running(g, s, v, t) && IsSegment(s, t, component)
    ensures var r := Close(s, t, v, component);
            IsNumbering(r.comp, r.comps)
  {
    var r := Close(s, t, v, component);
    assert t.stack[|s.stack|] == v;
    SegmentMember(s, t, component, v);
    forall x
      ensures x in t.comp ==> r.comp[x] == t.comp[x] && x !in component
    {
      CloseComp(g, s, v, t, component, x);
    }
    AppendNumbering(t.comp, t.comps, component, r.comp);
  }

  lemma CloseKeepsComps(g: Digraph, s: Snapshot, v: Name, targets: seq<Name>, t: Snapshot, component: seq<Name>)
    requires Exploring(g, s, v, targets, |targets|, t)
    requires forall y :: Edge(g, v, y) ==> y in targets
    requires IsSegment(s, t, component)
    requires t.low[v] == t.num[v]
    ensures var r := Close(s, t, v, component);
            && (forall x, y :: x in r.comp && y in r.comp && r.comp[x] == r.comp[y] ==> Reach(g, x, y))
            && EdgesDescend(g, r.comp)
  {
    var r := Close(s, t, v, component);
    forall x | x in component
      ensures Reach(g, v, x) && Reach(g, x, v)
      ensures forall y :: Edge(g, x, y) ==> y in t.num && (y in t.stack ==> y !in s.stack)
    {
      SegmentMember(s, t, component, x);
      var i :| |s.stack| <= i < |t.stack| && t.stack[i] == x;
      RootSegment(g, s, v, targets, t, i);
    }
    forall x, y | x in r.comp && y in r.comp && r.comp[x] == r.comp[y]
      ensures Reach(g, x, y)
    {
      CloseComp(g, s, v, t, component, x);
      CloseComp(g, s, v, t, component, y);
      if x in component {
        ReachTrans(g, x, v, y);
      }
    }
    forall x, y | x in r.comp && Edge(g, x, y)
      ensures y in r.comp && r.comp[y] <= r.comp[x]
    {
      CloseComp(g, s, v, t, component, x);
      CloseComp(g, s, v, t, component, y);
    }
  }

  lemma CloseConnects(g: Digraph, s: Snapshot, v: Name, targets: seq<Name>, t: Snapshot, component: seq<Name>)
    requires Exploring(g, s, v, targets, |targets|, t)
    requires forall y :: Edge(g, v, y) ==> y in targets
    requires IsSegment(s, t, component)
    requires t.low[v] == t.num[v]
    ensures Connected(g, s, v, Close(s, t, v, component))
  {
    CloseKeepsStack(g, s, v, t, component);
    CloseExtends(g, s, v, t, component);
    CloseKeepsSearch(g, s, v, targets, t, component);
    CloseKeepsNumbering(g, s, v, t, component);
    CloseKeepsComps(g, s, v, targets, t, component);
  }

  // ----- the search

  /** The variables that `strongConnect` captures. */
  class Search {
    const adjacency: map<Name, seq<Name>>
    var index: nat
    var stack: seq<Name>
    var onStack: set<Name>
    var indexByNode: map<Name, nat>
    var lowLink: map<Name, nat>
    var componentOf: map<Name, nat>
    var components: seq<seq<Name>>
    ghost var active: set<Name>

    ghost function State(): Snapshot
      reads this
    {
      Snapshot(index, stack, indexByNode, lowLink, componentOf, components, active)
    }

    ghost predicate Valid()
      reads this
    {
      && Inv(AdjacencyGraph(adjacency), State())
      && onStack == Elements(stack)
    }

    constructor (adjacency: map<Name, seq<Name>>)
      ensures Valid() && this.adjacency == adjacency
      ensures indexByNode == map[] && active == {} && stack == []
    {
      this.adjacency := adjacency;
      index, stack, onStack := 0, [], {};
      indexByNode, lowLink, componentOf, components := map[], map[], map[], [];
      active := {};
    }

    /** Numbers `v` and everything it reaches that has no number yet, and closes every component
        whose root is among them. */
    method StrongConnect(v: Name)
      requires Valid() && Closed(AdjacencyGraph(adjacency))
      requires v in adjacency && v !in indexByNode
      requires forall i :: 0 <= i < |stack| && stack[i] in active ==> Reach(AdjacencyGraph(adjacency), stack[i], v)
      modifies this
      ensures Valid()
      ensures Connected(AdjacencyGraph(adjacency), old(State()), v, State())
      decreases adjacency.Keys - indexByNode.Keys, 1
    {
      hide SearchOk, CompsOk, EdgesStayAbove, TargetsStayAbove, LowIsBelow, Reach;
      ghost var g := AdjacencyGraph(adjacency);
      ghost var s := State();
      var targets := adjacency[v];
      Enter(v, targets);
      var k := 0;
      while k < |targets|
        invariant k <= |targets| && onStack == Elements(stack)
        invariant Exploring(g, s, v, targets, k, State())
      {
        Follow(v, targets, k, s);
        k := k + 1;
      }
      Leave(v, targets, s);
    }

    /** The end of the call on `v`: if it is a root, its component is closed. */
    method Leave(v: Name, ghost targets: seq<Name>, ghost s: Snapshot)
      requires onStack == Elements(stack) && v in adjacency && targets == adjacency[v]
      requires Exploring(AdjacencyGraph(adjacency), s, v, targets, |targets|, State())
      modifies this
      ensures Valid() && Connected(AdjacencyGraph(adjacency), s, v, State())
    {
      hide SearchOk, CompsOk, EdgesStayAbove, TargetsStayAbove, LowIsBelow, Reach, Running;
      ghost var g, t := AdjacencyGraph(adjacency), State();
      SegmentFrame(g, s, v, t);
      if lowLink[v] != indexByNode[v] {
        ReturnConnects(g, s, v, targets, t);
        active := active - {v};
      } else {
        ghost var component := CloseRoot(v, |s.stack|);
        CloseConnects(g, s, v, targets, t, component);
        assert State() == Close(s, t, v, component);
      }
    }

    method Enter(v: Name, ghost targets: seq<Name>)
      requires Valid()
      requires v in adjacency && v !in indexByNode
      requires forall i :: 0 <= i < |stack| && stack[i] in active ==> Reach(AdjacencyGraph(adjacency), stack[i], v)
      modifies this
      ensures onStack == Elements(stack)
      ensures State() == Push(old(State()), v)
      ensures Exploring(AdjacencyGraph(adjacency), old(State()), v, targets, 0, State())
    {
      PushExplores(AdjacencyGraph(adjacency), State(), v, targets);
      indexByNode := indexByNode[v := index];
      lowLink := lowLink[v := index];
      index := index + 1;
      stack := stack + [v];
      onStack := onStack + {v};
      active := active + {v};
    }

    /** One turn of the loop over the targets of `v`. */
    method Follow(v: Name, targets: seq<Name>, k: nat, ghost s: Snapshot)
      requires v in adjacency && targets == adjacency[v] && k < |targets|
      requires Closed(AdjacencyGraph(adjacency)) && onStack == Elements(stack)
      requires Exploring(AdjacencyGraph(adjacency), s, v, targets, k, State())
      modifies this
      ensures onStack == Elements(stack)
      ensures Exploring(AdjacencyGraph(adjacency), s, v, targets, k + 1, State())
      decreases adjacency.Keys - s.num.Keys, 0
    {
      hide SearchOk, CompsOk, EdgesStayAbove, TargetsStayAbove, LowIsBelow, Reach;
      ghost var g := AdjacencyGraph(adjacency);
      ghost var t := State();
      var w := targets[k];
      assert Edge(g, v, w);
      if w !in indexByNode {
        FollowsActive(g, s, v, t, w);
        assert adjacency.Keys - indexByNode.Keys < adjacency.Keys - s.num.Keys by {
          assert v in adjacency.Keys - s.num.Keys && v !in adjacency.Keys - indexByNode.Keys;
          assert forall x :: x in s.num ==> x in t.num;
        }
        StrongConnect(w);
        ghost var u := State();
        ChildExplored(g, s, v, targets, k, t, u);
        if lowLink[w] < lowLink[v] {
          lowLink := lowLink[v := lowLink[w]];
        }
        assert State() == Lower(u, v, u.low[w]);
      } else if w in onStack && indexByNode[w] < lowLink[v] {
        OpenExplored(g, s, v, targets, k, t);
        lowLink := lowLink[v := indexByNode[w]];
      } else if w in onStack {
        OpenExplored(g, s, v, targets, k, t);
      } else {
        ClosedExplored(g, s, v, targets, k, t);
      }
    }

    /** Pops and records the component whose root is `v`. */
    method CloseRoot(v: Name, ghost p: nat) returns (component: seq<Name>)
      requires p < |stack| && stack[p] == v && Distinct(stack) && onStack == Elements(stack)
      modifies this
      ensures onStack == Elements(stack)
      ensures Increasing(component) && Elements(component) == Elements(old(stack)[p..])
      ensures stack == old(stack)[..p] && active == old(active) - {v}
      ensures components == old(components) + [component]
      ensures componentOf == old(componentOf) + map x | x in component :: old(|components|)
      ensures index == old(index) && indexByNode == old(indexByNode) && lowLink == old(lowLink)
    {
      component := PopTo(v, p);
      component := SortedKeys(Elements(component));
      var compID := |components|;
      components := components + [component];
      AssignComponent(component, compID);
      active := active - {v};
    }

    /** Pops the stack down to and including `v`. */
    method PopTo(v: Name, ghost p: nat) returns (component: seq<Name>)
      requires p < |stack| && stack[p] == v && Distinct(stack) && onStack == Elements(stack)
      modifies this`stack, this`onStack
      ensures stack == old(stack)[..p] && onStack == Elements(stack)
      ensures Elements(component) == Elements(old(stack)[p..])
    {
      component := [];
      ghost var m := |stack|;
      while true
        invariant p < m <= |old(stack)| && stack == old(stack)[..m] && onStack == Elements(stack)
        invariant Elements(component) == Elements(old(stack)[m..])
        decreases |stack|
      {
        var last := stack[|stack| - 1];
        assert stack == stack[..|stack| - 1] + [last];
        stack := stack[..|stack| - 1];
        onStack := onStack - {last};
        component := component + [last];
        assert old(stack)[m - 1..] == [last] + old(stack)[m..];
        m := m - 1;
        if last == v {
          break;
        }
      }
    }

    method AssignComponent(component: seq<Name>, compID: nat)
      modifies this`componentOf
      ensures componentOf == old(componentOf) + map x | x in component :: compID
    {
      for k := 0 to |component|
        invariant componentOf == old(componentOf) + map x | x in component[..k] :: compID
      {
        componentOf := componentOf[component[k] := compID];
      }
    }
  }

  /** Everything reachable from a closed component lies in components with ids no larger. */
  lemma ReachDescends(g: Digraph, componentOf: map<Name, nat>, x: Name, y: Name)
    requires EdgesDescend(g, componentOf) && x in componentOf && Reach(g, x, y)
    ensures y in componentOf && componentOf[y] <= componentOf[x]
  {
    var below := set z | z in componentOf && componentOf[z] <= componentOf[x];
    ReachClosed(g, below, x, y);
  }

  lemma NothingActive(g: Digraph, s: Snapshot)
    requires Inv(g, s) && s.active == {}
    ensures s.stack == [] && s.comp.Keys == s.num.Keys
    ensures IsNumbering(s.comp, s.comps) && MutualReachability(g, s.comp) && EdgesDescend(g, s.comp)
  {
    assert s.stack != [] ==> ReturnsToActive(g, s, 0);
    assert forall x :: x in s.comp <==> x in s.num;
    forall x, y | x in s.comp && y in s.comp && Reach(g, x, y) && Reach(g, y, x)
      ensures s.comp[x] == s.comp[y]
    {
      ReachDescends(g, s.comp, x, y);
      ReachDescends(g, s.comp, y, x);
    }
  }

  method StronglyConnectedComponents(nodes: seq<Name>, adjacency: map<Name, seq<Name>>)
    returns (componentOf: map<Name, nat>, components: seq<seq<Name>>)
    requires Elements(nodes) == adjacency.Keys && Closed(AdjacencyGraph(adjacency))
    ensures AreComponents(AdjacencyGraph(adjacency), componentOf, components)
  {
    hide SearchOk, CompsOk, EdgesStayAbove, LowIsBelow, EdgesDescend, IsNumbering;
    ghost var g := AdjacencyGraph(adjacency);
    var search := new Search(adjacency);
    for k := 0 to |nodes|
      invariant fresh(search) && search.Valid() && search.adjacency == adjacency && search.active == {}
      invariant forall j :: 0 <= j < k ==> nodes[j] in search.indexByNode
    {
      assert nodes[k] in Elements(nodes);
      if nodes[k] !in search.indexByNode {
        ghost var before := search.State();
        search.StrongConnect(nodes[k]);
        assert Connected(g, before, nodes[k], search.State());
        assert forall j :: 0 <= j < k ==> nodes[j] in before.num;
        assert forall x :: x in before.num ==> x in search.indexByNode;
      }
    }
    NothingActive(g, search.State());
    assert search.indexByNode.Keys == g.Keys by {
      assert forall x :: x in g ==> x in Elements(nodes) && x in search.indexByNode;
    }
    return search.componentOf, search.components;
  }
}
