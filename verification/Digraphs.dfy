/** Directed graphs over module names: edges, walks, reachability and shortest distance.
    Every algorithm of the import graph is specified in these terms. */
module Digraphs {
  import opened Collections

  /** A module name or a file path. Only equality and the total order that `sort.Strings` uses
      matter to the algorithms, so a name is represented by its rank in that order. */
  type Name = int

  /** The successors of each node. A node without an entry has no successors. */
  type Digraph = map<Name, set<Name>>

  predicate Edge(g: Digraph, x: Name, y: Name) {
    x in g && y in g[x]
  }

  /** Every edge ends at a node of the graph. */
  ghost predicate Closed(g: Digraph) {
    forall x, y :: Edge(g, x, y) ==> y in g
  }

  ghost predicate IsWalk(g: Digraph, p: seq<Name>) {
    && |p| >= 1
    && forall i, j :: 0 <= i < |p| && j == i + 1 && j < |p| ==> Edge(g, p[i], p[j])
  }

  ghost predicate WalkFromTo(g: Digraph, x: Name, p: seq<Name>, y: Name) {
    IsWalk(g, p) && p[0] == x && p[|p| - 1] == y
  }

  ghost predicate Reach(g: Digraph, x: Name, y: Name) {
    exists p :: WalkFromTo(g, x, p, y)
  }

  /** Reachability along at least one edge. */
  ghost predicate ReachPlus(g: Digraph, x: Name, y: Name) {
    exists z :: Edge(g, x, z) && Reach(g, z, y)
  }

  /** A closed walk takes at least one edge and ends where it starts. */
  ghost predicate IsClosedWalk(g: Digraph, p: seq<Name>) {
    IsWalk(g, p) && |p| >= 2 && p[0] == p[|p| - 1]
  }

  ghost predicate Increasing(s: seq<Name>) {
    forall i, j :: 0 <= i < j < |s| ==> s[i] < s[j]
  }

  function Elements(s: seq<Name>): (r: set<Name>)
    ensures forall x :: x in r <==> x in s
  {
    set x | x in s
  }

  lemma PrefixGrows(s: seq<Name>, k: nat)
    requires k < |s|
    ensures Elements(s[..k + 1]) == Elements(s[..k]) + {s[k]} && s[k] in Elements(s)
    ensures Increasing(s) ==> s[k] !in Elements(s[..k])
  {
    assert s[..k + 1] == s[..k] + [s[k]];
  }

  lemma Shrinks(all: set<Name>, a: set<Name>, b: set<Name>)
    requires a <= b <= all
    ensures all - b <= all - a && (a != b ==> all - b < all - a)
  {
    if x :| x in b && x !in a {
      assert x in all - a && x !in all - b;
    } else {
      assert forall x :: x in b ==> x in a;
      assert b <= a;
    }
  }

  lemma {:induction false} SizeOfDistinct(s: seq<Name>)
    requires Distinct(s)
    ensures |Elements(s)| == |s|
    decreases |s|
  {
    if s != [] {
      var init, last := s[..|s| - 1], s[|s| - 1];
      SizeOfDistinct(init);
      assert Elements(s) == Elements(init) + {last};
    }
  }

  lemma WholePrefix(s: seq<Name>)
    ensures s[..|s|] == s
  {
  }

  /** The graph with every edge turned round. */
  ghost predicate IsReverse(g: Digraph, h: Digraph) {
    forall x, y :: Edge(g, x, y) <==> Edge(h, y, x)
  }

  lemma WalkAppend(g: Digraph, x: Name, p: seq<Name>, y: Name, z: Name)
    requires WalkFromTo(g, x, p, y) && Edge(g, y, z)
    ensures WalkFromTo(g, x, p + [z], z)
  {
  }

  lemma WalkConcat(g: Digraph, x: Name, p: seq<Name>, y: Name, q: seq<Name>, z: Name)
    requires WalkFromTo(g, x, p, y) && WalkFromTo(g, y, q, z)
    ensures WalkFromTo(g, x, p + q[1..], z)
  {
    var r := p + q[1..];
    forall i, j | 0 <= i < |r| && j == i + 1 && j < |r|
      ensures Edge(g, r[i], r[j])
    {
      if i >= |p| - 1 {
        assert r[i] == q[i - |p| + 1] && r[j] == q[j - |p| + 1];
      }
    }
  }

  lemma WalkSlice(g: Digraph, p: seq<Name>, lo: nat, hi: nat)
    requires IsWalk(g, p) && lo < hi <= |p|
    ensures WalkFromTo(g, p[lo], p[lo..hi], p[hi - 1])
  {
  }

  lemma ReachRefl(g: Digraph, x: Name)
    ensures Reach(g, x, x)
  {
    assert WalkFromTo(g, x, [x], x);
  }

  lemma ReachEdge(g: Digraph, x: Name, y: Name)
    requires Edge(g, x, y)
    ensures Reach(g, x, y)
  {
    assert WalkFromTo(g, x, [x, y], y);
  }

  lemma ReachTrans(g: Digraph, x: Name, y: Name, z: Name)
    requires Reach(g, x, y) && Reach(g, y, z)
    ensures Reach(g, x, z)
  {
    var p :| WalkFromTo(g, x, p, y);
    var q :| WalkFromTo(g, y, q, z);
    WalkConcat(g, x, p, y, q, z);
  }

  lemma ReachStep(g: Digraph, x: Name, y: Name, z: Name)
    requires Reach(g, x, y) && Edge(g, y, z)
    ensures Reach(g, x, z)
  {
    ReachEdge(g, y, z);
    ReachTrans(g, x, y, z);
  }

  /** A set that no edge leaves holds everything reachable from its members. */
  lemma {:induction false} ReachStaysIn(g: Digraph, s: set<Name>, p: seq<Name>, x: Name, y: Name)
    requires forall u, w :: u in s && Edge(g, u, w) ==> w in s
    requires x in s && WalkFromTo(g, x, p, y)
    ensures y in s
    decreases |p|
  {
    if |p| > 1 {
      assert Edge(g, p[0], p[1]);
      WalkSlice(g, p, 1, |p|);
      ReachStaysIn(g, s, p[1..], p[1], y);
    }
  }

  lemma ReachClosed(g: Digraph, s: set<Name>, x: Name, y: Name)
    requires forall u, w :: u in s && Edge(g, u, w) ==> w in s
    requires x in s && Reach(g, x, y)
    ensures y in s
  {
    var p :| WalkFromTo(g, x, p, y);
    ReachStaysIn(g, s, p, x, y);
  }

  lemma ReachPlusIsReach(g: Digraph, x: Name, y: Name)
    requires ReachPlus(g, x, y)
    ensures Reach(g, x, y)
  {
    var z :| Edge(g, x, z) && Reach(g, z, y);
    ReachEdge(g, x, z);
    ReachTrans(g, x, z, y);
  }

  lemma ReachDistinctIsPlus(g: Digraph, x: Name, y: Name)
    requires Reach(g, x, y) && x != y
    ensures ReachPlus(g, x, y)
  {
    var p :| WalkFromTo(g, x, p, y);
    WalkSlice(g, p, 1, |p|);
    assert Edge(g, p[0], p[1]);
  }

  /** A potential that grows by at most one along each edge is a lower bound on the length of any
      walk from a node where it is zero. */
  lemma {:induction false} PotentialBoundsWalk(g: Digraph, f: Name -> nat, p: seq<Name>)
    requires forall x, y :: Edge(g, x, y) ==> f(y) <= f(x) + 1
    requires IsWalk(g, p) && f(p[0]) == 0
    ensures f(p[|p| - 1]) <= |p| - 1
    decreases |p|
  {
    if |p| > 1 {
      var q := p[..|p| - 1];
      WalkSlice(g, p, 0, |p| - 1);
      PotentialBoundsWalk(g, f, q);
      assert Edge(g, p[|p| - 2], p[|p| - 1]);
    }
  }

  /** Walks can be reversed together with the graph. */
  lemma {:induction false} ReverseReach(g: Digraph, h: Digraph, p: seq<Name>, x: Name, y: Name)
    requires IsReverse(g, h) && WalkFromTo(g, x, p, y)
    ensures Reach(h, y, x)
    decreases |p|
  {
    if |p| == 1 {
      ReachRefl(h, x);
    } else {
      WalkSlice(g, p, 1, |p|);
      ReverseReach(g, h, p[1..], p[1], y);
      assert Edge(h, p[1], p[0]);
      ReachStep(h, y, p[1], x);
    }
  }

  lemma ReachReversed(g: Digraph, h: Digraph, x: Name, y: Name)
    requires IsReverse(g, h)
    ensures Reach(g, x, y) <==> Reach(h, y, x)
  {
    if Reach(g, x, y) {
      var p :| WalkFromTo(g, x, p, y);
      ReverseReach(g, h, p, x, y);
    }
    if Reach(h, y, x) {
      var p :| WalkFromTo(h, y, p, x);
      ReverseReach(h, g, p, y, x);
    }
  }

  /** One element inserted into its place in an ascending list. */
  function Insert(x: Name, s: seq<Name>): (r: seq<Name>)
    requires Increasing(s) && x !in s
    ensures Increasing(r) && Elements(r) == Elements(s) + {x} && |r| == |s| + 1
  {
    if s == [] then [x]
    else if x < s[0] then [x] + s
    else
      var t := Insert(x, s[1..]);
      assert forall i :: 0 <= i < |t| ==> s[0] < t[i] by {
        assert forall i :: 0 <= i < |t| ==> t[i] in Elements(t);
      }
      [s[0]] + t
  }

  lemma SomeElement(s: set<Name>)
    ensures s == {} || exists x :: x in s
  {
    if forall x :: x !in s {
      assert s == {};
    }
  }

  /** The effect of collecting the keys of a Go map, in whatever order the map yields them, and
      sorting the slice. */
  method SortedKeys(keys: set<Name>) returns (r: seq<Name>)
    ensures Increasing(r) && Elements(r) == keys
  {
    r := [];
    var rest := keys;
    while rest != {}
      invariant rest <= keys && Increasing(r) && Elements(r) == keys - rest
      decreases rest
    {
      SomeElement(rest);
      var k :| k in rest;
      r := Insert(k, r);
      rest := rest - {k};
    }
  }

  /** Each target of one source gains one importer. */
  method CountTargets(targets: seq<Name>, before: map<Name, nat>) returns (fanIn: map<Name, nat>)
    requires Increasing(targets) && forall j :: 0 <= j < |targets| ==> targets[j] in before
    ensures fanIn.Keys == before.Keys
    ensures forall m :: m in before ==> fanIn[m] == before[m] + if m in targets then 1 else 0
  {
    fanIn := before;
    for j := 0 to |targets|
      invariant fanIn.Keys == before.Keys
      invariant forall m :: m in before ==> fanIn[m] == before[m] + if m in targets[..j] then 1 else 0
    {
      assert targets[..j + 1] == targets[..j] + [targets[j]];
      fanIn := fanIn[targets[j] := fanIn[targets[j]] + 1];
    }
    assert targets[..|targets|] == targets;
  }
}
