/** The depth-first cycle detector. */
module Cycles {
  import opened Collections
  import opened Digraphs
  import opened ImportGraph

  /** The modules of the graph and the imports between them. */
  function InternalGraph(s: State): Digraph {
    map m | m in s.modules :: set t | t in Edges(s.imports, m) && t in s.modules
  }

  lemma InternalClosed(s: State)
    ensures Closed(InternalGraph(s))
  {
  }

  // ----- what is reported

  /** A simple closed walk: distinct modules, each importing the next and the last importing the first. */
  ghost predicate IsCycle(g: Digraph, c: seq<Name>) {
    IsWalk(g, c) && Distinct(c) && Edge(g, c[|c| - 1], c[0])
  }

  /** Some reported cycle closes with the edge from `x` to `y`. */
  ghost predicate Closes(cycles: seq<seq<Name>>, x: Name, y: Name) {
    exists k :: 0 <= k < |cycles| && cycles[k] != [] && cycles[k][|cycles[k]| - 1] == x && cycles[k][0] == y
  }

  ghost predicate HasClosingStep(cycles: seq<seq<Name>>, p: seq<Name>) {
    exists i :: 0 <= i < |p| - 1 && Closes(cycles, p[i], p[i + 1])
  }

  /** Every report is a cycle, and every closed walk takes the closing edge of some report: without those
      edges the graph is acyclic. */
  ghost predicate ReportsCycles(g: Digraph, cycles: seq<seq<Name>>) {
    && (forall k :: 0 <= k < |cycles| ==> IsCycle(g, cycles[k]))
    && (forall p :: IsClosedWalk(g, p) ==> HasClosingStep(cycles, p))
  }

  // ----- the search

  datatype Frame = Frame(mod: Name, neighbors: seq<Name>, nextIdx: nat)

  /** The variables of the search at one moment; `finished` lists the modules already popped. */
  datatype Search = Search(stack: seq<Frame>, path: seq<Name>, finished: seq<Name>, cycles: seq<seq<Name>>)

  ghost predicate FrameOk(g: Digraph, f: Frame) {
    f.mod in g && Increasing(f.neighbors) && Elements(f.neighbors) == g[f.mod] && f.nextIdx <= |f.neighbors|
  }

  /** The path is a walk of distinct open modules, one for each frame. */
  ghost predicate PathOk(g: Digraph, s: Search) {
    && |s.stack| == |s.path|
    && (forall i :: 0 <= i < |s.path| ==> s.stack[i].mod == s.path[i] && FrameOk(g, s.stack[i]))
    && Distinct(s.path)
    && (forall i, j :: 0 <= i < |s.path| && j == i + 1 && j < |s.path| ==> Edge(g, s.path[i], s.path[j]))
    && (forall x :: x in s.path ==> x !in s.finished)
  }

  /** Each neighbour already looked at is finished, closes a reported cycle, or is the next on the path. */
  ghost predicate HandledOk(s: Search)
    requires |s.stack| == |s.path|
  {
    forall i, k :: 0 <= i < |s.path| && 0 <= k < s.stack[i].nextIdx && k < |s.stack[i].neighbors| ==>
      var y := s.stack[i].neighbors[k];
      y in s.finished || Closes(s.cycles, s.path[i], y) || (i + 1 < |s.path| && y == s.path[i + 1])
  }

  /** An edge out of a finished module ends at one finished earlier or closes a reported cycle. */
  ghost predicate FinishedOk(g: Digraph, s: Search) {
    forall k, y :: 0 <= k < |s.finished| && Edge(g, s.finished[k], y) ==>
      y in s.finished[..k] || Closes(s.cycles, s.finished[k], y)
  }

  ghost predicate SearchOk(g: Digraph, s: Search) {
    && PathOk(g, s) && HandledOk(s) && FinishedOk(g, s)
    && (forall k :: 0 <= k < |s.cycles| ==> IsCycle(g, s.cycles[k]))
    && (forall x :: x in s.finished ==> x in g)
  }

  lemma ClosesMore(cycles: seq<seq<Name>>, c: seq<Name>, x: Name, y: Name)
    requires Closes(cycles, x, y)
    ensures Closes(cycles + [c], x, y)
  {
    var k :| 0 <= k < |cycles| && cycles[k] != [] && cycles[k][|cycles[k]| - 1] == x && cycles[k][0] == y;
    assert (cycles + [c])[k] == cycles[k];
  }

  function Advance(s: Search): Search
    requires s.stack != []
  {
    var top := s.stack[|s.stack| - 1];
    s.(stack := s.stack[..|s.stack| - 1] + [top.(nextIdx := top.nextIdx + 1)])
  }

  function NextOf(s: Search): Name
    requires s.stack != [] && s.stack[|s.stack| - 1].nextIdx < |s.stack[|s.stack| - 1].neighbors|
  {
    s.stack[|s.stack| - 1].neighbors[s.stack[|s.stack| - 1].nextIdx]
  }

  ghost predicate HasNext(s: Search) {
    s.stack != [] && s.stack[|s.stack| - 1].nextIdx < |s.stack[|s.stack| - 1].neighbors|
  }

  lemma NextIsEdge(g: Digraph, s: Search)
    requires PathOk(g, s) && HasNext(s)
    ensures Edge(g, s.path[|s.path| - 1], NextOf(s))
  {
    var top := s.stack[|s.stack| - 1];
    assert FrameOk(g, top);
    assert NextOf(s) in Elements(top.neighbors);
  }

  /** The next neighbour is open: the path from it to the top is a cycle. */
  lemma ReportKeeps(g: Digraph, s: Search, start: nat)
    requires SearchOk(g, s) && HasNext(s)
    requires start < |s.path| && s.path[start] == NextOf(s)
    ensures SearchOk(g, Advance(s).(cycles := s.cycles + [s.path[start..]]))
  {
    var c, x, y := s.path[start..], s.path[|s.path| - 1], NextOf(s);
    var t := Advance(s).(cycles := s.cycles + [c]);
    NextIsEdge(g, s);
    assert IsCycle(g, c);
    assert t.cycles[|s.cycles|] == c && c[|c| - 1] == x && c[0] == y;
    assert Closes(t.cycles, x, y);
    forall u, w | Closes(s.cycles, u, w)
      ensures Closes(t.cycles, u, w)
    {
      ClosesMore(s.cycles, c, u, w);
    }
    hide Closes, IsCycle, FrameOk;
    assert forall i :: 0 <= i < |s.path| - 1 ==> t.stack[i] == s.stack[i];
    assert HandledOk(t);
  }

  /** The next neighbour is finished. */
  lemma SkipKeeps(g: Digraph, s: Search)
    requires SearchOk(g, s) && HasNext(s) && NextOf(s) in s.finished
    ensures SearchOk(g, Advance(s))
  {
    hide Closes, IsCycle;
    var t := Advance(s);
    assert forall i :: 0 <= i < |s.path| - 1 ==> t.stack[i] == s.stack[i];
  }

  /** The next neighbour is new: it is pushed. */
  lemma PushKeeps(g: Digraph, s: Search, neighbors: seq<Name>)
    requires SearchOk(g, s) && HasNext(s)
    requires var y := NextOf(s); y !in s.finished && y !in s.path && FrameOk(g, Frame(y, neighbors, 0))
    ensures var y := NextOf(s);
            SearchOk(g, Advance(s).(stack := Advance(s).stack + [Frame(y, neighbors, 0)], path := s.path + [y]))
  {
    var y := NextOf(s);
    NextIsEdge(g, s);
    hide Closes, IsCycle;
    var t := Advance(s).(stack := Advance(s).stack + [Frame(y, neighbors, 0)], path := s.path + [y]);
    assert forall i :: 0 <= i < |s.path| - 1 ==> t.stack[i] == s.stack[i];
    assert FrameOk(g, t.stack[|s.path| - 1]);
    assert HandledOk(t);
    assert PathOk(g, t);
  }

  /** The edges of the top module end at finished modules or close a reported cycle. */
  lemma PopFinishes(g: Digraph, s: Search)
    requires SearchOk(g, s) && s.stack != [] && !HasNext(s)
    ensures FinishedOk(g, s.(finished := s.finished + [s.path[|s.path| - 1]]))
  {
    hide Closes, IsCycle;
    var top := s.stack[|s.stack| - 1];
    var finished := s.finished + [s.path[|s.path| - 1]];
    assert FrameOk(g, top);
    forall k, y | 0 <= k < |finished| && Edge(g, finished[k], y)
      ensures y in finished[..k] || Closes(s.cycles, finished[k], y)
    {
      if k < |s.finished| {
        assert finished[..k] == s.finished[..k];
      } else {
        assert finished[..k] == s.finished;
        assert y in Elements(top.neighbors);
        var i :| 0 <= i < |top.neighbors| && top.neighbors[i] == y;
      }
    }
  }

  /** All neighbours of the top are handled: it is finished. */
  lemma PopKeeps(g: Digraph, s: Search)
    requires SearchOk(g, s) && s.stack != [] && !HasNext(s)
    ensures var x := s.path[|s.path| - 1];
            SearchOk(g, s.(stack := s.stack[..|s.stack| - 1], path := s.path[..|s.path| - 1],
              finished := s.finished + [x]))
  {
    var n := |s.path|;
    var x, top := s.path[n - 1], s.stack[n - 1];
    var t := s.(stack := s.stack[..n - 1], path := s.path[..n - 1], finished := s.finished + [x]);
    hide Closes, IsCycle, FinishedOk;
    PopFinishes(g, s);
    forall i, k | 0 <= i < |t.path| && 0 <= k < t.stack[i].nextIdx && k < |t.stack[i].neighbors|
      ensures var y := t.stack[i].neighbors[k];
              y in t.finished || Closes(t.cycles, t.path[i], y) || (i + 1 < |t.path| && y == t.path[i + 1])
    {
      assert t.stack[i] == s.stack[i] && t.path[i] == s.path[i];
      assert s.path[n - 1] in t.finished by {
        assert t.finished[|s.finished|] == x;
      }
    }
    assert PathOk(g, t);
  }

  lemma StartKeeps(g: Digraph, s: Search, x: Name, neighbors: seq<Name>, visited: set<Name>, onStack: set<Name>)
    requires SearchOk(g, s) && s.stack == [] && FrameOk(g, Frame(x, neighbors, 0))
    requires MarksOk(g, s, visited, onStack) && x !in visited
    ensures SearchOk(g, s.(stack := [Frame(x, neighbors, 0)], path := [x]))
    ensures MarksOk(g, s.(stack := [Frame(x, neighbors, 0)], path := [x]), visited + {x}, onStack + {x})
  {
  }

  // ----- no closing edge is reported twice

  ghost predicate ClosesWith(c: seq<Name>, x: Name, y: Name) {
    c != [] && c[|c| - 1] == x && c[0] == y
  }

  /** No two reported cycles close with the same edge. */
  ghost predicate CloseOnce(cycles: seq<seq<Name>>) {
    forall j, k, x, y :: 0 <= j < k < |cycles| && ClosesWith(cycles[j], x, y) ==> !ClosesWith(cycles[k], x, y)
  }

  /** The search has looked at the edge from `x` to `y`. */
  ghost predicate LookedAt(s: Search, x: Name, y: Name) {
    x in s.finished || exists i :: LookedAtFrom(s, i, x, y)
  }

  ghost predicate LookedAtFrom(s: Search, i: int, x: Name, y: Name) {
    && 0 <= i < |s.path| && i < |s.stack| && s.path[i] == x
    && exists k :: 0 <= k < s.stack[i].nextIdx && k < |s.stack[i].neighbors| && s.stack[i].neighbors[k] == y
  }

  ghost predicate ClosingsOk(s: Search) {
    && CloseOnce(s.cycles)
    && forall j, x, y :: 0 <= j < |s.cycles| && ClosesWith(s.cycles[j], x, y) ==> LookedAt(s, x, y)
  }

  /** Whatever has been looked at stays so, and no cycle is added. */
  lemma SameClosings(s: Search, t: Search)
    requires ClosingsOk(s) && t.cycles == s.cycles && forall x, y :: LookedAt(s, x, y) ==> LookedAt(t, x, y)
    ensures ClosingsOk(t)
  {
    hide ClosesWith, LookedAt;
  }

  lemma SameFrame(s: Search, t: Search, i: int, x: Name, y: Name)
    requires LookedAtFrom(s, i, x, y) && i < |t.stack| && i < |t.path| && t.path[i] == s.path[i]
    requires t.stack[i].neighbors == s.stack[i].neighbors && t.stack[i].nextIdx >= s.stack[i].nextIdx
    ensures LookedAtFrom(t, i, x, y)
  {
    var k :| 0 <= k < s.stack[i].nextIdx && k < |s.stack[i].neighbors| && s.stack[i].neighbors[k] == y;
    assert t.stack[i].neighbors[k] == y;
  }

  lemma AdvanceLooks(s: Search, x: Name, y: Name)
    requires s.stack != [] && |s.stack| == |s.path|
    ensures LookedAt(s, x, y) ==> LookedAt(Advance(s), x, y)
    ensures HasNext(s) ==> LookedAt(Advance(s), s.path[|s.path| - 1], NextOf(s))
  {
    var t := Advance(s);
    if x !in s.finished && LookedAt(s, x, y) {
      var i :| LookedAtFrom(s, i, x, y);
      SameFrame(s, t, i, x, y);
    }
    if HasNext(s) {
      var n := |s.path| - 1;
      assert t.stack[n].neighbors[s.stack[n].nextIdx] == NextOf(s);
      assert LookedAtFrom(t, n, s.path[n], NextOf(s));
    }
  }

  /** The next edge has not been looked at before. */
  lemma NextIsNew(g: Digraph, s: Search)
    requires PathOk(g, s) && HasNext(s)
    ensures !LookedAt(s, s.path[|s.path| - 1], NextOf(s))
  {
    var n := |s.path| - 1;
    assert FrameOk(g, s.stack[n]);
  }

  lemma SkipCloses(s: Search)
    requires ClosingsOk(s) && s.stack != [] && |s.stack| == |s.path|
    ensures ClosingsOk(Advance(s))
  {
    hide ClosingsOk, LookedAt;
    forall x, y
      ensures LookedAt(s, x, y) ==> LookedAt(Advance(s), x, y)
    {
      AdvanceLooks(s, x, y);
    }
    SameClosings(s, Advance(s));
  }

  lemma ReportCloses(g: Digraph, s: Search, start: nat)
    requires PathOk(g, s) && ClosingsOk(s) && HasNext(s) && start < |s.path| && s.path[start] == NextOf(s)
    ensures ClosingsOk(Advance(s).(cycles := s.cycles + [s.path[start..]]))
  {
    hide LookedAt;
    var c, t := s.path[start..], Advance(s);
    NextIsNew(g, s);
    SkipCloses(s);
    AdvanceLooks(s, c[|c| - 1], c[0]);
    OneMoreClosing(s, t, c);
  }

  lemma OneMoreClosing(s: Search, t: Search, c: seq<Name>)
    requires ClosingsOk(s) && ClosingsOk(t) && t.cycles == s.cycles && c != []
    requires !LookedAt(s, c[|c| - 1], c[0]) && LookedAt(t, c[|c| - 1], c[0])
    ensures ClosingsOk(t.(cycles := s.cycles + [c]))
  {
    var u := t.(cycles := s.cycles + [c]);
    assert forall x, y :: LookedAt(t, x, y) ==> LookedAt(u, x, y) by {
      forall x, y | LookedAt(t, x, y)
        ensures LookedAt(u, x, y)
      {
        if i :| LookedAtFrom(t, i, x, y) {
          assert LookedAtFrom(u, i, x, y);
        }
      }
    }
    hide LookedAt;
    assert forall j :: 0 <= j < |s.cycles| ==> u.cycles[j] == s.cycles[j];
  }

  lemma PushCloses(s: Search, y: Name, neighbors: seq<Name>)
    requires ClosingsOk(s) && s.stack != [] && |s.stack| == |s.path|
    ensures ClosingsOk(Advance(s).(stack := Advance(s).stack + [Frame(y, neighbors, 0)], path := s.path + [y]))
  {
    var t := Advance(s);
    var u := t.(stack := t.stack + [Frame(y, neighbors, 0)], path := s.path + [y]);
    SkipCloses(s);
    forall x, z | LookedAt(t, x, z)
      ensures LookedAt(u, x, z)
    {
      if i :| LookedAtFrom(t, i, x, z) {
        SameFrame(t, u, i, x, z);
      }
    }
    SameClosings(t, u);
  }

  lemma PopCloses(s: Search)
    requires ClosingsOk(s) && s.stack != [] && |s.stack| == |s.path|
    ensures ClosingsOk(s.(stack := s.stack[..|s.stack| - 1], path := s.path[..|s.path| - 1],
              finished := s.finished + [s.path[|s.path| - 1]]))
  {
    var n := |s.path| - 1;
    var t := s.(stack := s.stack[..n], path := s.path[..n], finished := s.finished + [s.path[n]]);
    forall x, y | LookedAt(s, x, y)
      ensures LookedAt(t, x, y)
    {
      if i :| LookedAtFrom(s, i, x, y) {
        if i < n {
          assert LookedAtFrom(t, i, x, y);
        } else {
          assert t.finished[|s.finished|] == x;
        }
      }
    }
    SameClosings(s, t);
  }

  lemma StartCloses(s: Search, x: Name, neighbors: seq<Name>)
    requires ClosingsOk(s) && s.stack == []
    ensures ClosingsOk(s.(stack := [Frame(x, neighbors, 0)], path := [x]))
  {
    SameClosings(s, s.(stack := [Frame(x, neighbors, 0)], path := [x]));
  }

  lemma EndCloses(s: Search)
    requires ClosingsOk(s) && s.stack == []
    ensures ClosingsOk(s.(path := []))
  {
    SameClosings(s, s.(path := []));
  }

  // ----- the removed edges break every cycle

  function Rank(finished: seq<Name>, x: Name): (r: nat)
    requires x in finished
    ensures r < |finished| && finished[r] == x
    ensures forall j :: 0 <= j < |finished| && finished[j] == x ==> r <= j
  {
    if finished[0] == x then 0
    else
      assert x in finished[1..];
      Rank(finished[1..], x) + 1
  }

  lemma RankOfEarlier(finished: seq<Name>, x: Name, n: nat)
    requires n <= |finished| && x in finished[..n]
    ensures x in finished && Rank(finished, x) < n
  {
    var j :| 0 <= j < n && finished[j] == x;
  }

  /** Along an edge that closes no reported cycle the rank falls. */
  lemma RankFalls(g: Digraph, s: Search, x: Name, y: Name)
    requires FinishedOk(g, s) && x in s.finished && Edge(g, x, y) && !Closes(s.cycles, x, y)
    ensures y in s.finished && Rank(s.finished, y) < Rank(s.finished, x)
  {
    var k := Rank(s.finished, x);
    assert y in s.finished[..k];
    RankOfEarlier(s.finished, y, k);
  }

  lemma ClosingStepMore(cycles: seq<seq<Name>>, q: seq<Name>, p: seq<Name>)
    requires HasClosingStep(cycles, q) && q <= p
    ensures HasClosingStep(cycles, p)
  {
    var i :| 0 <= i < |q| - 1 && Closes(cycles, q[i], q[i + 1]);
    assert Closes(cycles, p[i], p[i + 1]);
  }

  lemma {:induction false} RankFallsAlong(g: Digraph, s: Search, p: seq<Name>)
    requires FinishedOk(g, s) && IsWalk(g, p) && p[0] in s.finished && !HasClosingStep(s.cycles, p)
    ensures p[|p| - 1] in s.finished && Rank(s.finished, p[|p| - 1]) + |p| - 1 <= Rank(s.finished, p[0])
    decreases |p|
  {
    if |p| > 1 {
      var q := p[..|p| - 1];
      WalkSlice(g, p, 0, |p| - 1);
      if HasClosingStep(s.cycles, q) {
        ClosingStepMore(s.cycles, q, p);
      }
      RankFallsAlong(g, s, q);
      var i := |p| - 2;
      assert Edge(g, p[i], p[i + 1]) && !Closes(s.cycles, p[i], p[i + 1]);
      RankFalls(g, s, p[i], p[i + 1]);
    }
  }

  lemma FinishedReports(g: Digraph, s: Search)
    requires SearchOk(g, s) && forall x :: x in g ==> x in s.finished
    ensures ReportsCycles(g, s.cycles)
  {
    forall p | IsClosedWalk(g, p)
      ensures HasClosingStep(s.cycles, p)
    {
      assert Edge(g, p[0], p[1]);
      if !HasClosingStep(s.cycles, p) {
        RankFallsAlong(g, s, p);
      }
    }
  }

  // ----- the methods

  method GetSortedNeighbors(g: Graph, mod: Name) returns (neighbors: seq<Name>)
    requires mod in g.modules
    ensures Increasing(neighbors) && Elements(neighbors) == InternalGraph(g.Current())[mod]
  {
    var targets := {};
    var rest := Edges(g.imports, mod).Keys;
    ghost var all := rest;
    while rest != {}
      invariant rest <= all
      invariant targets == set t | t in all - rest && t in g.modules
      decreases rest
    {
      SomeElement(rest);
      var next :| next in rest;
      if next in g.modules {
        targets := targets + {next};
      }
      rest := rest - {next};
    }
    neighbors := SortedKeys(targets);
  }

  /** The position of `x` in `path`. */
  method FindOnPath(path: seq<Name>, x: Name) returns (start: nat)
    requires x in path
    ensures start < |path| && path[start] == x
  {
    start := 0;
    while path[start] != x
      invariant start < |path| && x in path[start..]
      decreases |path| - start
    {
      assert path[start..] == [path[start]] + path[start + 1..];
      start := start + 1;
    }
  }

  /** The visited modules are those on the path and those finished. */
  ghost predicate MarksOk(g: Digraph, s: Search, visited: set<Name>, onStack: set<Name>) {
    && onStack == Elements(s.path)
    && visited == Elements(s.path) + Elements(s.finished)
    && visited <= g.Keys
  }

  /** The top frame belongs to the last module of the path. */
  lemma TopFacts(g: Digraph, s: Search, visited: set<Name>, onStack: set<Name>)
    requires SearchOk(g, s) && MarksOk(g, s, visited, onStack) && s.stack != [] && Closed(g)
    ensures |s.stack| == |s.path| && s.stack[|s.stack| - 1].mod == s.path[|s.path| - 1] && Distinct(s.path)
    ensures PathOk(g, s)
    ensures forall x :: x in onStack <==> x in s.path
    ensures forall x :: x in visited <==> x in s.path || x in s.finished
    ensures visited <= g.Keys
    ensures HasNext(s) ==> NextOf(s) in g
  {
    if HasNext(s) {
      NextIsEdge(g, s);
    }
  }

  lemma SameMarks(g: Digraph, s: Search, t: Search, visited: set<Name>, onStack: set<Name>)
    requires MarksOk(g, s, visited, onStack) && t.path == s.path && t.finished == s.finished
    ensures MarksOk(g, t, visited, onStack)
  {
  }

  lemma PushMarks(g: Digraph, s: Search, t: Search, x: Name, visited: set<Name>, onStack: set<Name>)
    requires MarksOk(g, s, visited, onStack) && t.path == s.path + [x] && t.finished == s.finished && x in g
    ensures MarksOk(g, t, visited + {x}, onStack + {x})
  {
  }

  lemma PopMarks(g: Digraph, s: Search, t: Search, visited: set<Name>, onStack: set<Name>)
    requires MarksOk(g, s, visited, onStack) && s.path != [] && Distinct(s.path)
    requires t.path == s.path[..|s.path| - 1] && t.finished == s.finished + [s.path[|s.path| - 1]]
    ensures MarksOk(g, t, visited, onStack - {s.path[|s.path| - 1]})
  {
    assert s.path == t.path + [s.path[|s.path| - 1]];
  }

  method DetectCycles(g: Graph) returns (cycles: seq<seq<Name>>)
    ensures ReportsCycles(InternalGraph(g.Current()), cycles) && CloseOnce(cycles)
  {
    ghost var ig := InternalGraph(g.Current());
    cycles := [];
    var visited: set<Name>, onStack: set<Name> := {}, {};
    ghost var finished: seq<Name> := [];
    var moduleNames := SortedKeys(g.modules.Keys);
    for k := 0 to |moduleNames|
      invariant SearchOk(ig, Search([], [], finished, cycles)) && ClosingsOk(Search([], [], finished, cycles))
      invariant MarksOk(ig, Search([], [], finished, cycles), visited, onStack)
      invariant forall j :: 0 <= j < k ==> moduleNames[j] in visited
    {
      if moduleNames[k] !in visited {
        assert moduleNames[k] in Elements(moduleNames);
        cycles, visited, onStack, finished := Explore(g, moduleNames[k], cycles, visited, onStack, finished);
      }
    }
    assert forall x :: x in ig ==> x in Elements(moduleNames) && x in visited && x in Elements(finished);
    FinishedReports(ig, Search([], [], finished, cycles));
  }

  /** The search from one start module, with its explicit stack of frames. */
  method Explore(g: Graph, start: Name, cycles0: seq<seq<Name>>, visited0: set<Name>, onStack0: set<Name>,
                 ghost finished0: seq<Name>)
    returns (cycles: seq<seq<Name>>, visited: set<Name>, onStack: set<Name>, ghost finished: seq<Name>)
    requires SearchOk(InternalGraph(g.Current()), Search([], [], finished0, cycles0))
    requires ClosingsOk(Search([], [], finished0, cycles0))
    requires MarksOk(InternalGraph(g.Current()), Search([], [], finished0, cycles0), visited0, onStack0)
    requires start in g.modules && start !in visited0
    ensures SearchOk(InternalGraph(g.Current()), Search([], [], finished, cycles))
    ensures ClosingsOk(Search([], [], finished, cycles))
    ensures MarksOk(InternalGraph(g.Current()), Search([], [], finished, cycles), visited, onStack)
    ensures visited0 + {start} <= visited
  {
    hide SearchOk, MarksOk, ClosingsOk, PathOk, FrameOk, Increasing, Distinct;
    ghost var ig := InternalGraph(g.Current());
    InternalClosed(g.Current());
    var neighbors := GetSortedNeighbors(g, start);
    NewFrame(ig, start, neighbors);
    StartKeeps(ig, Search([], [], finished0, cycles0), start, neighbors, visited0, onStack0);
    StartCloses(Search([], [], finished0, cycles0), start, neighbors);
    cycles, visited, onStack, finished := cycles0, visited0 + {start}, onStack0 + {start}, finished0;
    var stack, path := [Frame(start, neighbors, 0)], [start];
    while |stack| > 0
      invariant SearchOk(ig, Search(stack, path, finished, cycles)) && ClosingsOk(Search(stack, path, finished, cycles))
      invariant MarksOk(ig, Search(stack, path, finished, cycles), visited, onStack)
      invariant visited0 + {start} <= visited
      decreases ig.Keys - visited, Remaining(ig, stack)
    {
      ghost var s := Search(stack, path, finished, cycles);
      TopFacts(ig, s, visited, onStack);
      var top := stack[|stack| - 1];
      if top.nextIdx < |top.neighbors| {
        var next := top.neighbors[top.nextIdx];
        stack := stack[..|stack| - 1] + [top.(nextIdx := top.nextIdx + 1)];
        if next in onStack {
          var cycleStart := FindOnPath(path, next);
          ReportKeeps(ig, s, cycleStart);
          ReportCloses(ig, s, cycleStart);
          cycles := cycles + [path[cycleStart..]];
          SameMarks(ig, s, Search(stack, path, finished, cycles), visited, onStack);
        } else if next !in visited {
          var nexts := GetSortedNeighbors(g, next);
          NewFrame(ig, next, nexts);
          PushKeeps(ig, s, nexts);
          PushCloses(s, next, nexts);
          PushMarks(ig, s, Search(stack + [Frame(next, nexts, 0)], path + [next], finished, cycles), next, visited,
            onStack);
          visited := visited + {next};
          onStack := onStack + {next};
          path := path + [next];
          stack := stack + [Frame(next, nexts, 0)];
        } else {
          SkipKeeps(ig, s);
          SkipCloses(s);
          SameMarks(ig, s, Search(stack, path, finished, cycles), visited, onStack);
        }
      } else {
        PopKeeps(ig, s);
        PopCloses(s);
        PopMarks(ig, s, Search(stack[..|stack| - 1], path[..|path| - 1], finished + [top.mod], cycles), visited,
          onStack);
        finished := finished + [top.mod];
        onStack := onStack - {top.mod};
        path := path[..|path| - 1];
        stack := stack[..|stack| - 1];
      }
    }
    NothingOpen(ig, Search(stack, path, finished, cycles), visited, onStack);
    EndCloses(Search(stack, path, finished, cycles));
  }

  lemma NothingOpen(g: Digraph, s: Search, visited: set<Name>, onStack: set<Name>)
    requires SearchOk(g, s) && MarksOk(g, s, visited, onStack) && s.stack == []
    ensures s.path == []
  {
  }

  lemma NewFrame(g: Digraph, x: Name, neighbors: seq<Name>)
    requires x in g && Increasing(neighbors) && Elements(neighbors) == g[x]
    ensures FrameOk(g, Frame(x, neighbors, 0))
  {
  }

  /** The neighbours still to be looked at and the frames still to be popped. */
  ghost function Remaining(g: Digraph, stack: seq<Frame>): nat {
    if stack == [] then 0
    else
      var top := stack[|stack| - 1];
      Remaining(g, stack[..|stack| - 1]) + 1 +
      if top.nextIdx < |top.neighbors| then |top.neighbors| - top.nextIdx else 0
  }
}
