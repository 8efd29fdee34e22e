/** The depth-first cycle detector and the component search agree on what is cyclic. */
module Agreement {
  import opened Digraphs
  import opened Components
  import opened Cycles

  /** A component with more than one module, or whose only module imports itself. */
  ghost predicate IsCyclic(g: Digraph, component: seq<Name>)
    requires component != []
  {
    |component| > 1 || Edge(g, component[0], component[0])
  }

  ghost predicate InComponent(componentOf: map<Name, nat>, cycle: seq<Name>, id: nat) {
    forall x :: x in cycle ==> x in componentOf && componentOf[x] == id
  }

  lemma CycleReach(g: Digraph, c: seq<Name>, i: nat, j: nat)
    requires IsCycle(g, c) && i < |c| && j < |c|
    ensures Reach(g, c[i], c[j])
  {
    var last := |c| - 1;
    WalkSlice(g, c, i, |c|);
    assert Reach(g, c[i], c[last]);
    ReachStep(g, c[i], c[last], c[0]);
    WalkSlice(g, c, 0, j + 1);
    assert Reach(g, c[0], c[j]);
    ReachTrans(g, c[i], c[0], c[j]);
  }

  /** All modules of a reported cycle lie in one component. */
  lemma CycleInOneComponent(g: Digraph, cycles: seq<seq<Name>>, componentOf: map<Name, nat>,
                            components: seq<seq<Name>>, k: nat)
    requires Closed(g) && ReportsCycles(g, cycles) && AreComponents(g, componentOf, components)
    requires k < |cycles|
    ensures cycles[k] != [] && cycles[k][0] in componentOf
    ensures InComponent(componentOf, cycles[k], componentOf[cycles[k][0]])
  {
    var c := cycles[k];
    assert IsCycle(g, c);
    assert Edge(g, c[|c| - 1], c[0]);
    forall x | x in c
      ensures x in componentOf && componentOf[x] == componentOf[c[0]]
    {
      var i :| 0 <= i < |c| && c[i] == x;
      CycleReach(g, c, 0, i);
      CycleReach(g, c, i, 0);
      ReachDescends(g, componentOf, c[0], x);
    }
  }

  /** A cyclic component carries a closed walk through its first module. */
  lemma CyclicHasClosedWalk(g: Digraph, componentOf: map<Name, nat>, components: seq<seq<Name>>, id: nat)
    returns (p: seq<Name>)
    requires AreComponents(g, componentOf, components) && id < |components|
    requires IsCyclic(g, components[id])
    ensures IsClosedWalk(g, p) && p[0] == components[id][0]
  {
    var x := components[id][0];
    assert x in components[id];
    if |components[id]| > 1 {
      var y := components[id][1];
      assert y in components[id];
      assert x < y && componentOf[x] == id && componentOf[y] == id;
      assert Reach(g, x, y) && Reach(g, y, x);
      var q :| WalkFromTo(g, x, q, y);
      var r :| WalkFromTo(g, y, r, x);
      WalkConcat(g, x, q, y, r, x);
      p := q + r[1..];
    } else {
      p := [x, x];
    }
  }

  /** Every module on a closed walk through `x` is in the component of `x`. */
  lemma ClosedWalkInComponent(g: Digraph, componentOf: map<Name, nat>, components: seq<seq<Name>>, p: seq<Name>, i: nat)
    requires AreComponents(g, componentOf, components)
    requires IsClosedWalk(g, p) && p[0] in componentOf && i < |p|
    ensures p[i] in componentOf && componentOf[p[i]] == componentOf[p[0]]
  {
    WalkSlice(g, p, 0, i + 1);
    assert Reach(g, p[0], p[i]);
    WalkSlice(g, p, i, |p|);
    assert Reach(g, p[i], p[0]);
    ReachDescends(g, componentOf, p[0], p[i]);
  }

  /** A component is cyclic exactly when some reported cycle lies in it. */
  lemma CyclicIffReported(g: Digraph, cycles: seq<seq<Name>>, componentOf: map<Name, nat>, components: seq<seq<Name>>,
                          id: nat)
    requires Closed(g) && ReportsCycles(g, cycles) && AreComponents(g, componentOf, components)
    requires id < |components|
    ensures components[id] != []
    ensures IsCyclic(g, components[id]) <==> exists k :: 0 <= k < |cycles| && InComponent(componentOf, cycles[k], id)
  {
    if IsCyclic(g, components[id]) {
      var p := CyclicHasClosedWalk(g, componentOf, components, id);
      assert p[0] in components[id];
      var i :| 0 <= i < |p| - 1 && Closes(cycles, p[i], p[i + 1]);
      ClosedWalkInComponent(g, componentOf, components, p, i);
      var k :| 0 <= k < |cycles| && cycles[k] != [] && cycles[k][|cycles[k]| - 1] == p[i] && cycles[k][0] == p[i + 1];
      ClosedWalkInComponent(g, componentOf, components, p, i + 1);
      CycleInOneComponent(g, cycles, componentOf, components, k);
    }
    if k :| 0 <= k < |cycles| && InComponent(componentOf, cycles[k], id) {
      ReportedIsCyclic(g, cycles, componentOf, components, id, k);
    }
  }

  lemma ReportedIsCyclic(g: Digraph, cycles: seq<seq<Name>>, componentOf: map<Name, nat>, components: seq<seq<Name>>,
                         id: nat, k: nat)
    requires ReportsCycles(g, cycles) && AreComponents(g, componentOf, components)
    requires id < |components| && k < |cycles| && InComponent(componentOf, cycles[k], id)
    ensures components[id] != [] && IsCyclic(g, components[id])
  {
    var c := cycles[k];
    assert IsCycle(g, c);
    assert c[0] in c && c[|c| - 1] in c;
    assert c[0] in components[id] && c[|c| - 1] in components[id];
    if |components[id]| == 1 {
      assert components[id] == [components[id][0]];
      assert c[0] == components[id][0] && c[|c| - 1] == components[id][0];
    }
  }

  /** The detector reports nothing exactly when every component is a single module without a self-import. */
  lemma NoCyclesIffAcyclic(g: Digraph, cycles: seq<seq<Name>>, componentOf: map<Name, nat>, components: seq<seq<Name>>)
    requires Closed(g) && ReportsCycles(g, cycles) && AreComponents(g, componentOf, components)
    ensures cycles == [] <==>
            forall id :: 0 <= id < |components| ==> components[id] != [] && !IsCyclic(g, components[id])
  {
    if cycles == [] {
      forall id | 0 <= id < |components|
        ensures components[id] != [] && !IsCyclic(g, components[id])
      {
        CyclicIffReported(g, cycles, componentOf, components, id);
      }
    } else {
      CycleInOneComponent(g, cycles, componentOf, components, 0);
      var id := componentOf[cycles[0][0]];
      CyclicIffReported(g, cycles, componentOf, components, id);
    }
  }
}
