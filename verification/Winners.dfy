/** Which import edge and which definition a fold over files keeps. */
module Winners {
  import opened Digraphs
  import opened ImportGraph
  import opened Rebuild

  // ----- definitions

  /** Twice the branches, twice the nesting, the parameters and a tenth of the lines, truncated toward zero. */
  ghost predicate WeightIs(d: Definition, score: int) {
    var tenth := score - 2 * d.branchCount - 2 * d.nestingDepth - d.parameterCount;
    if d.loc >= 0 then 10 * tenth <= d.loc < 10 * tenth + 10 else 10 * tenth - 10 < d.loc <= 10 * tenth
  }

  /** The complexity that decides: the stored score if it is positive, otherwise the weight. */
  ghost predicate ScoreIs(d: Definition, score: int) {
    if d.complexityScore > 0 then score == d.complexityScore else WeightIs(d, score)
  }

  lemma ScoreIsComplexity(d: Definition, score: int)
    ensures ScoreIs(d, score) <==> score == ComplexityScore(d)
  {
  }

  /** `d` has at least the score of `e`; of equal scores, at least the lines; and likewise branches, parameters and
      nesting. */
  ghost predicate AtLeast(d: Definition, e: Definition) {
    forall x, y :: ScoreIs(d, x) && ScoreIs(e, y) ==>
      && y <= x
      && (y == x ==>
            && e.loc <= d.loc
            && (e.loc == d.loc ==> e.branchCount <= d.branchCount)
            && (e.loc == d.loc && e.branchCount == d.branchCount ==> e.parameterCount <= d.parameterCount)
            && (e.loc == d.loc && e.branchCount == d.branchCount && e.parameterCount == d.parameterCount ==>
                  e.nestingDepth <= d.nestingDepth))
  }

  /** All five values agree. */
  ghost predicate SameRank(d: Definition, e: Definition) {
    && (forall x :: ScoreIs(d, x) <==> ScoreIs(e, x))
    && d.loc == e.loc && d.branchCount == e.branchCount
    && d.parameterCount == e.parameterCount && d.nestingDepth == e.nestingDepth
  }

  /** A definition is preferred exactly when the other is not at least as complex. */
  lemma PreferMeans(a: Definition, b: Definition)
    ensures PreferDefinition(a, b) <==> !AtLeast(b, a)
    ensures AtLeast(a, b) || AtLeast(b, a)
    ensures SameRank(a, b) <==> AtLeast(a, b) && AtLeast(b, a)
  {
    var x, y := ComplexityScore(a), ComplexityScore(b);
    forall s
      ensures ScoreIs(a, s) <==> s == x
      ensures ScoreIs(b, s) <==> s == y
    {
      ScoreIsComplexity(a, s);
      ScoreIsComplexity(b, s);
    }
    assert ScoreIs(a, x) && ScoreIs(b, y);
    hide ScoreIs, ComplexityScore;
  }

  lemma AtLeastTransitive(a: Definition, b: Definition, c: Definition)
    requires AtLeast(a, b) && AtLeast(b, c)
    ensures AtLeast(a, c)
  {
    ScoreIsComplexity(b, ComplexityScore(b));
    hide ScoreIs, ComplexityScore;
  }

  /** `d` is the most complex definition of `name`, and the first of those that agree with it in all five values. */
  ghost predicate FirstBest(ds: seq<Definition>, name: Name, d: Definition) {
    exists i :: 0 <= i < |ds| && ds[i] == d && FirstBestAt(ds, name, i)
  }

  ghost predicate FirstBestAt(ds: seq<Definition>, name: Name, i: nat)
    requires i < |ds|
  {
    && ds[i].name == name
    && (forall j :: 0 <= j < |ds| && ds[j].name == name ==> AtLeast(ds[i], ds[j]))
    && (forall j :: 0 <= j < i && ds[j].name == name ==> !SameRank(ds[j], ds[i]))
  }

  ghost predicate Mentions(ds: seq<Definition>, name: Name) {
    exists i :: 0 <= i < |ds| && ds[i].name == name
  }

  lemma OneMoreDefinition(ds: seq<Definition>, d: Definition, name: Name, best: Definition)
    requires FirstBest(ds, name, best) && d.name == name
    ensures FirstBest(ds + [d], name, if PreferDefinition(d, best) then d else best)
  {
    hide AtLeast, SameRank, PreferDefinition;
    var i :| 0 <= i < |ds| && ds[i] == best && FirstBestAt(ds, name, i);
    var all := ds + [d];
    PreferMeans(d, best);
    PreferMeans(d, d);
    if PreferDefinition(d, best) {
      forall j | 0 <= j < |ds| && ds[j].name == name
        ensures AtLeast(d, ds[j]) && !SameRank(ds[j], d)
      {
        PreferMeans(ds[j], d);
        AtLeastTransitive(d, best, ds[j]);
        if SameRank(ds[j], d) {
          AtLeastTransitive(best, ds[j], d);
        }
      }
      assert FirstBestAt(all, name, |ds|);
    } else {
      assert all[i] == best && FirstBestAt(all, name, i);
    }
  }

  lemma FirstDefinition(ds: seq<Definition>, d: Definition)
    requires !Mentions(ds, d.name)
    ensures FirstBest(ds + [d], d.name, d)
  {
    hide AtLeast, SameRank;
    PreferMeans(d, d);
    assert (ds + [d])[|ds|] == d;
    assert FirstBestAt(ds + [d], d.name, |ds|);
  }

  lemma OtherDefinition(ds: seq<Definition>, d: Definition, name: Name, best: Definition)
    requires FirstBest(ds, name, best) && d.name != name
    ensures FirstBest(ds + [d], name, best)
  {
    hide AtLeast, SameRank;
    var i :| 0 <= i < |ds| && ds[i] == best && FirstBestAt(ds, name, i);
    assert (ds + [d])[i] == best && FirstBestAt(ds + [d], name, i);
  }

  /** The merged table names exactly the defined names and keeps the first best definition of each. */
  lemma {:induction false} MergeKeepsFirstBest(ds: seq<Definition>, name: Name)
    ensures name in MergeDefs(map[], ds) <==> Mentions(ds, name)
    ensures name in MergeDefs(map[], ds) ==> FirstBest(ds, name, MergeDefs(map[], ds)[name])
    decreases |ds|
  {
    hide FirstBestAt, PreferDefinition;
    if ds != [] {
      var init, d := ds[..|ds| - 1], ds[|ds| - 1];
      assert ds == init + [d];
      MergeKeepsFirstBest(init, name);
      var t := MergeDefs(map[], init);
      if Mentions(init, name) {
        var i :| 0 <= i < |init| && init[i].name == name;
        assert ds[i].name == name;
        if d.name == name {
          OneMoreDefinition(init, d, name, t[name]);
        } else {
          OtherDefinition(init, d, name, t[name]);
        }
      } else if d.name == name {
        FirstDefinition(init, d);
      }
    }
  }

  lemma {:induction false} MergeDefsConcat(t: DefTable, a: seq<Definition>, b: seq<Definition>)
    ensures MergeDefs(t, a + b) == MergeDefs(MergeDefs(t, a), b)
    decreases |b|
  {
    if b == [] {
      assert a + b == a;
    } else {
      MergeDefsConcat(t, a, b[..|b| - 1]);
      assert (a + b)[..|a + b| - 1] == a + b[..|b| - 1];
    }
  }

  /** All definitions of the listed files, in order. */
  ghost function DefList(items: FileTable, files: seq<Name>): seq<Definition> {
    if files == [] then []
    else
      var p := files[|files| - 1];
      DefList(items, files[..|files| - 1]) + if p in items then items[p].definitions else []
  }

  ghost function Exported(ds: seq<Definition>): seq<Definition> {
    if ds == [] then []
    else Exported(ds[..|ds| - 1]) + if ds[|ds| - 1].exported then [ds[|ds| - 1]] else []
  }

  lemma MergeDefsSnoc(t: DefTable, ds: seq<Definition>, d: Definition)
    ensures MergeDefs(t, ds + [d]) == KeepBetter(MergeDefs(t, ds), d)
  {
    assert (ds + [d])[..|ds|] == ds;
  }

  lemma {:induction false} MergeExportsIsMerge(t: DefTable, ds: seq<Definition>)
    ensures MergeExports(t, ds) == MergeDefs(t, Exported(ds))
    decreases |ds|
  {
    hide KeepBetter;
    if ds != [] {
      var init, d := ds[..|ds| - 1], ds[|ds| - 1];
      MergeExportsIsMerge(t, init);
      MergeDefsSnoc(t, Exported(init), d);
      assert !d.exported ==> Exported(ds) == Exported(init);
      hide MergeDefs;
    }
  }

  lemma {:induction false} ExportedConcat(a: seq<Definition>, b: seq<Definition>)
    ensures Exported(a + b) == Exported(a) + Exported(b)
    decreases |b|
  {
    if b == [] {
      assert a + b == a;
    } else {
      ExportedConcat(a, b[..|b| - 1]);
      assert (a + b)[..|a + b| - 1] == a + b[..|b| - 1];
    }
  }

  lemma {:induction false} FoldDefsFlat(items: FileTable, files: seq<Name>)
    ensures FoldDefs(items, files) == MergeDefs(map[], DefList(items, files))
    ensures FoldExports(items, files) == MergeDefs(map[], Exported(DefList(items, files)))
    decreases |files|
  {
    if files != [] {
      var init, p := files[..|files| - 1], files[|files| - 1];
      FoldDefsFlat(items, init);
      if p in items {
        var ds := items[p].definitions;
        MergeDefsConcat(map[], DefList(items, init), ds);
        MergeExportsIsMerge(FoldExports(items, init), ds);
        ExportedConcat(DefList(items, init), ds);
        MergeDefsConcat(map[], Exported(DefList(items, init)), Exported(ds));
      } else {
        assert DefList(items, files) == DefList(items, init);
      }
    }
  }

  // ----- import edges

  ghost predicate Imports(f: File, to: Name, n: int)
    requires n <= |f.imports|
  {
    exists i :: 0 <= i < n && f.imports[i].mod == to
  }

  /** Of the first `n` imports of `f`, import `i` is the last of module `to`. */
  ghost predicate LastImport(f: File, to: Name, n: int, i: int)
    requires n <= |f.imports|
  {
    0 <= i < n && f.imports[i].mod == to && forall j :: i < j < n ==> f.imports[j].mod != to
  }

  /** `e` is the edge for the last import of `to` among the first `n` imports of `f`. */
  ghost predicate FromLastImport(f: File, to: Name, n: int, e: ImportEdge)
    requires n <= |f.imports|
  {
    && e.from == f.mod && e.to == to && e.importedBy == f.path
    && exists i :: LastImport(f, to, n, i) && e.location == f.imports[i].location
  }

  lemma {:induction false} MergeEdgesMeans(t: EdgeTable, f: File, n: nat, to: Name)
    requires n <= |f.imports|
    ensures to in MergeEdges(t, f, n) <==> to in t || Imports(f, to, n)
    ensures Imports(f, to, n) ==> FromLastImport(f, to, n, MergeEdges(t, f, n)[to])
    ensures !Imports(f, to, n) && to in t ==> MergeEdges(t, f, n)[to] == t[to]
  {
    if n > 0 {
      MergeEdgesMeans(t, f, n - 1, to);
      if f.imports[n - 1].mod == to {
        assert LastImport(f, to, n, n - 1);
      } else if Imports(f, to, n - 1) {
        var i :| LastImport(f, to, n - 1, i) && MergeEdges(t, f, n)[to].location == f.imports[i].location;
        assert LastImport(f, to, n, i);
      }
    }
  }

  /** Listed file `k` imports `to`. */
  ghost predicate ImportedAt(items: FileTable, files: seq<Name>, to: Name, k: int) {
    0 <= k < |files| && files[k] in items && Imports(items[files[k]], to, |items[files[k]].imports|)
  }

  /** `e` is the edge for the last import of `to` in the last listed file that imports it. */
  ghost predicate LastEdge(items: FileTable, files: seq<Name>, to: Name, e: ImportEdge) {
    exists k :: ImportedAt(items, files, to, k) && (forall l :: l > k ==> !ImportedAt(items, files, to, l)) &&
      FromLastImport(items[files[k]], to, |items[files[k]].imports|, e)
  }

  /** `t` has an edge to each module that a listed file imports, the last one, and no other edge. */
  ghost predicate LastWins(t: EdgeTable, items: FileTable, files: seq<Name>) {
    forall to ::
      && (to in t <==> exists k :: ImportedAt(items, files, to, k))
      && (to in t ==> LastEdge(items, files, to, t[to]))
  }

  lemma ImportedSnoc(items: FileTable, init: seq<Name>, p: Name, to: Name, k: int)
    ensures k != |init| ==> (ImportedAt(items, init + [p], to, k) <==> ImportedAt(items, init, to, k))
    ensures ImportedAt(items, init + [p], to, |init|) <==>
            p in items && Imports(items[p], to, |items[p].imports|)
    ensures !ImportedAt(items, init, to, |init|)
  {
  }

  lemma {:induction false} FoldEdgesOne(items: FileTable, files: seq<Name>, to: Name)
    ensures to in FoldEdges(items, files) <==> exists k :: ImportedAt(items, files, to, k)
    ensures to in FoldEdges(items, files) ==> LastEdge(items, files, to, FoldEdges(items, files)[to])
    decreases |files|
  {
    hide Imports, FromLastImport, ImportedAt, MergeEdges;
    if files == [] {
      NoneImported(items, to);
    } else {
      var init, p := files[..|files| - 1], files[|files| - 1];
      assert files == init + [p];
      FoldEdgesOne(items, init, to);
      forall k
        ensures k != |init| ==> (ImportedAt(items, files, to, k) <==> ImportedAt(items, init, to, k))
        ensures ImportedAt(items, files, to, |init|) <==> p in items && Imports(items[p], to, |items[p].imports|)
        ensures !ImportedAt(items, init, to, |init|)
        ensures ImportedAt(items, files, to, k) ==> 0 <= k < |files|
        ensures ImportedAt(items, init, to, k) ==> 0 <= k < |init| && files[k] == init[k]
      {
        ImportedSnoc(items, init, p, to, k);
        ImportedRange(items, files, to, k);
        ImportedRange(items, init, to, k);
      }
      if p in items {
        MergeEdgesMeans(FoldEdges(items, init), items[p], |items[p].imports|, to);
      }
    }
  }

  lemma ImportedRange(items: FileTable, files: seq<Name>, to: Name, k: int)
    ensures ImportedAt(items, files, to, k) ==> 0 <= k < |files|
  {
  }

  lemma NoneImported(items: FileTable, to: Name)
    ensures forall k :: !ImportedAt(items, [], to, k)
  {
  }

  lemma FoldEdgesLast(items: FileTable, files: seq<Name>)
    ensures LastWins(FoldEdges(items, files), items, files)
  {
    hide ImportedAt, LastEdge, FoldEdges;
    forall to
      ensures to in FoldEdges(items, files) <==> exists k :: ImportedAt(items, files, to, k)
      ensures to in FoldEdges(items, files) ==> LastEdge(items, files, to, FoldEdges(items, files)[to])
    {
      FoldEdgesOne(items, files, to);
    }
  }

  // ----- over whole runs

  /** `t` holds the first best definition of every name in `ds`, and nothing else. */
  ghost predicate FirstBestWins(t: DefTable, ds: seq<Definition>) {
    && (forall n :: n in t <==> Mentions(ds, n))
    && (forall n :: n in t ==> FirstBest(ds, n, t[n]))
  }

  lemma MergeWins(ds: seq<Definition>)
    ensures FirstBestWins(MergeDefs(map[], ds), ds)
  {
    var t := MergeDefs(map[], ds);
    forall n
      ensures n in t <==> Mentions(ds, n)
      ensures n in t ==> FirstBest(ds, n, t[n])
    {
      MergeKeepsFirstBest(ds, n);
    }
  }

  /** The files of `m` are exactly those tracked for it, and `items` holds them. */
  ghost predicate FilesAre(s: State, items: FileTable, m: Name)
    requires m in s.modules
  {
    && (forall p :: p in s.modules[m].files <==> p in s.fileToModule && s.fileToModule[p] == m)
    && (forall p :: p in s.modules[m].files ==> p in items && items[p].path == p && items[p].mod == m)
  }

  /** After any run in which each lookup of a tracked file finds it in the cache, each module's table entries are
      decided by the last versions of the files it lists, in that order: the last edge to each imported module wins,
      and of the definitions of one name the first that no other is preferred over; exports likewise among the
      exported definitions. */
  lemma TablesHoldWinners(capacity: int, ops: seq<GraphOp>, m: Name)
    requires NeverMisses(capacity, ops) && m in RunGraph(capacity, ops).modules
    ensures var s, items := RunGraph(capacity, ops), Latest(ops);
            && m in s.imports && m in s.definitions && FilesAre(s, items, m)
            && LastWins(s.imports[m], items, s.modules[m].files)
            && FirstBestWins(s.definitions[m], DefList(items, s.modules[m].files))
            && FirstBestWins(s.modules[m].exports, Exported(DefList(items, s.modules[m].files)))
  {
    hide FirstBestWins, LastWins, MergeDefs, FoldDefs, FoldExports, FoldEdges, RunGraph, FilesAre, FullOk, Latest;
    IncrementalIsCanonical(capacity, ops);
    var s, items := RunGraph(capacity, ops), Latest(ops);
    FullMeans(s, items, m);
    FoldDefsFlat(items, s.modules[m].files);
    FoldEdgesLast(items, s.modules[m].files);
    MergeWins(DefList(items, s.modules[m].files));
    MergeWins(Exported(DefList(items, s.modules[m].files)));
  }

  lemma FullMeans(s: State, items: FileTable, m: Name)
    requires FullOk(s, items) && m in s.modules
    ensures m in s.imports && m in s.definitions && FilesAre(s, items, m)
    ensures s.imports[m] == FoldEdges(items, s.modules[m].files)
    ensures s.definitions[m] == FoldDefs(items, s.modules[m].files)
    ensures s.modules[m].exports == FoldExports(items, s.modules[m].files)
  {
    hide ReverseOk, CacheOk, FoldDefs, FoldExports, FoldEdges;
    assert Canonical(s, items, m);
  }
}
