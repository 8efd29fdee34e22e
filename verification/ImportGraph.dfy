/** The import graph as `AddFile` and `RemoveFile` keep it up to date, file by file. */
module ImportGraph {
  import opened Collections
  import opened Digraphs
  import opened Lru

  // ----- entities

  datatype Import = Import(mod: Name, location: int)

  /** A definition with the fields that decide which of two definitions of one name is kept. `rest` stands
      for the remaining fields, which are only carried along. */
  datatype Definition = Definition(name: Name, exported: bool, complexityScore: int, branchCount: int,
    nestingDepth: int, parameterCount: int, loc: int, rest: int)

  datatype File = File(path: Name, mod: Name, language: int, imports: seq<Import>, definitions: seq<Definition>)

  datatype ImportEdge = ImportEdge(from: Name, to: Name, importedBy: Name, location: int)

  type DefTable = map<Name, Definition>
  type EdgeTable = map<Name, ImportEdge>

  datatype Module = Module(name: Name, files: seq<Name>, exports: DefTable, maxComplexity: int)

  // ----- choosing between definitions

  /** Go's integer division by ten, which truncates toward zero. */
  function Tenth(n: int): int {
    if n >= 0 then n / 10 else -(-n / 10)
  }

  function WeightedScore(d: Definition): int {
    d.branchCount * 2 + d.nestingDepth * 2 + d.parameterCount + Tenth(d.loc)
  }

  function ComplexityScore(d: Definition): int {
    if d.complexityScore > 0 then d.complexityScore else WeightedScore(d)
  }

  predicate PreferDefinition(candidate: Definition, existing: Definition) {
    if ComplexityScore(candidate) != ComplexityScore(existing)
    then ComplexityScore(candidate) > ComplexityScore(existing)
    else if candidate.loc != existing.loc then candidate.loc > existing.loc
    else if candidate.branchCount != existing.branchCount then candidate.branchCount > existing.branchCount
    else if candidate.parameterCount != existing.parameterCount then candidate.parameterCount > existing.parameterCount
    else if candidate.nestingDepth != existing.nestingDepth then candidate.nestingDepth > existing.nestingDepth
    else false
  }

  /** The score with which `AddFile` raises `MaxComplexity`. */
  function PeakScore(d: Definition): int {
    if d.complexityScore == 0 then WeightedScore(d) else d.complexityScore
  }

  function FilePeak(ds: seq<Definition>): int {
    if ds == [] then 0
    else
      var sofar := FilePeak(ds[..|ds| - 1]);
      if PeakScore(ds[|ds| - 1]) > sofar then PeakScore(ds[|ds| - 1]) else sofar
  }

  // ----- tables

  function KeepBetter(t: DefTable, d: Definition): DefTable {
    if d.name !in t || PreferDefinition(d, t[d.name]) then t[d.name := d] else t
  }

  function MergeDefs(t: DefTable, ds: seq<Definition>): DefTable {
    if ds == [] then t else KeepBetter(MergeDefs(t, ds[..|ds| - 1]), ds[|ds| - 1])
  }

  function MergeExports(t: DefTable, ds: seq<Definition>): DefTable {
    if ds == [] then t
    else
      var sofar := MergeExports(t, ds[..|ds| - 1]);
      if ds[|ds| - 1].exported then KeepBetter(sofar, ds[|ds| - 1]) else sofar
  }

  function EdgeOf(f: File, imp: Import): ImportEdge {
    ImportEdge(f.mod, imp.mod, f.path, imp.location)
  }

  /** The edges of the first `n` imports of `f`, each replacing an earlier edge to the same module. */
  function MergeEdges(t: EdgeTable, f: File, n: nat): EdgeTable
    requires n <= |f.imports|
  {
    if n == 0 then t else MergeEdges(t, f, n - 1)[f.imports[n - 1].mod := EdgeOf(f, f.imports[n - 1])]
  }

  function Importers(importedBy: map<Name, set<Name>>, to: Name): set<Name> {
    if to in importedBy then importedBy[to] else {}
  }

  function MergeImporters(importedBy: map<Name, set<Name>>, f: File, n: nat): map<Name, set<Name>>
    requires n <= |f.imports|
  {
    if n == 0 then importedBy
    else
      var sofar := MergeImporters(importedBy, f, n - 1);
      var to := f.imports[n - 1].mod;
      sofar[to := Importers(sofar, to) + {f.mod}]
  }

  function RemoveFirst(s: seq<Name>, x: Name): seq<Name> {
    if s == [] then [] else if s[0] == x then s[1..] else [s[0]] + RemoveFirst(s[1..], x)
  }

  // ----- the state and the operations on it

  datatype State = State(cache: Cache<Name, File>, fileToModule: map<Name, Name>, fileToLanguage: map<Name, int>,
    modules: map<Name, Module>, imports: map<Name, EdgeTable>, importedBy: map<Name, set<Name>>,
    definitions: map<Name, DefTable>)

  function NewState(capacity: int): State {
    State(EmptyCache(capacity), map[], map[], map[], map[], map[], map[])
  }

  function Edges(imports: map<Name, EdgeTable>, m: Name): EdgeTable {
    if m in imports then imports[m] else map[]
  }

  function Defs(definitions: map<Name, DefTable>, m: Name): DefTable {
    if m in definitions then definitions[m] else map[]
  }

  function ModuleOf(modules: map<Name, Module>, m: Name): Module {
    if m in modules then modules[m] else Module(m, [], map[], 0)
  }

  /** `importedBy` without `m` among the importers of each module in `tos`. */
  function Unlink(importedBy: map<Name, set<Name>>, m: Name, tos: set<Name>): map<Name, set<Name>> {
    map to | to in importedBy :: if to in tos then importedBy[to] - {m} else importedBy[to]
  }

  /** The contribution of one file, after any earlier version has been taken out. */
  function Contribute(s: State, f: File): State {
    var mod := ModuleOf(s.modules, f.mod);
    var files := if f.path in mod.files then mod.files else mod.files + [f.path];
    var peak := if FilePeak(f.definitions) > mod.maxComplexity then FilePeak(f.definitions) else mod.maxComplexity;
    State(
      AfterPut(s.cache, f.path, f),
      s.fileToModule[f.path := f.mod],
      s.fileToLanguage[f.path := f.language],
      s.modules[f.mod := Module(mod.name, files, MergeExports(mod.exports, f.definitions), peak)],
      s.imports[f.mod := MergeEdges(Edges(s.imports, f.mod), f, |f.imports|)],
      MergeImporters(s.importedBy, f, |f.imports|),
      s.definitions[f.mod := MergeDefs(Defs(s.definitions, f.mod), f.definitions)])
  }

  /** One remaining file of `m` is replayed from the cache, if it is still there. */
  function Replay(s: State, m: Name, path: Name): State {
    if path !in s.cache.items then s
    else
      var f := s.cache.items[path];
      var mod := ModuleOf(s.modules, m);
      s.(cache := AfterGet(s.cache, path),
         definitions := s.definitions[m := MergeDefs(Defs(s.definitions, m), f.definitions)],
         modules := s.modules[m := mod.(exports := MergeExports(mod.exports, f.definitions))],
         imports := s.imports[f.mod := MergeEdges(Edges(s.imports, f.mod), f, |f.imports|)],
         importedBy := MergeImporters(s.importedBy, f, |f.imports|))
  }

  function ReplayAll(s: State, m: Name, files: seq<Name>): State {
    if files == [] then s else Replay(ReplayAll(s, m, files[..|files| - 1]), m, files[|files| - 1])
  }

  function Cleared(s: State, m: Name, files: seq<Name>): State {
    s.(modules := s.modules[m := ModuleOf(s.modules, m).(files := files, exports := map[])],
       definitions := s.definitions[m := map[]],
       imports := s.imports[m := map[]])
  }

  function Rebuild(s: State, m: Name, files: seq<Name>): State {
    var r := ReplayAll(Cleared(s, m, files), m, files);
    r.(importedBy := Unlink(r.importedBy, m, Edges(s.imports, m).Keys - Edges(r.imports, m).Keys))
  }

  function DropModule(s: State, m: Name): State {
    s.(importedBy := Unlink(s.importedBy, m, Edges(s.imports, m).Keys),
       modules := s.modules - {m}, imports := s.imports - {m}, definitions := s.definitions - {m})
  }

  function RemoveFrom(s: State, m: Name, path: Name): State {
    if m !in s.modules then s
    else
      var files := RemoveFirst(s.modules[m].files, path);
      if files == [] then DropModule(s, m) else Rebuild(s, m, files)
  }

  function Removed(s: State, path: Name): State {
    if path !in s.fileToModule then s
    else
      var r := RemoveFrom(s, s.fileToModule[path], path);
      r.(cache := AfterEvict(r.cache, path), fileToModule := r.fileToModule - {path},
         fileToLanguage := r.fileToLanguage - {path})
  }

  function Added(s: State, f: File): State {
    var looked := s.(cache := AfterGet(s.cache, f.path));
    Contribute(if f.path in s.cache.items then Removed(looked, f.path) else looked, f)
  }

  // ----- the invariant

  predicate ImportsEdge(s: State, from: Name, to: Name) {
    from in s.imports && to in s.imports[from]
  }

  predicate ImporterEntry(s: State, to: Name, from: Name) {
    to in s.importedBy && from in s.importedBy[to]
  }

  ghost predicate TablesOk(s: State) {
    && s.imports.Keys == s.modules.Keys
    && s.definitions.Keys == s.modules.Keys
    && (forall m :: m in s.modules ==>
          s.modules[m].name == m && s.modules[m].files != [] && Distinct(s.modules[m].files))
  }

  /** Every tracked file has a language and is listed by the module it is tracked for. */
  ghost predicate TrackedOk(s: State) {
    && s.fileToLanguage.Keys == s.fileToModule.Keys
    && (forall p :: p in s.fileToModule ==>
          s.fileToModule[p] in s.modules && p in s.modules[s.fileToModule[p]].files)
  }

  /** The cache holds the current version of some of the tracked files. */
  ghost predicate CacheOk(s: State) {
    && WellFormed(s.cache)
    && (forall p :: p in s.cache.items ==>
          && s.cache.items[p].path == p && p in s.fileToModule && s.fileToModule[p] == s.cache.items[p].mod
          && p in s.fileToLanguage && s.fileToLanguage[p] == s.cache.items[p].language)
  }

  /** The reverse index is the exact inverse of the imports. */
  ghost predicate ReverseOk(s: State) {
    forall from, to :: ImportsEdge(s, from, to) <==> ImporterEntry(s, to, from)
  }

  ghost predicate GraphOk(s: State) {
    TablesOk(s) && TrackedOk(s) && CacheOk(s) && ReverseOk(s)
  }

  // ----- the tables of one file

  lemma {:induction false} MergeEdgesKeys(t: EdgeTable, f: File, n: nat)
    requires n <= |f.imports|
    ensures forall to :: to in MergeEdges(t, f, n) <==> to in t || exists i :: 0 <= i < n && f.imports[i].mod == to
  {
    if n > 0 {
      MergeEdgesKeys(t, f, n - 1);
    }
  }

  lemma {:induction false} MergeImportersEntries(ib: map<Name, set<Name>>, f: File, n: nat)
    requires n <= |f.imports|
    ensures forall to, from :: from in Importers(MergeImporters(ib, f, n), to) <==>
              from in Importers(ib, to) || (from == f.mod && exists i :: 0 <= i < n && f.imports[i].mod == to)
  {
    if n > 0 {
      MergeImportersEntries(ib, f, n - 1);
      var sofar, last := MergeImporters(ib, f, n - 1), f.imports[n - 1].mod;
      forall to, from
        ensures from in Importers(MergeImporters(ib, f, n), to) <==>
              from in Importers(ib, to) || (from == f.mod && exists i :: 0 <= i < n && f.imports[i].mod == to)
      {
        assert from in Importers(MergeImporters(ib, f, n), to) <==>
            from in Importers(sofar, to) || (from == f.mod && to == last);
      }
    }
  }

  lemma {:induction false} RemoveFirstContents(s: seq<Name>, x: Name)
    requires Distinct(s)
    ensures forall y :: y in RemoveFirst(s, x) <==> y in s && y != x
    ensures Distinct(RemoveFirst(s, x))
    decreases |s|
  {
    if s != [] {
      var t := s[1..];
      assert s == [s[0]] + t;
      RemoveFirstContents(t, x);
      var r := RemoveFirst(t, x);
      assert s[0] !in t;
      forall i | 0 <= i < |r|
        ensures r[i] in t && r[i] != s[0]
      {
        var y := r[i];
        assert y in r;
      }
    }
  }

  // ----- every operation keeps the invariant

  /** Like `ReverseOk`, with the targets in `extra` still counted for `m`. */
  ghost predicate ReverseUpTo(s: State, m: Name, extra: set<Name>) {
    forall from, to :: ImporterEntry(s, to, from) <==> ImportsEdge(s, from, to) || (from == m && to in extra)
  }

  lemma ContributeReverse(s: State, f: File, m: Name, extra: set<Name>, imports: map<Name, EdgeTable>,
                          ib: map<Name, set<Name>>)
    requires ReverseUpTo(s, m, extra)
    requires imports == s.imports[f.mod := MergeEdges(Edges(s.imports, f.mod), f, |f.imports|)]
    requires ib == MergeImporters(s.importedBy, f, |f.imports|)
    ensures ReverseUpTo(s.(imports := imports, importedBy := ib), m, extra)
  {
    MergeEdgesKeys(Edges(s.imports, f.mod), f, |f.imports|);
    MergeImportersEntries(s.importedBy, f, |f.imports|);
    var r := s.(imports := imports, importedBy := ib);
    forall from, to
      ensures ImporterEntry(r, to, from) <==> ImportsEdge(r, from, to) || (from == m && to in extra)
    {
      assert ImporterEntry(s, to, from) <==> from in Importers(s.importedBy, to);
      assert ImporterEntry(r, to, from) <==> from in Importers(ib, to);
      assert ImportsEdge(s, from, to) <==> to in Edges(s.imports, from);
    }
  }

  lemma ContributeKeeps(s: State, f: File)
    requires GraphOk(s) && f.path !in s.cache.items
    ensures GraphOk(Contribute(s, f))
  {
    hide TablesOk, TrackedOk, CacheOk, ReverseOk, Contribute;
    ContributeKeepsTables(s, f);
    ContributeKeepsTracked(s, f);
    ContributeKeepsCache(s, f);
    ContributeKeepsReverse(s, f);
  }

  lemma ContributeKeepsTables(s: State, f: File)
    requires TablesOk(s)
    ensures TablesOk(Contribute(s, f))
  {
    hide AfterPut, FilePeak, MergeDefs, MergeExports, MergeEdges, MergeImporters;
  }

  lemma ContributeKeepsTracked(s: State, f: File)
    requires TrackedOk(s)
    ensures TrackedOk(Contribute(s, f))
  {
    hide AfterPut, FilePeak, MergeDefs, MergeExports, MergeEdges, MergeImporters;
  }

  lemma ContributeKeepsCache(s: State, f: File)
    requires CacheOk(s) && f.path !in s.cache.items
    ensures CacheOk(Contribute(s, f))
  {
    PutWellFormed(s.cache, f.path, f);
    hide AfterPut, WellFormed, MergeDefs, MergeExports, MergeEdges, MergeImporters;
  }

  lemma ContributeKeepsReverse(s: State, f: File)
    requires ReverseOk(s)
    ensures ReverseOk(Contribute(s, f))
  {
    var r := Contribute(s, f);
    assert ReverseUpTo(s, f.mod, {});
    ContributeReverse(s, f, f.mod, {}, r.imports, r.importedBy);
    hide MergeEdges, MergeImporters;
    var mid := s.(imports := r.imports, importedBy := r.importedBy);
    forall from, to
      ensures ImportsEdge(r, from, to) <==> ImporterEntry(r, to, from)
    {
      assert ImporterEntry(mid, to, from) <==> ImportsEdge(mid, from, to);
    }
  }

  /** What stays the same while the files of `m` are replayed. */
  ghost predicate Replaying(s: State, r: State, m: Name) {
    && r.fileToModule == s.fileToModule && r.fileToLanguage == s.fileToLanguage
    && r.cache.items == s.cache.items && r.cache.capacity == s.cache.capacity && WellFormed(r.cache)
    && r.modules.Keys == s.modules.Keys && r.imports.Keys == s.imports.Keys && r.definitions.Keys == s.definitions.Keys
    && (forall x :: x in s.modules ==> r.modules[x].(exports := s.modules[x].exports) == s.modules[x])
    && (forall x :: x in s.modules && x != m ==> r.modules[x] == s.modules[x])
    && (forall x :: x in s.definitions && x != m ==> r.definitions[x] == s.definitions[x])
  }

  ghost predicate CachedModulesLive(s: State) {
    && WellFormed(s.cache)
    && (forall p :: p in s.cache.items ==> s.cache.items[p].mod in s.imports)
  }

  lemma {:induction false} ReplayAllKeeps(s: State, m: Name, files: seq<Name>, extra: set<Name>)
    requires CachedModulesLive(s) && m in s.modules && m in s.definitions && m in s.imports
    requires ReverseUpTo(s, m, extra)
    ensures Replaying(s, ReplayAll(s, m, files), m)
    ensures ReverseUpTo(ReplayAll(s, m, files), m, extra)
    decreases |files|
  {
    hide Replay, Replaying, ReverseUpTo, CachedModulesLive;
    if files == [] {
      ReplayingNone(s, m);
    } else {
      var r, p := ReplayAll(s, m, files[..|files| - 1]), files[|files| - 1];
      ReplayAllKeeps(s, m, files[..|files| - 1], extra);
      ReplayingLive(s, r, m);
      ReplayKeepsReverse(r, m, p, extra);
      ReplayKeeps(r, m, p);
      ReplayingOn(s, r, Replay(r, m, p), m);
    }
  }

  lemma ReplayingNone(s: State, m: Name)
    requires CachedModulesLive(s)
    ensures Replaying(s, s, m)
  {
  }

  lemma ReplayingLive(s: State, r: State, m: Name)
    requires Replaying(s, r, m) && CachedModulesLive(s) && m in s.modules && m in s.definitions && m in s.imports
    ensures CachedModulesLive(r) && m in r.modules && m in r.definitions && m in r.imports
  {
  }

  lemma ReplayingOn(s: State, r: State, t: State, m: Name)
    requires Replaying(s, r, m) && Replaying(r, t, m)
    ensures Replaying(s, t, m)
  {
    hide WellFormed;
  }

  lemma ReplayKeeps(r: State, m: Name, p: Name)
    requires CachedModulesLive(r) && m in r.modules && m in r.definitions && m in r.imports
    ensures Replaying(r, Replay(r, m, p), m)
  {
    hide WellFormed, Without, MergeDefs, MergeExports, MergeEdges, MergeImporters;
    GetWellFormed(r.cache, p);
  }

  lemma ReplayKeepsReverse(r: State, m: Name, p: Name, extra: set<Name>)
    requires ReverseUpTo(r, m, extra)
    ensures ReverseUpTo(Replay(r, m, p), m, extra)
  {
    hide Without, MergeDefs, MergeExports, MergeEdges, MergeImporters;
    if p in r.cache.items {
      var t := Replay(r, m, p);
      ContributeReverse(r, r.cache.items[p], m, extra, t.imports, t.importedBy);
      var mid := r.(imports := t.imports, importedBy := t.importedBy);
      forall from, to
        ensures ImporterEntry(t, to, from) <==> ImportsEdge(t, from, to) || (from == m && to in extra)
      {
        assert ImporterEntry(mid, to, from) <==> ImportsEdge(mid, from, to) || (from == m && to in extra);
      }
    }
  }

  lemma UnlinkEntries(ib: map<Name, set<Name>>, m: Name, tos: set<Name>)
    ensures forall to, from :: to in Unlink(ib, m, tos) && from in Unlink(ib, m, tos)[to] <==>
              to in ib && from in ib[to] && !(from == m && to in tos)
  {
  }

  lemma RebuildKeepsReverse(s: State, m: Name, files: seq<Name>)
    requires GraphOk(s) && m in s.modules
    ensures Replaying(Cleared(s, m, files), Rebuild(s, m, files), m)
    ensures ReverseOk(Rebuild(s, m, files))
  {
    var c := Cleared(s, m, files);
    var extra := Edges(s.imports, m).Keys;
    forall from, to
      ensures ImporterEntry(c, to, from) <==> ImportsEdge(c, from, to) || (from == m && to in extra)
    {
      assert ImporterEntry(s, to, from) <==> ImportsEdge(s, from, to);
    }
    forall p | p in c.cache.items
      ensures c.cache.items[p].mod in c.imports
    {
      assert p in s.fileToModule;
    }
    ReplayAllKeeps(c, m, files, extra);
    var r := ReplayAll(c, m, files);
    var tos := extra - Edges(r.imports, m).Keys;
    UnlinkEntries(r.importedBy, m, tos);
    var t := Rebuild(s, m, files);
    forall from, to
      ensures ImportsEdge(t, from, to) <==> ImporterEntry(t, to, from)
    {
      assert ImporterEntry(r, to, from) <==> ImportsEdge(r, from, to) || (from == m && to in extra);
    }
  }

  lemma DropKeepsReverse(s: State, m: Name)
    requires GraphOk(s) && m in s.modules
    ensures ReverseOk(DropModule(s, m))
  {
    var t := DropModule(s, m);
    UnlinkEntries(s.importedBy, m, Edges(s.imports, m).Keys);
    forall from, to
      ensures ImportsEdge(t, from, to) <==> ImporterEntry(t, to, from)
    {
      assert ImporterEntry(s, to, from) <==> ImportsEdge(s, from, to);
    }
  }

  lemma RemovedKeeps(s: State, path: Name)
    requires GraphOk(s)
    ensures GraphOk(Removed(s, path)) && path !in Removed(s, path).cache.items
  {
    if path in s.fileToModule {
      var m := s.fileToModule[path];
      var files := RemoveFirst(s.modules[m].files, path);
      RemoveFirstContents(s.modules[m].files, path);
      if files == [] {
        DropKeepsReverse(s, m);
        EvictWellFormed(s.cache, path);
        SameReverse(DropModule(s, m), Removed(s, path));
      } else {
        RebuildKeepsReverse(s, m, files);
        var r := Rebuild(s, m, files);
        EvictWellFormed(r.cache, path);
        SameReverse(r, Removed(s, path));
        RebuildKeepsRest(s, m, files, path);
      }
    }
  }

  lemma SameReverse(s: State, t: State)
    requires ReverseOk(s) && t.imports == s.imports && t.importedBy == s.importedBy
    ensures ReverseOk(t)
  {
    forall from, to
      ensures ImportsEdge(t, from, to) <==> ImporterEntry(t, to, from)
    {
      assert ImportsEdge(s, from, to) <==> ImporterEntry(s, to, from);
    }
  }

  lemma RebuildKeepsRest(s: State, m: Name, files: seq<Name>, path: Name)
    requires GraphOk(s) && path in s.fileToModule && m == s.fileToModule[path]
    requires files == RemoveFirst(s.modules[m].files, path) && files != []
    requires Replaying(Cleared(s, m, files), Rebuild(s, m, files), m)
    ensures TablesOk(Removed(s, path)) && TrackedOk(Removed(s, path)) && CacheOk(Removed(s, path))
  {
    hide ReverseOk, RemoveFirst, ReplayAll, Unlink, TablesOk, TrackedOk, CacheOk;
    var r := Rebuild(s, m, files);
    TrackedModule(s, path);
    RemovedIs(s, m, files, path);
    RemoveFirstContents(s.modules[m].files, path);
    RestOfTables(s, m, files, path, r);
    RestOfFiles(s, m, files, path, r);
    RestOfCache(s, m, files, path, r);
  }

  /** The state after a removal, when `r` is the state after its rebuild. */
  function Forget(r: State, path: Name): State {
    r.(cache := AfterEvict(r.cache, path), fileToModule := r.fileToModule - {path},
       fileToLanguage := r.fileToLanguage - {path})
  }

  lemma TrackedModule(s: State, path: Name)
    requires GraphOk(s) && path in s.fileToModule
    ensures s.fileToModule[path] in s.modules && Distinct(s.modules[s.fileToModule[path]].files)
  {
    var m := s.fileToModule[path];
    assert s.modules[m].name == m;
  }

  lemma RemovedIs(s: State, m: Name, files: seq<Name>, path: Name)
    requires path in s.fileToModule && m == s.fileToModule[path] && m in s.modules
    requires files == RemoveFirst(s.modules[m].files, path) && files != []
    ensures Removed(s, path) == Forget(Rebuild(s, m, files), path)
  {
  }

  lemma RestOfTables(s: State, m: Name, files: seq<Name>, path: Name, r: State)
    requires TablesOk(s) && m in s.modules && Replaying(Cleared(s, m, files), r, m) && files != [] && Distinct(files)
    ensures TablesOk(Forget(r, path))
  {
    hide WellFormed, AfterEvict;
  }

  lemma RestOfFiles(s: State, m: Name, files: seq<Name>, path: Name, r: State)
    requires TrackedOk(s) && m in s.modules && Replaying(Cleared(s, m, files), r, m)
    requires forall p :: p in s.modules[m].files && p != path ==> p in files
    ensures TrackedOk(Forget(r, path))
  {
    hide WellFormed, AfterEvict;
    var t := Forget(r, path);
    assert t.fileToModule.Keys == s.fileToModule.Keys - {path} == t.fileToLanguage.Keys;
    assert r.modules[m].files == files;
    forall p | p in t.fileToModule
      ensures t.fileToModule[p] in t.modules && p in t.modules[t.fileToModule[p]].files
    {
      var x := s.fileToModule[p];
      assert x in s.modules && p in s.modules[x].files;
      assert x != m ==> r.modules[x] == s.modules[x];
    }
  }

  lemma RestOfCache(s: State, m: Name, files: seq<Name>, path: Name, r: State)
    requires CacheOk(s) && m in s.modules && Replaying(Cleared(s, m, files), r, m)
    ensures CacheOk(Forget(r, path))
  {
    hide WellFormed, AfterEvict;
    EvictWellFormed(r.cache, path);
  }

  lemma AddedKeeps(s: State, f: File)
    requires GraphOk(s)
    ensures GraphOk(Added(s, f))
  {
    var looked := s.(cache := AfterGet(s.cache, f.path));
    GetWellFormed(s.cache, f.path);
    SameReverse(s, looked);
    if f.path in s.cache.items {
      RemovedKeeps(looked, f.path);
      ContributeKeeps(Removed(looked, f.path), f);
    } else {
      ContributeKeeps(looked, f);
    }
  }

  // ----- runs

  datatype GraphOp = AddFile(file: File) | RemoveFile(path: Name) | GetFile(path: Name)
    | UpdateCapacity(capacity: int) | PruneCache(percentage: int)

  function Apply(s: State, op: GraphOp): State {
    match op
    case AddFile(f) => Added(s, f)
    case RemoveFile(path) => Removed(s, path)
    case GetFile(path) => s.(cache := AfterGet(s.cache, path))
    case UpdateCapacity(capacity) => s.(cache := AfterSetCapacity(s.cache, capacity))
    case PruneCache(percentage) => s.(cache := AfterPrune(s.cache, percentage))
  }

  function RunGraph(capacity: int, ops: seq<GraphOp>): State {
    if ops == [] then NewState(capacity) else Apply(RunGraph(capacity, ops[..|ops| - 1]), ops[|ops| - 1])
  }

  lemma ApplyKeeps(s: State, op: GraphOp)
    requires GraphOk(s)
    ensures GraphOk(Apply(s, op))
  {
    match op
    case AddFile(f) => AddedKeeps(s, f);
    case RemoveFile(path) => RemovedKeeps(s, path);
    case GetFile(path) =>
      GetWellFormed(s.cache, path);
      SameReverse(s, Apply(s, op));
    case UpdateCapacity(capacity) =>
      TruncateWellFormed(s.cache, if capacity <= 0 then 1 else capacity);
      SameReverse(s, Apply(s, op));
    case PruneCache(percentage) =>
      PruneTargetBound(|s.cache.order|, percentage);
      TruncateWellFormed(s.cache, |s.cache.order| - PruneTarget(|s.cache.order|, percentage));
      SameReverse(s, Apply(s, op));
  }

  /** Whatever the capacity and whatever is evicted, every reachable state satisfies the invariant. */
  lemma {:induction false} ReachableOk(capacity: int, ops: seq<GraphOp>)
    ensures GraphOk(RunGraph(capacity, ops))
    decreases |ops|
  {
    if ops != [] {
      ReachableOk(capacity, ops[..|ops| - 1]);
      ApplyKeeps(RunGraph(capacity, ops[..|ops| - 1]), ops[|ops| - 1]);
    }
  }

  /** The reverse index is the exact inverse of the import table, and every importer with an edge is a
      live module with at least one file. */
  lemma ReverseIndexExact(capacity: int, ops: seq<GraphOp>, from: Name, to: Name)
    ensures var s := RunGraph(capacity, ops);
            && (ImporterEntry(s, to, from) <==> ImportsEdge(s, from, to))
            && (ImporterEntry(s, to, from) ==> from in s.modules && s.modules[from].files != [])
  {
    ReachableOk(capacity, ops);
    var s := RunGraph(capacity, ops);
    assert ImportsEdge(s, from, to) <==> ImporterEntry(s, to, from);
  }

  // ----- the class

  lemma Overwritten<V>(m: map<Name, V>, k: Name, a: V, b: V)
    ensures m[k := a][k := b] == m[k := b]
  {
  }

  class Graph {
    const fileCache: LRUCache<Name, File>
    var fileToModule: map<Name, Name>
    var fileToLanguage: map<Name, int>
    var modules: map<Name, Module>
    var imports: map<Name, EdgeTable>
    var importedBy: map<Name, set<Name>>
    var definitions: map<Name, DefTable>

    ghost function Current(): State
      reads this, fileCache
    {
      State(fileCache.State(), fileToModule, fileToLanguage, modules, imports, importedBy, definitions)
    }

    ghost predicate Valid()
      reads this, fileCache
    {
      GraphOk(Current())
    }

    constructor (capacity: int)
      ensures Valid() && fresh(fileCache)
      ensures Current() == NewState(capacity)
    {
      fileCache := new LRUCache<Name, File>(capacity);
      fileToModule, fileToLanguage := map[], map[];
      modules, imports, importedBy, definitions := map[], map[], map[], map[];
    }

    /** Adds a file, taking out its earlier version first if the cache still holds it. */
    method AddFile(file: File)
      requires Valid()
      modifies this, fileCache
      ensures Valid() && Current() == Added(old(Current()), file)
    {
      hide Removed, Contribute, ReverseOk, TablesOk, TrackedOk;
      AddedKeeps(Current(), file);
      GetWellFormed(fileCache.State(), file.path);
      ghost var looked := Current().(cache := AfterGet(Current().cache, file.path));
      var existing := fileCache.Get(file.path);
      if existing.Some? {
        ApplyKeeps(old(Current()), GraphOp.GetFile(file.path));
        RemoveFile(file.path);
      }
      Insert(file);
    }

    /** The cached file, which becomes the most recent; no loader is attached. */
    method GetFile(path: Name) returns (file: Option<File>)
      requires Valid()
      modifies fileCache
      ensures Valid() && Current() == Apply(old(Current()), GraphOp.GetFile(path))
      ensures file.Some? ==> file.value.path == path && path in fileToModule && fileToModule[path] == file.value.mod
    {
      ApplyKeeps(Current(), GraphOp.GetFile(path));
      file := fileCache.Get(path);
    }

    method UpdateCapacity(capacity: int)
      requires Valid()
      modifies fileCache
      ensures Valid() && Current() == Apply(old(Current()), GraphOp.UpdateCapacity(capacity))
    {
      ApplyKeeps(Current(), GraphOp.UpdateCapacity(capacity));
      fileCache.SetCapacity(capacity);
    }

    method PruneCache(percentage: int) returns (count: nat)
      requires Valid()
      modifies fileCache
      ensures Valid() && Current() == Apply(old(Current()), GraphOp.PruneCache(percentage))
      ensures count == PruneTarget(|old(Current()).cache.order|, percentage)
    {
      ApplyKeeps(Current(), GraphOp.PruneCache(percentage));
      count := fileCache.Prune(percentage);
    }

    /** The part of `AddFile` after the earlier version is gone. */
    method Insert(file: File)
      requires fileCache.Valid()
      modifies this, fileCache
      ensures Current() == Contribute(old(Current()), file)
    {
      hide WellFormed, AfterPut, MergeDefs, MergeExports, MergeEdges, MergeImporters, FilePeak;
      ghost var s := Current();
      fileCache.Put(file.path, file);
      fileToModule := fileToModule[file.path := file.mod];
      fileToLanguage := fileToLanguage[file.path := file.language];
      InsertDefinitions(file, s);
      if file.mod !in imports {
        imports := imports[file.mod := map[]];
      }
      assert imports == s.imports[file.mod := Edges(s.imports, file.mod)];
      MergeImports(file);
      Overwritten(s.imports, file.mod, Edges(s.imports, file.mod), imports[file.mod]);
    }

    method InsertDefinitions(file: File, ghost s: State)
      requires s.modules == modules && s.definitions == definitions
      modifies this`modules, this`definitions
      ensures modules == Contribute(s, file).modules && definitions == Contribute(s, file).definitions
    {
      hide MergeDefs, MergeExports, MergeEdges, MergeImporters, FilePeak;
      ghost var was := ModuleOf(modules, file.mod);
      ghost var files := if file.path in was.files then was.files else was.files + [file.path];
      ListFile(file);
      if file.mod !in definitions {
        definitions := definitions[file.mod := map[]];
      }
      assert definitions == s.definitions[file.mod := Defs(s.definitions, file.mod)];
      MergeDefinitions(file.mod, file.definitions);
      ghost var exports := MergeExports(was.exports, file.definitions);
      Overwritten(s.modules, file.mod, was.(files := files), was.(files := files, exports := exports));
      Overwritten(s.definitions, file.mod, Defs(s.definitions, file.mod), definitions[file.mod]);
      var fileMaxComplexity := Peak(file.definitions);
      if fileMaxComplexity > modules[file.mod].maxComplexity {
        Overwritten(s.modules, file.mod, was.(files := files, exports := exports),
          was.(files := files, exports := exports, maxComplexity := fileMaxComplexity));
        modules := modules[file.mod := modules[file.mod].(maxComplexity := fileMaxComplexity)];
      }
    }

    /** Makes sure the file's module exists and lists the file. */
    method ListFile(file: File)
      modifies this`modules
      ensures var was := ModuleOf(old(modules), file.mod);
              modules == old(modules)[file.mod :=
                was.(files := if file.path in was.files then was.files else was.files + [file.path])]
    {
      if file.mod !in modules {
        modules := modules[file.mod := Module(file.mod, [], map[], 0)];
      }
      if file.path !in modules[file.mod].files {
        modules := modules[file.mod := modules[file.mod].(files := modules[file.mod].files + [file.path])];
      }
    }

    /** Removes a file. A module left without files disappears; any other is rebuilt from those of its
        files that the cache still holds. */
    method RemoveFile(path: Name)
      requires Valid()
      modifies this, fileCache
      ensures Valid() && Current() == Removed(old(Current()), path)
    {
      hide ReverseOk, Rebuild, RemoveFirst, AfterEvict, Unlink;
      RemovedKeeps(Current(), path);
      if path !in fileToModule {
        return;
      }
      var moduleName := fileToModule[path];
      if moduleName in modules {
        var files := RemoveFirst(modules[moduleName].files, path);
        if files == [] {
          UnlinkTargets(moduleName, Edges(imports, moduleName).Keys);
          modules := modules - {moduleName};
          imports := imports - {moduleName};
          definitions := definitions - {moduleName};
        } else {
          RebuildModule(moduleName, files);
        }
      }
      assert Current() == RemoveFrom(old(Current()), moduleName, path);
      fileCache.Evict(path);
      fileToModule := fileToModule - {path};
      fileToLanguage := fileToLanguage - {path};
    }

    method RebuildModule(m: Name, files: seq<Name>)
      requires Valid() && m in modules
      modifies this, fileCache
      ensures Current() == Rebuild(old(Current()), m, files)
      ensures fileCache.Valid()
    {
      hide ReplayAll, Without, MergeDefs, MergeExports, MergeEdges, MergeImporters, Replaying, GraphOk, WellFormed;
      hide ReverseOk, CachedModulesLive, ReverseUpTo, TrackedOk, CacheOk, Unlink;
      ghost var s := Current();
      RebuildKeepsReverse(s, m, files);
      RebuildKeepsCache(s, m, files);
      var oldImports := imports[m];
      modules := modules[m := modules[m].(files := files, exports := map[])];
      definitions := definitions[m := map[]];
      imports := imports[m := map[]];
      ghost var c := Current();
      ReplayLive(s, m, files);
      ReplayAllNone(c, m, files);
      for i := 0 to |files|
        invariant fileCache.Valid()
        invariant Current() == ReplayAll(c, m, files[..i])
      {
        ReplayAllSnoc(c, m, files, i);
        ReplayStaysLive(s, m, files, files[..i]);
        ReplayFile(m, files[i]);
      }
      assert files[..|files|] == files;
      UnlinkTargets(m, oldImports.Keys - Edges(imports, m).Keys);
    }

    /** Merges one remaining file of `m` again, if the cache still holds it. */
    method ReplayFile(m: Name, path: Name)
      requires CachedModulesLive(Current()) && m in modules && m in definitions && m in imports
      modifies this, fileCache
      ensures Current() == Replay(old(Current()), m, path) && fileCache.Valid()
    {
      GetWellFormed(fileCache.State(), path);
      hide WellFormed, Without, MergeDefs, MergeExports, MergeEdges, MergeImporters;
      var f := fileCache.Get(path);
      if f.Some? {
        MergeDefinitions(m, f.value.definitions);
        MergeImports(f.value);
      }
    }

    /** Merges definitions into the symbol table and the exports of module `m`. */
    method MergeDefinitions(m: Name, ds: seq<Definition>)
      requires m in modules && m in definitions
      modifies this`modules, this`definitions
      ensures definitions == old(definitions)[m := MergeDefs(old(definitions)[m], ds)]
      ensures modules == old(modules)[m := old(modules)[m].(exports := MergeExports(old(modules)[m].exports, ds))]
    {
      for i := 0 to |ds|
        invariant m in modules && m in definitions
        invariant definitions == old(definitions)[m := MergeDefs(old(definitions)[m], ds[..i])]
        invariant modules ==
                  old(modules)[m := old(modules)[m].(exports := MergeExports(old(modules)[m].exports, ds[..i]))]
      {
        assert ds[..i + 1][..i] == ds[..i];
        var def := ds[i];
        if def.name !in definitions[m] || PreferDefinition(def, definitions[m][def.name]) {
          definitions := definitions[m := definitions[m][def.name := def]];
        }
        if def.exported {
          var exports := modules[m].exports;
          if def.name !in exports || PreferDefinition(def, exports[def.name]) {
            modules := modules[m := modules[m].(exports := exports[def.name := def])];
          }
        }
      }
      assert ds[..|ds|] == ds;
    }

    method Peak(ds: seq<Definition>) returns (peak: int)
      ensures peak == FilePeak(ds)
    {
      peak := 0;
      for i := 0 to |ds|
        invariant peak == FilePeak(ds[..i])
      {
        assert ds[..i + 1][..i] == ds[..i];
        var sc := ds[i].complexityScore;
        if sc == 0 {
          sc := WeightedScore(ds[i]);
        }
        if sc > peak {
          peak := sc;
        }
      }
      assert ds[..|ds|] == ds;
    }

    method MergeImports(file: File)
      requires file.mod in imports
      modifies this`imports, this`importedBy
      ensures imports == old(imports)[file.mod := MergeEdges(old(imports)[file.mod], file, |file.imports|)]
      ensures importedBy == MergeImporters(old(importedBy), file, |file.imports|)
    {
      for i := 0 to |file.imports|
        invariant file.mod in imports
        invariant imports == old(imports)[file.mod := MergeEdges(old(imports)[file.mod], file, i)]
        invariant importedBy == MergeImporters(old(importedBy), file, i)
      {
        var imp := file.imports[i];
        var edge := ImportEdge(file.mod, imp.mod, file.path, imp.location);
        imports := imports[file.mod := imports[file.mod][imp.mod := edge]];
        if imp.mod !in importedBy {
          importedBy := importedBy[imp.mod := {}];
        }
        importedBy := importedBy[imp.mod := importedBy[imp.mod] + {file.mod}];
      }
    }

    /** Takes `m` out of the importers of every module in `tos`. */
    method UnlinkTargets(m: Name, tos: set<Name>)
      modifies this`importedBy
      ensures importedBy == Unlink(old(importedBy), m, tos)
    {
      var rest := tos;
      while rest != {}
        invariant rest <= tos && importedBy == Unlink(old(importedBy), m, tos - rest)
        decreases rest
      {
        SomeElement(rest);
        var to :| to in rest;
        if to in importedBy {
          importedBy := importedBy[to := importedBy[to] - {m}];
        }
        rest := rest - {to};
      }
    }
  }

  lemma ReplayAllNone(s: State, m: Name, files: seq<Name>)
    ensures ReplayAll(s, m, files[..0]) == s
  {
  }

  lemma ReplayAllSnoc(s: State, m: Name, files: seq<Name>, i: nat)
    requires i < |files|
    ensures ReplayAll(s, m, files[..i + 1]) == Replay(ReplayAll(s, m, files[..i]), m, files[i])
  {
    assert files[..i + 1][..i] == files[..i];
  }

  lemma RebuildKeepsCache(s: State, m: Name, files: seq<Name>)
    requires GraphOk(s) && m in s.modules && m in Cleared(s, m, files).modules
    requires Replaying(Cleared(s, m, files), Rebuild(s, m, files), m)
    ensures m in s.imports && WellFormed(Rebuild(s, m, files).cache)
  {
  }

  lemma ReplayLive(s: State, m: Name, files: seq<Name>)
    requires GraphOk(s) && m in s.modules
    ensures CachedModulesLive(Cleared(s, m, files))
    ensures m in Cleared(s, m, files).modules && m in Cleared(s, m, files).definitions &&
            m in Cleared(s, m, files).imports
    ensures ReverseUpTo(Cleared(s, m, files), m, Edges(s.imports, m).Keys)
  {
    var c := Cleared(s, m, files);
    forall p | p in c.cache.items
      ensures c.cache.items[p].mod in c.imports
    {
      assert p in s.fileToModule;
    }
    forall from, to
      ensures ImporterEntry(c, to, from) <==> ImportsEdge(c, from, to) || (from == m && to in Edges(s.imports, m).Keys)
    {
      assert ImporterEntry(s, to, from) <==> ImportsEdge(s, from, to);
    }
  }

  /** While the siblings are replayed, every map that is about to be written has an entry. */
  lemma ReplayStaysLive(s: State, m: Name, files: seq<Name>, done: seq<Name>)
    requires GraphOk(s) && m in s.modules
    ensures var r := ReplayAll(Cleared(s, m, files), m, done);
            m in r.modules && m in r.definitions && m in r.imports && CachedModulesLive(r)
  {
    ReplayLive(s, m, files);
    ReplayAllKeeps(Cleared(s, m, files), m, done, Edges(s.imports, m).Keys);
  }
}
