/** The scan roots: of the given directories, those that lie under no other. */
module ScanRoots {
  import opened Collections

  /** A cleaned path. Absolute paths start with the separator; "." stands for the working directory. */
  type Path = seq<char>

  const SEPARATOR: char := '/'
  const DOT: Path := "."
  const DOTDOT: Path := ".."

  predicate Rooted(p: Path) {
    |p| >= 1 && p[0] == SEPARATOR && (|p| > 1 ==> p[|p| - 1] != SEPARATOR)
  }

  predicate Relative(p: Path) {
    |p| >= 1 && p[0] != SEPARATOR && p[|p| - 1] != SEPARATOR
  }

  predicate CleanPath(p: Path) {
    Rooted(p) || Relative(p)
  }

  /** The relative path goes up. */
  predicate Climbs(p: Path) {
    p == DOTDOT || DOTDOT + [SEPARATOR] <= p
  }

  /** There is a relative path from `root` to `candidate`, and it does not go up. This is the code's own test: of a
      relative `root` that goes up itself, it knows only what is spelled below it. */
  predicate IsSubpath(root: Path, candidate: Path) {
    if root == candidate then true
    else if root == DOT then |candidate| >= 1 && candidate[0] != SEPARATOR && !Climbs(candidate)
    else if root == [SEPARATOR] then |candidate| >= 1 && candidate[0] == SEPARATOR
    else root + [SEPARATOR] <= candidate && !Climbs(candidate[|root| + 1..])
  }

  /** The first name of a relative path. */
  function FirstName(p: Path): Path {
    if p == [] || p[0] == SEPARATOR then [] else [p[0]] + FirstName(p[1..])
  }

  lemma ClimbsMeans(p: Path)
    ensures Climbs(p) <==> FirstName(p) == DOTDOT
  {
    if |p| >= 1 && p[0] != SEPARATOR {
      assert FirstName(p) == [p[0]] + FirstName(p[1..]);
      if |p| >= 2 && p[1] != SEPARATOR {
        assert FirstName(p[1..]) == [p[1]] + FirstName(p[2..]);
        assert FirstName(p) == [p[0], p[1]] + FirstName(p[2..]);
        assert FirstName(p) == DOTDOT <==> p[..2] == DOTDOT && FirstName(p[2..]) == [];
        assert |p| == 2 ==> p == p[..2];
      }
    }
  }

  /** The path that leads from the working directory, or from the top, through `root` on to `rest`. */
  function Under(root: Path, rest: Path): Path {
    if root == DOT then rest else if root == [SEPARATOR] then root + rest else root + [SEPARATOR] + rest
  }

  /** From `root` a relative path whose first name is not ".." leads to `candidate`. */
  ghost predicate Below(root: Path, candidate: Path) {
    exists rest :: rest != [] && (root == DOT ==> rest[0] != SEPARATOR) && FirstName(rest) != DOTDOT &&
      candidate == Under(root, rest)
  }

  /** The test decides whether the candidate is the root or lies below it. */
  lemma SubpathMeans(root: Path, candidate: Path)
    requires CleanPath(root) && CleanPath(candidate)
    requires Rooted(candidate) ==> FirstName(candidate[1..]) != DOTDOT
    ensures IsSubpath(root, candidate) <==> candidate == root || Below(root, candidate)
  {
    hide FirstName, Climbs;
    if candidate != root {
      if IsSubpath(root, candidate) {
        var rest := if root == DOT then candidate else if root == [SEPARATOR] then candidate[1..]
          else candidate[|root| + 1..];
        ClimbsMeans(rest);
        assert rest != [] && candidate == Under(root, rest);
      }
      if Below(root, candidate) {
        var rest :| rest != [] && (root == DOT ==> rest[0] != SEPARATOR) && FirstName(rest) != DOTDOT &&
          candidate == Under(root, rest);
        ClimbsMeans(rest);
        assert root != DOT && root != [SEPARATOR] ==> rest == candidate[|root| + 1..];
      }
    }
  }

  /** What goes on after a path that does not go up does not go up either. */
  lemma GoesOnDown(p: Path, longer: Path)
    requires p + [SEPARATOR] <= longer && Climbs(longer)
    ensures Climbs(p)
  {
    assert (p + [SEPARATOR])[|p|] == SEPARATOR;
    if |p| == 2 {
      assert p == longer[..2];
    } else if |p| > 2 {
      assert p[..3] == longer[..3];
    }
  }

  lemma SubpathTransitive(a: Path, b: Path, c: Path)
    requires CleanPath(a) && CleanPath(b) && CleanPath(c) && IsSubpath(a, b) && IsSubpath(b, c)
    ensures IsSubpath(a, c)
  {
    if a != b && b != c {
      if b + [SEPARATOR] <= c && a == DOT {
        if Climbs(c) {
          GoesOnDown(b, c);
        }
      } else if b + [SEPARATOR] <= c && a != [SEPARATOR] {
        assert a + [SEPARATOR] <= b <= c;
        var x, y := b[|a| + 1..], c[|a| + 1..];
        assert x + [SEPARATOR] <= y by {
          assert (b + [SEPARATOR])[|a| + 1..] == x + [SEPARATOR];
        }
        if Climbs(y) {
          GoesOnDown(x, y);
        }
      }
    }
  }

  /** A path above another is shorter, or it is the working directory. */
  lemma SubpathLonger(a: Path, b: Path)
    requires CleanPath(a) && CleanPath(b) && IsSubpath(a, b) && a != b
    ensures |a| < |b| || (a == DOT && |b| == 1 && Relative(b))
  {
  }

  /** Two paths above the same path lie on one line. */
  lemma AncestorsComparable(a: Path, b: Path, c: Path)
    requires CleanPath(a) && CleanPath(b) && CleanPath(c) && IsSubpath(a, c) && IsSubpath(b, c)
    ensures IsSubpath(a, b) || IsSubpath(b, a)
  {
    if |a| <= |b| {
      OnOneLine(a, b, c);
    } else {
      OnOneLine(b, a, c);
    }
  }

  lemma OnOneLine(a: Path, b: Path, c: Path)
    requires CleanPath(a) && CleanPath(b) && CleanPath(c) && IsSubpath(a, c) && IsSubpath(b, c) && |a| <= |b|
    ensures IsSubpath(a, b) || IsSubpath(b, a)
  {
    if a != b && a != c && b != c && b + [SEPARATOR] <= c {
      assert b == c[..|b|];
      if a == DOT {
        if Climbs(b) {
          ClimbsOn(b, c);
        }
      } else if a != [SEPARATOR] {
        BelowOther(a, b, c);
      }
    }
  }

  lemma ClimbsOn(b: Path, c: Path)
    requires b + [SEPARATOR] <= c && Climbs(b)
    ensures Climbs(c)
  {
    assert b == DOTDOT ==> DOTDOT + [SEPARATOR] <= c;
  }

  lemma BelowOther(a: Path, b: Path, c: Path)
    requires a + [SEPARATOR] <= c && b + [SEPARATOR] <= c && |a| <= |b| && a != b && !Climbs(c[|a| + 1..])
    ensures a + [SEPARATOR] <= b && !Climbs(b[|a| + 1..])
  {
    assert a == c[..|a|] && b == c[..|b|];
    assert a + [SEPARATOR] == c[..|a| + 1];
    assert c[..|a| + 1] == c[..|b|][..|a| + 1];
    var x, y := b[|a| + 1..], c[|a| + 1..];
    assert x + [SEPARATOR] <= y by {
      assert (b + [SEPARATOR])[|a| + 1..] == x + [SEPARATOR];
    }
    if Climbs(x) {
      ClimbsOn(x, y);
    }
  }

  // ----- the order of strings

  predicate LexLess(a: Path, b: Path) {
    if b == [] then false
    else if a == [] then true
    else if a[0] != b[0] then a[0] < b[0]
    else LexLess(a[1..], b[1..])
  }

  /** String order: `a` is cut short, or at the first difference it has the smaller character. */
  lemma {:induction false} LexMeans(a: Path, b: Path)
    ensures LexLess(a, b) <==>
            (a <= b && a != b) || exists k :: 0 <= k < |a| && k < |b| && a[..k] == b[..k] && a[k] < b[k]
    decreases |a|
  {
    if a != [] && b != [] {
      var x, y := a[1..], b[1..];
      LexMeans(x, y);
      assert a == [a[0]] + x && b == [b[0]] + y;
      if LexLess(a, b) && a[0] == b[0] {
        if k :| 0 <= k < |x| && k < |y| && x[..k] == y[..k] && x[k] < y[k] {
          assert a[..k + 1] == [a[0]] + x[..k] && b[..k + 1] == [b[0]] + y[..k];
          assert a[k + 1] < b[k + 1];
        }
      }
      if LexLess(a, b) && a[0] < b[0] {
        assert a[..0] == b[..0];
      }
      if k :| 0 <= k < |a| && k < |b| && a[..k] == b[..k] && a[k] < b[k] {
        if k > 0 {
          assert a[0] == a[..k][0] == b[0];
          assert x[..k - 1] == a[..k][1..] && y[..k - 1] == b[..k][1..];
          assert x[k - 1] < y[k - 1];
        }
      }
    }
  }

  lemma {:induction false} LexTotal(a: Path, b: Path)
    ensures LexLess(a, b) || LexLess(b, a) || a == b
    ensures !(LexLess(a, b) && LexLess(b, a)) && (a == b ==> !LexLess(a, b))
    decreases |a|
  {
    if a != [] && b != [] {
      LexTotal(a[1..], b[1..]);
      assert a == [a[0]] + a[1..] && b == [b[0]] + b[1..];
    }
  }

  lemma {:induction false} LexTransitive(a: Path, b: Path, c: Path)
    requires LexLess(a, b) && LexLess(b, c)
    ensures LexLess(a, c)
    decreases |a|
  {
    if a != [] && a[0] == b[0] && b[0] == c[0] {
      LexTransitive(a[1..], b[1..], c[1..]);
    }
  }

  /** Shorter paths first, paths of one length in string order. */
  predicate ShortLex(a: Path, b: Path) {
    if |a| == |b| then LexLess(a, b) else |a| < |b|
  }

  predicate Less(byLength: bool, a: Path, b: Path) {
    if byLength then ShortLex(a, b) else LexLess(a, b)
  }

  ghost predicate Ascending(byLength: bool, s: seq<Path>) {
    forall i, j :: 0 <= i < j < |s| ==> Less(byLength, s[i], s[j])
  }

  lemma LessTotal(byLength: bool, a: Path, b: Path)
    ensures Less(byLength, a, b) || Less(byLength, b, a) || a == b
    ensures !(Less(byLength, a, b) && Less(byLength, b, a)) && !Less(byLength, a, a)
  {
    LexTotal(a, b);
    LexTotal(a, a);
  }

  lemma LessTransitive(byLength: bool, a: Path, b: Path, c: Path)
    requires Less(byLength, a, b) && Less(byLength, b, c)
    ensures Less(byLength, a, c)
  {
    if LexLess(a, b) && LexLess(b, c) {
      LexTransitive(a, b, c);
    }
  }

  function Insert(byLength: bool, x: Path, s: seq<Path>): seq<Path> {
    if s == [] then [x] else if Less(byLength, x, s[0]) then [x] + s else [s[0]] + Insert(byLength, x, s[1..])
  }

  lemma {:induction false} InsertAscending(byLength: bool, x: Path, s: seq<Path>)
    requires Ascending(byLength, s) && x !in s
    ensures Ascending(byLength, Insert(byLength, x, s))
    ensures forall y :: y in Insert(byLength, x, s) <==> y == x || y in s
    decreases |s|
  {
    if s != [] {
      assert s == [s[0]] + s[1..];
      LessTotal(byLength, x, s[0]);
      if Less(byLength, x, s[0]) {
        forall i | 0 <= i < |s|
          ensures Less(byLength, x, s[i])
        {
          if i > 0 {
            LessTransitive(byLength, x, s[0], s[i]);
          }
        }
      } else {
        InsertAscending(byLength, x, s[1..]);
        var t := Insert(byLength, x, s[1..]);
        forall i | 0 <= i < |t|
          ensures Less(byLength, s[0], t[i])
        {
          var y := t[i];
          assert y in t;
          if y != x {
            var j :| 0 <= j < |s[1..]| && s[1..][j] == y;
            assert s[j + 1] == y;
          }
        }
      }
    }
  }

  /** Two ascending lists of the same paths are the same list. */
  lemma {:induction false} AscendingUnique(byLength: bool, s: seq<Path>, t: seq<Path>)
    requires Ascending(byLength, s) && Ascending(byLength, t) && forall x :: x in s <==> x in t
    ensures s == t
    decreases |s|
  {
    BothEmpty(s, t);
    if s != [] {
      FirstsAgree(byLength, s, t);
      assert s == [s[0]] + s[1..] && t == [t[0]] + t[1..];
      RestAgrees(byLength, s, t);
      RestAgrees(byLength, t, s);
      AscendingUnique(byLength, s[1..], t[1..]);
    }
  }

  lemma BothEmpty(s: seq<Path>, t: seq<Path>)
    requires forall x :: x in s <==> x in t
    ensures s == [] <==> t == []
  {
    if |s| > 0 && s[0] in s {
    }
    if |t| > 0 && t[0] in t {
    }
  }

  lemma FirstsAgree(byLength: bool, s: seq<Path>, t: seq<Path>)
    requires Ascending(byLength, s) && Ascending(byLength, t) && forall x :: x in s <==> x in t
    requires s != [] && t != []
    ensures s[0] == t[0]
  {
    assert s[0] in t && t[0] in s;
    var i :| 0 <= i < |t| && t[i] == s[0];
    var j :| 0 <= j < |s| && s[j] == t[0];
    LessTotal(byLength, s[0], t[0]);
  }

  lemma RestAgrees(byLength: bool, s: seq<Path>, t: seq<Path>)
    requires Ascending(byLength, s) && s != [] && t != [] && s[0] == t[0] && forall x :: x in s <==> x in t
    ensures forall x :: x in s[1..] ==> x in t[1..]
  {
    forall x | x in s[1..]
      ensures x in t[1..]
    {
      var i :| 0 <= i < |s[1..]| && s[1..][i] == x;
      assert s[i + 1] == x && Less(byLength, s[0], x);
      LessTotal(byLength, x, x);
      assert x in s && x in t;
      var j :| 0 <= j < |t| && t[j] == x;
      assert j > 0;
      assert t[1..][j - 1] == x;
    }
  }

  // ----- the roots

  /** The cleaned paths that the input stands for; blank entries stand for none. */
  ghost function Cleaned(paths: seq<Path>, clean: Path -> Option<Path>): set<Path> {
    set i | 0 <= i < |paths| && clean(paths[i]).Some? :: clean(paths[i]).value
  }

  ghost predicate Cleans(clean: Path -> Option<Path>) {
    forall p :: clean(p).Some? ==> CleanPath(clean(p).value)
  }

  ghost predicate AllClean(all: set<Path>) {
    forall q :: q in all ==> CleanPath(q)
  }

  /** A path of the set that lies under no other path of the set. */
  ghost predicate Minimal(all: set<Path>, r: Path) {
    r in all && forall q :: q in all && IsSubpath(q, r) ==> q == r
  }

  ghost predicate AreRoots(all: set<Path>, roots: seq<Path>) {
    Ascending(false, roots) && forall r :: r in roots <==> Minimal(all, r)
  }

  /** A path of the set that comes before every other path of the set above it. */
  ghost predicate Leads(all: set<Path>, r: Path) {
    r in all && forall q :: q in all && IsSubpath(q, r) && q != r ==> Less(true, r, q)
  }

  /** The working directory is in the set together with a path of one character that sorts before it. */
  ghost predicate DotComesLate(all: set<Path>) {
    DOT in all && exists p :: p in all && p != DOT && Relative(p) && |p| == 1 && Less(true, p, DOT)
  }

  lemma MinimalLeads(all: set<Path>, r: Path)
    requires Minimal(all, r)
    ensures Leads(all, r)
  {
  }

  lemma LateDot(all: set<Path>, r: Path)
    requires AllClean(all) && Leads(all, r) && !Minimal(all, r)
    ensures DotComesLate(all)
  {
    var q :| q in all && IsSubpath(q, r) && q != r;
    SubpathLonger(q, r);
    assert Less(true, r, q);
  }

  lemma DotIsAbove(all: set<Path>, p: Path)
    requires AllClean(all) && DOT in all && p in all && p != DOT && Relative(p) && |p| == 1 && Less(true, p, DOT)
    ensures Leads(all, p) && !Minimal(all, p)
  {
    assert IsSubpath(DOT, p);
    forall q | q in all && IsSubpath(q, p) && q != p
      ensures Less(true, p, q)
    {
      SubpathLonger(q, p);
    }
  }

  /** What comes before everything above it is what lies under nothing, exactly when no path comes before the
      working directory that lies in it. */
  lemma LeadsIsMinimalIff(all: set<Path>)
    requires AllClean(all)
    ensures (forall r :: Leads(all, r) <==> Minimal(all, r)) <==> !DotComesLate(all)
  {
    forall r
      ensures Minimal(all, r) ==> Leads(all, r)
      ensures Leads(all, r) && !Minimal(all, r) ==> DotComesLate(all)
    {
      if Minimal(all, r) {
        MinimalLeads(all, r);
      }
      if Leads(all, r) && !Minimal(all, r) {
        LateDot(all, r);
      }
    }
    if DotComesLate(all) {
      var p :| p in all && p != DOT && Relative(p) && |p| == 1 && Less(true, p, DOT);
      DotIsAbove(all, p);
    }
  }

  method Normalize(paths: seq<Path>, clean: Path -> Option<Path>) returns (normalized: seq<Path>)
    ensures Distinct(normalized)
    ensures forall p :: p in normalized <==> p in Cleaned(paths, clean)
  {
    var seen: set<Path> := {};
    normalized := [];
    for i := 0 to |paths|
      invariant Distinct(normalized) && seen == set p | p in normalized
      invariant forall p :: p in normalized <==> exists k :: 0 <= k < i && clean(paths[k]) == Some(p)
    {
      ghost var before := normalized;
      var c := clean(paths[i]);
      if c.Some? && c.value !in seen {
        seen := seen + {c.value};
        normalized := normalized + [c.value];
      }
      forall p
        ensures p in normalized <==> exists k :: 0 <= k < i + 1 && clean(paths[k]) == Some(p)
      {
        assert p in normalized <==> p in before || c == Some(p);
      }
    }
  }

  method SortPaths(byLength: bool, s: seq<Path>) returns (r: seq<Path>)
    requires Distinct(s)
    ensures Ascending(byLength, r) && forall p :: p in r <==> p in s
  {
    r := [];
    for i := 0 to |s|
      invariant Ascending(byLength, r) && forall p :: p in r <==> p in s[..i]
    {
      assert s[..i + 1] == s[..i] + [s[i]];
      assert s[i] !in s[..i];
      InsertAscending(byLength, s[i], r);
      r := Insert(byLength, s[i], r);
    }
    assert s[..|s|] == s;
  }

  /** The paths that come before everything above them, sorted. They are the roots exactly when the working
      directory does not come after a path that lies in it. */
  method UniqueScanRoots(paths: seq<Path>, clean: Path -> Option<Path>) returns (roots: seq<Path>)
    requires Cleans(clean)
    ensures Ascending(false, roots) && forall r :: r in roots <==> Leads(Cleaned(paths, clean), r)
    ensures AreRoots(Cleaned(paths, clean), roots) <==> !DotComesLate(Cleaned(paths, clean))
  {
    hide Leads, Minimal, DotComesLate;
    var normalized := Normalize(paths, clean);
    ghost var all := Cleaned(paths, clean);
    assert AllClean(all);
    LeadsIsMinimalIff(all);
    if |normalized| <= 1 {
      FewLead(all, normalized);
      return normalized;
    }
    normalized := SortPaths(true, normalized);
    roots := [];
    for i := 0 to |normalized|
      invariant Distinct(roots)
      invariant forall r :: r in roots <==> r in normalized[..i] && Leads(all, r)
    {
      var candidate := normalized[i];
      assert candidate in normalized;
      var isChild := false;
      for k := 0 to |roots|
        invariant !isChild && forall j :: 0 <= j < k ==> !IsSubpath(roots[j], candidate)
      {
        if IsSubpath(roots[k], candidate) {
          isChild := true;
          break;
        }
      }
      CandidateLeads(all, normalized, i, roots);
      assert normalized[..i + 1] == normalized[..i] + [candidate];
      if !isChild {
        roots := roots + [candidate];
      }
    }
    assert normalized[..|normalized|] == normalized;
    roots := SortPaths(false, roots);
    assert forall r :: Leads(all, r) ==> r in normalized by {
      LeadersBelong(all);
    }
  }

  lemma LeadersBelong(all: set<Path>)
    ensures forall r :: Leads(all, r) ==> r in all
  {
  }

  lemma FewLead(all: set<Path>, normalized: seq<Path>)
    requires |normalized| <= 1 && forall p :: p in normalized <==> p in all
    ensures Ascending(false, normalized) && forall r :: r in normalized <==> Leads(all, r)
  {
    if |normalized| == 1 {
      assert forall p :: p in normalized ==> p == normalized[0];
    }
  }

  /** Above every path of the set there is one that leads, and it does not come later. */
  lemma {:induction false} HasLeader(all: set<Path>, p: Path) returns (r: Path)
    requires AllClean(all) && p in all
    ensures Leads(all, r) && IsSubpath(r, p) && (r == p || Less(true, r, p))
    decreases |p|, p != DOT
  {
    if q :| q in all && IsSubpath(q, p) && q != p && !Less(true, p, q) {
      SubpathLonger(q, p);
      LessTotal(true, p, q);
      r := HasLeader(all, q);
      SubpathTransitive(r, q, p);
      if r != q {
        LessTransitive(true, r, q, p);
      }
    } else {
      r := p;
    }
  }

  /** Above every path of the set there is a minimal one. */
  lemma {:induction false} HasRoot(all: set<Path>, p: Path) returns (r: Path)
    requires AllClean(all) && p in all
    ensures Minimal(all, r) && IsSubpath(r, p)
    decreases |p|, p != DOT
  {
    if q :| q in all && IsSubpath(q, p) && q != p {
      SubpathLonger(q, p);
      r := HasRoot(all, q);
      SubpathTransitive(r, q, p);
    } else {
      r := p;
    }
  }

  /** Among the paths taken so far there is a leader above the candidate, unless it leads itself. */
  lemma CandidateLeads(all: set<Path>, normalized: seq<Path>, i: nat, roots: seq<Path>)
    requires AllClean(all) && Ascending(true, normalized) && i < |normalized|
    requires forall p :: p in normalized <==> p in all
    requires forall r :: r in roots <==> r in normalized[..i] && Leads(all, r)
    ensures (exists j :: 0 <= j < |roots| && IsSubpath(roots[j], normalized[i])) <==> !Leads(all, normalized[i])
    ensures normalized[i] !in roots
  {
    var candidate := normalized[i];
    assert candidate in normalized;
    CandidateIsNew(normalized, i);
    var r := HasLeader(all, candidate);
    if r != candidate {
      ComesBefore(normalized, i, r);
      assert r in roots;
      var j :| 0 <= j < |roots| && roots[j] == r;
      LessTotal(true, r, candidate);
    }
    forall j | 0 <= j < |roots| && IsSubpath(roots[j], candidate)
      ensures !Leads(all, candidate)
    {
      assert roots[j] in roots && roots[j] in all;
      var k :| 0 <= k < i && normalized[k] == roots[j];
      assert Less(true, normalized[k], candidate);
      LessTotal(true, normalized[k], candidate);
    }
  }

  lemma ComesBefore(normalized: seq<Path>, i: nat, r: Path)
    requires Ascending(true, normalized) && i < |normalized| && r in normalized && Less(true, r, normalized[i])
    ensures r in normalized[..i]
  {
    assert forall l :: i < l < |normalized| ==> Less(true, normalized[i], normalized[l]);
    LessTotal(true, r, normalized[i]);
    var k :| 0 <= k < |normalized| && normalized[k] == r;
  }

  lemma CandidateIsNew(normalized: seq<Path>, i: nat)
    requires Ascending(true, normalized) && i < |normalized|
    ensures normalized[i] !in normalized[..i]
  {
    LessTotal(true, normalized[i], normalized[i]);
  }

  // ----- what the roots are good for

  /** Absolute paths are never in trouble. */
  lemma RootedIsSafe(all: set<Path>)
    requires forall q :: q in all ==> Rooted(q)
    ensures !DotComesLate(all)
  {
  }

  /** Where it goes wrong: with the working directory and its subdirectory "-" both are kept. */
  lemma DashIsKept()
    ensures DotComesLate({DOT, "-"}) && Leads({DOT, "-"}, "-") && IsSubpath(DOT, "-")
  {
    assert Less(true, "-", DOT);
    DotIsAbove({DOT, "-"}, "-");
  }

  /** The test does not see that the working directory, or a path in it, lies under its parent directory: both are
      kept, and both count as minimal. */
  lemma ParentIsNotSeen(p: Path)
    requires p == DOT || p == "a"
    ensures !IsSubpath(DOTDOT, p) && !IsSubpath(p, DOTDOT)
    ensures Minimal({DOTDOT, p}, DOTDOT) && Minimal({DOTDOT, p}, p) && !DotComesLate({DOTDOT, p})
  {
    assert Climbs(DOTDOT);
    assert (p + [SEPARATOR])[0] == 'a' || p == DOT;
    assert !LexLess("a", DOT);
  }

  /** No root lies under another, and every input path lies under exactly one root. */
  lemma EveryPathHasOneRoot(all: set<Path>, roots: seq<Path>, p: Path)
    requires AllClean(all) && AreRoots(all, roots) && p in all
    ensures exists r :: r in roots && IsSubpath(r, p)
    ensures forall a, b :: a in roots && b in roots && IsSubpath(a, p) && IsSubpath(b, p) ==> a == b
    ensures forall a, b :: a in roots && b in roots && IsSubpath(a, b) ==> a == b
  {
    var r := HasRoot(all, p);
    assert r in roots;
    forall a, b | a in roots && b in roots && IsSubpath(a, p) && IsSubpath(b, p)
      ensures a == b
    {
      assert Minimal(all, a) && Minimal(all, b);
      AncestorsComparable(a, b, p);
    }
  }

  /** The result depends only on the set of cleaned paths, not on order or repetition. */
  lemma RootsUnique(all: set<Path>, roots: seq<Path>, others: seq<Path>)
    requires Ascending(false, roots) && forall r :: r in roots <==> Leads(all, r)
    requires Ascending(false, others) && forall r :: r in others <==> Leads(all, r)
    ensures roots == others
  {
    AscendingUnique(false, roots, others);
  }
}
