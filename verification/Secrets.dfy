/** Secret scanning, whole and in part. The detector itself is a list of passes, each an unknown function from
    one line to the matches on it. */
module Secrets {
  import opened Collections
  import opened TextLines
  import opened LineRanges

  /** A match of a pass; `offset` counts characters from the start of the line. */
  datatype Match = Match(kind: int, severity: int, value: Text, entropy: real, confidence: real, offset: nat)

  type Pass = Text -> seq<Match>

  datatype Detector = Detector(passes: seq<Pass>)

  datatype Secret = Secret(file: int, line: int, column: int, kind: int, severity: int, value: Text, entropy: real,
    confidence: real)

  /** The key under which two findings count as one. */
  datatype Key = Key(file: int, line: int, column: int, value: Text)

  type Findings = map<Key, Secret>

  /** Every match begins on the line it was found on. */
  ghost predicate OnLine(d: Detector) {
    forall p, line, i :: 0 <= p < |d.passes| && 0 <= i < |d.passes[p](line)| ==> d.passes[p](line)[i].offset <= |line|
  }

  function KeyOf(s: Secret): Key {
    Key(s.file, s.line, s.column, s.value)
  }

  /** The more confident of two findings with one key is kept, the first if they are equally so. */
  function Upsert(m: Findings, s: Secret): Findings {
    if KeyOf(s) in m && m[KeyOf(s)].confidence >= s.confidence then m else m[KeyOf(s) := s]
  }

  function UpsertAll(m: Findings, ss: seq<Secret>): Findings {
    if ss == [] then m else Upsert(UpsertAll(m, ss[..|ss| - 1]), ss[|ss| - 1])
  }

  function SecretAt(file: int, n: int, m: Match): Secret {
    Secret(file, n, m.offset + 1, m.kind, m.severity, m.value, m.entropy, m.confidence)
  }

  function SecretsAt(file: int, n: int, ms: seq<Match>): seq<Secret> {
    seq(|ms|, i requires 0 <= i < |ms| => SecretAt(file, n, ms[i]))
  }

  // ----- what a scan means, line by line

  /** The candidates that the first `upTo` passes give for line `n`. */
  function Candidates(d: Detector, file: int, line: Text, n: int, upTo: nat): seq<Secret>
    requires upTo <= |d.passes|
  {
    if upTo == 0 then []
    else Candidates(d, file, line, n, upTo - 1) + SecretsAt(file, n, d.passes[upTo - 1](line))
  }

  /** The candidates on line `n`, which is counted from one. */
  function CandidatesOn(d: Detector, file: int, lines: seq<Text>, n: int): seq<Secret> {
    if 1 <= n <= |lines| then Candidates(d, file, lines[n - 1], n, |d.passes|) else []
  }

  function LineFindings(d: Detector, file: int, line: Text, n: int): Findings {
    UpsertAll(map[], Candidates(d, file, line, n, |d.passes|))
  }

  /** Two candidates for one finding. */
  predicate SameSpot(a: Secret, b: Secret) {
    a.file == b.file && a.line == b.line && a.column == b.column && a.value == b.value
  }

  /** Candidate `i` is the one to report at its spot: none is more confident, and none before it is as confident. */
  ghost predicate Best(cs: seq<Secret>, i: int) {
    0 <= i < |cs| &&
    forall j :: 0 <= j < |cs| && SameSpot(cs[j], cs[i]) ==>
      cs[j].confidence <= cs[i].confidence && (j < i ==> cs[j].confidence < cs[i].confidence)
  }

  ghost predicate IsBest(cs: seq<Secret>, s: Secret) {
    exists i :: Best(cs, i) && cs[i] == s
  }

  /** `s` is what a scan finds on line `n`. */
  ghost predicate FoundOn(d: Detector, file: int, lines: seq<Text>, n: int, s: Secret) {
    IsBest(CandidatesOn(d, file, lines, n), s)
  }

  /** The line is to be scanned: every line if no ranges are given. */
  ghost predicate Wanted(ranges: seq<LineRange>, total: int, n: int) {
    1 <= n <= total && (ranges == [] || ClampedCovers(ranges, total, n))
  }

  /** `found` holds exactly the findings on the wanted lines; an empty text has none. */
  ghost predicate IsScan(d: Detector, file: int, content: Text, ranges: seq<LineRange>, found: seq<Secret>) {
    forall s :: s in found <==>
      content != [] && exists n :: Wanted(ranges, |Split(content)|, n) && FoundOn(d, file, Split(content), n, s)
  }

  /** `found` is what a full scan finds. */
  ghost predicate IsFullScan(d: Detector, file: int, content: Text, found: seq<Secret>) {
    forall s :: s in found <==> content != [] && exists n :: FoundOn(d, file, Split(content), n, s)
  }

  // ----- the table holds the best candidates

  lemma BestSnoc(init: seq<Secret>, x: Secret, i: int)
    ensures 0 <= i < |init| ==>
              (Best(init + [x], i) <==> Best(init, i) && (SameSpot(x, init[i]) ==> x.confidence <= init[i].confidence))
    ensures i == |init| ==>
              (Best(init + [x], i) <==>
                 forall j :: 0 <= j < |init| && SameSpot(init[j], x) ==> init[j].confidence < x.confidence)
  {
    var cs := init + [x];
    assert forall j :: 0 <= j < |init| ==> cs[j] == init[j];
    assert cs[|init|] == x;
  }

  /** At one spot there is only one to report. */
  lemma BestIsOne(cs: seq<Secret>, i: int, j: int)
    requires Best(cs, i) && Best(cs, j) && SameSpot(cs[i], cs[j])
    ensures i == j
  {
  }

  /** The table `m` has an entry for every spot of `cs`, which is the best there. */
  ghost predicate HoldsBest(m: Findings, cs: seq<Secret>) {
    && (forall k :: k in m ==> KeyOf(m[k]) == k && IsBest(cs, m[k]))
    && (forall j :: 0 <= j < |cs| ==> KeyOf(cs[j]) in m)
  }

  /** What is best stays so unless the new candidate at its spot is more confident. */
  lemma BestStays(init: seq<Secret>, x: Secret, s: Secret)
    requires IsBest(init, s) && (SameSpot(x, s) ==> x.confidence <= s.confidence)
    ensures IsBest(init + [x], s)
  {
    var i :| Best(init, i) && init[i] == s;
    BestSnoc(init, x, i);
    assert (init + [x])[i] == s;
  }

  /** A candidate more confident than the best at its spot, or the first there, is the new best. */
  lemma NewBest(init: seq<Secret>, x: Secret, m: Findings)
    requires HoldsBest(m, init) && (KeyOf(x) in m ==> m[KeyOf(x)].confidence < x.confidence)
    ensures IsBest(init + [x], x)
  {
    forall j | 0 <= j < |init| && SameSpot(init[j], x)
      ensures init[j].confidence < x.confidence
    {
      assert KeyOf(init[j]) in m;
      var i :| Best(init, i) && init[i] == m[KeyOf(x)];
      assert SameSpot(init[j], init[i]);
    }
    BestSnoc(init, x, |init|);
    assert (init + [x])[|init|] == x;
  }

  lemma UpsertHolds(m: Findings, init: seq<Secret>, x: Secret)
    requires HoldsBest(m, init)
    ensures HoldsBest(Upsert(m, x), init + [x])
  {
    var t, k := Upsert(m, x), KeyOf(x);
    if t[k] == x && (k !in m || m[k].confidence < x.confidence) {
      NewBest(init, x, m);
    }
    hide Best, IsBest;
    forall l | l in t
      ensures KeyOf(t[l]) == l && IsBest(init + [x], t[l])
    {
      if l in m && t[l] == m[l] {
        BestStays(init, x, m[l]);
      }
    }
  }

  lemma {:induction false} UpsertAllHolds(cs: seq<Secret>)
    ensures HoldsBest(UpsertAll(map[], cs), cs)
    decreases |cs|
  {
    hide Best, HoldsBest;
    if cs == [] {
      NoneHeld();
    } else {
      var init := cs[..|cs| - 1];
      UpsertAllHolds(init);
      UpsertHolds(UpsertAll(map[], init), init, cs[|cs| - 1]);
      assert init + [cs[|cs| - 1]] == cs;
    }
  }

  lemma NoneHeld()
    ensures HoldsBest(map[], [])
  {
  }

  /** The table built from the candidates holds exactly the best of them, and one for every candidate's spot. */
  lemma TableHoldsBest(cs: seq<Secret>)
    ensures forall s :: s in UpsertAll(map[], cs).Values <==> IsBest(cs, s)
    ensures forall k :: k in UpsertAll(map[], cs) <==> exists j :: 0 <= j < |cs| && KeyOf(cs[j]) == k
  {
    UpsertAllHolds(cs);
    var m := UpsertAll(map[], cs);
    hide UpsertAll;
    forall s | IsBest(cs, s)
      ensures s in m.Values
    {
      var i :| Best(cs, i) && cs[i] == s;
      var j :| Best(cs, j) && cs[j] == m[KeyOf(s)];
      BestIsOne(cs, i, j);
    }
    forall k | k in m
      ensures exists j :: 0 <= j < |cs| && KeyOf(cs[j]) == k
    {
      var i :| Best(cs, i) && cs[i] == m[k];
      assert KeyOf(cs[i]) == k;
    }
  }

  lemma NoneBest(s: Secret)
    ensures !IsBest([], s)
  {
  }

  lemma FoundInTable(d: Detector, file: int, lines: seq<Text>, n: int, s: Secret)
    ensures FoundOn(d, file, lines, n, s) <==>
            1 <= n <= |lines| && s in LineFindings(d, file, lines[n - 1], n).Values
  {
    hide IsBest;
    if 1 <= n <= |lines| {
      TableHoldsBest(Candidates(d, file, lines[n - 1], n, |d.passes|));
    } else {
      NoneBest(s);
    }
  }

  // ----- the findings of one line within the table

  /** The entries of the table for line `n`. */
  ghost function View(m: Findings, n: int): Findings {
    map k | k in m && k.line == n :: m[k]
  }

  lemma UpsertView(m: Findings, s: Secret, n: int)
    ensures View(Upsert(m, s), n) == if s.line == n then Upsert(View(m, n), s) else View(m, n)
  {
  }

  lemma {:induction false} UpsertConcat(m: Findings, a: seq<Secret>, b: seq<Secret>)
    ensures UpsertAll(m, a + b) == UpsertAll(UpsertAll(m, a), b)
    decreases |b|
  {
    if b == [] {
      assert a + b == a;
    } else {
      UpsertConcat(m, a, b[..|b| - 1]);
      assert (a + b)[..|a + b| - 1] == a + b[..|b| - 1];
    }
  }

  lemma {:induction false} CandidatesOnLine(d: Detector, file: int, line: Text, n: int, upTo: nat)
    requires upTo <= |d.passes|
    ensures forall i :: 0 <= i < |Candidates(d, file, line, n, upTo)| ==>
              Candidates(d, file, line, n, upTo)[i].line == n
  {
    if upTo > 0 {
      CandidatesOnLine(d, file, line, n, upTo - 1);
    }
  }

  // ----- segments

  datatype Segment = Segment(text: Text, lineOffset: nat)

  predicate Has(seg: Segment, n: int) {
    seg.lineOffset < n <= seg.lineOffset + |Split(seg.text)|
  }

  /** Every segment is a run of whole lines at its offset; the segments do not touch. */
  ghost predicate SegmentsOk(lines: seq<Text>, segments: seq<Segment>) {
    && (forall i :: 0 <= i < |segments| ==>
          && segments[i].lineOffset + |Split(segments[i].text)| <= |lines|
          && Split(segments[i].text) ==
            lines[segments[i].lineOffset..segments[i].lineOffset + |Split(segments[i].text)|])
    && (forall i, j :: 0 <= i < j < |segments| ==>
          segments[i].lineOffset + |Split(segments[i].text)| < segments[j].lineOffset)
  }

  ghost predicate InSome(segments: seq<Segment>, n: int) {
    exists i :: 0 <= i < |segments| && Has(segments[i], n)
  }

  lemma SliceOneLine(lines: seq<Text>, lo: nat, hi: nat)
    requires OneLineEach(lines) && lo < hi <= |lines|
    ensures Split(Join(lines[lo..hi])) == lines[lo..hi]
  {
    SplitJoin(lines[lo..hi]);
  }

  method BuildScanSegments(content: Text, ranges: seq<LineRange>) returns (segments: seq<Segment>)
    ensures SegmentsOk(Split(content), segments)
    ensures forall n :: InSome(segments, n) <==> Wanted(ranges, |Split(content)|, n)
  {
    hide Split, Covers, ClampedCovers;
    if |ranges| == 0 {
      segments := [Segment(content, 0)];
      WholeText(content);
      return;
    }
    var lines := Split(content);
    SplitOneLine(content);
    var totalLines := |lines|;
    var normalized := NormalizeRanges(ranges, totalLines);
    segments := [];
    for i := 0 to |normalized|
      invariant |segments| == i && SegmentsOk(lines, segments)
      invariant forall k :: 0 <= k < i ==>
                  segments[k].lineOffset == normalized[k].start - 1 &&
                  |Split(segments[k].text)| == normalized[k].end - normalized[k].start + 1
    {
      var startIdx, endIdx := normalized[i].start - 1, normalized[i].end;
      SliceOneLine(lines, startIdx, endIdx);
      segments := segments + [Segment(Join(lines[startIdx..endIdx]), startIdx)];
    }
    forall n
      ensures InSome(segments, n) <==> Wanted(ranges, totalLines, n)
    {
      SegmentsCover(normalized, segments, n);
      NormalInBounds(normalized, totalLines, n);
      assert Covers(normalized, n) <==> ClampedCovers(ranges, totalLines, n);
    }
  }

  lemma WholeText(content: Text)
    ensures SegmentsOk(Split(content), [Segment(content, 0)])
    ensures forall n :: InSome([Segment(content, 0)], n) <==> 1 <= n <= |Split(content)|
  {
    assert Split(content)[0..|Split(content)|] == Split(content);
    forall n | 1 <= n <= |Split(content)|
      ensures InSome([Segment(content, 0)], n)
    {
      assert Has([Segment(content, 0)][0], n);
    }
  }

  lemma SegmentsCover(normalized: seq<LineRange>, segments: seq<Segment>, n: int)
    requires |segments| == |normalized|
    requires forall k :: 0 <= k < |normalized| ==>
               segments[k].lineOffset == normalized[k].start - 1 &&
               |Split(segments[k].text)| == normalized[k].end - normalized[k].start + 1
    ensures InSome(segments, n) <==> Covers(normalized, n)
  {
    hide Split;
    if InSome(segments, n) {
      var k :| 0 <= k < |segments| && Has(segments[k], n);
      assert normalized[k].start <= n <= normalized[k].end;
    }
    if Covers(normalized, n) {
      var k :| 0 <= k < |normalized| && normalized[k].start <= n <= normalized[k].end;
      assert Has(segments[k], n);
    }
  }

  lemma NormalInBounds(normalized: seq<LineRange>, total: int, n: int)
    requires IsNormal(normalized, total)
    ensures Covers(normalized, n) ==> 1 <= n <= total
  {
  }

  // ----- scanning

  /** The matches of one pass on one line go into the table at the line and column that the index gives. */
  method ScanLine(file: int, line: Text, ms: seq<Match>, starts: seq<nat>, k: nat, ghost lines: seq<Text>,
                  lineOffset: nat, findings0: Findings) returns (findings: Findings)
    requires IsLineIndex(lines, starts) && k < |lines| && line == lines[k]
    requires forall i :: 0 <= i < |ms| ==> ms[i].offset <= |line|
    ensures findings == UpsertAll(findings0, SecretsAt(file, lineOffset + k + 1, ms))
  {
    findings := findings0;
    IndexIncreases(lines, starts);
    ghost var n := lineOffset + k + 1;
    for i := 0 to |ms|
      invariant findings == UpsertAll(findings0, SecretsAt(file, n, ms[..i]))
    {
      var m := ms[i];
      var ln, col := LineCol(starts, starts[k] + m.offset);
      OffsetOnLine(lines, starts, k, m.offset, ln);
      var secret := Secret(file, ln + lineOffset, col, m.kind, m.severity, m.value, m.entropy, m.confidence);
      assert secret == SecretAt(file, n, m);
      assert SecretsAt(file, n, ms[..i + 1])[..i] == SecretsAt(file, n, ms[..i]);
      findings := Upsert(findings, secret);
    }
    assert ms[..|ms|] == ms;
  }

  lemma {:induction false} UpsertAllView(m: Findings, ss: seq<Secret>, at: int, n: int)
    requires forall i :: 0 <= i < |ss| ==> ss[i].line == at
    ensures View(UpsertAll(m, ss), n) == if n == at then UpsertAll(View(m, n), ss) else View(m, n)
    decreases |ss|
  {
    if ss != [] {
      UpsertAllView(m, ss[..|ss| - 1], at, n);
      UpsertView(UpsertAll(m, ss[..|ss| - 1]), ss[|ss| - 1], n);
    }
  }

  /** The state of a segment's scan: `p` passes are complete, and pass `p` has done the first `k` lines. */
  ghost predicate Scanning(d: Detector, file: int, lines: seq<Text>, lineOffset: nat, before: Findings, now: Findings,
                           p: nat, k: nat)
    requires p < |d.passes| || (p == |d.passes| && k == 0)
  {
    forall n :: View(now, n) ==
      if lineOffset < n <= lineOffset + |lines| then
        UpsertAll(map[], Candidates(d, file, lines[n - lineOffset - 1], n, if n - lineOffset - 1 < k then p + 1 else p))
      else View(before, n)
  }

  lemma ScanLineKeeps(d: Detector, file: int, lines: seq<Text>, lineOffset: nat, before: Findings, now: Findings,
                      p: nat, k: nat)
    requires p < |d.passes| && k < |lines| && Scanning(d, file, lines, lineOffset, before, now, p, k)
    ensures Scanning(d, file, lines, lineOffset, before,
              UpsertAll(now, SecretsAt(file, lineOffset + k + 1, d.passes[p](lines[k]))), p, k + 1)
  {
    var at := lineOffset + k + 1;
    var ss := SecretsAt(file, at, d.passes[p](lines[k]));
    forall n
      ensures View(UpsertAll(now, ss), n) ==
                if lineOffset < n <= lineOffset + |lines| then
                  UpsertAll(map[],
                    Candidates(d, file, lines[n - lineOffset - 1], n, if n - lineOffset - 1 < k + 1 then p + 1 else p))
                else View(before, n)
    {
      UpsertAllView(now, ss, at, n);
      if n == at {
        UpsertConcat(map[], Candidates(d, file, lines[k], n, p), ss);
      }
    }
  }

  lemma PassKeeps(d: Detector, file: int, lines: seq<Text>, lineOffset: nat, before: Findings, now: Findings, p: nat)
    requires p < |d.passes| && Scanning(d, file, lines, lineOffset, before, now, p, |lines|)
    ensures Scanning(d, file, lines, lineOffset, before, now, p + 1, 0)
  {
  }

  method ScanSegment(d: Detector, file: int, seg: Segment, before: Findings) returns (findings: Findings)
    requires OnLine(d)
    requires forall n :: Has(seg, n) ==> View(before, n) == map[]
    ensures forall n :: View(findings, n) ==
              if Has(seg, n) then LineFindings(d, file, Split(seg.text)[n - seg.lineOffset - 1], n) else View(before, n)
  {
    hide Split, Scanning;
    var lines := Split(seg.text);
    var starts := BuildLineIndex(seg.text);
    findings := before;
    assert forall n :: Has(seg, n) <==> seg.lineOffset < n <= seg.lineOffset + |lines|;
    ScanStarts(d, file, lines, seg.lineOffset, before);
    for p := 0 to |d.passes|
      invariant Scanning(d, file, lines, seg.lineOffset, before, findings, p, 0)
    {
      for k := 0 to |lines|
        invariant Scanning(d, file, lines, seg.lineOffset, before, findings, p, k)
      {
        var ms := d.passes[p](lines[k]);
        ScanLineKeeps(d, file, lines, seg.lineOffset, before, findings, p, k);
        findings := ScanLine(file, lines[k], ms, starts, k, lines, seg.lineOffset, findings);
      }
      PassKeeps(d, file, lines, seg.lineOffset, before, findings, p);
    }
    ScanEnds(d, file, lines, seg.lineOffset, before, findings);
  }

  lemma ScanStarts(d: Detector, file: int, lines: seq<Text>, lineOffset: nat, before: Findings)
    requires forall n :: lineOffset < n <= lineOffset + |lines| ==> View(before, n) == map[]
    ensures Scanning(d, file, lines, lineOffset, before, before, 0, 0)
  {
  }

  lemma ScanEnds(d: Detector, file: int, lines: seq<Text>, lineOffset: nat, before: Findings, now: Findings)
    requires Scanning(d, file, lines, lineOffset, before, now, |d.passes|, 0)
    ensures forall n :: View(now, n) ==
              if lineOffset < n <= lineOffset + |lines| then LineFindings(d, file, lines[n - lineOffset - 1], n)
              else View(before, n)
  {
  }

  /** The table after some of the segments. */
  ghost predicate Scanned(d: Detector, file: int, lines: seq<Text>, segments: seq<Segment>, findings: Findings) {
    forall n :: View(findings, n) ==
      if InSome(segments, n) && 1 <= n <= |lines| then LineFindings(d, file, lines[n - 1], n) else map[]
  }

  lemma NextSegment(d: Detector, file: int, lines: seq<Text>, segments: seq<Segment>, i: nat, before: Findings,
                    findings: Findings)
    requires SegmentsOk(lines, segments) && i < |segments| && Scanned(d, file, lines, segments[..i], before)
    requires forall n :: View(findings, n) ==
               if Has(segments[i], n)
               then LineFindings(d, file, Split(segments[i].text)[n - segments[i].lineOffset - 1], n)
               else View(before, n)
    ensures Scanned(d, file, lines, segments[..i + 1], findings)
  {
    hide Split, LineFindings, View;
    var seg := segments[i];
    forall n
      ensures View(findings, n) ==
                if InSome(segments[..i + 1], n) && 1 <= n <= |lines| then LineFindings(d, file, lines[n - 1], n)
                else map[]
    {
      SomeSnoc(segments, i, n);
      if Has(seg, n) {
        assert Split(seg.text)[n - seg.lineOffset - 1] == lines[n - 1];
      }
    }
  }

  lemma SomeSnoc(segments: seq<Segment>, i: nat, n: int)
    requires i < |segments|
    ensures InSome(segments[..i + 1], n) <==> InSome(segments[..i], n) || Has(segments[i], n)
  {
    hide Has;
    if InSome(segments[..i], n) {
      var k :| 0 <= k < |segments[..i]| && Has(segments[..i][k], n);
      assert Has(segments[..i + 1][k], n);
    }
    if Has(segments[i], n) {
      assert Has(segments[..i + 1][i], n);
    }
  }

  lemma NotYetScanned(d: Detector, file: int, lines: seq<Text>, segments: seq<Segment>, i: nat, findings: Findings)
    requires SegmentsOk(lines, segments) && i < |segments| && Scanned(d, file, lines, segments[..i], findings)
    ensures forall n :: Has(segments[i], n) ==> View(findings, n) == map[]
  {
    hide Split, LineFindings, View;
    forall n | Has(segments[i], n)
      ensures View(findings, n) == map[]
    {
      assert forall k :: 0 <= k < |segments[..i]| ==> segments[..i][k] == segments[k];
      assert !InSome(segments[..i], n);
    }
  }

  // ----- output

  /** The order in which findings of one file are listed: by line, column and kind. */
  predicate Precedes(a: Secret, b: Secret) {
    if a.file != b.file then a.file < b.file
    else if a.line != b.line then a.line < b.line
    else if a.column != b.column then a.column < b.column
    else a.kind < b.kind
  }

  /** `a` may stand before `b` in the list. */
  predicate InOrder(a: Secret, b: Secret) {
    && a.file <= b.file
    && (a.file == b.file ==> a.line <= b.line)
    && (a.file == b.file && a.line == b.line ==> a.column <= b.column)
    && (a.file == b.file && a.line == b.line && a.column == b.column ==> a.kind <= b.kind)
  }

  /** In order, and no finding twice. */
  ghost predicate Listed(ss: seq<Secret>) {
    Distinct(ss) && forall i, j :: 0 <= i < j < |ss| ==> InOrder(ss[i], ss[j])
  }

  lemma PrecedesOrInOrder(a: Secret, b: Secret)
    ensures Precedes(a, b) ==> InOrder(a, b)
    ensures !Precedes(a, b) ==> InOrder(b, a)
  {
  }

  lemma InOrderTransitive(a: Secret, b: Secret, c: Secret)
    requires InOrder(a, b) && InOrder(b, c)
    ensures InOrder(a, c)
  {
  }

  function InsertSecret(x: Secret, ss: seq<Secret>): seq<Secret> {
    if ss == [] then [x] else if Precedes(x, ss[0]) then [x] + ss else [ss[0]] + InsertSecret(x, ss[1..])
  }

  lemma {:induction false} InsertListed(x: Secret, ss: seq<Secret>)
    requires Listed(ss) && x !in ss
    ensures Listed(InsertSecret(x, ss))
    ensures forall y :: y in InsertSecret(x, ss) <==> y == x || y in ss
    decreases |ss|
  {
    hide Precedes, InOrder;
    if ss == [] {
    } else if Precedes(x, ss[0]) {
      PrecedesOrInOrder(x, ss[0]);
      forall i | 0 <= i < |ss|
        ensures InOrder(x, ss[i])
      {
        if i > 0 {
          InOrderTransitive(x, ss[0], ss[i]);
        }
      }
    } else {
      PrecedesOrInOrder(x, ss[0]);
      assert ss == [ss[0]] + ss[1..];
      InsertListed(x, ss[1..]);
      var t := InsertSecret(x, ss[1..]);
      forall i | 0 <= i < |t|
        ensures InOrder(ss[0], t[i]) && t[i] != ss[0]
      {
        assert t[i] in t;
        if t[i] != x {
          var j :| 0 <= j < |ss[1..]| && ss[1..][j] == t[i];
          assert ss[j + 1] == t[i];
        }
      }
    }
  }

  lemma SomeSecret(ss: set<Secret>)
    ensures ss == {} || exists x :: x in ss
  {
    if forall x :: x !in ss {
      assert ss == {};
    }
  }

  /** The values of the table, in any order the map yields them, sorted. */
  method SortFindings(findings: Findings) returns (out: seq<Secret>)
    ensures Listed(out) && forall s :: s in out <==> s in findings.Values
  {
    out := [];
    var rest := findings.Values;
    while rest != {}
      invariant rest <= findings.Values && Listed(out)
      invariant forall s :: s in out <==> s in findings.Values && s !in rest
      decreases rest
    {
      SomeSecret(rest);
      var x :| x in rest;
      InsertListed(x, out);
      out := InsertSecret(x, out);
      rest := rest - {x};
    }
  }

  lemma ScannedMeans(d: Detector, file: int, lines: seq<Text>, segments: seq<Segment>, findings: Findings, s: Secret)
    requires Scanned(d, file, lines, segments, findings)
    ensures s in findings.Values <==> exists n :: InSome(segments, n) && FoundOn(d, file, lines, n, s)
  {
    hide LineFindings, FoundOn, InSome;
    if s in findings.Values {
      var k :| k in findings && findings[k] == s;
      assert k in View(findings, k.line) && View(findings, k.line)[k] == s;
      FoundInTable(d, file, lines, k.line, s);
      assert FoundOn(d, file, lines, k.line, s);
    }
    if n :| InSome(segments, n) && FoundOn(d, file, lines, n, s) {
      FoundInTable(d, file, lines, n, s);
      var k :| k in LineFindings(d, file, lines[n - 1], n) && LineFindings(d, file, lines[n - 1], n)[k] == s;
      assert k in View(findings, n);
      assert k in findings && findings[k] == s;
    }
  }

  lemma AllScanned(d: Detector, file: int, content: Text, ranges: seq<LineRange>, segments: seq<Segment>,
                   findings: Findings, out: seq<Secret>)
    requires content != [] && Scanned(d, file, Split(content), segments, findings)
    requires forall n :: InSome(segments, n) <==> Wanted(ranges, |Split(content)|, n)
    requires forall s :: s in out <==> s in findings.Values
    ensures IsScan(d, file, content, ranges, out)
  {
    hide Split, Wanted, InSome, FoundOn, Scanned;
    forall s
      ensures s in out <==> exists n :: Wanted(ranges, |Split(content)|, n) && FoundOn(d, file, Split(content), n, s)
    {
      ScannedMeans(d, file, Split(content), segments, findings, s);
      assert forall n :: InSome(segments, n) <==> Wanted(ranges, |Split(content)|, n);
    }
  }

  /** A scan of the given ranges, or of everything if there are none. It finds what a scan of each wanted
      line on its own finds. */
  method DetectWithRanges(d: Detector, file: int, content: Text, ranges: seq<LineRange>) returns (out: seq<Secret>)
    requires OnLine(d)
    ensures IsScan(d, file, content, ranges, out) && Listed(out)
  {
    hide IsScan, Listed, Scanned, SegmentsOk, View, LineFindings, Split, OnLine, InSome, Wanted;
    if |content| == 0 {
      NothingToScan(d, file, ranges);
      return [];
    }
    ghost var lines := Split(content);
    var segments := BuildScanSegments(content, ranges);
    var findings: Findings := map[];
    NoneScanned(d, file, lines);
    assert segments[..0] == [];
    for i := 0 to |segments|
      invariant Scanned(d, file, lines, segments[..i], findings)
    {
      NotYetScanned(d, file, lines, segments, i, findings);
      ghost var before := findings;
      findings := ScanSegment(d, file, segments[i], findings);
      NextSegment(d, file, lines, segments, i, before, findings);
    }
    assert segments[..|segments|] == segments;
    out := SortFindings(findings);
    AllScanned(d, file, content, ranges, segments, findings, out);
  }

  lemma NothingToScan(d: Detector, file: int, ranges: seq<LineRange>)
    ensures IsScan(d, file, [], ranges, []) && Listed([])
  {
  }

  lemma NoneScanned(d: Detector, file: int, lines: seq<Text>)
    ensures Scanned(d, file, lines, [], map[])
  {
  }

  method Detect(d: Detector, file: int, content: Text) returns (out: seq<Secret>)
    requires OnLine(d)
    ensures IsFullScan(d, file, content, out) && Listed(out)
  {
    out := DetectWithRanges(d, file, content, []);
    forall s
      ensures s in out <==> content != [] && exists n :: FoundOn(d, file, Split(content), n, s)
    {
      assert forall n :: FoundOn(d, file, Split(content), n, s) ==> Wanted([], |Split(content)|, n);
    }
  }

  /** `found` has a finding at the candidate's spot that is at least as confident. */
  ghost predicate Reported(found: seq<Secret>, c: Secret) {
    exists s :: s in found && SameSpot(s, c) && c.confidence <= s.confidence
  }

  /** A full scan reports something for every candidate, and at each spot only one finding. */
  lemma ReportsEverySpot(d: Detector, file: int, content: Text, found: seq<Secret>)
    requires IsFullScan(d, file, content, found) && content != []
    ensures forall n, c :: c in CandidatesOn(d, file, Split(content), n) ==> Reported(found, c)
    ensures forall s, t :: s in found && t in found && SameSpot(s, t) ==> s == t
  {
    hide Split, CandidatesOn, IsFullScan, IsBest, SameSpot;
    var lines := Split(content);
    forall n, c | c in CandidatesOn(d, file, lines, n)
      ensures Reported(found, c)
    {
      var cs := CandidatesOn(d, file, lines, n);
      var j :| 0 <= j < |cs| && cs[j] == c;
      var s := SpotTaken(cs, j);
      BestIsFound(d, file, content, found, n, s);
    }
    forall s, t | s in found && t in found && SameSpot(s, t)
      ensures s == t
    {
      OneAtASpot(d, file, content, found, s, t);
    }
  }

  lemma SpotTaken(cs: seq<Secret>, j: nat) returns (s: Secret)
    requires j < |cs|
    ensures IsBest(cs, s) && SameSpot(s, cs[j]) && cs[j].confidence <= s.confidence
  {
    UpsertAllHolds(cs);
    s := UpsertAll(map[], cs)[KeyOf(cs[j])];
  }

  lemma BestIsFound(d: Detector, file: int, content: Text, found: seq<Secret>, n: int, s: Secret)
    requires IsFullScan(d, file, content, found) && content != []
    requires IsBest(CandidatesOn(d, file, Split(content), n), s)
    ensures s in found
  {
    assert FoundOn(d, file, Split(content), n, s);
  }

  lemma OneAtASpot(d: Detector, file: int, content: Text, found: seq<Secret>, s: Secret, t: Secret)
    requires IsFullScan(d, file, content, found) && s in found && t in found && SameSpot(s, t)
    ensures s == t
  {
    var lines := Split(content);
    var m :| FoundOn(d, file, lines, m, s);
    var n :| FoundOn(d, file, lines, n, t);
    FoundLine(d, file, lines, m, s);
    FoundLine(d, file, lines, n, t);
    hide Split, Candidates;
    var cs := CandidatesOn(d, file, lines, n);
    var i :| Best(cs, i) && cs[i] == s;
    var j :| Best(cs, j) && cs[j] == t;
    BestIsOne(cs, i, j);
  }

  /** A scan of ranges is the full scan restricted to the lines of the ranges. */
  lemma RangeScanFilters(d: Detector, file: int, content: Text, ranges: seq<LineRange>, full: seq<Secret>,
                         part: seq<Secret>)
    requires IsFullScan(d, file, content, full) && IsScan(d, file, content, ranges, part) && ranges != []
    ensures forall s :: s in part <==> s in full && ClampedCovers(ranges, |Split(content)|, s.line)
  {
    var lines := Split(content);
    forall s
      ensures s in part <==> s in full && ClampedCovers(ranges, |lines|, s.line)
    {
      if s in part {
        var n :| Wanted(ranges, |lines|, n) && FoundOn(d, file, lines, n, s);
        FoundLine(d, file, lines, n, s);
      }
      if s in full && ClampedCovers(ranges, |lines|, s.line) {
        var n :| FoundOn(d, file, lines, n, s);
        FoundLine(d, file, lines, n, s);
        assert Wanted(ranges, |lines|, n);
      }
    }
  }

  // ----- the incremental scan

  /** What the caller has: no scanner, one that only scans whole files, or one that can scan ranges. */
  datatype Scanner = NoScanner | Whole(d: Detector) | Incremental(d: Detector)

  method DetectSecrets(scanner: Scanner, file: int, previousContent: Text, content: Text, previousSecrets: seq<Secret>)
    returns (found: seq<Secret>)
    requires !scanner.NoScanner? ==> OnLine(scanner.d)
    ensures scanner.NoScanner? ==> found == []
    ensures !scanner.NoScanner? &&
            (scanner.Incremental? ==> IsFullScan(scanner.d, file, previousContent, previousSecrets)) ==>
              IsFullScan(scanner.d, file, content, found) && (Distinct(previousSecrets) ==> Distinct(found))
  {
    if scanner.NoScanner? {
      return [];
    }
    var d := scanner.d;
    if !scanner.Incremental? || |previousContent| == 0 {
      found := Detect(d, file, content);
      return;
    }
    if CountNewlines(previousContent) != CountNewlines(content) {
      found := Detect(d, file, content);
      return;
    }
    SplitCount(previousContent);
    SplitCount(content);
    var changed := ChangedLineRanges(previousContent, content);
    if |changed| == 0 {
      return previousSecrets;
    }
    assert changed == [changed[0]];
    var updated := DetectWithRanges(d, file, content, changed);
    if |previousSecrets| == 0 {
      if IsFullScan(d, file, previousContent, previousSecrets) {
        MergeIsFullScan(d, file, previousContent, content, changed[0], previousSecrets, [], updated, updated);
      }
      return updated;
    }
    var kept: seq<Secret> := [];
    for i := 0 to |previousSecrets|
      invariant forall s :: s in kept <==> s in previousSecrets[..i] && !Covers(changed, s.line)
      invariant Distinct(previousSecrets) ==> Distinct(kept)
    {
      assert previousSecrets[..i + 1] == previousSecrets[..i] + [previousSecrets[i]];
      var within := LineWithinRanges(previousSecrets[i].line, changed);
      if !within {
        DistinctSnoc(kept, previousSecrets, i);
        kept := kept + [previousSecrets[i]];
      }
    }
    assert previousSecrets[..|previousSecrets|] == previousSecrets;
    found := kept + updated;
    if IsFullScan(d, file, previousContent, previousSecrets) {
      OneRange(changed);
      UpdatedApart(d, file, content, changed[0], kept, updated);
      MergeIsFullScan(d, file, previousContent, content, changed[0], previousSecrets, kept, updated, found);
    }
  }

  lemma DistinctSnoc(kept: seq<Secret>, all: seq<Secret>, i: nat)
    requires i < |all| && forall s :: s in kept ==> s in all[..i]
    ensures Distinct(all) && Distinct(kept) ==> Distinct(kept + [all[i]])
  {
    if Distinct(all) {
      assert all[i] !in all[..i];
      assert forall j :: 0 <= j < |kept| ==> kept[j] in all[..i];
    }
  }

  /** Findings from outside the rescanned range are none of those found again inside it. */
  lemma UpdatedApart(d: Detector, file: int, content: Text, r: LineRange, kept: seq<Secret>, updated: seq<Secret>)
    requires 1 <= r.start <= r.end <= |Split(content)| && IsScan(d, file, content, [r], updated) && Distinct(updated)
    requires forall s :: s in kept ==> !(r.start <= s.line <= r.end)
    ensures Distinct(kept) ==> Distinct(kept + updated)
  {
    hide Split, Wanted, FoundOn;
    WantedInRange(r, |Split(content)|);
    forall s | s in updated
      ensures r.start <= s.line <= r.end
    {
      var n :| Wanted([r], |Split(content)|, n) && FoundOn(d, file, Split(content), n, s);
      FoundLine(d, file, Split(content), n, s);
    }
    forall i, j | 0 <= i < |kept| && 0 <= j < |updated|
      ensures kept[i] != updated[j]
    {
      assert kept[i] in kept && updated[j] in updated;
    }
  }

  lemma OneRange(changed: seq<LineRange>)
    requires |changed| == 1
    ensures forall line :: Covers(changed, line) <==> changed[0].start <= line <= changed[0].end
  {
    forall line | changed[0].start <= line <= changed[0].end
      ensures Covers(changed, line)
    {
      assert changed[0].start <= line;
    }
  }

  /** A line outside the change carries the same findings as before. */
  lemma UnchangedLine(d: Detector, file: int, before: seq<Text>, after: seq<Text>, r: LineRange, n: int, s: Secret)
    requires |before| == |after| && IsChange(before, after, r) && !(r.start <= n <= r.end)
    ensures FoundOn(d, file, before, n, s) <==> FoundOn(d, file, after, n, s)
  {
    hide IsBest, Candidates;
    if 1 <= n <= |after| {
      assert after[n - 1] == before[n - 1];
    }
  }

  lemma FoundLine(d: Detector, file: int, lines: seq<Text>, n: int, s: Secret)
    requires FoundOn(d, file, lines, n, s)
    ensures s.line == n
  {
    if 1 <= n <= |lines| {
      CandidatesOnLine(d, file, lines[n - 1], n, |d.passes|);
    }
  }

  /** Findings kept from outside the change and those found again inside it make up the full scan. */
  lemma MergeIsFullScan(d: Detector, file: int, previousContent: Text, content: Text, r: LineRange,
                        previous: seq<Secret>, kept: seq<Secret>, updated: seq<Secret>, found: seq<Secret>)
    requires previousContent != [] && |Split(previousContent)| == |Split(content)|
    requires IsChange(Split(previousContent), Split(content), r)
    requires IsFullScan(d, file, previousContent, previous)
    requires forall s :: s in kept <==> s in previous && !(r.start <= s.line <= r.end)
    requires IsScan(d, file, content, [r], updated)
    requires forall s :: s in found <==> s in kept || s in updated
    ensures IsFullScan(d, file, content, found)
  {
    var before, after := Split(previousContent), Split(content);
    WantedInRange(r, |after|);
    assert content == [] ==> after == [[]];
    forall s | s in found
      ensures content != [] && exists n :: FoundOn(d, file, after, n, s)
    {
      if s in kept {
        KeptIsFound(d, file, previousContent, content, r, previous, s);
      }
    }
    forall s | content != [] && exists n :: FoundOn(d, file, after, n, s)
      ensures s in found
    {
      var n :| FoundOn(d, file, after, n, s);
      FoundLine(d, file, after, n, s);
      if r.start <= n <= r.end {
        assert Wanted([r], |after|, n);
      } else {
        UnchangedLine(d, file, before, after, r, n, s);
      }
    }
  }

  lemma WantedInRange(r: LineRange, total: int)
    requires 1 <= r.start <= r.end <= total
    ensures forall n :: Wanted([r], total, n) <==> r.start <= n <= r.end
  {
    forall n | r.start <= n <= r.end
      ensures Wanted([r], total, n)
    {
      assert Asks([r][0], n);
      assert ClampedCovers([r], total, n);
    }
  }

  lemma KeptIsFound(d: Detector, file: int, previousContent: Text, content: Text, r: LineRange, previous: seq<Secret>,
                    s: Secret)
    requires |Split(previousContent)| == |Split(content)| && IsChange(Split(previousContent), Split(content), r)
    requires IsFullScan(d, file, previousContent, previous)
    requires s in previous && !(r.start <= s.line <= r.end)
    ensures content != [] && exists n :: FoundOn(d, file, Split(content), n, s)
  {
    var n :| FoundOn(d, file, Split(previousContent), n, s);
    FoundLine(d, file, Split(previousContent), n, s);
    UnchangedLine(d, file, Split(previousContent), Split(content), r, n, s);
    assert content == [] ==> |Split(content)| == 1;
  }
}
