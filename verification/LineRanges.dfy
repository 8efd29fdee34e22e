/** Ranges of lines: the changed lines between two texts, normal form, and the segments to scan. */
module LineRanges {
  import opened TextLines

  /** Lines are counted from one; both ends belong to the range. */
  datatype LineRange = LineRange(start: int, end: int)

  predicate Covers(ranges: seq<LineRange>, line: int) {
    exists i :: 0 <= i < |ranges| && ranges[i].start <= line <= ranges[i].end
  }

  method LineWithinRanges(line: int, ranges: seq<LineRange>) returns (within: bool)
    ensures within <==> Covers(ranges, line)
  {
    for i := 0 to |ranges|
      invariant forall k :: 0 <= k < i ==> !(ranges[k].start <= line <= ranges[k].end)
    {
      if line >= ranges[i].start && line <= ranges[i].end {
        return true;
      }
    }
    return false;
  }

  // ----- changed lines

  /** The lines before and after the range are the same in both texts, counted from the front and from the
      back, and the range is as narrow as that allows: it begins at a line that differs, or past the old text,
      or at the last line; its end differs from the old line as far from the back, or that line belongs to
      the common front, or the range is a single line. With as many lines as before, both ends differ. */
  ghost predicate IsChange(before: seq<Text>, after: seq<Text>, r: LineRange) {
    && 1 <= r.start <= r.end <= |after|
    && (forall i :: 0 <= i < r.start - 1 ==> i < |before| && after[i] == before[i])
    && (forall i :: r.end <= i < |after| ==>
          0 <= i + |before| - |after| < |before| && after[i] == before[i + |before| - |after|])
    && (r.start == |after| || r.start > |before| || before[r.start - 1] != after[r.start - 1])
    && (r.end == r.start || r.end + |before| - |after| < r.start ||
        before[r.end - 1 + |before| - |after|] != after[r.end - 1])
    && (|before| == |after| ==> before[r.start - 1] != after[r.start - 1] && before[r.end - 1] != after[r.end - 1])
  }

  method ChangedLineRanges(prev: Text, curr: Text) returns (ranges: seq<LineRange>)
    ensures prev == curr ==> ranges == []
    ensures prev != curr ==> |ranges| == 1 && IsChange(Split(prev), Split(curr), ranges[0])
  {
    hide Split, IsChange, SamePrefix, SameSuffix;
    if prev == curr {
      return [];
    }
    var newLines, oldLines := Split(curr), Split(prev);
    DifferentLines(prev, curr);
    var prefix := 0;
    NothingCompared(oldLines, newLines);
    while prefix < |newLines| && prefix < |oldLines| && newLines[prefix] == oldLines[prefix]
      invariant prefix <= |newLines| && prefix <= |oldLines|
      invariant SamePrefix(oldLines, newLines, prefix)
    {
      PrefixLonger(oldLines, newLines, prefix);
      prefix := prefix + 1;
    }
    var suffix := 0;
    while suffix < |newLines| - prefix && suffix < |oldLines| - prefix
      invariant suffix <= |newLines| - prefix && suffix <= |oldLines| - prefix
      invariant SameSuffix(oldLines, newLines, suffix)
      decreases |newLines| - suffix
    {
      if newLines[|newLines| - 1 - suffix] != oldLines[|oldLines| - 1 - suffix] {
        break;
      }
      SuffixLonger(oldLines, newLines, suffix);
      suffix := suffix + 1;
    }
    var start, end := prefix + 1, |newLines| - suffix;
    if start > |newLines| {
      start := |newLines|;
    }
    if end < start {
      end := start;
    }
    ChangeFound(oldLines, newLines, prefix, suffix);
    return [LineRange(start, end)];
  }

  ghost predicate SamePrefix(before: seq<Text>, after: seq<Text>, prefix: nat)
    requires prefix <= |before| && prefix <= |after|
  {
    forall i :: 0 <= i < prefix ==> after[i] == before[i]
  }

  ghost predicate SameSuffix(before: seq<Text>, after: seq<Text>, suffix: nat)
    requires suffix <= |before| && suffix <= |after|
  {
    forall i :: |after| - suffix <= i < |after| ==> after[i] == before[i + |before| - |after|]
  }

  lemma NothingCompared(before: seq<Text>, after: seq<Text>)
    ensures SamePrefix(before, after, 0) && SameSuffix(before, after, 0)
  {
  }

  lemma PrefixLonger(before: seq<Text>, after: seq<Text>, prefix: nat)
    requires prefix < |before| && prefix < |after| && SamePrefix(before, after, prefix) &&
             after[prefix] == before[prefix]
    ensures SamePrefix(before, after, prefix + 1)
  {
  }

  lemma SuffixLonger(before: seq<Text>, after: seq<Text>, suffix: nat)
    requires suffix < |before| && suffix < |after| && SameSuffix(before, after, suffix)
    requires after[|after| - 1 - suffix] == before[|before| - 1 - suffix]
    ensures SameSuffix(before, after, suffix + 1)
  {
  }

  lemma AllSame(before: seq<Text>, after: seq<Text>)
    requires |before| == |after| && SamePrefix(before, after, |after|)
    ensures before == after
  {
  }

  lemma ChangeFound(before: seq<Text>, after: seq<Text>, prefix: nat, suffix: nat)
    requires before != after && |after| >= 1
    requires prefix <= |before| && prefix <= |after| && SamePrefix(before, after, prefix)
    requires prefix < |before| && prefix < |after| ==> before[prefix] != after[prefix]
    requires suffix <= |after| - prefix && suffix <= |before| - prefix && SameSuffix(before, after, suffix)
    requires suffix < |after| - prefix && suffix < |before| - prefix ==>
               before[|before| - 1 - suffix] != after[|after| - 1 - suffix]
    ensures var start := if prefix + 1 > |after| then |after| else prefix + 1;
            var end := if |after| - suffix < start then start else |after| - suffix;
            IsChange(before, after, LineRange(start, end))
  {
    if |before| == |after| && prefix == |after| {
      AllSame(before, after);
    }
  }

  lemma DifferentLines(prev: Text, curr: Text)
    requires prev != curr
    ensures Split(prev) != Split(curr)
  {
    JoinSplit(prev);
    JoinSplit(curr);
  }

  // ----- normal form

  datatype ClampResult = Kept(range: LineRange) | OutOfBounds

  /** One range brought into the bounds of a text of `total` lines. */
  function Clamp(r: LineRange, total: int): ClampResult {
    var start := if r.start <= 0 then 1 else r.start;
    var end := if r.end <= 0 then start else r.end;
    var lo, hi := if end < start then end else start, if end < start then start else end;
    if lo > total then OutOfBounds else Kept(LineRange(lo, if hi > total then total else hi))
  }

  /** The range asks for the line: it lies between the two ends, whichever comes first. A start before the first line
      means the first line, and a missing end the start. */
  predicate Asks(r: LineRange, line: int) {
    var start := if r.start <= 0 then 1 else r.start;
    if r.end <= 0 then line == start else start <= line <= r.end || r.end <= line <= start
  }

  /** The line exists and some range asks for it. */
  ghost predicate ClampedCovers(input: seq<LineRange>, total: int, line: int) {
    1 <= line <= total && exists i :: 0 <= i < |input| && Asks(input[i], line)
  }

  lemma ClampMeans(r: LineRange, total: int, line: int)
    ensures var c := Clamp(r, total);
            c.Kept? && c.range.start <= line <= c.range.end <==> line <= total && Asks(r, line)
    ensures Asks(r, line) ==> 1 <= line
  {
  }

  predicate Before(a: LineRange, b: LineRange) {
    a.start < b.start || (a.start == b.start && a.end <= b.end)
  }

  ghost predicate Sorted(s: seq<LineRange>) {
    forall i, j :: 0 <= i < j < |s| ==> s[i].start <= s[j].start
  }

  function InsertRange(r: LineRange, s: seq<LineRange>): seq<LineRange> {
    if s == [] then [r] else if Before(r, s[0]) then [r] + s else [s[0]] + InsertRange(r, s[1..])
  }

  lemma {:induction false} InsertSorted(r: LineRange, s: seq<LineRange>)
    requires Sorted(s)
    ensures Sorted(InsertRange(r, s))
    ensures forall x :: x in InsertRange(r, s) <==> x == r || x in s
    decreases |s|
  {
    if s != [] {
      assert s == [s[0]] + s[1..];
      if !Before(r, s[0]) {
        InsertSorted(r, s[1..]);
        var t := InsertRange(r, s[1..]);
        forall i | 0 <= i < |t|
          ensures s[0].start <= t[i].start
        {
          var x := t[i];
          assert x in t;
        }
      }
    }
  }

  /** In bounds, non-empty, sorted, and at least one line apart. */
  ghost predicate IsNormal(s: seq<LineRange>, total: int) {
    && (forall i :: 0 <= i < |s| ==> 1 <= s[i].start <= s[i].end <= total)
    && (forall i, j :: 0 <= i < j < |s| ==> s[i].end + 1 < s[j].start)
  }

  ghost predicate InBounds(s: seq<LineRange>, total: int) {
    forall i :: 0 <= i < |s| ==> 1 <= s[i].start <= s[i].end <= total
  }

  method ClampAll(input: seq<LineRange>, total: int) returns (out: seq<LineRange>)
    requires total >= 1
    ensures InBounds(out, total) && Sorted(out)
    ensures forall line :: Covers(out, line) <==> ClampedCovers(input, total, line)
  {
    out := [];
    for i := 0 to |input|
      invariant Sorted(out)
      invariant forall x :: x in out <==> exists k :: 0 <= k < i && Clamp(input[k], total) == Kept(x)
    {
      ghost var before := out;
      var c := Clamp(input[i], total);
      if c.Kept? {
        InsertSorted(c.range, out);
        out := InsertRange(c.range, out);
      }
      forall x
        ensures x in out <==> exists k :: 0 <= k < i + 1 && Clamp(input[k], total) == Kept(x)
      {
        assert x in out <==> x in before || c == Kept(x);
      }
    }
    forall k | 0 <= k < |out|
      ensures 1 <= out[k].start <= out[k].end <= total
    {
      var x := out[k];
      assert x in out;
    }
    ClampsCover(input, total, out);
  }

  lemma ClampsCover(input: seq<LineRange>, total: int, out: seq<LineRange>)
    requires forall x :: x in out <==> exists k :: 0 <= k < |input| && Clamp(input[k], total) == Kept(x)
    ensures forall line :: Covers(out, line) <==> ClampedCovers(input, total, line)
  {
    forall line
      ensures Covers(out, line) <==> ClampedCovers(input, total, line)
    {
      if Covers(out, line) {
        var i :| 0 <= i < |out| && out[i].start <= line <= out[i].end;
        var x := out[i];
        assert x in out;
        var k :| 0 <= k < |input| && Clamp(input[k], total) == Kept(x);
        ClampMeans(input[k], total, line);
        assert Asks(input[k], line);
      }
      if ClampedCovers(input, total, line) {
        var k :| 0 <= k < |input| && Asks(input[k], line);
        ClampMeans(input[k], total, line);
        var x := Clamp(input[k], total).range;
        assert Clamp(input[k], total) == Kept(x);
        assert x in out;
        var i :| 0 <= i < |out| && out[i] == x;
      }
    }
  }

  /** Ranges in normal form that cover the same lines as the clamped input. */
  method NormalizeRanges(input: seq<LineRange>, total: int) returns (merged: seq<LineRange>)
    ensures IsNormal(merged, total)
    ensures total >= 1 ==> forall line :: Covers(merged, line) <==> ClampedCovers(input, total, line)
    ensures total < 1 ==> merged == []
  {
    hide Clamp, Covers, ClampedCovers, SameCover;
    merged := [];
    if total <= 0 || |input| == 0 {
      NothingCovered(total);
      return;
    }
    var out := ClampAll(input, total);
    assert out[..0] == [];
    NothingYet();
    for i := 0 to |out|
      invariant IsNormal(merged, total)
      invariant merged != [] ==> i > 0 && merged[|merged| - 1].start <= out[i - 1].start
      invariant SameCover(merged, out[..i])
    {
      var curr := out[i];
      ghost var before := merged;
      assert out[..i + 1] == out[..i] + [curr];
      if |merged| == 0 {
        merged := [curr];
        assert [curr] == before + [curr];
        AppendCovers(before, out[..i], curr);
      } else {
        var last := merged[|merged| - 1];
        if curr.start <= last.end + 1 {
          if curr.end > last.end {
            merged := merged[..|merged| - 1] + [LineRange(last.start, curr.end)];
            Widened(before, out[..i], curr);
          } else {
            Swallowed(before, out[..i], curr);
          }
        } else {
          merged := merged + [curr];
          AppendCovers(before, out[..i], curr);
        }
      }
    }
    assert out[..|out|] == out;
    CoverMeans(merged, out);
  }

  ghost predicate SameCover(a: seq<LineRange>, b: seq<LineRange>) {
    forall line :: Covers(a, line) <==> Covers(b, line)
  }

  lemma NothingYet()
    ensures SameCover([], [])
  {
  }

  lemma CoverMeans(a: seq<LineRange>, b: seq<LineRange>)
    requires SameCover(a, b)
    ensures forall line :: Covers(a, line) <==> Covers(b, line)
  {
  }

  lemma AppendCovers(s: seq<LineRange>, done: seq<LineRange>, curr: LineRange)
    requires SameCover(s, done)
    ensures SameCover(s + [curr], done + [curr])
  {
    CoversSnoc(s, curr);
    CoversSnoc(done, curr);
  }

  lemma NothingCovered(total: int)
    ensures forall line :: !Covers([], line) && !ClampedCovers([], total, line)
  {
  }

  lemma CoversSnoc(s: seq<LineRange>, r: LineRange)
    ensures forall line :: Covers(s + [r], line) <==> Covers(s, line) || r.start <= line <= r.end
  {
    forall line
      ensures Covers(s + [r], line) <==> Covers(s, line) || r.start <= line <= r.end
    {
      if Covers(s, line) {
        var i :| 0 <= i < |s| && s[i].start <= line <= s[i].end;
        assert (s + [r])[i] == s[i];
      }
      if r.start <= line <= r.end {
        assert (s + [r])[|s|] == r;
      }
    }
  }

  lemma Widened(s: seq<LineRange>, done: seq<LineRange>, curr: LineRange)
    requires s != [] && s[|s| - 1].start <= curr.start <= s[|s| - 1].end + 1 && curr.end > s[|s| - 1].end
    requires SameCover(s, done)
    ensures SameCover(s[..|s| - 1] + [LineRange(s[|s| - 1].start, curr.end)], done + [curr])
  {
    var init, last := s[..|s| - 1], s[|s| - 1];
    assert s == init + [last];
    CoversSnoc(init, last);
    CoversSnoc(init, LineRange(last.start, curr.end));
    CoversSnoc(done, curr);
  }

  lemma Swallowed(s: seq<LineRange>, done: seq<LineRange>, curr: LineRange)
    requires s != [] && s[|s| - 1].start <= curr.start && curr.end <= s[|s| - 1].end
    requires SameCover(s, done)
    ensures SameCover(s, done + [curr])
  {
    CoversSnoc(done, curr);
    forall line | curr.start <= line <= curr.end
      ensures Covers(s, line)
    {
      assert s[|s| - 1].start <= line;
    }
  }
}
