/** Text as lines: splitting, joining, and finding the line and column of an offset. */
module TextLines {

  type Text = seq<char>

  const NEWLINE: char := '\n'

  /** The lines between the newlines. Even the empty text has one line. */
  function Split(t: Text): (lines: seq<Text>)
    ensures |lines| >= 1
  {
    if t == [] then [[]]
    else
      var rest := Split(t[1..]);
      if t[0] == NEWLINE then [[]] + rest else [[t[0]] + rest[0]] + rest[1..]
  }

  function Join(lines: seq<Text>): Text {
    if lines == [] then []
    else if |lines| == 1 then lines[0]
    else lines[0] + [NEWLINE] + Join(lines[1..])
  }

  function CountNewlines(t: Text): nat {
    if t == [] then 0 else (if t[0] == NEWLINE then 1 else 0) + CountNewlines(t[1..])
  }

  ghost predicate OneLine(line: Text) {
    forall i :: 0 <= i < |line| ==> line[i] != NEWLINE
  }

  ghost predicate OneLineEach(lines: seq<Text>) {
    forall i :: 0 <= i < |lines| ==> OneLine(lines[i])
  }

  lemma {:induction false} SplitCount(t: Text)
    ensures |Split(t)| == CountNewlines(t) + 1
    decreases |t|
  {
    if t != [] {
      SplitCount(t[1..]);
    }
  }

  lemma {:induction false} SplitOneLine(t: Text)
    ensures OneLineEach(Split(t))
    decreases |t|
  {
    if t != [] {
      SplitOneLine(t[1..]);
      var rest := Split(t[1..]);
      if t[0] != NEWLINE {
        assert OneLine(rest[0]);
        assert OneLine([t[0]] + rest[0]);
      }
    }
  }

  lemma {:induction false} SplitPrefix(line: Text, t: Text)
    requires OneLine(line)
    ensures Split(line + t) == [line + Split(t)[0]] + Split(t)[1..]
    decreases |line|
  {
    if line == [] {
      assert line + t == t && line + Split(t)[0] == Split(t)[0];
      assert Split(t) == [Split(t)[0]] + Split(t)[1..];
    } else {
      assert (line + t)[1..] == line[1..] + t;
      assert OneLine(line[1..]);
      SplitPrefix(line[1..], t);
      assert [line[0]] + (line[1..] + Split(t)[0]) == line + Split(t)[0];
    }
  }

  lemma {:induction false} SplitJoin(lines: seq<Text>)
    requires lines != [] && OneLineEach(lines)
    ensures Split(Join(lines)) == lines
    decreases |lines|
  {
    if |lines| == 1 {
      SplitPrefix(lines[0], []);
      assert lines[0] + [] == lines[0];
    } else {
      assert OneLineEach(lines[1..]);
      SplitJoin(lines[1..]);
      var rest := [NEWLINE] + Join(lines[1..]);
      assert rest[1..] == Join(lines[1..]);
      SplitPrefix(lines[0], rest);
      assert Join(lines) == lines[0] + rest;
      assert Split(rest) == [[]] + lines[1..];
      assert Split(rest)[1..] == lines[1..] && lines[0] + Split(rest)[0] == lines[0];
      assert lines == [lines[0]] + lines[1..];
    }
  }

  lemma {:induction false} JoinSplit(t: Text)
    ensures Join(Split(t)) == t
    decreases |t|
  {
    if t != [] {
      JoinSplit(t[1..]);
      var rest := Split(t[1..]);
      if t[0] == NEWLINE {
        assert ([[]] + rest)[1..] == rest;
      } else {
        assert ([[t[0]] + rest[0]] + rest[1..])[1..] == rest[1..];
        if |rest| > 1 {
          assert [t[0]] + rest[0] + [NEWLINE] + Join(rest[1..]) == [t[0]] + (rest[0] + [NEWLINE] + Join(rest[1..]));
        }
      }
    }
  }

  // ----- line index

  /** The offset at which line `k` begins. */
  ghost function LineStart(lines: seq<Text>, k: nat): nat
    requires k <= |lines|
  {
    if k == 0 then 0 else LineStart(lines, k - 1) + |lines[k - 1]| + 1
  }

  lemma {:induction false} LineStartsIncrease(lines: seq<Text>, j: nat, k: nat)
    requires j < k <= |lines|
    ensures LineStart(lines, j) + |lines[j]| < LineStart(lines, k)
    decreases k
  {
    if j < k - 1 {
      LineStartsIncrease(lines, j, k - 1);
    }
  }

  ghost predicate IsLineIndex(lines: seq<Text>, starts: seq<nat>) {
    |starts| == |lines| && forall k :: 0 <= k < |lines| ==> starts[k] == LineStart(lines, k)
  }

  /** The offsets just after each newline, counted from `base`. */
  function NewlineEnds(t: Text, base: nat): seq<nat> {
    if t == [] then [] else (if t[0] == NEWLINE then [base + 1] else []) + NewlineEnds(t[1..], base + 1)
  }

  lemma {:induction false} NewlineEndsSnoc(t: Text, c: char, base: nat)
    ensures NewlineEnds(t + [c], base) == NewlineEnds(t, base) + if c == NEWLINE then [base + |t| + 1] else []
    decreases |t|
  {
    if t != [] {
      NewlineEndsSnoc(t[1..], c, base + 1);
      assert (t + [c])[1..] == t[1..] + [c];
    } else {
      assert (t + [c])[1..] == [];
    }
  }

  lemma {:induction false} NewlineEndsLine(line: Text, t: Text, base: nat)
    requires OneLine(line)
    ensures NewlineEnds(line + t, base) == NewlineEnds(t, base + |line|)
    decreases |line|
  {
    if line == [] {
      assert line + t == t;
    } else {
      assert (line + t)[1..] == line[1..] + t;
      assert OneLine(line[1..]);
      NewlineEndsLine(line[1..], t, base + 1);
    }
  }

  /** The offsets after the newlines of a joined text are the starts of its lines but the first. */
  lemma {:induction false} EndsAreStarts(lines: seq<Text>, k: nat)
    requires lines != [] && OneLineEach(lines) && k < |lines|
    ensures NewlineEnds(Join(lines[k..]), LineStart(lines, k)) ==
              seq(|lines| - 1 - k, i requires 0 <= i < |lines| - 1 - k => LineStart(lines, k + 1 + i))
    decreases |lines| - k
  {
    var line, base := lines[k], LineStart(lines, k);
    var tail := lines[k..];
    if k + 1 == |lines| {
      assert tail == [line];
      NewlineEndsLine(line, [], base);
      assert line + [] == line;
    } else {
      assert tail[1..] == lines[k + 1..];
      var rest := [NEWLINE] + Join(lines[k + 1..]);
      assert Join(tail) == line + rest;
      NewlineEndsLine(line, rest, base);
      assert rest[1..] == Join(lines[k + 1..]);
      EndsAreStarts(lines, k + 1);
    }
  }

  method BuildLineIndex(t: Text) returns (starts: seq<nat>)
    ensures IsLineIndex(Split(t), starts)
  {
    starts := [0];
    for i := 0 to |t|
      invariant starts == [0] + NewlineEnds(t[..i], 0)
    {
      assert t[..i + 1] == t[..i] + [t[i]];
      NewlineEndsSnoc(t[..i], t[i], 0);
      if t[i] == NEWLINE {
        starts := starts + [i + 1];
      }
    }
    assert t[..|t|] == t;
    var lines := Split(t);
    SplitOneLine(t);
    JoinSplit(t);
    assert lines[0..] == lines;
    EndsAreStarts(lines, 0);
  }

  /** The line and column of an offset, both counted from one, by binary search. */
  method LineCol(starts: seq<nat>, offset: int) returns (line: int, col: int)
    requires |starts| >= 1 && starts[0] == 0
    requires forall i, j :: 0 <= i < j < |starts| ==> starts[i] < starts[j]
    ensures offset < 0 ==> line == 1 && col == 1
    ensures offset >= 0 ==>
              && 1 <= line <= |starts| && starts[line - 1] <= offset && col == offset - starts[line - 1] + 1
              && (line < |starts| ==> offset < starts[line])
  {
    if offset < 0 {
      return 1, 1;
    }
    var lo, hi := 0, |starts|;
    while lo < hi
      invariant 0 <= lo <= hi <= |starts|
      invariant forall i :: 0 <= i < lo ==> starts[i] <= offset
      invariant forall i :: hi <= i < |starts| ==> starts[i] > offset
      decreases hi - lo
    {
      var mid := (lo + hi) / 2;
      if starts[mid] > offset {
        hi := mid;
      } else {
        lo := mid + 1;
      }
    }
    return lo, offset - starts[lo - 1] + 1;
  }

  /** An offset within line `k`, its final newline included, is found on that line. */
  lemma OffsetOnLine(lines: seq<Text>, starts: seq<nat>, k: nat, column: nat, line: int)
    requires IsLineIndex(lines, starts) && k < |lines| && column <= |lines[k]|
    requires var offset := LineStart(lines, k) + column;
             1 <= line <= |starts| && starts[line - 1] <= offset && (line < |starts| ==> offset < starts[line])
    ensures line == k + 1
  {
    if line - 1 < k {
      if line < k {
        LineStartsIncrease(lines, line, k);
      }
    } else if line - 1 > k {
      LineStartsIncrease(lines, k, line - 1);
    }
  }

  lemma IndexIncreases(lines: seq<Text>, starts: seq<nat>)
    requires IsLineIndex(lines, starts) && lines != []
    ensures starts[0] == 0 && forall i, j :: 0 <= i < j < |starts| ==> starts[i] < starts[j]
  {
    forall i, j | 0 <= i < j < |starts|
      ensures starts[i] < starts[j]
    {
      LineStartsIncrease(lines, i, j);
    }
  }
}
