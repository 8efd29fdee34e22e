/** The order in which the batch writer writes, and the versions that the store ends with. */
module WriterOrder {
  import opened Collections
  import opened BatchWriter

  /** The stored version of each path after the writes in `log`. */
  function Stored(log: seq<File>): map<int, int> {
    if log == [] then map[] else Stored(log[..|log| - 1])[log[|log| - 1].path := log[|log| - 1].version]
  }

  /** What is on its way to the store, oldest first. */
  function Pending(s: State): seq<File> {
    s.batch + s.swept + s.ch
  }

  /** A submitter writes its file while older ones are on their way. */
  predicate Overtakes(s: State, a: Step) {
    a.DirectWrite? && a.k < |s.direct| && Pending(s) != []
  }

  predicate NeverOvertakes(size: int, steps: seq<Step>) {
    steps == [] ||
    (NeverOvertakes(size, steps[..|steps| - 1]) && !Overtakes(Run(size, steps[..|steps| - 1]), steps[|steps| - 1]))
  }

  // ----- the order of submission

  /** As long as nothing is overtaken everything is written in the order of submission. */
  ghost predicate InOrder(s: State) {
    && s.submitted == s.written + s.batch + s.swept + s.ch
    && (!s.phase.Exited? ==> s.swept == []) && (s.phase.Exited? ==> s.batch == [])
    && s.closeSeen <= s.submitted
    && (s.closing.Sweeping? || s.closing.SweptUp? || s.closing.Closed? ==> s.phase.Exited?)
    && (s.closing.SweptUp? ==> s.closeSeen <= s.written + s.swept)
    && (s.closing.Closed? ==> s.closeSeen <= s.written && s.swept == [])
    && (forall id :: id in s.asked ==> s.asked[id] <= s.submitted)
    && (forall id :: id in s.answered ==> id in s.asked && s.asked[id] <= s.written)
    && (forall i :: 0 <= i < |s.flushes| ==> s.flushes[i] in s.asked)
    && ((s.phase.Gathering? || s.phase.Writing?) && s.phase.reason.Asked? ==> s.phase.reason.id in s.asked)
    && (s.phase.Writing? && s.phase.reason.Asked? && s.phase.reason.id in s.asked ==>
          s.asked[s.phase.reason.id] <= s.written + s.batch)
  }

  lemma SubmitInOrder(size: int, s: State, f: File)
    requires InOrder(s)
    ensures InOrder(Next(size, s, Submit(f)))
  {
  }

  lemma DirectInOrder(size: int, s: State, k: nat)
    requires InOrder(s) && k < |s.direct| && Pending(s) == []
    ensures InOrder(Next(size, s, DirectWrite(k, true)))
  {
    var t := Next(size, s, DirectWrite(k, true));
    assert s.submitted == s.written;
    assert t.submitted == t.written;
  }

  lemma ShiftInOrder(size: int, s: State, a: Step)
    requires InOrder(s) && Enabled(size, s, a) && (a.Receive? || a.Gather? || a.Sweep?)
    ensures InOrder(Next(size, s, a))
  {
    assert s.ch == [s.ch[0]] + s.ch[1..];
    var t := Next(size, s, a);
    assert t.submitted == t.written + t.batch + t.swept + t.ch;
    if a.Gather? || a.Receive? {
      assert s.written + s.batch <= t.written + t.batch;
    }
  }

  lemma SettleInOrder(size: int, s: State, a: Step)
    requires InOrder(s) && Enabled(size, s, a) && Succeeds(a) && (a.Write? || a.EndSweep?)
    ensures InOrder(Next(size, s, a))
  {
    var t := Next(size, s, a);
    assert t.submitted == t.written + t.batch + t.swept + t.ch;
    assert s.written <= t.written;
  }

  lemma OtherInOrder(size: int, s: State, a: Step)
    requires InOrder(s) && Enabled(size, s, a)
    requires a.AskFlush? || a.TakeFlush? || a.Tick? || a.SeeDone? || a.EndGather? || a.CloseCall? || a.SeeEmpty?
    ensures InOrder(Next(size, s, a))
  {
    if a.EndGather? {
      assert s.phase.Gathering? ==> s.submitted == s.written + s.batch;
    }
    if a.SeeEmpty? {
      assert s.submitted == s.written + s.swept;
    }
  }

  lemma {:induction false} RunInOrder(size: int, steps: seq<Step>)
    requires AllSucceed(steps) && NeverOvertakes(size, steps)
    ensures InOrder(Run(size, steps))
    decreases |steps|
  {
    if steps != [] {
      var init, a := steps[..|steps| - 1], steps[|steps| - 1];
      RunInOrder(size, init);
      var s := Run(size, init);
      if Enabled(size, s, a) {
        hide InOrder;
        match a
        case Submit(f) => SubmitInOrder(size, s, f);
        case DirectWrite(k, ok) =>
          assert Succeeds(a);
          DirectInOrder(size, s, k);
        case Receive => ShiftInOrder(size, s, a);
        case Gather => ShiftInOrder(size, s, a);
        case Sweep => ShiftInOrder(size, s, a);
        case Write(_) => SettleInOrder(size, s, a);
        case EndSweep(_) => SettleInOrder(size, s, a);
        case _ => OtherInOrder(size, s, a);
      }
    }
  }

  /** With successful transactions and nothing overtaken, an answered flush has written everything submitted
      before it, first of all and in order; so has Close. */
  lemma FlushAndCloseKeepOrder(size: int, steps: seq<Step>)
    requires AllSucceed(steps) && NeverOvertakes(size, steps)
    ensures var s := Run(size, steps);
            && (forall id :: id in s.answered ==> id in s.asked && s.asked[id] <= s.written)
            && (s.closing.Closed? ==> s.closeSeen <= s.written)
            && s.written <= s.submitted
  {
    RunInOrder(size, steps);
  }

  /** Every submitted file is in one place. */
  predicate SizesAgree(s: State) {
    |s.submitted| == |s.ch| + |s.batch| + |s.swept| + |s.written| + |s.lost|
  }

  lemma StepSizes(size: int, s: State, a: Step)
    requires SizesAgree(s)
    ensures SizesAgree(Advance(size, s, a))
  {
    hide Advance;
    if a.DirectWrite? || a.Write? || a.EndSweep? {
      TransactionSizes(size, s, a);
    } else {
      MoveSizes(size, s, a);
    }
  }

  lemma TransactionSizes(size: int, s: State, a: Step)
    requires SizesAgree(s) && (a.DirectWrite? || a.Write? || a.EndSweep?)
    ensures SizesAgree(Advance(size, s, a))
  {
  }

  lemma MoveSizes(size: int, s: State, a: Step)
    requires SizesAgree(s) && !a.DirectWrite? && !a.Write? && !a.EndSweep?
    ensures SizesAgree(Advance(size, s, a))
  {
  }

  lemma {:induction false} RunSizes(size: int, steps: seq<Step>)
    ensures SizesAgree(Run(size, steps))
    decreases |steps|
  {
    hide SizesAgree, Advance;
    if steps != [] {
      RunSizes(size, steps[..|steps| - 1]);
      StepSizes(size, Run(size, steps[..|steps| - 1]), steps[|steps| - 1]);
    } else {
      assert SizesAgree(Init()) by {
        InitSizes();
      }
    }
  }

  lemma InitSizes()
    ensures SizesAgree(Init())
  {
  }

  /** Some file was written earlier than its turn. */
  ghost predicate Overtaken(s: State) {
    exists j, i :: 0 <= j < i < |s.submitted| && j < |s.written| && s.written[j] == s.submitted[i]
  }

  lemma OvertakenStays(s: State, t: State)
    requires Overtaken(s) && s.written <= t.written && s.submitted <= t.submitted
    ensures Overtaken(t)
  {
    var j, i :| 0 <= j < i < |s.submitted| && j < |s.written| && s.written[j] == s.submitted[i];
    assert t.written[j] == t.submitted[i];
  }

  lemma StepOvertakes(size: int, s: State, a: Step)
    requires SizesAgree(s) && Overtakes(s, a) && Succeeds(a)
    ensures Overtaken(Advance(size, s, a))
  {
    var t := Advance(size, s, a);
    assert t.written[|s.written|] == t.submitted[|s.submitted|];
  }

  lemma LogsGrow(size: int, s: State, a: Step)
    ensures s.written <= Advance(size, s, a).written && s.submitted <= Advance(size, s, a).submitted
  {
    hide BatchSize, Advance;
    match a
    case Submit(f) => SubmitGrows(size, s, f);
    case DirectWrite(k, ok) => DirectGrows(size, s, k, ok);
    case Write(ok) => WriteGrows(size, s, ok);
    case EndSweep(ok) => SweepGrows(size, s, ok);
    case _ => OthersGrow(size, s, a);
  }

  lemma SubmitGrows(size: int, s: State, f: File)
    ensures s.written == Advance(size, s, Submit(f)).written && s.submitted <= Advance(size, s, Submit(f)).submitted
  {
  }

  lemma DirectGrows(size: int, s: State, k: nat, ok: bool)
    ensures s.written <= Advance(size, s, DirectWrite(k, ok)).written
    ensures s.submitted <= Advance(size, s, DirectWrite(k, ok)).submitted
  {
  }

  lemma WriteGrows(size: int, s: State, ok: bool)
    ensures s.written <= Advance(size, s, Write(ok)).written && s.submitted == Advance(size, s, Write(ok)).submitted
  {
  }

  lemma SweepGrows(size: int, s: State, ok: bool)
    ensures s.written <= Advance(size, s, EndSweep(ok)).written
    ensures s.submitted == Advance(size, s, EndSweep(ok)).submitted
  {
  }

  lemma OthersGrow(size: int, s: State, a: Step)
    requires !a.Submit? && !a.DirectWrite? && !a.Write? && !a.EndSweep?
    ensures s.written == Advance(size, s, a).written && s.submitted == Advance(size, s, a).submitted
  {
  }

  lemma {:induction false} RunOvertakes(size: int, steps: seq<Step>)
    requires AllSucceed(steps) && !NeverOvertakes(size, steps)
    ensures Overtaken(Run(size, steps))
    decreases |steps|
  {
    hide Advance, Overtaken, Overtakes;
    var init, a := steps[..|steps| - 1], steps[|steps| - 1];
    if NeverOvertakes(size, init) {
      RunSizes(size, init);
      assert Succeeds(a);
      StepOvertakes(size, Run(size, init), a);
    } else {
      RunOvertakes(size, init);
      LogsGrow(size, Run(size, init), a);
      OvertakenStays(Run(size, init), Run(size, steps));
    }
  }

  /** With successful transactions and no file submitted twice, the files are written in the order of submission
      exactly when no submitter writes its file while older ones are on their way. */
  lemma InOrderIffNotOvertaken(size: int, steps: seq<Step>)
    requires AllSucceed(steps) && Distinct(Run(size, steps).submitted)
    ensures Run(size, steps).written <= Run(size, steps).submitted <==> NeverOvertakes(size, steps)
  {
    if NeverOvertakes(size, steps) {
      FlushAndCloseKeepOrder(size, steps);
    } else {
      RunOvertakes(size, steps);
    }
  }

  /** No submitter finds the channel full. */
  predicate NeverFull(size: int, steps: seq<Step>) {
    steps == [] ||
    (NeverFull(size, steps[..|steps| - 1]) &&
     (steps[|steps| - 1].Submit? ==> |Run(size, steps[..|steps| - 1]).ch| < 2 * BatchSize(size)))
  }

  /** If no submitter finds the channel full, nothing is overtaken. */
  lemma {:induction false} QueuedIsNotOvertaken(size: int, steps: seq<Step>)
    requires NeverFull(size, steps)
    ensures NeverOvertakes(size, steps) && Run(size, steps).direct == []
    decreases |steps|
  {
    if steps != [] {
      QueuedIsNotOvertaken(size, steps[..|steps| - 1]);
    }
  }

  // ----- the versions that the store ends with

  /** The file, if there is one, whose submission the step completes. */
  function Completes(size: int, s: State, a: Step): seq<File> {
    match a
    case Submit(f) => if |s.ch| < 2 * BatchSize(size) then [f] else []
    case DirectWrite(k, _) => if k < |s.direct| then [s.direct[k]] else []
    case _ => []
  }

  /** The last submission of `path` was a direct write while an older file of that path was on its way. */
  predicate Stale(size: int, steps: seq<Step>, path: int) {
    if steps == [] then false
    else
      var init, a := steps[..|steps| - 1], steps[|steps| - 1];
      var done := Completes(size, Run(size, init), a);
      if done != [] && done[0].path == path then a.DirectWrite? && HasPath(Pending(Run(size, init)), path)
      else Stale(size, init, path)
  }

  predicate HasPath(log: seq<File>, path: int) {
    exists i :: 0 <= i < |log| && log[i].path == path
  }

  /** What the store has been given and will be given, in this order. */
  function Line(s: State): seq<File> {
    s.written + Pending(s)
  }

  lemma {:induction false} StoredCat(a: seq<File>, b: seq<File>)
    ensures Stored(a + b) == Stored(a) + Stored(b)
    decreases |b|
  {
    if b == [] {
      assert a + b == a;
    } else {
      StoredCat(a, b[..|b| - 1]);
      assert (a + b)[..|a + b| - 1] == a + b[..|b| - 1];
    }
  }

  lemma {:induction false} StoredHas(log: seq<File>, path: int)
    ensures path in Stored(log) <==> HasPath(log, path)
    ensures path in Stored(log) ==> File(path, Stored(log)[path]) in log
    decreases |log|
  {
    if log != [] {
      var init, last := log[..|log| - 1], log[|log| - 1];
      StoredHas(init, path);
      assert log == init + [last];
      if HasPath(init, path) {
        var i :| 0 <= i < |init| && init[i].path == path;
        assert log[i].path == path;
      }
      if HasPath(log, path) && last.path != path {
        var i :| 0 <= i < |log| && log[i].path == path;
        assert init[i].path == path;
      }
    }
  }

  lemma StoredOne(f: File)
    ensures Stored([f]) == map[f.path := f.version]
  {
    assert [f][..0] == [];
  }

  /** Only a completed submission changes the line: the file joins the end, or, written directly, it goes ahead of
      everything on its way. */
  lemma LineMoves(size: int, s: State, a: Step)
    requires Succeeds(a) && LineOk(s)
    ensures var t, done := Advance(size, s, a), Completes(size, s, a);
            && LineOk(t) && t.submitted == s.submitted + done
            && Line(t) == if a.DirectWrite? then s.written + done + Pending(s) else Line(s) + done
  {
    hide LineOk;
    match a
    case Submit(f) => SubmitLine(size, s, f);
    case DirectWrite(k, _) => DirectLine(size, s, k);
    case Receive => ShiftLine(size, s, a);
    case Gather => ShiftLine(size, s, a);
    case Sweep => ShiftLine(size, s, a);
    case Write(_) => WriteLine(size, s);
    case EndSweep(_) => SweepLine(size, s);
    case _ => RestLine(size, s, a);
  }

  /** The batch and the files swept by Close are never there together. */
  predicate LineOk(s: State) {
    && (!s.phase.Exited? ==> s.swept == [])
    && (s.phase.Exited? ==> s.batch == [])
    && (s.closing.SweptUp? ==> s.phase.Exited?)
  }

  lemma SubmitLine(size: int, s: State, f: File)
    requires LineOk(s)
    ensures var t, done := Advance(size, s, Submit(f)), Completes(size, s, Submit(f));
            LineOk(t) && t.submitted == s.submitted + done && Line(t) == Line(s) + done
  {
  }

  lemma DirectLine(size: int, s: State, k: nat)
    requires LineOk(s)
    ensures var t, done := Advance(size, s, DirectWrite(k, true)), Completes(size, s, DirectWrite(k, true));
            LineOk(t) && t.submitted == s.submitted + done && Line(t) == s.written + done + Pending(s)
  {
  }

  lemma ShiftLine(size: int, s: State, a: Step)
    requires LineOk(s) && (a.Receive? || a.Gather? || a.Sweep?)
    ensures LineOk(Advance(size, s, a)) && Line(Advance(size, s, a)) == Line(s)
    ensures Advance(size, s, a).submitted == s.submitted
  {
    if s.ch != [] {
      assert s.ch == [s.ch[0]] + s.ch[1..];
    }
  }

  lemma WriteLine(size: int, s: State)
    requires LineOk(s)
    ensures LineOk(Advance(size, s, Write(true))) && Line(Advance(size, s, Write(true))) == Line(s)
    ensures Advance(size, s, Write(true)).submitted == s.submitted
  {
  }

  lemma SweepLine(size: int, s: State)
    requires LineOk(s)
    ensures LineOk(Advance(size, s, EndSweep(true))) && Line(Advance(size, s, EndSweep(true))) == Line(s)
    ensures Advance(size, s, EndSweep(true)).submitted == s.submitted
  {
  }

  lemma RestLine(size: int, s: State, a: Step)
    requires LineOk(s)
    requires a.AskFlush? || a.TakeFlush? || a.Tick? || a.SeeDone? || a.EndGather? || a.CloseCall? || a.SeeEmpty?
    ensures LineOk(Advance(size, s, a)) && Line(Advance(size, s, a)) == Line(s)
    ensures Advance(size, s, a).submitted == s.submitted
  {
  }

  /** For one path: the line and the submissions agree on whether it occurs, and on its last version exactly
      when it is not stale. */
  ghost predicate Agrees(line: seq<File>, submitted: seq<File>, path: int, stale: bool) {
    && (path in Stored(line) <==> path in Stored(submitted))
    && (path in Stored(submitted) && path in Stored(line) ==>
          (Stored(line)[path] == Stored(submitted)[path] <==> !stale))
    && (path !in Stored(submitted) ==> !stale)
  }

  lemma SubmitAgrees(written: seq<File>, pending: seq<File>, submitted: seq<File>, f: File, path: int, stale: bool,
                     direct: bool)
    requires Agrees(written + pending, submitted, path, stale)
    requires f !in pending
    ensures Agrees(if direct then written + [f] + pending else written + pending + [f], submitted + [f], path,
              if f.path == path then direct && HasPath(pending, path) else stale)
  {
    StoredCat(written, pending);
    StoredCat(written + pending, [f]);
    StoredCat(written, [f]);
    StoredCat(written + [f], pending);
    StoredCat(submitted, [f]);
    StoredOne(f);
    StoredHas(pending, path);
    hide Stored;
  }

  /** All that is on the line has been submitted. */
  lemma {:induction false} LineSubmitted(size: int, steps: seq<Step>, f: File)
    requires f in Line(Run(size, steps))
    ensures f in Run(size, steps).submitted
  {
    RunKeeps(size, steps, f);
    CountNone(f);
  }

  lemma {:induction false} RunLineOk(size: int, steps: seq<Step>)
    requires AllSucceed(steps)
    ensures LineOk(Run(size, steps))
    decreases |steps|
  {
    hide Advance, LineOk;
    if steps == [] {
      InitLineOk();
    } else {
      RunLineOk(size, steps[..|steps| - 1]);
      assert Succeeds(steps[|steps| - 1]);
      LineMoves(size, Run(size, steps[..|steps| - 1]), steps[|steps| - 1]);
    }
  }

  lemma InitLineOk()
    ensures LineOk(Init())
  {
  }

  lemma {:induction false} RunAgrees(size: int, steps: seq<Step>, path: int)
    requires AllSucceed(steps) && Distinct(Run(size, steps).submitted)
    ensures Agrees(Line(Run(size, steps)), Run(size, steps).submitted, path, Stale(size, steps, path))
    decreases |steps|
  {
    hide Advance, LineOk, Agrees, Line, Pending;
    if steps == [] {
      InitAgrees(path);
    } else {
      var init, a := steps[..|steps| - 1], steps[|steps| - 1];
      var s, done := Run(size, init), Completes(size, Run(size, init), a);
      RunLineOk(size, init);
      assert Succeeds(a);
      LineMoves(size, s, a);
      EarlierDistinct(s.submitted, Run(size, steps).submitted);
      RunAgrees(size, init, path);
      LineIs(s);
      if done != [] {
        NotPending(size, init, done[0]);
        assert done == [done[0]];
        SubmitAgrees(s.written, Pending(s), s.submitted, done[0], path, Stale(size, init, path), a.DirectWrite?);
      } else {
        assert s.written + done == s.written && Line(s) + done == Line(s) && s.submitted + done == s.submitted;
      }
    }
  }

  lemma InitAgrees(path: int)
    ensures Agrees(Line(Init()), Init().submitted, path, false)
  {
  }

  lemma LineIs(s: State)
    ensures Line(s) == s.written + Pending(s)
  {
  }

  lemma EarlierDistinct(s: seq<File>, t: seq<File>)
    requires s <= t && Distinct(t)
    ensures Distinct(s)
    ensures |t| == |s| + 1 ==> t[|s|] !in s
  {
  }

  lemma NotPending(size: int, steps: seq<Step>, f: File)
    requires f !in Run(size, steps).submitted
    ensures f !in Pending(Run(size, steps))
  {
    if f in Pending(Run(size, steps)) {
      LineSubmitted(size, steps, f);
    }
  }

  lemma SameMap(a: map<int, int>, b: map<int, int>)
    requires a.Keys == b.Keys
    ensures (forall p :: p in a && p in b ==> a[p] == b[p]) ==> a == b
  {
    if forall p :: p in a && p in b ==> a[p] == b[p] {
      assert forall p :: p in a <==> p in a.Keys;
      assert a == b;
    }
  }

  lemma DifferentAt(a: map<int, int>, b: map<int, int>) returns (path: int)
    requires a != b && a.Keys == b.Keys
    ensures path in a && path in b && a[path] != b[path]
  {
    SameMap(a, b);
    path :| path in a && path in b && a[path] != b[path];
  }

  /** When nothing is on its way, the store holds the last submitted version of every path exactly when no path's
      last submission was a direct write while an older file of that path was on its way. */
  lemma LastVersionsIff(size: int, steps: seq<Step>)
    requires AllSucceed(steps) && Distinct(Run(size, steps).submitted) && Pending(Run(size, steps)) == []
    ensures Stored(Run(size, steps).written) == Stored(Run(size, steps).submitted) <==>
            forall path :: !Stale(size, steps, path)
  {
    hide Run, Stale, Stored;
    var s := Run(size, steps);
    assert Line(s) == s.written;
    forall path
      ensures path in Stored(s.written) <==> path in Stored(s.submitted)
    {
      RunAgrees(size, steps, path);
    }
    assert Stored(s.written).Keys == Stored(s.submitted).Keys;
    if Stored(s.written) == Stored(s.submitted) {
      forall path
        ensures !Stale(size, steps, path)
      {
        RunAgrees(size, steps, path);
      }
    } else {
      var path := DifferentAt(Stored(s.written), Stored(s.submitted));
      RunAgrees(size, steps, path);
    }
  }

  /** A direct write overtakes the channel: the older version of a file, still queued, is written over the
      newer one. */
  lemma DirectWriteLosesUpdate()
    ensures var old1, other, new1 := File(1, 1), File(2, 1), File(1, 2);
            var s := Run(1, [Submit(old1), Submit(other), Submit(new1), DirectWrite(0, true), Receive, Gather,
              EndGather, Write(true)]);
            && s.submitted == [old1, other, new1] && s.lost == []
            && Stored(s.submitted)[1] == 2 && 1 in Stored(s.written) && Stored(s.written)[1] == 1
  {
    hide Run, Stored;
    var old1, other, new1 := File(1, 1), File(2, 1), File(1, 2);
    var steps := [Submit(old1), Submit(other), Submit(new1), DirectWrite(0, true), Receive, Gather, EndGather,
      Write(true)];
    var s := TwoQueued(steps, old1, other, new1);
    var t := s.(direct := [], submitted := [old1, other, new1], written := [new1]);
    RunStep(1, steps, 3, s, t);
    WriterTurn(steps, 4, t, old1, other);
    assert steps[..8] == steps && t.written + [old1, other] == [new1, old1, other];
    StoredOfThree(new1, old1, other);
    StoredOfThree(old1, other, new1);
  }

  /** The same submissions lose nothing if the writer is faster than the submitter that found the channel full. */
  lemma LateDirectWriteKeepsOrder()
    ensures var old1, other, new1 := File(1, 1), File(2, 1), File(1, 2);
            var s := Run(1, [Submit(old1), Submit(other), Submit(new1), Receive, Gather, EndGather, Write(true),
              DirectWrite(0, true)]);
            s.written == s.submitted == [old1, other, new1] && Stored(s.written)[1] == 2
  {
    hide Run, Stored;
    var old1, other, new1 := File(1, 1), File(2, 1), File(1, 2);
    var steps := [Submit(old1), Submit(other), Submit(new1), Receive, Gather, EndGather, Write(true),
      DirectWrite(0, true)];
    var s := TwoQueued(steps, old1, other, new1);
    WriterTurn(steps, 3, s, old1, other);
    var t := s.(ch := [], written := [old1, other]);
    RunStep(1, steps, 7, t, t.(direct := [], submitted := [old1, other, new1], written := [old1, other, new1]));
    StoredOfThree(old1, other, new1);
  }

  /** Two files are in the channel, which is full, and a third submitter is about to write its file. */
  lemma TwoQueued(steps: seq<Step>, a: File, b: File, c: File) returns (s: State)
    requires |steps| >= 3 && steps[0] == Submit(a) && steps[1] == Submit(b) && steps[2] == Submit(c)
    ensures s == Init().(ch := [a, b], direct := [c], submitted := [a, b]) && Run(1, steps[..3]) == s
  {
    hide Run;
    RunNone(1, steps);
    var s1 := Init().(ch := [a], submitted := [a]);
    RunStep(1, steps, 0, Init(), s1);
    var s2 := s1.(ch := [a, b], submitted := [a, b]);
    RunStep(1, steps, 1, s1, s2);
    s := s2.(direct := [c]);
    RunStep(1, steps, 2, s2, s);
  }

  /** The writer takes both files and writes them. */
  lemma WriterTurn(steps: seq<Step>, n: nat, s: State, a: File, b: File)
    requires n + 4 <= |steps| && Run(1, steps[..n]) == s
    requires steps[n] == Receive && steps[n + 1] == Gather && steps[n + 2] == EndGather && steps[n + 3] == Write(true)
    requires s.phase == Idle && s.ch == [a, b] && s.batch == []
    ensures Run(1, steps[..n + 4]) == s.(ch := [], written := s.written + [a, b])
  {
    hide Run;
    var s1 := s.(ch := [b], batch := [a], phase := Gathering(Full));
    RunStep(1, steps, n, s, s1);
    var s2 := s1.(ch := [], batch := [a, b]);
    RunStep(1, steps, n + 1, s1, s2);
    var s3 := s2.(phase := Writing(Full));
    RunStep(1, steps, n + 2, s2, s3);
    RunStep(1, steps, n + 3, s3, s3.(phase := Idle, batch := [], written := s.written + [a, b]));
  }

  lemma StoredOfThree(a: File, b: File, c: File)
    ensures Stored([a, b, c]) == map[a.path := a.version][b.path := b.version][c.path := c.version]
  {
    var log := [a, b, c];
    assert log[..2] == [a, b] && log[..2][..1] == [a] && [a][..0] == [];
    assert Stored(log[..2][..1]) == map[a.path := a.version];
    assert Stored(log[..2]) == map[a.path := a.version][b.path := b.version];
  }
}
