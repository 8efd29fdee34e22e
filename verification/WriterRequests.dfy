/** The flush requests of the batch writer: where they are, and when one is never answered. */
module WriterRequests {
  import opened BatchWriter

  /** The writer has the flush request in hand. */
  predicate Serving(s: State, id: int) {
    (s.phase.Gathering? || s.phase.Writing?) && s.phase.reason == Asked(id)
  }

  /** Each request is in the channel, in hand, or answered, and in only one of these places. */
  ghost predicate RequestsOk(s: State) {
    && |s.flushes| <= 1
    && (forall id :: id in s.flushes ==> id in s.asked && id !in s.answered && !Serving(s, id))
    && (forall id :: Serving(s, id) ==> id in s.asked && id !in s.answered)
    && (forall id :: id in s.asked ==> id in s.flushes || Serving(s, id) || id in s.answered)
    && (forall id :: id in s.answered ==> id in s.asked)
  }

  lemma StepRequests(size: int, s: State, a: Step)
    requires RequestsOk(s)
    ensures RequestsOk(Advance(size, s, a))
  {
    hide Advance, RequestsOk;
    match a
    case AskFlush(id) => AskRequests(size, s, id);
    case TakeFlush => TakeRequests(size, s);
    case Write(ok) => WriteRequests(size, s, ok);
    case _ =>
      MoveRequests(size, s, a);
      SameRequests(s, Advance(size, s, a));
  }

  lemma AskRequests(size: int, s: State, id: int)
    requires RequestsOk(s)
    ensures RequestsOk(Advance(size, s, AskFlush(id)))
  {
  }

  lemma TakeRequests(size: int, s: State)
    requires RequestsOk(s)
    ensures RequestsOk(Advance(size, s, TakeFlush))
  {
  }

  lemma WriteRequests(size: int, s: State, ok: bool)
    requires RequestsOk(s)
    ensures RequestsOk(Advance(size, s, Write(ok)))
  {
  }

  /** The other steps leave the requests where they are. */
  lemma MoveRequests(size: int, s: State, a: Step)
    requires !a.AskFlush? && !a.TakeFlush? && !a.Write?
    ensures var t := Advance(size, s, a);
            && t.flushes == s.flushes && t.asked == s.asked && t.answered == s.answered
            && forall id :: Serving(t, id) <==> Serving(s, id)
  {
  }

  lemma SameRequests(s: State, t: State)
    requires RequestsOk(s) && t.flushes == s.flushes && t.asked == s.asked && t.answered == s.answered
    requires forall id :: Serving(t, id) <==> Serving(s, id)
    ensures RequestsOk(t)
  {
    hide Serving;
  }

  lemma {:induction false} RunRequests(size: int, steps: seq<Step>)
    ensures RequestsOk(Run(size, steps))
    decreases |steps|
  {
    hide Advance;
    if steps != [] {
      RunRequests(size, steps[..|steps| - 1]);
      StepRequests(size, Run(size, steps[..|steps| - 1]), steps[|steps| - 1]);
    }
  }

  /** Once the writer goroutine has returned, the flush requests without an answer are exactly those still in
      the channel. */
  lemma UnansweredIffQueued(size: int, steps: seq<Step>, id: int)
    requires Run(size, steps).phase.Exited? && id in Run(size, steps).asked
    ensures id !in Run(size, steps).answered <==> id in Run(size, steps).flushes
    ensures Stranded(Run(size, steps), id) <==> id in Run(size, steps).flushes
  {
    RunRequests(size, steps);
  }

  /** The writer has returned with the request still in the channel. */
  ghost predicate Stranded(s: State, id: int) {
    s.phase.Exited? && id in s.flushes && id !in s.answered
  }

  /** A flush request still queued when the writer goroutine returns is never answered. */
  lemma {:induction false} StrandedForever(size: int, before: seq<Step>, after: seq<Step>, id: int)
    requires Stranded(Run(size, before), id)
    ensures Stranded(Run(size, before + after), id)
    decreases |after|
  {
    if after == [] {
      assert before + after == before;
    } else {
      var init := after[..|after| - 1];
      StrandedForever(size, before, init, id);
      assert (before + after)[..|before + after| - 1] == before + init;
    }
  }

  /** It can happen: the flush is requested, then Close is called, and the writer sees `done` first. */
  lemma FlushCanBeStranded()
    ensures Stranded(Run(1, [AskFlush(1), CloseCall, SeeDone, EndGather, Write(true)]), 1)
  {
    hide Run;
    var steps := [AskFlush(1), CloseCall, SeeDone, EndGather, Write(true)];
    RunNone(1, steps);
    var s1 := Init().(flushes := [1], asked := map[1 := []]);
    RunStep(1, steps, 0, Init(), s1);
    var s2 := s1.(closing := Signalled);
    RunStep(1, steps, 1, s1, s2);
    WriterLeaves(steps, s2);
  }

  /** It can also happen to a flush that is requested after Close was called. */
  lemma LateFlushCanBeStranded()
    ensures Stranded(Run(1, [CloseCall, AskFlush(1), SeeDone, EndGather, Write(true)]), 1)
  {
    hide Run;
    var steps := [CloseCall, AskFlush(1), SeeDone, EndGather, Write(true)];
    RunNone(1, steps);
    var s1 := Init().(closing := Signalled);
    RunStep(1, steps, 0, Init(), s1);
    var s2 := s1.(flushes := [1], asked := map[1 := []]);
    RunStep(1, steps, 1, s1, s2);
    WriterLeaves(steps, s2);
  }

  lemma WriterLeaves(steps: seq<Step>, s2: State)
    requires |steps| == 5 && steps[2] == SeeDone && steps[3] == EndGather && steps[4] == Write(true)
    requires Run(1, steps[..2]) == s2 && s2.phase == Idle && s2.closing == Signalled && s2.ch == [] && s2.batch == []
    ensures Run(1, steps) == s2.(phase := Exited)
  {
    hide Run;
    RunStep(1, steps, 2, s2, s2.(phase := Leaving));
    RunStep(1, steps, 3, s2.(phase := Leaving), s2.(phase := LastWrite));
    RunStep(1, steps, 4, s2.(phase := LastWrite), s2.(phase := Exited));
  }

  // ----- exactly when a request can be left without an answer

  /** The writer goroutine is on its way out only if Close has been called. */
  lemma {:induction false} LeavingMeansDone(size: int, steps: seq<Step>)
    ensures var s := Run(size, steps);
            s.phase.Leaving? || s.phase.LastWrite? || s.phase.Exited? ==> Done(s)
    decreases |steps|
  {
    if steps != [] {
      LeavingMeansDone(size, steps[..|steps| - 1]);
    }
  }

  /** As long as Close has not been called no request is stranded. */
  lemma SafeBeforeClose(size: int, steps: seq<Step>, id: int)
    requires !Done(Run(size, steps))
    ensures !Stranded(Run(size, steps), id)
  {
    LeavingMeansDone(size, steps);
  }

  /** A request that has left the flush channel is never stranded, whatever comes after. */
  lemma {:induction false} TakenIsSafe(size: int, before: seq<Step>, after: seq<Step>, id: int)
    requires id in Run(size, before).asked && id !in Run(size, before).flushes
    ensures id in Run(size, before + after).asked && id !in Run(size, before + after).flushes
    ensures !Stranded(Run(size, before + after), id)
    decreases |after|
  {
    hide Advance, Run;
    if after == [] {
      assert before + after == before;
    } else {
      var init, a := after[..|after| - 1], after[|after| - 1];
      TakenIsSafe(size, before, init, id);
      TakenStaysTaken(size, Run(size, before + init), a, id);
      RunOneMore(size, before + init, a);
      assert before + init + [a] == before + after;
    }
  }

  lemma TakenStaysTaken(size: int, s: State, a: Step, id: int)
    requires id in s.asked && id !in s.flushes
    ensures id in Advance(size, s, a).asked && id !in Advance(size, s, a).flushes
  {
  }

  /** A request is safe for good if Close has not been called before it leaves the flush channel. */
  lemma SafeIfTakenBeforeClose(size: int, steps: seq<Step>, n: nat, id: int)
    requires n <= |steps| && !Done(Run(size, steps[..n]))
    requires id in Run(size, steps[..n]).asked && id !in Run(size, steps[..n]).flushes
    ensures forall k :: 0 <= k <= |steps| ==> !Stranded(Run(size, steps[..k]), id)
  {
    hide Run, Stranded;
    forall k | 0 <= k <= |steps|
      ensures !Stranded(Run(size, steps[..k]), id)
    {
      if k <= n {
        OpenBefore(size, steps, k, n);
        SafeBeforeClose(size, steps[..k], id);
      } else {
        assert steps[..n] + steps[n..k] == steps[..k];
        TakenIsSafe(size, steps[..n], steps[n..k], id);
      }
    }
  }

  lemma {:induction false} OpenBefore(size: int, steps: seq<Step>, k: nat, n: nat)
    requires k <= n <= |steps| && !Done(Run(size, steps[..n]))
    ensures !Done(Run(size, steps[..k]))
    decreases n - k
  {
    hide Run, Done, Advance;
    if k < n {
      assert steps[..n] == steps[..n - 1] + [steps[n - 1]];
      RunOneMore(size, steps[..n - 1], steps[n - 1]);
      DoneStays(size, Run(size, steps[..n - 1]), steps[n - 1]);
      OpenBefore(size, steps, k, n - 1);
    }
  }

  lemma DoneStays(size: int, s: State, a: Step)
    ensures Done(s) ==> Done(Advance(size, s, a))
  {
  }

  /** A step without a call: the writer goroutine and a call of Close in progress go on by themselves. */
  predicate NoCall(a: Step) {
    !a.Submit? && !a.AskFlush? && !a.CloseCall?
  }

  predicate NoCalls(steps: seq<Step>) {
    forall i :: 0 <= i < |steps| ==> NoCall(steps[i])
  }

  /** A step of the writer goroutine on its way out. */
  predicate WayOut(a: Step) {
    a.SeeDone? || a.Gather? || a.EndGather? || a.Write?
  }

  lemma RunOneMore(size: int, steps: seq<Step>, a: Step)
    ensures Run(size, steps + [a]) == Advance(size, Run(size, steps), a)
  {
    assert (steps + [a])[..|steps + [a]| - 1] == steps;
  }

  function PhaseRank(phase: Phase): nat {
    match phase
    case Gathering(_) => 5
    case Writing(_) => 4
    case Idle => 3
    case Leaving => 2
    case LastWrite => 1
    case Exited => 0
  }

  /** The step with which the writer goroutine comes closer to its end. */
  function NextOut(s: State): Step {
    match s.phase
    case Gathering(_) => if s.ch == [] then EndGather else Gather
    case Writing(_) => Write(true)
    case Idle => SeeDone
    case Leaving => if s.ch == [] then EndGather else Gather
    case LastWrite => Write(true)
    case Exited => SeeDone
  }

  lemma NextOutAdvances(size: int, s: State)
    requires Done(s) && !s.phase.Exited?
    ensures var t := Advance(size, s, NextOut(s));
            && WayOut(NextOut(s)) && Done(t) && t.flushes == s.flushes
            && (PhaseRank(t.phase) < PhaseRank(s.phase) || (t.phase == s.phase && |t.ch| < |s.ch|))
  {
  }

  /** Once Close has been called, the writer goroutine may leave without looking at the flush channel again: a
      request in it is then stranded. */
  lemma {:induction false} LeavesRequest(size: int, steps: seq<Step>, id: int) returns (after: seq<Step>)
    requires Done(Run(size, steps)) && id in Run(size, steps).flushes
    ensures forall i :: 0 <= i < |after| ==> WayOut(after[i])
    ensures Stranded(Run(size, steps + after), id)
    decreases PhaseRank(Run(size, steps).phase), |Run(size, steps).ch|
  {
    hide Run, Advance, RequestsOk;
    var s := Run(size, steps);
    if s.phase.Exited? {
      InChannelUnanswered(size, steps, id);
      after := [];
      assert steps + after == steps;
    } else {
      var a := NextOut(s);
      NextOutAdvances(size, s);
      RunOneMore(size, steps, a);
      var rest := LeavesRequest(size, steps + [a], id);
      after := [a] + rest;
      assert steps + after == steps + [a] + rest;
    }
  }

  lemma InChannelUnanswered(size: int, steps: seq<Step>, id: int)
    requires id in Run(size, steps).flushes
    ensures id !in Run(size, steps).answered
  {
    RunRequests(size, steps);
  }

  lemma {:induction false} StaysOpen(size: int, steps: seq<Step>, after: seq<Step>)
    requires !Done(Run(size, steps)) && NoCalls(after)
    ensures !Done(Run(size, steps + after))
    decreases |after|
  {
    if after == [] {
      assert steps + after == steps;
    } else {
      var init, a := after[..|after| - 1], after[|after| - 1];
      StaysOpen(size, steps, init);
      LeavingMeansDone(size, steps + init);
      RunOneMore(size, steps + init, a);
      assert NoCall(a);
      assert steps + init + [a] == steps + after;
    }
  }

  /** A request in the flush channel can be stranded without any further call exactly when Close has been
      called. */
  lemma StrandableIffClosed(size: int, steps: seq<Step>, id: int)
    requires id in Run(size, steps).flushes
    ensures (exists after :: NoCalls(after) && Stranded(Run(size, steps + after), id)) <==> Done(Run(size, steps))
  {
    hide Run;
    if Done(Run(size, steps)) {
      var after := LeavesRequest(size, steps, id);
      assert NoCalls(after);
    } else {
      forall after | NoCalls(after)
        ensures !Stranded(Run(size, steps + after), id)
      {
        StaysOpen(size, steps, after);
        SafeBeforeClose(size, steps + after, id);
      }
    }
  }

  /** What the caller of Flush can check: a request that finds its way into the channel can be stranded without
      any further call exactly when Close was called before Flush. */
  lemma FlushStrandableIffClosed(size: int, steps: seq<Step>, id: int)
    requires Enabled(size, Run(size, steps), AskFlush(id))
    ensures (exists after :: NoCalls(after) && Stranded(Run(size, steps + [AskFlush(id)] + after), id)) <==>
            Done(Run(size, steps))
  {
    RunOneMore(size, steps, AskFlush(id));
    assert Done(Run(size, steps + [AskFlush(id)])) <==> Done(Run(size, steps));
    assert id in Run(size, steps + [AskFlush(id)]).flushes;
    hide Run, Stranded;
    StrandableIffClosed(size, steps + [AskFlush(id)], id);
  }

  // ----- a request can be answered as long as the writer goroutine is not on its way out

  function NextAnswer(s: State, id: int): Step {
    match s.phase
    case Gathering(_) => if s.ch == [] then EndGather else Gather
    case Writing(_) => Write(true)
    case _ => TakeFlush
  }

  function AnswerRank(s: State, id: int): nat {
    PhaseRank(s.phase) + if id in s.flushes then 3 else 0
  }

  lemma NextAnswerAdvances(size: int, s: State, id: int)
    requires RequestsOk(s) && (id in s.flushes || Serving(s, id))
    requires s.phase.Idle? || s.phase.Gathering? || s.phase.Writing?
    ensures var t := Advance(size, s, NextAnswer(s, id));
            && (t.phase.Idle? || t.phase.Gathering? || t.phase.Writing?)
            && (id in t.answered || ((id in t.flushes || Serving(t, id)) &&
                 (AnswerRank(t, id) < AnswerRank(s, id) ||
                   (AnswerRank(t, id) == AnswerRank(s, id) && |t.ch| < |s.ch|))))
  {
  }

  /** A request in the channel, or in hand, can be answered by the writer goroutine alone. */
  lemma {:induction false} CanBeAnswered(size: int, steps: seq<Step>, id: int) returns (after: seq<Step>)
    requires id in Run(size, steps).flushes || Serving(Run(size, steps), id)
    requires var phase := Run(size, steps).phase; phase.Idle? || phase.Gathering? || phase.Writing?
    ensures NoCalls(after) && id in Run(size, steps + after).answered
    decreases AnswerRank(Run(size, steps), id), |Run(size, steps).ch|
  {
    hide Run, Advance, RequestsOk;
    var s := Run(size, steps);
    var a := NextAnswer(s, id);
    RunRequests(size, steps);
    NextAnswerAdvances(size, s, id);
    RunOneMore(size, steps, a);
    if id in Run(size, steps + [a]).answered {
      after := [a];
    } else {
      var rest := CanBeAnswered(size, steps + [a], id);
      after := [a] + rest;
      assert steps + after == steps + [a] + rest;
    }
  }

  predicate OnWayOut(s: State) {
    s.phase.Leaving? || s.phase.LastWrite? || s.phase.Exited?
  }

  /** On its way out the writer goroutine takes no request any more, whatever is called. */
  lemma {:induction false} WayOutTakesNone(size: int, steps: seq<Step>, after: seq<Step>, id: int)
    requires OnWayOut(Run(size, steps)) && id in Run(size, steps).flushes
    ensures OnWayOut(Run(size, steps + after)) && id in Run(size, steps + after).flushes
    decreases |after|
  {
    if after == [] {
      assert steps + after == steps;
    } else {
      var init, a := after[..|after| - 1], after[|after| - 1];
      WayOutTakesNone(size, steps, init, id);
      RunOneMore(size, steps + init, a);
      assert steps + init + [a] == steps + after;
    }
  }

  /** A request in the flush channel can still be answered exactly when the writer goroutine is not on its way
      out. */
  lemma AnswerableIff(size: int, steps: seq<Step>, id: int)
    requires id in Run(size, steps).flushes
    ensures (exists after :: NoCalls(after) && id in Run(size, steps + after).answered) <==> !OnWayOut(Run(size, steps))
  {
    hide Run;
    if OnWayOut(Run(size, steps)) {
      forall after | NoCalls(after)
        ensures id !in Run(size, steps + after).answered
      {
        WayOutTakesNone(size, steps, after, id);
        InChannelUnanswered(size, steps + after, id);
      }
    } else {
      var after := CanBeAnswered(size, steps, id);
      assert NoCalls(after);
    }
  }
}
