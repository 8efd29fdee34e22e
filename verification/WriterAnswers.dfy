/** What the answer to a flush request says. */
module WriterAnswers {
  import opened Collections
  import opened BatchWriter
  import opened WriterRequests
  import opened WriterOrder

  /** Step `k` of the run is the transaction of the flush request `id`. */
  ghost predicate Serves(size: int, steps: seq<Step>, k: int, id: int) {
    0 <= k < |steps| && steps[k].Write? && Run(size, steps[..k]).phase == Writing(Asked(id))
  }

  /** Step `k` of the run drops nothing. */
  predicate Clean(size: int, steps: seq<Step>, k: nat)
    requires k < |steps|
  {
    Dropped(size, Run(size, steps[..k]), steps[k]) == []
  }

  lemma ServedInStep(size: int, init: seq<Step>, a: Step, k: int, id: int)
    ensures k < |init| ==> (Serves(size, init + [a], k, id) <==> Serves(size, init, k, id))
    ensures 0 <= k < |init| ==> (Clean(size, init + [a], k) <==> Clean(size, init, k))
    ensures k == |init| ==> (Serves(size, init + [a], k, id) <==>
                               a.Write? && Run(size, init).phase == Writing(Asked(id)))
    ensures k == |init| ==> (Clean(size, init + [a], k) <==> Dropped(size, Run(size, init), a) == [])
  {
    hide Run, Dropped;
    if 0 <= k <= |init| {
      assert (init + [a])[..k] == init[..k];
    }
    assert init[..|init|] == init;
  }

  lemma StepAnswers(size: int, s: State, a: Step, id: int)
    requires RequestsOk(s)
    ensures var t := Advance(size, s, a);
            if a.Write? && s.phase == Writing(Asked(id))
            then id !in s.answered && id in t.answered && (t.answered[id] <==> Dropped(size, s, a) == [])
            else (id in t.answered <==> id in s.answered) && (id in s.answered ==> t.answered[id] == s.answered[id])
  {
    hide BatchSize;
    assert s.phase == Writing(Asked(id)) ==> Serving(s, id);
  }

  /** A flush request is answered by its own transaction and by nothing else, once, and with success exactly when
      that transaction drops nothing. */
  lemma {:induction false} AnsweredByOwnWrite(size: int, steps: seq<Step>, id: int)
    ensures id in Run(size, steps).answered <==> exists k :: Serves(size, steps, k, id)
    ensures forall k :: Serves(size, steps, k, id) ==> (Run(size, steps).answered[id] <==> Clean(size, steps, k))
    ensures forall j, k :: Serves(size, steps, j, id) && Serves(size, steps, k, id) ==> j == k
    decreases |steps|
  {
    hide Advance, Dropped, RequestsOk, Serves, Clean;
    if steps == [] {
      NeverServed(size, id);
    } else {
      var init, a := steps[..|steps| - 1], steps[|steps| - 1];
      var n := |init|;
      assert steps == init + [a];
      AnsweredByOwnWrite(size, init, id);
      RunRequests(size, init);
      StepAnswers(size, Run(size, init), a, id);
      forall k
        ensures k < n ==> (Serves(size, steps, k, id) <==> Serves(size, init, k, id))
        ensures k > n ==> !Serves(size, steps, k, id)
        ensures k >= n ==> !Serves(size, init, k, id)
        ensures 0 <= k < n ==> (Clean(size, steps, k) <==> Clean(size, init, k))
      {
        ServedInStep(size, init, a, k, id);
        ServesRange(size, steps, k, id);
        ServesRange(size, init, k, id);
      }
      ServedInStep(size, init, a, n, id);
      ServesFromZero(size, init, id);
    }
  }

  lemma NeverServed(size: int, id: int)
    ensures id !in Run(size, []).answered && forall k :: !Serves(size, [], k, id)
  {
  }

  lemma ServesRange(size: int, steps: seq<Step>, k: int, id: int)
    ensures Serves(size, steps, k, id) ==> 0 <= k < |steps|
  {
  }

  lemma ServesFromZero(size: int, steps: seq<Step>, id: int)
    ensures forall k :: Serves(size, steps, k, id) ==> 0 <= k < |steps|
  {
  }

  // ----- what a flush that reports success can have missed

  lemma LogsKept(size: int, s: State, a: Step, id: int)
    requires RequestsOk(s)
    ensures var t := Advance(size, s, a);
            && s.written <= t.written && s.lost <= t.lost && s.submitted <= t.submitted
            && (id in s.asked ==> id in t.asked && t.asked[id] == s.asked[id])
  {
    LogsGrow(size, s, a);
    StepDrops(size, s, a);
    AskedKept(size, s, a, id);
    hide Advance;
  }

  lemma AskedKept(size: int, s: State, a: Step, id: int)
    ensures id in s.asked ==> id in Advance(size, s, a).asked && Advance(size, s, a).asked[id] == s.asked[id]
  {
    hide BatchSize;
  }

  lemma {:induction false} PrefixKept(size: int, steps: seq<Step>, n: nat, id: int)
    requires n <= |steps|
    ensures var s, t := Run(size, steps[..n]), Run(size, steps);
            && s.written <= t.written && s.lost <= t.lost && s.submitted <= t.submitted
            && (id in s.asked ==> id in t.asked && t.asked[id] == s.asked[id])
    decreases |steps|
  {
    hide Advance, RequestsOk;
    if n == |steps| {
      assert steps[..n] == steps;
    } else {
      var init := steps[..|steps| - 1];
      assert init[..n] == steps[..n];
      PrefixKept(size, init, n, id);
      RunRequests(size, init);
      LogsKept(size, Run(size, init), steps[|steps| - 1], id);
    }
  }

  /** A flush that reports success misses a file submitted before it only if a step before its own transaction has
      dropped the file; for files submitted once, exactly then. */
  lemma SuccessMissesOnlyEarlierDrops(size: int, steps: seq<Step>, k: nat, id: int, f: File)
    requires Serves(size, steps, k, id)
    ensures var s := Run(size, steps);
            && id in s.answered && id in s.asked
            && (s.answered[id] && f in s.asked[id] ==>
                  && (f !in s.written ==> DroppedIn(size, steps[..k], f))
                  && (Distinct(s.submitted) ==> (f !in s.written <==> DroppedIn(size, steps[..k], f))))
  {
    hide Run, DroppedIn, Dropped, RequestsOk, Serves;
    ServesRange(size, steps, k, id);
    var s, t := Run(size, steps), Run(size, steps[..k + 1]);
    AnsweredByOwnWrite(size, steps, id);
    ServedByPrefix(size, steps, k, id);
    PrefixKept(size, steps, k + 1, id);
    FlushIsCoherent(size, steps[..k + 1], id, f);
    if s.answered[id] && f in s.asked[id] {
      assert CountIn(t.asked[id], f) > 0;
      SettledIn(t, f);
      assert steps[..k + 1] == steps[..k] + [steps[k]];
      DroppedInStep(size, steps[..k], steps[k], f);
      FileLostIffFailed(size, steps[..k + 1], f);
      if Distinct(s.submitted) {
        InOnePlace(size, steps, f);
      }
    }
  }

  lemma SettledIn(s: State, f: File)
    requires Settled(s, f) > 0
    ensures f in s.written || f in s.lost
  {
  }

  lemma ServedByPrefix(size: int, steps: seq<Step>, k: nat, id: int)
    requires Serves(size, steps, k, id)
    ensures id in Run(size, steps[..k + 1]).answered
  {
    hide Run;
    assert steps[..k + 1][..k] == steps[..k];
    assert Serves(size, steps[..k + 1], k, id);
    AnsweredByOwnWrite(size, steps[..k + 1], id);
  }

  // ----- what the records of a run hold

  /** How many calls of Submit with this file a run has. */
  function Submits(steps: seq<Step>, f: File): nat {
    if steps == [] then 0
    else Submits(steps[..|steps| - 1], f) + if steps[|steps| - 1] == Submit(f) then 1 else 0
  }

  lemma SubmitCounts(size: int, s: State, x: File, f: File)
    ensures var t := Advance(size, s, Submit(x));
            CountIn(t.direct, f) + CountIn(t.submitted, f) ==
              CountIn(s.direct, f) + CountIn(s.submitted, f) + if x == f then 1 else 0
  {
    CountCat(s.submitted, [x], f);
    CountCat(s.direct, [x], f);
    hide BatchSize;
  }

  lemma DirectCounts(size: int, s: State, k: nat, ok: bool, f: File)
    ensures var t := Advance(size, s, DirectWrite(k, ok));
            CountIn(t.direct, f) + CountIn(t.submitted, f) == CountIn(s.direct, f) + CountIn(s.submitted, f)
  {
    hide CountIn;
    if k < |s.direct| {
      var x := s.direct[k];
      assert s.direct == s.direct[..k] + ([x] + s.direct[k + 1..]);
      CountCat(s.direct[..k], [x] + s.direct[k + 1..], f);
      CountCat([x], s.direct[k + 1..], f);
      CountCat(s.direct[..k], s.direct[k + 1..], f);
      CountCat(s.submitted, [x], f);
    }
  }

  lemma OthersCount(size: int, s: State, a: Step)
    requires !a.Submit? && !a.DirectWrite?
    ensures Advance(size, s, a).direct == s.direct && Advance(size, s, a).submitted == s.submitted
  {
    hide BatchSize;
  }

  /** Every call of Submit is complete or about to write its file itself, and only complete calls are recorded. */
  lemma {:induction false} SubmitsAreRecorded(size: int, steps: seq<Step>, f: File)
    ensures Submits(steps, f) == CountIn(Run(size, steps).direct, f) + CountIn(Run(size, steps).submitted, f)
    decreases |steps|
  {
    hide CountIn, Advance;
    if steps == [] {
      CountNone(f);
    } else {
      var init, a := steps[..|steps| - 1], steps[|steps| - 1];
      SubmitsAreRecorded(size, init, f);
      match a
      case Submit(x) => SubmitCounts(size, Run(size, init), x, f);
      case DirectWrite(k, ok) => DirectCounts(size, Run(size, init), k, ok, f);
      case _ => OthersCount(size, Run(size, init), a);
    }
  }

  lemma AskStep(size: int, s: State, id: int)
    requires Enabled(size, s, AskFlush(id))
    ensures id in Advance(size, s, AskFlush(id)).asked && Advance(size, s, AskFlush(id)).asked[id] == s.submitted
  {
  }

  /** What is recorded for a flush request is what had been submitted when it was issued. */
  lemma AskedIsSubmitted(size: int, steps: seq<Step>, k: nat, id: int)
    requires k < |steps| && steps[k] == AskFlush(id) && Enabled(size, Run(size, steps[..k]), AskFlush(id))
    ensures id in Run(size, steps).asked && Run(size, steps).asked[id] == Run(size, steps[..k]).submitted
  {
    hide Run, Advance, Enabled;
    assert steps[..k + 1] == steps[..k] + [AskFlush(id)];
    RunOneMore(size, steps[..k], AskFlush(id));
    AskStep(size, Run(size, steps[..k]), id);
    PrefixKept(size, steps, k + 1, id);
  }

  lemma {:induction false} SeenKept(size: int, steps: seq<Step>, n: nat)
    requires n <= |steps| && Done(Run(size, steps[..n]))
    ensures Done(Run(size, steps)) && Run(size, steps).closeSeen == Run(size, steps[..n]).closeSeen
    decreases |steps|
  {
    if n == |steps| {
      assert steps[..n] == steps;
    } else {
      assert steps[..|steps| - 1][..n] == steps[..n];
      SeenKept(size, steps[..|steps| - 1], n);
    }
  }

  /** What is recorded for Close is what had been submitted when it was called. */
  lemma SeenIsSubmitted(size: int, steps: seq<Step>, k: nat)
    requires k < |steps| && steps[k] == CloseCall && !Done(Run(size, steps[..k]))
    ensures Done(Run(size, steps)) && Run(size, steps).closeSeen == Run(size, steps[..k]).submitted
  {
    assert steps[..k + 1] == steps[..k] + [CloseCall];
    RunOneMore(size, steps[..k], CloseCall);
    SeenKept(size, steps, k + 1);
  }

  // ----- the sizes of channel and batch

  /** The channel holds at most twice the batch size; the writer waits for more only while its batch is not full,
      and writes because of a full batch only when it is. */
  predicate BatchBound(size: int, s: State) {
    && |s.ch| <= 2 * BatchSize(size)
    && (s.phase.Idle? ==> |s.batch| < BatchSize(size))
    && ((s.phase.Gathering? || s.phase.Writing?) && s.phase.reason.Full? ==> |s.batch| >= BatchSize(size))
  }

  lemma StepBound(size: int, s: State, a: Step)
    requires BatchBound(size, s)
    ensures BatchBound(size, Advance(size, s, a))
  {
    var n := BatchSize(size);
    hide BatchSize;
  }

  lemma {:induction false} RunBound(size: int, steps: seq<Step>)
    ensures BatchBound(size, Run(size, steps))
    decreases |steps|
  {
    hide Advance;
    if steps != [] {
      RunBound(size, steps[..|steps| - 1]);
      StepBound(size, Run(size, steps[..|steps| - 1]), steps[|steps| - 1]);
    }
  }
}
