/** The single-writer goroutine of the symbol store, its submitters, and the callers of Flush and Close, as a
    step system. */
module BatchWriter {
  import opened Collections

  datatype File = File(path: int, version: int)

  const DEFAULT_BATCH_SIZE: nat := 50

  /** A configured size that is not positive stands for the default. */
  function BatchSize(configured: int): (n: nat)
    ensures n >= 1
  {
    if configured <= 0 then DEFAULT_BATCH_SIZE else configured
  }

  /** Why the writer is writing its batch. */
  datatype Reason = Full | Ticker | Asked(id: int)

  /** Where the writer goroutine is. */
  datatype Phase = Idle | Gathering(reason: Reason) | Writing(reason: Reason) | Leaving | LastWrite | Exited

  /** Where the call of Close is. `SweptUp` has seen the channel empty and is about to write what it took. */
  datatype Closing = Open | Signalled | Sweeping | SweptUp | Closed

  /** `direct` holds the files whose submitters have found the channel full and are about to write them themselves.
      `submitted` lists the files whose submission is complete: they are in the channel, or their own transaction is
      over. `written` and `lost` list the files in the order in which they were written or dropped; `asked` records,
      for each flush request in the channel or taken from it, what had been submitted when it was issued. */
  datatype State = State(ch: seq<File>, direct: seq<File>, batch: seq<File>, flushes: seq<int>,
    phase: Phase, closing: Closing, swept: seq<File>, submitted: seq<File>, written: seq<File>,
    lost: seq<File>, asked: map<int, seq<File>>, answered: map<int, bool>, closeSeen: seq<File>)

  function Init(): State {
    State([], [], [], [], Idle, Open, [], [], [], [], map[], map[], [])
  }

  /** One step. The booleans say which transactions succeed. Runs are given the configured batch size. */
  datatype Step =
    | Submit(file: File)
    | DirectWrite(k: nat, ok: bool)
    | AskFlush(id: int)
    | Receive
    | TakeFlush
    | Tick
    | SeeDone
    | Gather
    | EndGather
    | Write(ok: bool)
    | CloseCall
    | Sweep
    | SeeEmpty
    | EndSweep(ok: bool)

  predicate Done(s: State) {
    !s.closing.Open?
  }

  predicate Enabled(size: int, s: State, a: Step) {
    match a
    case Submit(_) => true
    case DirectWrite(k, _) => k < |s.direct|
    case AskFlush(id) => s.flushes == [] && id !in s.asked
    case Receive => s.phase.Idle? && s.ch != []
    case TakeFlush => s.phase.Idle? && s.flushes != []
    case Tick => s.phase.Idle?
    case SeeDone => s.phase.Idle? && Done(s)
    case Gather => (s.phase.Gathering? || s.phase.Leaving?) && s.ch != []
    case EndGather => (s.phase.Gathering? || s.phase.Leaving?) && s.ch == []
    case Write(_) => s.phase.Writing? || s.phase.LastWrite?
    case CloseCall => s.closing.Open?
    case Sweep => (s.closing.Signalled? || s.closing.Sweeping?) && s.phase.Exited? && s.ch != []
    case SeeEmpty => (s.closing.Signalled? || s.closing.Sweeping?) && s.phase.Exited? && s.ch == []
    case EndSweep(_) => s.closing.SweptUp?
  }

  function Next(size: int, s: State, a: Step): State
    requires Enabled(size, s, a)
  {
    match a
    case Submit(f) =>
      if |s.ch| < 2 * BatchSize(size) then s.(ch := s.ch + [f], submitted := s.submitted + [f])
      else s.(direct := s.direct + [f])
    case DirectWrite(k, ok) =>
      var f := s.direct[k];
      var t := s.(direct := s.direct[..k] + s.direct[k + 1..], submitted := s.submitted + [f]);
      if ok then t.(written := s.written + [f]) else t.(lost := s.lost + [f])
    case AskFlush(id) => s.(flushes := [id], asked := s.asked[id := s.submitted])
    case Receive =>
      var batch := s.batch + [s.ch[0]];
      s.(ch := s.ch[1..], batch := batch, phase := if |batch| >= BatchSize(size) then Gathering(Full) else Idle)
    case TakeFlush => s.(flushes := s.flushes[1..], phase := Gathering(Asked(s.flushes[0])))
    case Tick => s.(phase := Gathering(Ticker))
    case SeeDone => s.(phase := Leaving)
    case Gather => s.(ch := s.ch[1..], batch := s.batch + [s.ch[0]])
    case EndGather => s.(phase := if s.phase.Leaving? then LastWrite else Writing(s.phase.reason))
    case Write(ok) =>
      var t := if ok then s.(written := s.written + s.batch, batch := [])
        else s.(lost := s.lost + s.batch, batch := []);
      var result := ok || s.batch == [];
      if s.phase.LastWrite? then t.(phase := Exited)
      else if s.phase.reason.Asked? then t.(phase := Idle, answered := s.answered[s.phase.reason.id := result])
      else t.(phase := Idle)
    case CloseCall => s.(closing := Signalled, closeSeen := s.submitted)
    case Sweep => s.(closing := Sweeping, ch := s.ch[1..], swept := s.swept + [s.ch[0]])
    case SeeEmpty => s.(closing := SweptUp)
    case EndSweep(ok) =>
      if ok then s.(closing := Closed, written := s.written + s.swept, swept := [])
      else s.(closing := Closed, lost := s.lost + s.swept, swept := [])
  }

  /** A step that is not possible changes nothing. */
  function Advance(size: int, s: State, a: Step): State {
    if Enabled(size, s, a) then Next(size, s, a) else s
  }

  function Run(size: int, steps: seq<Step>): State {
    if steps == [] then Init() else Advance(size, Run(size, steps[..|steps| - 1]), steps[|steps| - 1])
  }

  // ----- conservation

  function CountIn(q: seq<File>, f: File): nat {
    multiset(q)[f]
  }

  lemma CountCat(a: seq<File>, b: seq<File>, f: File)
    ensures CountIn(a + b, f) == CountIn(a, f) + CountIn(b, f)
  {
    assert multiset(a + b) == multiset(a) + multiset(b);
  }

  lemma CountHead(q: seq<File>, f: File)
    requires q != []
    ensures CountIn(q, f) == CountIn([q[0]], f) + CountIn(q[1..], f)
  {
    assert q == [q[0]] + q[1..];
    CountCat([q[0]], q[1..], f);
  }

  lemma CountNone(f: File)
    ensures CountIn([], f) == 0
  {
  }

  /** Every submitted file is in the channel, in the batch, in the hands of Close, written or lost. */
  predicate Balanced(s: State, f: File) {
    CountIn(s.submitted, f) ==
      CountIn(s.ch, f) + CountIn(s.batch, f) + CountIn(s.swept, f) + CountIn(s.written, f) + CountIn(s.lost, f)
  }

  /** How often `f` has left the writer's hands. */
  function Settled(s: State, f: File): nat {
    CountIn(s.written, f) + CountIn(s.lost, f)
  }

  /** What the requests in progress have already secured, for one file. */
  predicate Coherent(s: State, f: File) {
    && (forall id :: id in s.asked ==> CountIn(s.asked[id], f) <= CountIn(s.submitted, f))
    && (forall id :: id in s.answered ==> id in s.asked && CountIn(s.asked[id], f) <= Settled(s, f))
    && (forall i :: 0 <= i < |s.flushes| ==> s.flushes[i] in s.asked)
    && ((s.phase.Gathering? || s.phase.Writing?) && s.phase.reason.Asked? ==> s.phase.reason.id in s.asked)
    && (s.phase.Writing? && s.phase.reason.Asked? && s.phase.reason.id in s.asked ==>
          CountIn(s.asked[s.phase.reason.id], f) <= CountIn(s.batch, f) + Settled(s, f))
    && (s.phase.Exited? ==> s.batch == [])
    && (!s.phase.Exited? ==> s.swept == [])
    && (s.closing.Sweeping? || s.closing.SweptUp? || s.closing.Closed? ==> s.phase.Exited?)
    && CountIn(s.closeSeen, f) <= CountIn(s.submitted, f)
    && (s.closing.SweptUp? ==> CountIn(s.closeSeen, f) <= Settled(s, f) + CountIn(s.swept, f))
    && (s.closing.Closed? ==> CountIn(s.closeSeen, f) <= Settled(s, f) && s.swept == [])
  }

  lemma SubmitKeeps(size: int, s: State, x: File, f: File)
    requires Balanced(s, f) && Coherent(s, f)
    ensures Balanced(Next(size, s, Submit(x)), f) && Coherent(Next(size, s, Submit(x)), f)
  {
    hide CountIn;
    CountCat(s.submitted, [x], f);
    CountCat(s.ch, [x], f);
  }

  lemma DirectKeeps(size: int, s: State, k: nat, ok: bool, f: File)
    requires Enabled(size, s, DirectWrite(k, ok)) && Balanced(s, f) && Coherent(s, f)
    ensures Balanced(Next(size, s, DirectWrite(k, ok)), f) && Coherent(Next(size, s, DirectWrite(k, ok)), f)
  {
    hide CountIn;
    CountCat(s.submitted, [s.direct[k]], f);
    CountCat(s.written, [s.direct[k]], f);
    CountCat(s.lost, [s.direct[k]], f);
  }

  lemma ReceiveKeeps(size: int, s: State, f: File)
    requires Enabled(size, s, Receive) && Balanced(s, f) && Coherent(s, f)
    ensures Balanced(Next(size, s, Receive), f) && Coherent(Next(size, s, Receive), f)
  {
    hide CountIn, BatchSize;
    CountHead(s.ch, f);
    CountCat(s.batch, [s.ch[0]], f);
  }

  lemma GatherKeeps(size: int, s: State, f: File)
    requires Enabled(size, s, Gather) && Balanced(s, f) && Coherent(s, f)
    ensures Balanced(Next(size, s, Gather), f) && Coherent(Next(size, s, Gather), f)
  {
    hide CountIn;
    CountHead(s.ch, f);
    CountCat(s.batch, [s.ch[0]], f);
  }

  lemma SweepKeeps(size: int, s: State, f: File)
    requires Enabled(size, s, Sweep) && Balanced(s, f) && Coherent(s, f)
    ensures Balanced(Next(size, s, Sweep), f) && Coherent(Next(size, s, Sweep), f)
  {
    CountHead(s.ch, f);
    CountCat(s.swept, [s.ch[0]], f);
    hide CountIn;
  }

  lemma WriteKeeps(size: int, s: State, ok: bool, f: File)
    requires Enabled(size, s, Write(ok)) && Balanced(s, f) && Coherent(s, f)
    ensures Balanced(Next(size, s, Write(ok)), f) && Coherent(Next(size, s, Write(ok)), f)
  {
    CountCat(s.written, s.batch, f);
    CountCat(s.lost, s.batch, f);
    CountNone(f);
    hide CountIn;
  }

  lemma SweepEndKeeps(size: int, s: State, ok: bool, f: File)
    requires Enabled(size, s, EndSweep(ok)) && Balanced(s, f) && Coherent(s, f)
    ensures Balanced(Next(size, s, EndSweep(ok)), f) && Coherent(Next(size, s, EndSweep(ok)), f)
  {
    CountCat(s.written, s.swept, f);
    CountCat(s.lost, s.swept, f);
    CountNone(f);
    hide CountIn;
  }

  lemma OtherKeeps(size: int, s: State, a: Step, f: File)
    requires Enabled(size, s, a)
    requires a.AskFlush? || a.TakeFlush? || a.Tick? || a.SeeDone? || a.EndGather? || a.CloseCall? || a.SeeEmpty?
    requires Balanced(s, f) && Coherent(s, f)
    ensures Balanced(Next(size, s, a), f) && Coherent(Next(size, s, a), f)
  {
    CountNone(f);
    hide CountIn;
  }

  lemma AdvanceKeeps(size: int, s: State, a: Step, f: File)
    requires Balanced(s, f) && Coherent(s, f)
    ensures Balanced(Advance(size, s, a), f) && Coherent(Advance(size, s, a), f)
  {
    hide Balanced, Coherent, Next;
    if Enabled(size, s, a) {
      match a
      case Submit(x) => SubmitKeeps(size, s, x, f);
      case DirectWrite(k, ok) => DirectKeeps(size, s, k, ok, f);
      case Receive => ReceiveKeeps(size, s, f);
      case Gather => GatherKeeps(size, s, f);
      case Sweep => SweepKeeps(size, s, f);
      case Write(ok) => WriteKeeps(size, s, ok, f);
      case EndSweep(ok) => SweepEndKeeps(size, s, ok, f);
      case _ => OtherKeeps(size, s, a, f);
    }
  }

  lemma {:induction false} RunKeeps(size: int, steps: seq<Step>, f: File)
    ensures Balanced(Run(size, steps), f) && Coherent(Run(size, steps), f)
    decreases |steps|
  {
    if steps != [] {
      RunKeeps(size, steps[..|steps| - 1], f);
      AdvanceKeeps(size, Run(size, steps[..|steps| - 1]), steps[|steps| - 1], f);
    }
  }

  // ----- what Flush and Close promise

  /** When a flush request is answered, every file submitted before the request was issued has been written,
      or dropped by a failed transaction. */
  lemma FlushIsCoherent(size: int, steps: seq<Step>, id: int, f: File)
    requires id in Run(size, steps).answered
    ensures var s := Run(size, steps);
            && id in s.asked
            && CountIn(s.asked[id], f) <= Settled(s, f)
            && (s.lost == [] ==> CountIn(s.asked[id], f) <= CountIn(s.written, f))
  {
    RunKeeps(size, steps, f);
    CountNone(f);
  }

  /** When Close returns, every file submitted before the call has been written, or dropped by a failed
      transaction. */
  lemma CloseIsComplete(size: int, steps: seq<Step>, f: File)
    requires Run(size, steps).closing.Closed?
    ensures var s := Run(size, steps);
            && CountIn(s.closeSeen, f) <= Settled(s, f)
            && (s.lost == [] ==> CountIn(s.closeSeen, f) <= CountIn(s.written, f))
  {
    RunKeeps(size, steps, f);
    CountNone(f);
  }

  /** The transaction of the step, if it has one, succeeds. */
  predicate Succeeds(a: Step) {
    (a.DirectWrite? ==> a.ok) && (a.Write? ==> a.ok) && (a.EndSweep? ==> a.ok)
  }

  predicate AllSucceed(steps: seq<Step>) {
    forall i :: 0 <= i < |steps| ==> Succeeds(steps[i])
  }

  /** Nothing is dropped as long as every transaction succeeds. */
  lemma {:induction false} NothingLost(size: int, steps: seq<Step>)
    requires AllSucceed(steps)
    ensures Run(size, steps).lost == []
    decreases |steps|
  {
    if steps != [] {
      NothingLost(size, steps[..|steps| - 1]);
      var a := steps[|steps| - 1];
      assert Succeeds(a);
    }
  }

  /** The files carried by the step's transaction, if it has one and it fails. */
  function Dropped(size: int, s: State, a: Step): seq<File> {
    match a
    case DirectWrite(k, ok) => if Enabled(size, s, a) && !ok then [s.direct[k]] else []
    case Write(ok) => if Enabled(size, s, a) && !ok then s.batch else []
    case EndSweep(ok) => if Enabled(size, s, a) && !ok then s.swept else []
    case _ => []
  }

  /** Some step of the run is a failing transaction that carries `f`. */
  ghost predicate DroppedIn(size: int, steps: seq<Step>, f: File) {
    exists k :: 0 <= k < |steps| && f in Dropped(size, Run(size, steps[..k]), steps[k])
  }

  lemma StepDrops(size: int, s: State, a: Step)
    ensures Advance(size, s, a).lost == s.lost + Dropped(size, s, a)
  {
    hide Advance, Dropped;
    match a
    case DirectWrite(k, ok) => DirectDrops(size, s, k, ok);
    case Write(ok) => WriteDrops(size, s, ok);
    case EndSweep(ok) => SweepDrops(size, s, ok);
    case _ => MoveDropsNothing(size, s, a);
  }

  lemma DirectDrops(size: int, s: State, k: nat, ok: bool)
    ensures Advance(size, s, DirectWrite(k, ok)).lost == s.lost + Dropped(size, s, DirectWrite(k, ok))
  {
  }

  lemma WriteDrops(size: int, s: State, ok: bool)
    ensures Advance(size, s, Write(ok)).lost == s.lost + Dropped(size, s, Write(ok))
  {
  }

  lemma SweepDrops(size: int, s: State, ok: bool)
    ensures Advance(size, s, EndSweep(ok)).lost == s.lost + Dropped(size, s, EndSweep(ok))
  {
  }

  lemma MoveDropsNothing(size: int, s: State, a: Step)
    requires !a.DirectWrite? && !a.Write? && !a.EndSweep?
    ensures Advance(size, s, a).lost == s.lost + Dropped(size, s, a)
  {
  }

  lemma DroppedInStep(size: int, init: seq<Step>, a: Step, f: File)
    ensures DroppedIn(size, init + [a], f) <==> DroppedIn(size, init, f) || f in Dropped(size, Run(size, init), a)
  {
    hide Run, Dropped;
    var steps := init + [a];
    assert forall k :: 0 <= k < |init| ==> steps[..k] == init[..k] && steps[k] == init[k];
    assert steps[..|init|] == init && steps[|init|] == a;
    if DroppedIn(size, init, f) {
      var k :| 0 <= k < |init| && f in Dropped(size, Run(size, init[..k]), init[k]);
      assert f in Dropped(size, Run(size, steps[..k]), steps[k]);
    }
    if f in Dropped(size, Run(size, init), a) {
      assert f in Dropped(size, Run(size, steps[..|init|]), steps[|init|]);
    }
  }

  /** A file is lost exactly when a transaction that carries it fails. */
  lemma {:induction false} FileLostIffFailed(size: int, steps: seq<Step>, f: File)
    ensures f in Run(size, steps).lost <==> DroppedIn(size, steps, f)
    decreases |steps|
  {
    hide Advance, Dropped, DroppedIn;
    if steps == [] {
      NoneDropped(size, f);
    } else {
      var init, a := steps[..|steps| - 1], steps[|steps| - 1];
      FileLostIffFailed(size, init, f);
      StepDrops(size, Run(size, init), a);
      DroppedInStep(size, init, a, f);
      assert init + [a] == steps;
    }
  }

  lemma NoneDropped(size: int, f: File)
    ensures !DroppedIn(size, [], f)
  {
  }

  predicate NeverFails(size: int, steps: seq<Step>) {
    steps == [] ||
    (NeverFails(size, steps[..|steps| - 1]) && Dropped(size, Run(size, steps[..|steps| - 1]), steps[|steps| - 1]) == [])
  }

  /** Nothing is lost exactly when no transaction that carries a file fails. */
  lemma {:induction false} LostIffFailed(size: int, steps: seq<Step>)
    ensures Run(size, steps).lost == [] <==> NeverFails(size, steps)
    decreases |steps|
  {
    hide Advance, Dropped;
    if steps != [] {
      LostIffFailed(size, steps[..|steps| - 1]);
      StepDrops(size, Run(size, steps[..|steps| - 1]), steps[|steps| - 1]);
    }
  }

  // ----- exactly when Flush and Close are coherent, for files submitted once

  lemma CountDistinct(q: seq<File>, f: File)
    requires Distinct(q)
    ensures CountIn(q, f) == if f in q then 1 else 0
    decreases |q|
  {
    if q != [] {
      CountHead(q, f);
      CountDistinct(q[1..], f);
      assert CountIn([q[0]], f) == if q[0] == f then 1 else 0;
      assert q == [q[0]] + q[1..];
    }
  }

  /** A submitted file is in one place: in the channel, in the batch, in the hands of Close, written or lost. */
  lemma InOnePlace(size: int, steps: seq<Step>, f: File)
    requires Distinct(Run(size, steps).submitted)
    ensures var s := Run(size, steps);
            && (f in s.submitted <==> f in s.ch || f in s.batch || f in s.swept || f in s.written || f in s.lost)
            && !(f in s.written && f in s.lost)
            && (f in s.ch || f in s.batch || f in s.swept ==> f !in s.written && f !in s.lost)
  {
    RunKeeps(size, steps, f);
    CountDistinct(Run(size, steps).submitted, f);
  }

  /** A file submitted before a flush is settled when the flush is answered: it is written, or a transaction
      carrying it has failed. */
  lemma FlushSettles(size: int, steps: seq<Step>, id: int, f: File)
    requires id in Run(size, steps).answered && Distinct(Run(size, steps).submitted)
    ensures id in Run(size, steps).asked
    ensures f in Run(size, steps).asked[id] ==> (f in Run(size, steps).written <==> !DroppedIn(size, steps, f))
  {
    FlushIsCoherent(size, steps, id, f);
    InOnePlace(size, steps, f);
    FileLostIffFailed(size, steps, f);
  }

  /** An answered flush has written everything submitted before it exactly when no transaction has failed that
      carried a file submitted before it. */
  lemma FlushCoherentIff(size: int, steps: seq<Step>, id: int)
    requires id in Run(size, steps).answered && Distinct(Run(size, steps).submitted)
    ensures id in Run(size, steps).asked
    ensures (forall f :: f in Run(size, steps).asked[id] ==> f in Run(size, steps).written) <==>
            (forall f :: f in Run(size, steps).asked[id] ==> !DroppedIn(size, steps, f))
  {
    hide Run, DroppedIn;
    FlushIsCoherent(size, steps, id, File(0, 0));
    forall f
      ensures f in Run(size, steps).asked[id] ==> (f in Run(size, steps).written <==> !DroppedIn(size, steps, f))
    {
      FlushSettles(size, steps, id, f);
    }
  }

  lemma CloseSettles(size: int, steps: seq<Step>, f: File)
    requires Run(size, steps).closing.Closed? && Distinct(Run(size, steps).submitted)
    ensures f in Run(size, steps).closeSeen ==> (f in Run(size, steps).written <==> !DroppedIn(size, steps, f))
  {
    CloseIsComplete(size, steps, f);
    InOnePlace(size, steps, f);
    FileLostIffFailed(size, steps, f);
  }

  /** When Close returns, everything submitted before the call is written exactly when no transaction has failed
      that carried such a file. */
  lemma CloseCompleteIff(size: int, steps: seq<Step>)
    requires Run(size, steps).closing.Closed? && Distinct(Run(size, steps).submitted)
    ensures (forall f :: f in Run(size, steps).closeSeen ==> f in Run(size, steps).written) <==>
            (forall f :: f in Run(size, steps).closeSeen ==> !DroppedIn(size, steps, f))
  {
    hide Run, DroppedIn;
    forall f
      ensures f in Run(size, steps).closeSeen ==> (f in Run(size, steps).written <==> !DroppedIn(size, steps, f))
    {
      CloseSettles(size, steps, f);
    }
  }

  // ----- concrete runs

  lemma RunNone(size: int, steps: seq<Step>)
    ensures Run(size, steps[..0]) == Init()
  {
  }

  /** Step `n` of a concrete run leads from `s` to `t`. */
  lemma RunStep(size: int, steps: seq<Step>, n: nat, s: State, t: State)
    requires n < |steps| && Run(size, steps[..n]) == s && Advance(size, s, steps[n]) == t
    ensures Run(size, steps[..n + 1]) == t
    ensures n + 1 == |steps| ==> Run(size, steps) == t
  {
    assert steps[..n + 1][..n] == steps[..n];
    assert n + 1 == |steps| ==> steps[..n + 1] == steps;
  }

  /** A flush that reports success does not mean that nothing was dropped: an earlier batch may have failed
      in the background. */
  lemma FlushHidesEarlierLoss()
    ensures var f := File(1, 1);
            var s := Run(2, [Submit(f), Tick, Gather, EndGather, Write(false), AskFlush(1), TakeFlush,
              EndGather, Write(true)]);
            && s.asked == map[1 := [f]] && s.answered == map[1 := true] && s.written == [] && s.lost == [f]
  {
    var f := File(1, 1);
    var steps := [Submit(f), Tick, Gather, EndGather, Write(false), AskFlush(1), TakeFlush, EndGather,
      Write(true)];
    FailedTick(steps, f);
    QuietFlush(steps, Init().(submitted := [f], lost := [f]));
    hide Run;
  }

  lemma FailedTick(steps: seq<Step>, f: File)
    requires |steps| == 9 && steps[0] == Submit(f) && steps[1] == Tick && steps[2] == Gather
    requires steps[3] == EndGather && steps[4] == Write(false)
    ensures Run(2, steps[..5]) == Init().(submitted := [f], lost := [f])
  {
    RunNone(2, steps);
    hide Run;
    var s1 := Init().(submitted := [f], ch := [f]);
    RunStep(2, steps, 0, Init(), s1);
    var s2 := s1.(phase := Gathering(Ticker));
    RunStep(2, steps, 1, s1, s2);
    FailedWrite(steps, f, s2);
  }

  lemma FailedWrite(steps: seq<Step>, f: File, s2: State)
    requires |steps| == 9 && Run(2, steps[..2]) == s2
    requires steps[2] == Gather && steps[3] == EndGather && steps[4] == Write(false)
    requires s2.phase == Gathering(Ticker) && s2.ch == [f] && s2.batch == [] && s2.lost == []
    ensures Run(2, steps[..5]) == s2.(phase := Idle, ch := [], lost := [f])
  {
    hide Run;
    var s3 := s2.(ch := [], batch := [f]);
    RunStep(2, steps, 2, s2, s3);
    RunStep(2, steps, 3, s3, s3.(phase := Writing(Ticker)));
    RunStep(2, steps, 4, s3.(phase := Writing(Ticker)), s2.(phase := Idle, ch := [], lost := [f]));
  }

  lemma QuietFlush(steps: seq<Step>, s5: State)
    requires |steps| == 9 && Run(2, steps[..5]) == s5 && steps[5] == AskFlush(1) && steps[6] == TakeFlush
    requires steps[7] == EndGather && steps[8] == Write(true)
    requires s5.phase == Idle && s5.ch == [] && s5.batch == [] && s5.flushes == [] && s5.asked == map[]
    ensures Run(2, steps) == s5.(asked := map[1 := s5.submitted], answered := s5.answered[1 := true])
  {
    hide Run;
    var s6 := s5.(flushes := [1], asked := map[1 := s5.submitted]);
    RunStep(2, steps, 5, s5, s6);
    var s7 := s6.(flushes := [], phase := Gathering(Asked(1)));
    RunStep(2, steps, 6, s6, s7);
    RunStep(2, steps, 7, s7, s7.(phase := Writing(Asked(1))));
    RunStep(2, steps, 8, s7.(phase := Writing(Asked(1))), s7.(phase := Idle, answered := s5.answered[1 := true]));
  }
}
