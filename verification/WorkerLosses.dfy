/** Which requests the write worker loses, whatever apply and acknowledgement failures occur. */
module WorkerLosses {
  import opened WriteQueues
  import opened WriteWorker

  /** The request that the step drops, if it drops one. */
  function Dropped(c: Config, s: State, a: Step): seq<Request> {
    if Drops(c, s, a) then [s.mem[0]] else []
  }

  /** Some step of the run drops `req`. */
  ghost predicate DroppedIn(c: Config, steps: seq<Step>, req: Request) {
    exists k :: 0 <= k < |steps| && req in Dropped(c, Run(c, steps[..k]), steps[k])
  }

  lemma StepLoses(c: Config, s: State, a: Step)
    ensures Advance(c, s, a).lost == s.lost + multiset(Dropped(c, s, a))
  {
    hide DueRows, WithoutIds, Deferred, Requests, Backoff;
  }

  lemma DroppedInStep(c: Config, init: seq<Step>, a: Step, req: Request)
    ensures DroppedIn(c, init + [a], req) <==> DroppedIn(c, init, req) || req in Dropped(c, Run(c, init), a)
  {
    hide Run, Dropped;
    var steps := init + [a];
    assert forall k :: 0 <= k < |init| ==> steps[..k] == init[..k] && steps[k] == init[k];
    assert steps[..|init|] == init && steps[|init|] == a;
    if DroppedIn(c, init, req) {
      var k :| 0 <= k < |init| && req in Dropped(c, Run(c, init[..k]), init[k]);
      assert req in Dropped(c, Run(c, steps[..k]), steps[k]);
    }
    if req in Dropped(c, Run(c, init), a) {
      assert req in Dropped(c, Run(c, steps[..|init|]), steps[|init|]);
    }
  }

  lemma NoneDropped(c: Config, req: Request)
    ensures !DroppedIn(c, [], req) && Run(c, []).lost == multiset{}
  {
  }

  /** A request is recorded as lost exactly when some step of the run drops it. */
  lemma {:induction false} RequestLostIff(c: Config, steps: seq<Step>, req: Request)
    ensures req in Run(c, steps).lost <==> DroppedIn(c, steps, req)
    decreases |steps|
  {
    hide Advance, Dropped, DroppedIn;
    if steps == [] {
      NoneDropped(c, req);
    } else {
      var init, a := steps[..|steps| - 1], steps[|steps| - 1];
      RequestLostIff(c, init, req);
      StepLoses(c, Run(c, init), a);
      DroppedInStep(c, init, a, req);
      assert init + [a] == steps;
    }
  }

  // ----- a request accepted once is on one side: in memory or lost, or in the spool or committed

  function InMemory(s: State, req: Request): nat {
    CountIn(s.ch, req) + CountIn(s.mem, req) + s.lost[req]
  }

  function OnRecord(s: State, req: Request): nat {
    CountIn(Requests(s.rows), req) + CountIn(Requests(s.spooled), req) + CountIn(s.log, req) + s.again[req]
  }

  predicate OneSide(s: State, req: Request) {
    s.accepted[req] <= 1 ==> InMemory(s, req) == 0 || OnRecord(s, req) == 0
  }

  /** A request not accepted before is nowhere. */
  lemma NotYetAnywhere(s: State, req: Request)
    requires Balanced(s, req) && (Held(s, req) > 0 ==> s.accepted[req] > 0) && s.accepted[req] == 0
    requires CountIn(Requests(s.spooled), req) <= CountIn(Requests(s.rows), req)
    ensures InMemory(s, req) == 0 && OnRecord(s, req) == 0
  {
    hide CountIn, Requests;
  }

  lemma EnqueueKeepsSide(c: Config, s: State, raw: Request, req: Request)
    requires OneSide(s, req) && (s.accepted[req] == 0 ==> InMemory(s, req) == 0 && OnRecord(s, req) == 0)
    ensures OneSide(Next(c, s, Enqueue(raw)), req)
  {
    hide CountIn, Requests;
    CountOne(Keyed(c, raw), req);
    CountCat(s.ch, [Keyed(c, raw)], req);
  }

  lemma SpoolCallKeepsSide(c: Config, s: State, k: nat, ok: bool, req: Request)
    requires OneSide(s, req) && (s.accepted[req] == 0 ==> InMemory(s, req) == 0 && OnRecord(s, req) == 0)
    requires k < |s.calls|
    ensures OneSide(Next(c, s, SpoolCall(k, ok)), req)
  {
    hide CountIn, Requests;
    var x := s.calls[k];
    CountInserted(Responsible(s.(calls := RemoveAt(s.calls, k)), x), x, req);
    CountOne(x, req);
  }

  lemma DirectCallKeepsSide(c: Config, s: State, k: nat, ok: bool, req: Request)
    requires OneSide(s, req) && (s.accepted[req] == 0 ==> InMemory(s, req) == 0 && OnRecord(s, req) == 0)
    requires k < |s.direct|
    ensures OneSide(Next(c, s, DirectCall(k, ok)), req)
  {
    hide CountIn, Requests;
    CountOne(s.direct[k], req);
    CountCat(s.log, [s.direct[k]], req);
  }

  lemma ReceiveKeepsSide(c: Config, s: State, req: Request)
    requires OneSide(s, req) && Enabled(c, s, Receive)
    ensures OneSide(Next(c, s, Receive), req)
  {
    hide CountIn, Requests;
    CountHead(s.ch, req);
    CountCat(s.mem, [s.ch[0]], req);
    CountOne(s.ch[0], req);
  }

  lemma ApplyKeepsSide(c: Config, s: State, ok: bool, req: Request)
    requires OneSide(s, req) && Balanced(s, req) && s.phase.Applying?
    ensures OneSide(Next(c, s, Apply(ok)), req)
  {
    hide CountIn, Requests;
    CountCat(s.log, Batch(s), req);
    CountCat(s.mem, Requests(s.spooled), req);
    CountOne(req, req);
  }

  lemma AckKeepsSide(c: Config, s: State, ok: bool, req: Request)
    requires OneSide(s, req) && WorkerOk(c, s) && s.phase.Acking?
    ensures OneSide(Next(c, s, Ack(ok)), req)
  {
    hide WorkerOk, WithoutIds, Requests;
    Removed(c, s, req);
    NoRequests(req);
    assert multiset(Requests(s.spooled))[req] == CountIn(Requests(s.spooled), req);
  }

  lemma Removed(c: Config, s: State, req: Request)
    requires WorkerOk(c, s)
    ensures CountIn(Requests(WithoutIds(s.rows, IdsOf(s.spooled))), req) <= CountIn(Requests(s.rows), req)
  {
    RemovalSplits(s.rows, s.spooled, s.nextId);
  }

  lemma NoRequests(req: Request)
    ensures CountIn(Requests([]), req) == 0
  {
  }

  lemma SpillKeepsSide(c: Config, s: State, ok: bool, req: Request)
    requires OneSide(s, req) && Balanced(s, req) && s.phase.Spilling?
    ensures OneSide(Next(c, s, Spill(ok)), req)
  {
    hide CountIn, Requests;
    if s.mem != [] {
      CountHead(s.mem, req);
      CountOne(s.mem[0], req);
      CountInserted(s.(mem := s.mem[1..]), s.mem[0], req);
    }
  }

  lemma NackKeepsSide(c: Config, s: State, ok: bool, req: Request)
    requires OneSide(s, req) && s.phase.Nacking?
    ensures OneSide(Next(c, s, Nack(ok)), req)
  {
    hide CountIn, Requests, Deferred;
    DeferredKeeps(s.rows, s.spooled, s.now + Backoff(c.base, c.max, MaxAttempts(s.spooled) + 1));
    NoRequests(req);
  }

  lemma OtherKeepsSide(c: Config, s: State, a: Step, req: Request)
    requires OneSide(s, req) && Enabled(c, s, a)
    requires a.CloseQueue? || a.Tick? || a.EndReceive? || a.Fetch?
    requires var t := Next(c, s, a); CountIn(Requests(t.spooled), req) <= CountIn(Requests(t.rows), req)
    ensures OneSide(Next(c, s, a), req)
  {
    hide CountIn, Requests, DueRows;
  }

  lemma StepKeepsSide(c: Config, s: State, a: Step, req: Request)
    requires WorkerOk(c, s) && WorkerOk(c, Advance(c, s, a)) && Balanced(s, req) && OneSide(s, req)
    requires Held(s, req) > 0 ==> s.accepted[req] > 0
    ensures OneSide(Advance(c, s, a), req)
  {
    hide WorkerOk, Balanced, OneSide, Held, Next, InMemory, OnRecord;
    if Enabled(c, s, a) {
      SpooledHeld(c, s, req);
      if s.accepted[req] == 0 {
        NotYetAnywhere(s, req);
      }
      SpooledHeld(c, Next(c, s, a), req);
      match a
      case Enqueue(x) => EnqueueKeepsSide(c, s, x, req);
      case SpoolCall(k, ok) => SpoolCallKeepsSide(c, s, k, ok, req);
      case DirectCall(k, ok) => DirectCallKeepsSide(c, s, k, ok, req);
      case Receive => ReceiveKeepsSide(c, s, req);
      case Apply(ok) => ApplyKeepsSide(c, s, ok, req);
      case Ack(ok) => AckKeepsSide(c, s, ok, req);
      case Spill(ok) => SpillKeepsSide(c, s, ok, req);
      case Nack(ok) => NackKeepsSide(c, s, ok, req);
      case _ => OtherKeepsSide(c, s, a, req);
    }
  }

  lemma {:induction false} RunOneSide(c: Config, steps: seq<Step>, req: Request)
    ensures OneSide(Run(c, steps), req)
    decreases |steps|
  {
    hide Advance, WorkerOk, Balanced, Held;
    if steps != [] {
      var init := steps[..|steps| - 1];
      RunOneSide(c, init, req);
      RunOk(c, init);
      RunOk(c, steps);
      Conservation(c, init, req);
      NothingInvented(c, init, req);
      StepKeepsSide(c, Run(c, init), steps[|steps| - 1], req);
    }
  }

  lemma LostIsNowhere(s: State, req: Request)
    requires Balanced(s, req) && OneSide(s, req) && s.accepted[req] <= 1
    ensures s.accepted[req] > 0 && s.lost[req] == 0 ==> Copies(s, req) > 0
    ensures s.lost[req] > 0 ==> Copies(s, req) == 0 && s.accepted[req] > 0
  {
    hide CountIn, Requests;
  }

  /** A request accepted once is, after every step and whatever failures occur, in the channel, in the batch in hand,
      in the spool or committed, exactly when no step has dropped it. */
  lemma SomewhereIffNotDropped(c: Config, steps: seq<Step>, req: Request)
    requires Run(c, steps).accepted[req] == 1
    ensures Copies(Run(c, steps), req) > 0 <==> !DroppedIn(c, steps, req)
  {
    hide Run, DroppedIn, Balanced, OneSide, Copies;
    Conservation(c, steps, req);
    RunOneSide(c, steps, req);
    LostIsNowhere(Run(c, steps), req);
    RequestLostIff(c, steps, req);
  }

  /** If no request is accepted twice, then after every step every accepted request is somewhere exactly when no spill
      has failed, whatever apply and acknowledgement failures occur. */
  lemma EverySomewhereIffNeverDrops(c: Config, steps: seq<Step>)
    requires forall req :: Run(c, steps).accepted[req] <= 1
    ensures (forall req :: Run(c, steps).accepted[req] > 0 ==> Copies(Run(c, steps), req) > 0) <==> NeverDrops(c, steps)
  {
    hide Run, NeverDrops, Balanced, OneSide, Copies;
    var s := Run(c, steps);
    LostIffDropped(c, steps);
    forall req
      ensures s.accepted[req] > 0 && s.lost[req] == 0 ==> Copies(s, req) > 0
      ensures s.lost[req] > 0 ==> Copies(s, req) == 0 && s.accepted[req] > 0
    {
      Conservation(c, steps, req);
      RunOneSide(c, steps, req);
      LostIsNowhere(s, req);
    }
    if s.lost != multiset{} {
      var req := SomeIn(s.lost);
      assert s.accepted[req] > 0 && Copies(s, req) == 0;
    }
  }
}
