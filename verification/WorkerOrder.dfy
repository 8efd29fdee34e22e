/** In which order the write worker hands requests on, and what else holds of every run. */
module WorkerOrder {
  import opened WriteQueues
  import opened WriteWorker
  import WorkerLosses

  // ----- what enters the channel and what leaves the worker's hands, step by step

  /** How a request leaves the memory batch: committed, moved to a row of the spool, or dropped. */
  datatype Departure = ByCommit(req: Request) | BySpill(req: Request, id: int) | ByLoss(req: Request)

  function EnteredAt(c: Config, s: State, a: Step): seq<Request> {
    if a.Enqueue? && !s.closed && |s.ch| < Limit(c.capacity) then [Keyed(c, a.req)] else []
  }

  /** Read off the store's log, the spool's table and the record of losses before and after the step. */
  function LeftAt(c: Config, s: State, a: Step): seq<Departure> {
    var t := Advance(c, s, a);
    match a
    case Apply(_) => if |t.log| >= |s.log| + |s.mem| then Commits(t.log[|s.log|..|s.log| + |s.mem|]) else []
    case Spill(_) =>
      if |t.rows| > |s.rows| then [BySpill(t.rows[|s.rows|].request, t.rows[|s.rows|].id)]
      else Losses(WorkerLosses.Dropped(c, s, a))
    case _ => []
  }

  function Commits(q: seq<Request>): (r: seq<Departure>)
    ensures |r| == |q|
  {
    seq(|q|, i requires 0 <= i < |q| => ByCommit(q[i]))
  }

  function Losses(q: seq<Request>): (r: seq<Departure>)
    ensures |r| == |q|
  {
    seq(|q|, i requires 0 <= i < |q| => ByLoss(q[i]))
  }

  function ReqsOf(ds: seq<Departure>): (r: seq<Request>)
    ensures |r| == |ds| && forall i :: 0 <= i < |ds| ==> r[i] == ds[i].req
  {
    seq(|ds|, i requires 0 <= i < |ds| => ds[i].req)
  }

  function EnteredBy(c: Config, steps: seq<Step>): seq<Request> {
    if steps == [] then []
    else EnteredBy(c, steps[..|steps| - 1]) + EnteredAt(c, Run(c, steps[..|steps| - 1]), steps[|steps| - 1])
  }

  function DepartedBy(c: Config, steps: seq<Step>): seq<Departure> {
    if steps == [] then []
    else DepartedBy(c, steps[..|steps| - 1]) + LeftAt(c, Run(c, steps[..|steps| - 1]), steps[|steps| - 1])
  }

  lemma ReqsCat(a: seq<Departure>, b: seq<Departure>)
    ensures ReqsOf(a + b) == ReqsOf(a) + ReqsOf(b)
  {
  }

  lemma EnqueueMoves(c: Config, s: State, req: Request)
    ensures var a := Enqueue(req);
            s.mem + s.ch + EnteredAt(c, s, a) == ReqsOf(LeftAt(c, s, a)) + Advance(c, s, a).mem + Advance(c, s, a).ch
  {
  }

  lemma ReceiveMoves(c: Config, s: State)
    ensures s.mem + s.ch == Advance(c, s, Receive).mem + Advance(c, s, Receive).ch
  {
    if s.ch != [] {
      assert s.ch == [s.ch[0]] + s.ch[1..];
    }
  }

  lemma ApplyMoves(c: Config, s: State, ok: bool)
    ensures s.mem + s.ch == ReqsOf(LeftAt(c, s, Apply(ok))) + Advance(c, s, Apply(ok)).mem + Advance(c, s, Apply(ok)).ch
  {
    hide Requests;
    var t := Advance(c, s, Apply(ok));
    if |t.log| >= |s.log| + |s.mem| && s.mem != [] {
      assert t.log == s.log + (s.mem + Requests(s.spooled));
      assert t.log[|s.log|..|s.log| + |s.mem|] == s.mem;
    }
  }

  lemma SpillMoves(c: Config, s: State, ok: bool)
    ensures s.mem + s.ch == ReqsOf(LeftAt(c, s, Spill(ok))) + Advance(c, s, Spill(ok)).mem + Advance(c, s, Spill(ok)).ch
  {
    if s.phase.Spilling? && s.mem != [] {
      assert s.mem == [s.mem[0]] + s.mem[1..];
    }
  }

  lemma OtherMoves(c: Config, s: State, a: Step)
    requires !a.Enqueue? && !a.Receive? && !a.Apply? && !a.Spill?
    ensures Advance(c, s, a).mem == s.mem && Advance(c, s, a).ch == s.ch
    ensures EnteredAt(c, s, a) == [] && LeftAt(c, s, a) == []
  {
    hide Requests, DueRows, WithoutIds, Deferred, Backoff;
  }

  lemma StepMoves(c: Config, s: State, a: Step)
    ensures s.mem + s.ch + EnteredAt(c, s, a) == ReqsOf(LeftAt(c, s, a)) + Advance(c, s, a).mem + Advance(c, s, a).ch
  {
    hide Advance, LeftAt;
    match a
    case Enqueue(req) => EnqueueMoves(c, s, req);
    case Receive =>
      ReceiveMoves(c, s);
      NothingLeft(c, s);
    case Apply(ok) => ApplyMoves(c, s, ok);
    case Spill(ok) => SpillMoves(c, s, ok);
    case _ => OtherMoves(c, s, a);
  }

  lemma NothingLeft(c: Config, s: State)
    ensures LeftAt(c, s, Receive) == []
  {
  }

  /** The order law, for every run: what has entered the channel, in the order of the steps, is what has left the memory
      batch by commit, spill or loss, in the order of the steps, followed by the batch in hand and the channel. */
  lemma {:induction false} ChannelOrder(c: Config, steps: seq<Step>)
    ensures EnteredBy(c, steps) == ReqsOf(DepartedBy(c, steps)) + Run(c, steps).mem + Run(c, steps).ch
    decreases |steps|
  {
    hide Advance, EnteredAt, LeftAt, ReqsOf;
    if steps == [] {
      NoReqs();
    } else {
      var init, a := steps[..|steps| - 1], steps[|steps| - 1];
      var s, d := Run(c, init), ReqsOf(DepartedBy(c, init));
      ChannelOrder(c, init);
      StepMoves(c, s, a);
      ReqsCat(DepartedBy(c, init), LeftAt(c, s, a));
      assert d + s.mem + s.ch + EnteredAt(c, s, a) == d + (s.mem + s.ch + EnteredAt(c, s, a));
      var t := Run(c, steps);
      assert d + (ReqsOf(LeftAt(c, s, a)) + t.mem + t.ch) == d + ReqsOf(LeftAt(c, s, a)) + t.mem + t.ch;
    }
  }

  lemma NoReqs()
    ensures ReqsOf([]) == []
  {
  }

  // ----- the ids of spilled requests

  /** Requests spilled later have larger ids, all of them already given out. */
  ghost predicate IdsAscend(ds: seq<Departure>, nextId: int) {
    && (forall i :: 0 <= i < |ds| && ds[i].BySpill? ==> ds[i].id < nextId)
    && (forall i, j :: 0 <= i < j < |ds| && ds[i].BySpill? && ds[j].BySpill? ==> ds[i].id < ds[j].id)
  }

  lemma LeftIds(c: Config, s: State, a: Step)
    ensures forall i :: 0 <= i < |LeftAt(c, s, a)| && LeftAt(c, s, a)[i].BySpill? ==>
              |LeftAt(c, s, a)| == 1 && LeftAt(c, s, a)[i].id == s.nextId < Advance(c, s, a).nextId
    ensures s.nextId <= Advance(c, s, a).nextId
  {
    hide Requests, DueRows, WithoutIds, Deferred, Backoff;
  }

  /** Spilled requests get ids in the order in which they entered the channel. */
  lemma {:induction false} SpillsAscend(c: Config, steps: seq<Step>)
    ensures IdsAscend(DepartedBy(c, steps), Run(c, steps).nextId)
    decreases |steps|
  {
    hide Advance, LeftAt;
    if steps != [] {
      var init, a := steps[..|steps| - 1], steps[|steps| - 1];
      SpillsAscend(c, init);
      LeftIds(c, Run(c, init), a);
    }
  }

  // ----- runs in which no apply fails

  predicate ApplyFails(s: State, a: Step) {
    a.Apply? && s.phase.Applying? && !(a.ok && AllSupported(Batch(s)))
  }

  predicate AppliesSucceed(c: Config, steps: seq<Step>) {
    steps == [] ||
    (AppliesSucceed(c, steps[..|steps| - 1]) && !ApplyFails(Run(c, steps[..|steps| - 1]), steps[|steps| - 1]))
  }

  lemma StepCommits(c: Config, s: State, a: Step)
    requires !s.phase.Spilling? && !ApplyFails(s, a)
    ensures !Advance(c, s, a).phase.Spilling?
    ensures forall i :: 0 <= i < |LeftAt(c, s, a)| ==> LeftAt(c, s, a)[i].ByCommit?
  {
    hide Requests, DueRows, WithoutIds, Deferred, Backoff;
  }

  /** If no apply fails, the requests that came by memory are committed in the order in which they entered the channel:
      the commits so far are a prefix of what entered. */
  lemma {:induction false} CommitsKeepOrder(c: Config, steps: seq<Step>)
    requires AppliesSucceed(c, steps)
    ensures !Run(c, steps).phase.Spilling?
    ensures forall i :: 0 <= i < |DepartedBy(c, steps)| ==> DepartedBy(c, steps)[i].ByCommit?
    ensures ReqsOf(DepartedBy(c, steps)) <= EnteredBy(c, steps)
    decreases |steps|
  {
    hide Advance, LeftAt, ApplyFails, EnteredAt;
    ChannelOrder(c, steps);
    if steps != [] {
      var init, a := steps[..|steps| - 1], steps[|steps| - 1];
      CommitsKeepOrder(c, init);
      StepCommits(c, Run(c, init), a);
    }
  }

  // ----- what one batch is

  lemma FetchBound(c: Config, s: State, ok: bool)
    requires s.phase.Fetching? && s.spooled == [] && |s.mem| <= Limit(c.batchSize) && SpoolOk(s.rows, s.nextId)
    ensures |Next(c, s, Fetch(ok)).mem| + |Next(c, s, Fetch(ok)).spooled| <= Limit(c.batchSize)
    ensures forall row :: row in Next(c, s, Fetch(ok)).spooled ==> row.due <= s.now
  {
    if |s.mem| < Limit(c.batchSize) {
      DuePartOf(s.rows, s.now, Limit(c.batchSize) - |s.mem|, s.nextId);
    }
  }

  /** A batch is never larger than configured, and its spool rows are due. */
  ghost predicate BatchOk(c: Config, s: State) {
    |s.mem| + |s.spooled| <= Limit(c.batchSize) && forall row :: row in s.spooled ==> row.due <= s.now
  }

  lemma OtherBatch(c: Config, s: State, a: Step)
    requires WorkerOk(c, s) && BatchOk(c, s) && !a.Fetch? && !a.Receive? && !a.Spill?
    ensures BatchOk(c, Advance(c, s, a))
  {
    hide SpoolOk, PartOf, Requests, DueRows, WithoutIds, Deferred, Backoff, Limit;
  }

  lemma ReceiveBatch(c: Config, s: State)
    requires WorkerOk(c, s) && BatchOk(c, s)
    ensures BatchOk(c, Advance(c, s, Receive))
  {
    hide SpoolOk, PartOf, Limit;
  }

  lemma SpillBatch(c: Config, s: State, ok: bool)
    requires BatchOk(c, s)
    ensures BatchOk(c, Advance(c, s, Spill(ok)))
  {
    hide Limit;
  }

  lemma FetchBatch(c: Config, s: State, ok: bool)
    requires WorkerOk(c, s) && BatchOk(c, s) && s.phase.Fetching?
    ensures BatchOk(c, Advance(c, s, Fetch(ok)))
  {
    FetchBound(c, s, ok);
    hide SpoolOk, PartOf, DueRows, Limit;
  }

  lemma StepBatch(c: Config, s: State, a: Step)
    requires WorkerOk(c, s) && BatchOk(c, s)
    ensures BatchOk(c, Advance(c, s, a))
  {
    hide WorkerOk, BatchOk, Next;
    match a
    case Receive => ReceiveBatch(c, s);
    case Fetch(ok) =>
      if s.phase.Fetching? {
        FetchBatch(c, s, ok);
      }
    case Spill(ok) => SpillBatch(c, s, ok);
    case _ => OtherBatch(c, s, a);
  }

  lemma {:induction false} RunBatchOk(c: Config, steps: seq<Step>)
    ensures BatchOk(c, Run(c, steps))
    decreases |steps|
  {
    hide Advance, WorkerOk;
    if steps != [] {
      RunBatchOk(c, steps[..|steps| - 1]);
      RunOk(c, steps[..|steps| - 1]);
      StepBatch(c, Run(c, steps[..|steps| - 1]), steps[|steps| - 1]);
    }
  }

  /** A successful apply, wherever it happens in a run, appends the memory batch and then the rows of the spool in the
      order of their ids; there are no more of them than the batch size allows, and the rows were due. */
  lemma ApplyAppends(c: Config, steps: seq<Step>, ok: bool)
    requires var s := Run(c, steps); s.phase.Applying? && Advance(c, s, Apply(ok)).log != s.log
    ensures var s := Run(c, steps);
            && Advance(c, s, Apply(ok)).log == s.log + s.mem + Requests(s.spooled)
            && |s.mem| + |s.spooled| <= Limit(c.batchSize)
            && (forall i, j :: 0 <= i < j < |s.spooled| ==> s.spooled[i].id < s.spooled[j].id)
            && (forall row :: row in s.spooled ==> row in s.rows && row.due <= s.now)
  {
    hide Run, Advance, WorkerOk, BatchOk;
    RunOk(c, steps);
    RunBatchOk(c, steps);
    Appended(c, Run(c, steps), ok);
    BatchMeans(c, Run(c, steps));
  }

  lemma Appended(c: Config, s: State, ok: bool)
    requires s.phase.Applying? && Advance(c, s, Apply(ok)).log != s.log
    ensures Advance(c, s, Apply(ok)).log == s.log + s.mem + Requests(s.spooled)
  {
    hide Requests;
    assert s.log + Batch(s) == s.log + s.mem + Requests(s.spooled);
  }

  lemma BatchMeans(c: Config, s: State)
    requires WorkerOk(c, s) && BatchOk(c, s)
    ensures |s.mem| + |s.spooled| <= Limit(c.batchSize)
    ensures forall i, j :: 0 <= i < j < |s.spooled| ==> s.spooled[i].id < s.spooled[j].id
    ensures forall row :: row in s.spooled ==> row in s.rows && row.due <= s.now
  {
    hide SpoolOk;
  }

  // ----- rows that are put off

  lemma {:induction false} MaxAttemptsMeans(rows: seq<Row>)
    ensures forall row :: row in rows ==> row.attempts <= MaxAttempts(rows)
    ensures MaxAttempts(rows) == 0 || exists row :: row in rows && row.attempts == MaxAttempts(rows)
    decreases |rows|
  {
    if rows != [] {
      MaxAttemptsMeans(rows[1..]);
      assert rows == [rows[0]] + rows[1..];
      if MaxAttempts(rows) != rows[0].attempts && MaxAttempts(rows) != 0 {
        var row :| row in rows[1..] && row.attempts == MaxAttempts(rows[1..]);
        assert row in rows;
      }
    }
  }

  lemma SomeMost(rows: seq<Row>)
    requires rows != []
    ensures forall row :: row in rows ==> row.attempts <= MaxAttempts(rows)
    ensures exists row :: row in rows && row.attempts == MaxAttempts(rows)
  {
    MaxAttemptsMeans(rows);
    assert rows[0] in rows;
  }

  /** The row waits until `due` after `attempts` attempts of which the last has just failed. */
  ghost predicate WaitsAtLeast(c: Config, s: State, row: Row) {
    row.due >= s.now + Backoff(c.base, c.max, row.attempts)
  }

  /** When rows of the spool are put off, each counts one more attempt and waits at least the back-off of that number
      of attempts; the row with the most attempts waits exactly that long, and all are due together. */
  lemma PutOffWaits(c: Config, steps: seq<Step>, i: nat)
    requires var s := Run(c, steps); s.phase.Nacking? && i < |s.rows|
    ensures var s := Run(c, steps);
            var t := Advance(c, s, Nack(true));
            && |t.rows| == |s.rows| && t.rows[i].id == s.rows[i].id && t.rows[i].request == s.rows[i].request
            && (s.rows[i] !in s.spooled ==> t.rows[i] == s.rows[i])
            && (s.rows[i] in s.spooled ==>
                  && t.rows[i].attempts == s.rows[i].attempts + 1 && WaitsAtLeast(c, s, t.rows[i])
                  && exists most :: most in s.spooled &&
                       t.rows[i].due == s.now + Backoff(c.base, c.max, most.attempts + 1))
  {
    hide Backoff, Deferred, SpoolOk, PartOf, MaxAttempts, Run, Advance;
    var s := Run(c, steps);
    var n := MaxAttempts(s.spooled) + 1;
    RunOk(c, steps);
    NackMeans(c, s);
    PutOffOnce(s.rows, s.nextId, s.spooled, s.now + Backoff(c.base, c.max, n), i);
    if s.rows[i] in s.spooled {
      SomeMost(s.spooled);
      BackoffMonotone(c.base, c.max, s.rows[i].attempts + 1, n);
    }
  }

  lemma NackMeans(c: Config, s: State)
    requires s.phase.Nacking?
    ensures Advance(c, s, Nack(true)).rows ==
        Deferred(s.rows, s.spooled, s.now + Backoff(c.base, c.max, MaxAttempts(s.spooled) + 1))
  {
    hide Backoff, Deferred, MaxAttempts;
  }

  // ----- when the worker stops, and under which project requests are kept

  predicate StopOk(s: State) {
    (s.phase.Fetching? && s.phase.eof) || s.phase.Stopped? ==> s.closed && s.ch == []
  }

  lemma StepStop(c: Config, s: State, a: Step)
    requires StopOk(s) && a != EndReceive(true)
    ensures StopOk(Advance(c, s, a))
  {
    hide Requests, DueRows, WithoutIds, Deferred, Backoff;
  }

  /** Unless it is cancelled, the worker stops only when the queue has been closed and is empty. */
  lemma {:induction false} StopsOnlyIfClosed(c: Config, steps: seq<Step>)
    requires forall i :: 0 <= i < |steps| ==> steps[i] != EndReceive(true)
    ensures StopOk(Run(c, steps))
    decreases |steps|
  {
    hide Advance;
    if steps != [] {
      StopsOnlyIfClosed(c, steps[..|steps| - 1]);
      StepStop(c, Run(c, steps[..|steps| - 1]), steps[|steps| - 1]);
    }
  }

  /** No request is kept without a project as long as a project is active. */
  ghost predicate HaveProject(c: Config, s: State) {
    && (forall req :: req in s.calls ==> req.projectKey != 0)
    && (forall req :: req in s.direct ==> req.projectKey != 0)
    && (forall req :: req in s.accepted ==> req.projectKey != 0)
  }

  lemma EnqueueProject(c: Config, s: State, req: Request)
    requires c.activeProject != 0 && HaveProject(c, s)
    ensures HaveProject(c, Next(c, s, Enqueue(req)))
  {
  }

  lemma SpoolCallProject(c: Config, s: State, k: nat, ok: bool)
    requires HaveProject(c, s) && k < |s.calls|
    ensures HaveProject(c, Next(c, s, SpoolCall(k, ok)))
  {
    assert s.calls[k] in s.calls;
    assert forall req :: req in RemoveAt(s.calls, k) ==> req in s.calls;
    hide RemoveAt;
  }

  lemma DirectCallProject(c: Config, s: State, k: nat, ok: bool)
    requires HaveProject(c, s) && k < |s.direct|
    ensures HaveProject(c, Next(c, s, DirectCall(k, ok)))
  {
    assert s.direct[k] in s.direct;
    assert forall req :: req in RemoveAt(s.direct, k) ==> req in s.direct;
    hide RemoveAt;
  }

  lemma OtherProject(c: Config, s: State, a: Step)
    requires HaveProject(c, s) && !a.Enqueue? && !a.SpoolCall? && !a.DirectCall?
    ensures HaveProject(c, Advance(c, s, a))
  {
    hide HaveProject, Requests, DueRows, WithoutIds, Deferred, Backoff;
    var t := Advance(c, s, a);
    assert t.calls == s.calls && t.direct == s.direct && t.accepted == s.accepted;
    SameProject(c, s, t);
  }

  lemma SameProject(c: Config, s: State, t: State)
    requires HaveProject(c, s) && t.calls == s.calls && t.direct == s.direct && t.accepted == s.accepted
    ensures HaveProject(c, t)
  {
  }

  lemma StepProject(c: Config, s: State, a: Step)
    requires c.activeProject != 0 && HaveProject(c, s)
    ensures HaveProject(c, Advance(c, s, a))
  {
    hide HaveProject, Next;
    if Enabled(c, s, a) {
      match a
      case Enqueue(req) => EnqueueProject(c, s, req);
      case SpoolCall(k, ok) => SpoolCallProject(c, s, k, ok);
      case DirectCall(k, ok) => DirectCallProject(c, s, k, ok);
      case _ => OtherProject(c, s, a);
    }
  }

  lemma {:induction false} RequestsHaveProject(c: Config, steps: seq<Step>)
    requires c.activeProject != 0
    ensures HaveProject(c, Run(c, steps))
    decreases |steps|
  {
    hide Advance;
    if steps != [] {
      RequestsHaveProject(c, steps[..|steps| - 1]);
      StepProject(c, Run(c, steps[..|steps| - 1]), steps[|steps| - 1]);
    }
  }

  // ----- what becomes of the calls of producers

  /** The request that the step turns away for good: a full or closed queue, with no spool or a failing one, and no
      direct write or a failing one. */
  function RefusedAt(c: Config, s: State, a: Step): seq<Request> {
    match a
    case Enqueue(req) =>
      if (s.closed || |s.ch| >= Limit(c.capacity)) && !c.hasSpool && !c.syncFallback then [Keyed(c, req)] else []
    case SpoolCall(k, ok) => if k < |s.calls| && !ok && !c.syncFallback then [s.calls[k]] else []
    case DirectCall(k, ok) =>
      if k < |s.direct| && (!ok || s.direct[k].operation.Unsupported?) then [s.direct[k]] else []
    case _ => []
  }

  function Refusals(c: Config, steps: seq<Step>, req: Request): nat {
    if steps == [] then 0
    else
      var init := steps[..|steps| - 1];
      Refusals(c, init, req) + CountIn(RefusedAt(c, Run(c, init), steps[|steps| - 1]), req)
  }

  /** How many calls enqueue this request, once it has its project. */
  function EnqueueCalls(c: Config, steps: seq<Step>, req: Request): nat {
    if steps == [] then 0
    else
      var a := steps[|steps| - 1];
      EnqueueCalls(c, steps[..|steps| - 1], req) + if a.Enqueue? && Keyed(c, a.req) == req then 1 else 0
  }

  /** The calls still under way. */
  function UnderWay(s: State, req: Request): nat {
    CountIn(s.calls, req) + CountIn(s.direct, req)
  }

  lemma CountRemoved(q: seq<Request>, k: nat, req: Request)
    requires k < |q|
    ensures CountIn(q, req) == CountIn(RemoveAt(q, k), req) + CountIn([q[k]], req)
  {
    assert q == q[..k] + ([q[k]] + q[k + 1..]);
    CountCat(q[..k], [q[k]] + q[k + 1..], req);
    CountCat([q[k]], q[k + 1..], req);
    CountCat(q[..k], q[k + 1..], req);
  }

  lemma EnqueueSettles(c: Config, s: State, raw: Request, req: Request)
    ensures var t := Advance(c, s, Enqueue(raw));
            UnderWay(t, req) + t.accepted[req] + CountIn(RefusedAt(c, s, Enqueue(raw)), req) ==
              UnderWay(s, req) + s.accepted[req] + if Keyed(c, raw) == req then 1 else 0
  {
    hide CountIn, Limit;
    CountOne(Keyed(c, raw), req);
    CountCat(s.calls, [Keyed(c, raw)], req);
    CountCat(s.direct, [Keyed(c, raw)], req);
  }

  lemma SpoolCallSettles(c: Config, s: State, k: nat, ok: bool, req: Request)
    ensures var t := Advance(c, s, SpoolCall(k, ok));
            UnderWay(t, req) + t.accepted[req] + CountIn(RefusedAt(c, s, SpoolCall(k, ok)), req) ==
              UnderWay(s, req) + s.accepted[req]
  {
    hide CountIn, RemoveAt;
    CountOne(req, req);
    if k < |s.calls| {
      CountRemoved(s.calls, k, req);
      CountOne(s.calls[k], req);
      CountCat(s.direct, [s.calls[k]], req);
    }
  }

  lemma DirectCallSettles(c: Config, s: State, k: nat, ok: bool, req: Request)
    ensures var t := Advance(c, s, DirectCall(k, ok));
            UnderWay(t, req) + t.accepted[req] + CountIn(RefusedAt(c, s, DirectCall(k, ok)), req) ==
              UnderWay(s, req) + s.accepted[req]
  {
    hide CountIn, RemoveAt;
    CountOne(req, req);
    if k < |s.direct| {
      CountRemoved(s.direct, k, req);
      CountOne(s.direct[k], req);
    }
  }

  lemma OtherSettles(c: Config, s: State, a: Step)
    requires !a.Enqueue? && !a.SpoolCall? && !a.DirectCall?
    ensures var t := Advance(c, s, a);
            t.calls == s.calls && t.direct == s.direct && t.accepted == s.accepted && RefusedAt(c, s, a) == []
  {
    hide Requests, DueRows, WithoutIds, Deferred, Backoff, Limit;
  }

  /** Every call that enqueues a request is under way, has been accepted, or has been refused, and is refused only
      where all three ways out fail. */
  lemma {:induction false} EveryCallIsSettled(c: Config, steps: seq<Step>, req: Request)
    ensures EnqueueCalls(c, steps, req) ==
        UnderWay(Run(c, steps), req) + Run(c, steps).accepted[req] + Refusals(c, steps, req)
    decreases |steps|
  {
    hide CountIn, Advance, RefusedAt;
    CountOne(req, req);
    if steps != [] {
      var init, a := steps[..|steps| - 1], steps[|steps| - 1];
      EveryCallIsSettled(c, init, req);
      match a
      case Enqueue(raw) => EnqueueSettles(c, Run(c, init), raw, req);
      case SpoolCall(k, ok) => SpoolCallSettles(c, Run(c, init), k, ok, req);
      case DirectCall(k, ok) => DirectCallSettles(c, Run(c, init), k, ok, req);
      case _ => OtherSettles(c, Run(c, init), a);
    }
  }
}
