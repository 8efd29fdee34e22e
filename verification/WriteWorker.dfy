/** The write worker as a step system: producers, the worker's loop and every failure the environment may
    choose, interleaved in any order. */
module WriteWorker {
  import opened WriteQueues

  // ----- back-off

  function Pow2(n: nat): nat {
    if n == 0 then 1 else 2 * Pow2(n - 1)
  }

  const DEFAULT_BASE_DELAY: int := 500
  const DEFAULT_MAX_DELAY: int := 30_000

  function BaseDelay(configured: int): int {
    if configured <= 0 then DEFAULT_BASE_DELAY else configured
  }

  function MaxDelay(configured: int): int {
    if configured <= 0 then DEFAULT_MAX_DELAY else configured
  }

  /** The base delay doubled for each attempt after the first, but at most the maximum. */
  function Backoff(base: int, max: int, attempts: int): int {
    Capped(BaseDelay(base) * Pow2(if attempts < 1 then 0 else attempts - 1), MaxDelay(max))
  }

  function Capped(full: int, max: int): int {
    if full > max then max else full
  }

  lemma {:induction false} Pow2Positive(n: nat)
    ensures 1 <= Pow2(n)
  {
    if n > 0 {
      Pow2Positive(n - 1);
    }
  }

  lemma {:induction false} Pow2Grows(m: nat, n: nat)
    requires m <= n
    ensures 1 <= Pow2(m) <= Pow2(n)
    decreases n - m
  {
    Pow2Positive(m);
    if m < n {
      Pow2Grows(m, n - 1);
    }
  }

  /** Delays are in milliseconds. */
  method BackoffDelay(base: int, max: int, attempts: int) returns (delay: int)
    ensures delay == Backoff(base, max, attempts)
  {
    var n := if attempts < 1 then 1 else attempts;
    delay := BaseDelay(base);
    var maxDelay := MaxDelay(max);
    for i := 1 to n
      invariant delay == BaseDelay(base) * Pow2(i - 1)
    {
      delay := delay * 2;
      if delay >= maxDelay {
        Pow2Grows(i, n - 1);
        assert delay == BaseDelay(base) * Pow2(i);
        ProductGrows(BaseDelay(base), Pow2(i), Pow2(n - 1));
        return maxDelay;
      }
    }
    if delay > maxDelay {
      return maxDelay;
    }
  }

  lemma ProductGrows(a: int, b: int, c: int)
    requires 0 <= a && b <= c
    ensures a * b <= a * c
  {
  }

  /** A later attempt never waits less, and no wait exceeds the maximum. */
  lemma BackoffMonotone(base: int, max: int, m: int, n: int)
    requires m <= n
    ensures 0 < Backoff(base, max, m) <= Backoff(base, max, n) <= MaxDelay(max)
  {
    var i: nat, j: nat := if m < 1 then 0 else m - 1, if n < 1 then 0 else n - 1;
    Pow2Grows(i, j);
    ProductGrows(BaseDelay(base), Pow2(i), Pow2(j));
    ProductGrows(BaseDelay(base), 1, Pow2(i));
  }

  lemma ProductDoubles(a: int, n: nat)
    requires n > 0
    ensures a * Pow2(n) == 2 * (a * Pow2(n - 1))
  {
    var x, y := Pow2(n - 1), Pow2(n);
    hide Pow2;
    assert y == 2 * x;
    assert a * (2 * x) == 2 * (a * x);
  }

  lemma BackoffIsCapped(base: int, max: int, n: int)
    requires 0 < base && 0 < max
    ensures Backoff(base, max, n) == Capped(base * Pow2(if n < 1 then 0 else n - 1), max)
    ensures Pow2(0) == 1
  {
  }

  /** The first delay is the base delay and each later one twice the one before, as far as the maximum allows. */
  lemma BackoffDoubles(base: int, max: int, n: int)
    requires 0 < base && 0 < max
    ensures Backoff(base, max, n) ==
        if n <= 1 then Capped(base, max) else Capped(2 * Backoff(base, max, n - 1), max)
  {
    hide Backoff, Pow2;
    BackoffIsCapped(base, max, n);
    if n > 1 {
      BackoffIsCapped(base, max, n - 1);
      ProductDoubles(base, n - 1);
    }
  }

  /** With nothing configured: half a second at first, doubled up to half a minute. */
  lemma DefaultBackoff()
    ensures Backoff(0, 0, 1) == 500 && Backoff(0, 0, 2) == 1_000 && Backoff(0, 0, 6) == 16_000
    ensures Backoff(0, 0, 7) == 30_000
  {
    assert Pow2(1) == 2 && Pow2(5) == 32 && Pow2(6) == 64;
  }

  // ----- the state

  datatype Config = Config(capacity: int, batchSize: int, hasSpool: bool, syncFallback: bool, base: int, max: int,
    activeProject: int)

  /** A configured size that is not positive counts as one. */
  function Limit(configured: int): (n: nat)
    ensures n >= 1
  {
    if configured <= 0 then 1 else configured
  }

  /** Where the worker is: taking requests from memory, about to look at the spool, about to apply, about to
      acknowledge, spilling after a failed apply, about to put the spool rows off, or returned. */
  datatype Phase = Receiving | Fetching(eof: bool) | Applying | Acking | Spilling | Nacking | Stopped

  /** `calls` holds the requests whose producers were turned away by the memory queue and are about to try the spool,
      `direct` those about to be written to the store by their producers. `accepted` counts the requests that an
      enqueue took responsibility for, `lost` those dropped after a
      failed spill, `again` the commits whose acknowledgement failed, so that the rows stay in the spool. */
  datatype State = State(ch: seq<Request>, closed: bool, rows: seq<Row>, nextId: int, log: seq<Request>,
    calls: seq<Request>, direct: seq<Request>, phase: Phase, mem: seq<Request>, spooled: seq<Row>, now: int,
    accepted: multiset<Request>, lost: multiset<Request>, again: multiset<Request>)

  function Init(): State {
    State([], false, [], 1, [], [], [], Receiving, [], [], 0, multiset{}, multiset{}, multiset{})
  }

  /** One step. The booleans are the environment's choices of what succeeds. */
  datatype Step =
    | Enqueue(req: Request)
    | SpoolCall(k: nat, ok: bool)
    | DirectCall(k: nat, ok: bool)
    | CloseQueue
    | Tick(elapsed: nat)
    | Receive
    | EndReceive(canceled: bool)
    | Fetch(ok: bool)
    | Apply(ok: bool)
    | Ack(ok: bool)
    | Spill(ok: bool)
    | Nack(ok: bool)

  /** A request without a project gets the active one; nothing else changes. */
  function Keyed(c: Config, req: Request): (r: Request)
    ensures r.operation == req.operation && (req.projectKey != 0 ==> r == req)
  {
    if req.projectKey == 0 then req.(projectKey := c.activeProject) else req
  }

  function Inserted(s: State, req: Request): State {
    s.(rows := s.rows + [Row(s.nextId, req, 0, s.now)], nextId := s.nextId + 1)
  }

  function Committed(s: State, batch: seq<Request>): State {
    s.(log := s.log + batch)
  }

  function Responsible(s: State, req: Request): State {
    s.(accepted := s.accepted + multiset{req})
  }

  function RemoveAt(q: seq<Request>, k: nat): seq<Request>
    requires k < |q|
  {
    q[..k] + q[k + 1..]
  }

  /** A producer that the memory queue turns away tries the spool, if there is one. */
  function Enqueued(c: Config, s: State, req: Request): State {
    if !s.closed && |s.ch| < Limit(c.capacity) then Responsible(s, req).(ch := s.ch + [req])
    else if c.hasSpool then s.(calls := s.calls + [req])
    else Fallback(c, s, req)
  }

  /** As a last resort it writes to the store itself, if that is allowed; otherwise the call fails. */
  function Fallback(c: Config, s: State, req: Request): State {
    if c.syncFallback then s.(direct := s.direct + [req]) else s
  }

  function MaxAttempts(rows: seq<Row>): nat {
    if rows == [] then 0
    else
      var rest := MaxAttempts(rows[1..]);
      if rows[0].attempts > rest then rows[0].attempts else rest
  }

  function Batch(s: State): seq<Request> {
    s.mem + Requests(s.spooled)
  }

  predicate Enabled(c: Config, s: State, a: Step) {
    match a
    case Enqueue(_) => true
    case SpoolCall(k, _) => k < |s.calls|
    case DirectCall(k, _) => k < |s.direct|
    case CloseQueue => true
    case Tick(_) => true
    case Receive => s.phase.Receiving? && s.ch != [] && |s.mem| < Limit(c.batchSize)
    case EndReceive(canceled) => s.phase.Receiving? && (canceled ==> s.mem == [])
    case Fetch(_) => s.phase.Fetching?
    case Apply(_) => s.phase.Applying?
    case Ack(_) => s.phase.Acking?
    case Spill(_) => s.phase.Spilling?
    case Nack(_) => s.phase.Nacking?
  }

  function Next(c: Config, s: State, a: Step): State
    requires Enabled(c, s, a)
  {
    match a
    case Enqueue(req) => Enqueued(c, s, Keyed(c, req))
    case SpoolCall(k, ok) =>
      var rest := s.(calls := RemoveAt(s.calls, k));
      if ok then Inserted(Responsible(rest, s.calls[k]), s.calls[k]) else Fallback(c, rest, s.calls[k])
    case DirectCall(k, ok) =>
      var x, rest := s.direct[k], s.(direct := RemoveAt(s.direct, k));
      if ok && !x.operation.Unsupported? then Committed(Responsible(rest, x), [x]) else rest
    case CloseQueue => s.(closed := true)
    case Tick(elapsed) => s.(now := s.now + elapsed)
    case Receive => s.(ch := s.ch[1..], mem := s.mem + [s.ch[0]])
    case EndReceive(canceled) =>
      if canceled then s.(phase := Stopped) else s.(phase := Fetching(s.closed && s.ch == []))
    case Fetch(ok) =>
      var room := Limit(c.batchSize) - |s.mem|;
      var got := if room > 0 && c.hasSpool && ok then DueRows(s.rows, s.now, room) else [];
      if s.mem == [] && got == [] then s.(phase := if s.phase.eof then Stopped else Receiving)
      else s.(phase := Applying, spooled := got)
    case Apply(ok) =>
      if ok && AllSupported(Batch(s)) then Committed(s, Batch(s)).(mem := [], phase := Acking)
      else s.(phase := Spilling)
    case Ack(ok) =>
      if s.spooled == [] || ok then s.(rows := WithoutIds(s.rows, IdsOf(s.spooled)), spooled := [], phase := Receiving)
      else s.(again := s.again + multiset(Requests(s.spooled)), spooled := [], phase := Receiving)
    case Spill(ok) =>
      if s.mem == [] then s.(phase := Nacking)
      else
        var rest := s.(mem := s.mem[1..]);
        if c.hasSpool && ok then Inserted(rest, s.mem[0]) else rest.(lost := s.lost + multiset{s.mem[0]})
    case Nack(ok) =>
      var due := s.now + Backoff(c.base, c.max, MaxAttempts(s.spooled) + 1);
      s.(rows := if ok then Deferred(s.rows, s.spooled, due) else s.rows, spooled := [], phase := Receiving)
  }

  /** A step that is not possible changes nothing. */
  function Advance(c: Config, s: State, a: Step): State {
    if Enabled(c, s, a) then Next(c, s, a) else s
  }

  function Run(c: Config, steps: seq<Step>): State {
    if steps == [] then Init() else Advance(c, Run(c, steps[..|steps| - 1]), steps[|steps| - 1])
  }

  // ----- what every step keeps

  ghost predicate WorkerOk(c: Config, s: State) {
    && SpoolOk(s.rows, s.nextId)
    && PartOf(s.spooled, s.rows)
    && (s.phase.Receiving? || s.phase.Fetching? || s.phase.Stopped? ==> s.spooled == [])
    && (s.phase.Acking? || s.phase.Nacking? || s.phase.Stopped? ==> s.mem == [])
    && (!c.hasSpool ==> s.rows == [] && s.calls == [])
    && |s.ch| <= Limit(c.capacity)
    && AllSupported(s.log)
  }

  /** How often `req` occurs in `q`. */
  function CountIn(q: seq<Request>, req: Request): nat {
    multiset(q)[req]
  }

  /** How often `req` is held: waiting in the channel, in the batch in hand or in the spool, committed, or lost. */
  function Held(s: State, req: Request): nat {
    CountIn(s.ch, req) + CountIn(s.mem, req) + CountIn(Requests(s.rows), req) + CountIn(s.log, req) + s.lost[req]
  }

  /** How often `req` is committed and still in the spool, waiting for its acknowledgement. */
  function Unacked(s: State, req: Request): nat {
    if s.phase.Acking? then CountIn(Requests(s.spooled), req) else 0
  }

  /** The ledger: what is held is what was accepted, plus the commits that are recorded twice. */
  predicate Balanced(s: State, req: Request) {
    Held(s, req) == s.accepted[req] + s.again[req] + Unacked(s, req)
  }

  // How the steps move one request about.

  lemma CountCat(a: seq<Request>, b: seq<Request>, req: Request)
    ensures CountIn(a + b, req) == CountIn(a, req) + CountIn(b, req)
  {
    assert multiset(a + b) == multiset(a) + multiset(b);
  }

  lemma CountOne(x: Request, req: Request)
    ensures CountIn([x], req) == (if x == req then 1 else 0) == multiset{x}[req]
    ensures CountIn([], req) == 0
  {
  }

  lemma CountHead(q: seq<Request>, req: Request)
    requires q != []
    ensures CountIn(q, req) == CountIn(q[1..], req) + if q[0] == req then 1 else 0
  {
    assert q == [q[0]] + q[1..];
    CountCat([q[0]], q[1..], req);
    CountOne(q[0], req);
  }

  lemma CountInserted(s: State, x: Request, req: Request)
    ensures CountIn(Requests(Inserted(s, x).rows), req) == CountIn(Requests(s.rows), req) + CountIn([x], req)
  {
    var row := Row(s.nextId, x, 0, s.now);
    assert Requests(s.rows + [row]) == Requests(s.rows) + [x];
    CountCat(Requests(s.rows), [x], req);
  }

  lemma EnqueueBalances(c: Config, s: State, raw: Request, req: Request)
    requires Balanced(s, req)
    ensures Balanced(Next(c, s, Enqueue(raw)), req)
  {
    hide CountIn, Requests;
    CountOne(Keyed(c, raw), req);
    CountCat(s.ch, [Keyed(c, raw)], req);
  }

  lemma SpoolCallBalances(c: Config, s: State, k: nat, ok: bool, req: Request)
    requires Balanced(s, req) && k < |s.calls|
    ensures Balanced(Next(c, s, SpoolCall(k, ok)), req)
  {
    hide CountIn, Requests;
    var x := s.calls[k];
    CountInserted(Responsible(s.(calls := RemoveAt(s.calls, k)), x), x, req);
    CountOne(x, req);
  }

  lemma DirectCallBalances(c: Config, s: State, k: nat, ok: bool, req: Request)
    requires Balanced(s, req) && k < |s.direct|
    ensures Balanced(Next(c, s, DirectCall(k, ok)), req)
  {
    hide CountIn, Requests;
    CountOne(s.direct[k], req);
    CountCat(s.log, [s.direct[k]], req);
  }

  lemma ApplyBalances(c: Config, s: State, ok: bool, req: Request)
    requires Balanced(s, req) && s.phase.Applying?
    ensures Balanced(Next(c, s, Apply(ok)), req)
  {
    CountCat(s.log, Batch(s), req);
    CountCat(s.mem, Requests(s.spooled), req);
    assert CountIn([], req) == 0;
    hide CountIn, Requests;
  }

  lemma AckBalances(c: Config, s: State, ok: bool, req: Request)
    requires WorkerOk(c, s) && Balanced(s, req) && s.phase.Acking?
    ensures Balanced(Next(c, s, Ack(ok)), req)
  {
    RemovalSplits(s.rows, s.spooled, s.nextId);
    assert CountIn(Requests(s.rows), req) ==
        CountIn(Requests(WithoutIds(s.rows, IdsOf(s.spooled))), req) + CountIn(Requests(s.spooled), req);
    assert multiset(Requests(s.spooled))[req] == CountIn(Requests(s.spooled), req);
    hide CountIn, Requests, WorkerOk, WithoutIds;
  }

  lemma SpillBalances(c: Config, s: State, ok: bool, req: Request)
    requires Balanced(s, req) && s.phase.Spilling?
    ensures Balanced(Next(c, s, Spill(ok)), req)
  {
    if s.mem != [] {
      CountHead(s.mem, req);
      CountOne(s.mem[0], req);
      CountInserted(s.(mem := s.mem[1..]), s.mem[0], req);
    }
    hide CountIn, Requests;
  }

  lemma NackBalances(c: Config, s: State, ok: bool, req: Request)
    requires Balanced(s, req) && s.phase.Nacking?
    ensures Balanced(Next(c, s, Nack(ok)), req)
  {
    DeferredKeeps(s.rows, s.spooled, s.now + Backoff(c.base, c.max, MaxAttempts(s.spooled) + 1));
    hide CountIn, Requests, Deferred;
  }

  lemma ReceiveBalances(c: Config, s: State, req: Request)
    requires Balanced(s, req) && Enabled(c, s, Receive)
    ensures Balanced(Next(c, s, Receive), req)
  {
    CountHead(s.ch, req);
    CountCat(s.mem, [s.ch[0]], req);
    CountOne(s.ch[0], req);
    hide CountIn, Requests;
  }

  lemma OtherBalances(c: Config, s: State, a: Step, req: Request)
    requires Balanced(s, req) && Enabled(c, s, a)
    requires a.CloseQueue? || a.Tick? || a.EndReceive? || a.Fetch?
    ensures Balanced(Next(c, s, a), req)
  {
    hide CountIn, Requests, DueRows;
  }

  lemma AdvanceBalances(c: Config, s: State, a: Step, req: Request)
    requires WorkerOk(c, s) && Balanced(s, req)
    ensures Balanced(Advance(c, s, a), req)
  {
    hide Balanced, WorkerOk, Next;
    if Enabled(c, s, a) {
      match a
      case Enqueue(x) => EnqueueBalances(c, s, x, req);
      case SpoolCall(k, ok) => SpoolCallBalances(c, s, k, ok, req);
      case DirectCall(k, ok) => DirectCallBalances(c, s, k, ok, req);
      case Receive => ReceiveBalances(c, s, req);
      case Apply(ok) => ApplyBalances(c, s, ok, req);
      case Ack(ok) => AckBalances(c, s, ok, req);
      case Spill(ok) => SpillBalances(c, s, ok, req);
      case Nack(ok) => NackBalances(c, s, ok, req);
      case _ => OtherBalances(c, s, a, req);
    }
  }

  // The state stays well formed.

  lemma PartOfEmpty(rows: seq<Row>)
    ensures PartOf([], rows)
  {
  }

  lemma InsertedKeeps(c: Config, s: State, req: Request)
    requires WorkerOk(c, s) && c.hasSpool
    ensures WorkerOk(c, Inserted(s, req))
  {
  }

  lemma SpoolCallKeeps(c: Config, s: State, k: nat, ok: bool)
    requires WorkerOk(c, s) && k < |s.calls|
    ensures WorkerOk(c, Next(c, s, SpoolCall(k, ok)))
  {
    hide SpoolOk, PartOf;
    InsertedKeeps(c, Responsible(s.(calls := RemoveAt(s.calls, k)), s.calls[k]), s.calls[k]);
  }

  lemma FetchKeeps(c: Config, s: State, ok: bool)
    requires WorkerOk(c, s) && s.phase.Fetching?
    ensures WorkerOk(c, Next(c, s, Fetch(ok)))
  {
    if |s.mem| < Limit(c.batchSize) {
      DuePartOf(s.rows, s.now, Limit(c.batchSize) - |s.mem|, s.nextId);
    }
    PartOfEmpty(s.rows);
    hide SpoolOk, PartOf, DueRows, AllSupported;
  }

  lemma AckKeeps(c: Config, s: State, ok: bool)
    requires WorkerOk(c, s) && s.phase.Acking?
    ensures WorkerOk(c, Next(c, s, Ack(ok)))
  {
    var left := WithoutIds(s.rows, IdsOf(s.spooled));
    WithoutKeeps(s.rows, IdsOf(s.spooled), s.nextId);
    PartOfEmpty(s.rows);
    PartOfEmpty(left);
    assert s.rows == [] ==> left == [];
    hide SpoolOk, PartOf, AllSupported, WithoutIds, Requests;
  }

  lemma SpillKeeps(c: Config, s: State, ok: bool)
    requires WorkerOk(c, s) && s.phase.Spilling?
    ensures WorkerOk(c, Next(c, s, Spill(ok)))
  {
    if s.mem != [] && c.hasSpool {
      InsertedKeeps(c, s.(mem := s.mem[1..]), s.mem[0]);
    }
    hide SpoolOk, PartOf, AllSupported;
  }

  lemma NackKeeps(c: Config, s: State, ok: bool)
    requires WorkerOk(c, s) && s.phase.Nacking?
    ensures WorkerOk(c, Next(c, s, Nack(ok)))
  {
    var due := s.now + Backoff(c.base, c.max, MaxAttempts(s.spooled) + 1);
    DeferredKeeps(s.rows, s.spooled, due);
    assert SpoolOk(Deferred(s.rows, s.spooled, due), s.nextId);
    PartOfEmpty(s.rows);
    PartOfEmpty(Deferred(s.rows, s.spooled, due));
    hide SpoolOk, PartOf, Requests, Backoff, AllSupported;
  }

  lemma EnqueueKeeps(c: Config, s: State, x: Request)
    requires WorkerOk(c, s)
    ensures WorkerOk(c, Next(c, s, Enqueue(x)))
  {
    hide SpoolOk, PartOf;
  }

  lemma DirectCallKeeps(c: Config, s: State, k: nat, ok: bool)
    requires WorkerOk(c, s) && k < |s.direct|
    ensures WorkerOk(c, Next(c, s, DirectCall(k, ok)))
  {
    hide SpoolOk, PartOf;
  }

  lemma ApplyKeeps(c: Config, s: State, ok: bool)
    requires WorkerOk(c, s) && s.phase.Applying?
    ensures WorkerOk(c, Next(c, s, Apply(ok)))
  {
    hide SpoolOk, PartOf, Requests;
  }

  lemma OtherKeeps(c: Config, s: State, a: Step)
    requires WorkerOk(c, s) && Enabled(c, s, a)
    requires a.CloseQueue? || a.Tick? || a.Receive? || a.EndReceive?
    ensures WorkerOk(c, Next(c, s, a))
  {
    hide SpoolOk, PartOf;
  }

  lemma AdvanceKeeps(c: Config, s: State, a: Step)
    requires WorkerOk(c, s)
    ensures WorkerOk(c, Advance(c, s, a))
  {
    hide WorkerOk, Next;
    if Enabled(c, s, a) {
      match a
      case Enqueue(x) => EnqueueKeeps(c, s, x);
      case SpoolCall(k, ok) => SpoolCallKeeps(c, s, k, ok);
      case DirectCall(k, ok) => DirectCallKeeps(c, s, k, ok);
      case Fetch(ok) => FetchKeeps(c, s, ok);
      case Apply(ok) => ApplyKeeps(c, s, ok);
      case Ack(ok) => AckKeeps(c, s, ok);
      case Spill(ok) => SpillKeeps(c, s, ok);
      case Nack(ok) => NackKeeps(c, s, ok);
      case _ => OtherKeeps(c, s, a);
    }
  }

  lemma {:induction false} RunOk(c: Config, steps: seq<Step>)
    ensures WorkerOk(c, Run(c, steps))
    decreases |steps|
  {
    if steps != [] {
      RunOk(c, steps[..|steps| - 1]);
      AdvanceKeeps(c, Run(c, steps[..|steps| - 1]), steps[|steps| - 1]);
    }
  }

  /** Conservation over every run: nothing the pipeline accepted ever leaves the books. */
  lemma {:induction false} Conservation(c: Config, steps: seq<Step>, req: Request)
    ensures Balanced(Run(c, steps), req)
    decreases |steps|
  {
    if steps != [] {
      RunOk(c, steps[..|steps| - 1]);
      Conservation(c, steps[..|steps| - 1], req);
      AdvanceBalances(c, Run(c, steps[..|steps| - 1]), steps[|steps| - 1], req);
    }
  }

  // ----- when nothing is lost, and when everything is committed once

  /** The step drops a request: it spills one and cannot, for want of a spool or because the write fails. */
  predicate Drops(c: Config, s: State, a: Step) {
    a.Spill? && s.phase.Spilling? && s.mem != [] && !(c.hasSpool && a.ok)
  }

  predicate NeverDrops(c: Config, steps: seq<Step>) {
    steps == [] ||
    (NeverDrops(c, steps[..|steps| - 1]) && !Drops(c, Run(c, steps[..|steps| - 1]), steps[|steps| - 1]))
  }

  /** The step commits spooled rows and fails to acknowledge them. */
  predicate LeavesUnacked(s: State, a: Step) {
    a.Ack? && s.phase.Acking? && s.spooled != [] && !a.ok
  }

  predicate AlwaysAcks(c: Config, steps: seq<Step>) {
    steps == [] ||
    (AlwaysAcks(c, steps[..|steps| - 1]) && !LeavesUnacked(Run(c, steps[..|steps| - 1]), steps[|steps| - 1]))
  }

  /** A request is lost exactly when, somewhere in the run, a spill fails. */
  lemma {:induction false} LostIffDropped(c: Config, steps: seq<Step>)
    ensures Run(c, steps).lost == multiset{} <==> NeverDrops(c, steps)
    decreases |steps|
  {
    hide Advance, Drops;
    if steps != [] {
      LostIffDropped(c, steps[..|steps| - 1]);
      LossGrows(c, Run(c, steps[..|steps| - 1]), steps[|steps| - 1]);
    }
  }

  lemma LossGrows(c: Config, s: State, a: Step)
    ensures Advance(c, s, a).lost == multiset{} <==> s.lost == multiset{} && !Drops(c, s, a)
  {
    hide DueRows, WithoutIds, Deferred, Requests, Backoff;
    if Drops(c, s, a) {
      assert s.mem[0] in Advance(c, s, a).lost;
    } else {
      assert Advance(c, s, a).lost == s.lost;
    }
  }

  /** The ledger records a commit whose row stays in the spool exactly when some acknowledgement fails. */
  lemma {:induction false} AgainIffUnacked(c: Config, steps: seq<Step>)
    ensures Run(c, steps).again == multiset{} <==> AlwaysAcks(c, steps)
    decreases |steps|
  {
    if steps != [] {
      var init, a := steps[..|steps| - 1], steps[|steps| - 1];
      AgainIffUnacked(c, init);
      AgainGrows(c, Run(c, init), a);
      hide Advance, LeavesUnacked;
    }
  }

  lemma AgainGrows(c: Config, s: State, a: Step)
    ensures Advance(c, s, a).again == multiset{} <==> s.again == multiset{} && !LeavesUnacked(s, a)
  {
    if LeavesUnacked(s, a) {
      assert Requests(s.spooled)[0] in Requests(s.spooled);
      assert Requests(s.spooled)[0] in Advance(c, s, a).again;
    } else {
      assert Advance(c, s, a).again == s.again;
    }
  }

  /** At least once: if no spill fails, every acceptance is accounted for by a copy in the channel, in the
      batch in hand, in the spool or in the committed log. */
  lemma NothingLost(c: Config, steps: seq<Step>, req: Request)
    requires NeverDrops(c, steps)
    ensures var s := Run(c, steps);
            s.accepted[req] <=
              CountIn(s.ch, req) + CountIn(s.mem, req) + CountIn(Requests(s.rows), req) + CountIn(s.log, req)
  {
    Conservation(c, steps, req);
    LostIffDropped(c, steps);
  }

  /** With a spool whose writes succeed, no spill fails. */
  lemma {:induction false} SpoolPreventsDrops(c: Config, steps: seq<Step>)
    requires c.hasSpool && forall i :: 0 <= i < |steps| && steps[i].Spill? ==> steps[i].ok
    ensures NeverDrops(c, steps)
    decreases |steps|
  {
    if steps != [] {
      SpoolPreventsDrops(c, steps[..|steps| - 1]);
    }
  }

  /** Exactly once: if no spill and no acknowledgement fails, then except between a commit and its
      acknowledgement a request waits or is committed exactly as often as it was accepted. */
  lemma ExactlyOnce(c: Config, steps: seq<Step>, req: Request)
    requires NeverDrops(c, steps) && AlwaysAcks(c, steps) && !Run(c, steps).phase.Acking?
    ensures var s := Run(c, steps);
            CountIn(s.ch, req) + CountIn(s.mem, req) + CountIn(Requests(s.rows), req) + CountIn(s.log, req) ==
              s.accepted[req]
  {
    Conservation(c, steps, req);
    LostIffDropped(c, steps);
    AgainIffUnacked(c, steps);
  }

  /** How many copies of `req` are waiting, in hand, spooled or committed. */
  function Copies(s: State, req: Request): nat {
    CountIn(s.ch, req) + CountIn(s.mem, req) + CountIn(Requests(s.rows), req) + CountIn(s.log, req)
  }

  lemma CopiesAreHeld(s: State, req: Request)
    ensures Copies(s, req) + s.lost[req] == Held(s, req)
  {
  }

  lemma SomeIn(m: multiset<Request>) returns (req: Request)
    requires m != multiset{}
    ensures m[req] > 0
  {
    req :| req in m;
  }

  /** If every acknowledgement succeeds, then except between a commit and its acknowledgement each request is in as
      many places as it was accepted exactly when no spill fails: otherwise some accepted request is nowhere. */
  lemma EveryCopyIffNeverDrops(c: Config, steps: seq<Step>)
    requires AlwaysAcks(c, steps) && !Run(c, steps).phase.Acking?
    ensures (forall req :: Copies(Run(c, steps), req) == Run(c, steps).accepted[req]) <==> NeverDrops(c, steps)
  {
    hide Run, AlwaysAcks, NeverDrops, Copies, Held;
    var s := Run(c, steps);
    LostIffDropped(c, steps);
    AgainIffUnacked(c, steps);
    forall req
      ensures Copies(s, req) + s.lost[req] == s.accepted[req]
    {
      CopiesAreHeld(s, req);
      Conservation(c, steps, req);
    }
    if s.lost != multiset{} {
      var req := SomeIn(s.lost);
      assert Copies(s, req) != s.accepted[req];
    }
  }

  /** If no spill fails, then except between a commit and its acknowledgement each request is in as many places as
      it was accepted exactly when every acknowledgement succeeds: otherwise some request is in one place too many,
      committed and still in the spool. */
  lemma NoExtraCopyIffAcked(c: Config, steps: seq<Step>)
    requires NeverDrops(c, steps) && !Run(c, steps).phase.Acking?
    ensures (forall req :: Copies(Run(c, steps), req) == Run(c, steps).accepted[req]) <==> AlwaysAcks(c, steps)
  {
    hide Run, AlwaysAcks, NeverDrops, Copies, Held;
    var s := Run(c, steps);
    LostIffDropped(c, steps);
    AgainIffUnacked(c, steps);
    forall req
      ensures Copies(s, req) == s.accepted[req] + s.again[req]
    {
      CopiesAreHeld(s, req);
      Conservation(c, steps, req);
    }
    if s.again != multiset{} {
      var req := SomeIn(s.again);
      assert Copies(s, req) != s.accepted[req];
    }
  }

  /** Nothing waits any more and no batch is in hand. */
  predicate Delivered(s: State) {
    s.ch == [] && s.mem == [] && s.rows == [] && !s.phase.Acking?
  }

  /** When everything is delivered and no spill has failed, some request is committed more often than it was
      accepted exactly when some acknowledgement has failed. */
  lemma RepeatedIffUnacked(c: Config, steps: seq<Step>)
    requires NeverDrops(c, steps) && Delivered(Run(c, steps))
    ensures (exists req :: CountIn(Run(c, steps).log, req) > Run(c, steps).accepted[req]) <==> !AlwaysAcks(c, steps)
  {
    hide Run, AlwaysAcks, NeverDrops, Copies, Held;
    var s := Run(c, steps);
    LostIffDropped(c, steps);
    AgainIffUnacked(c, steps);
    forall req
      ensures CountIn(s.log, req) == s.accepted[req] + s.again[req]
    {
      CopiesAreHeld(s, req);
      Conservation(c, steps, req);
      DeliveredCopies(s, req);
    }
    if s.again != multiset{} {
      var req := SomeIn(s.again);
      assert CountIn(s.log, req) > s.accepted[req];
    }
  }

  lemma DeliveredCopies(s: State, req: Request)
    requires Delivered(s)
    ensures Copies(s, req) == CountIn(s.log, req)
  {
  }

  lemma SpooledHeld(c: Config, s: State, req: Request)
    requires WorkerOk(c, s)
    ensures CountIn(Requests(s.spooled), req) <= CountIn(Requests(s.rows), req)
  {
    RemovalSplits(s.rows, s.spooled, s.nextId);
  }

  /** What a step records as committed twice was held before it. */
  lemma AgainWasHeld(c: Config, s: State, a: Step, req: Request)
    requires WorkerOk(c, s)
    ensures Advance(c, s, a).again[req] <= s.again[req] + CountIn(Requests(s.spooled), req)
  {
    hide Requests, WorkerOk, Backoff, DueRows, WithoutIds, Deferred, Limit;
    assert multiset(Requests(s.spooled))[req] == CountIn(Requests(s.spooled), req);
  }

  lemma UnackedWasHeld(c: Config, s: State, a: Step, req: Request)
    requires WorkerOk(c, s)
    ensures Unacked(Advance(c, s, a), req) <= CountIn(Requests(s.spooled), req)
  {
    hide Requests, WorkerOk, CountIn, Backoff, DueRows, WithoutIds, Deferred, Limit;
    var t := Advance(c, s, a);
    assert t.phase.Acking? ==> t.spooled == s.spooled;
  }

  lemma AcceptedGrows(c: Config, s: State, a: Step, req: Request)
    ensures s.accepted[req] <= Advance(c, s, a).accepted[req]
  {
    hide Requests, Backoff, DueRows, WithoutIds, Deferred, Limit;
  }

  /** Nothing is invented: whatever is held, committed or lost was accepted. */
  lemma {:induction false} NothingInvented(c: Config, steps: seq<Step>, req: Request)
    ensures Held(Run(c, steps), req) > 0 ==> Run(c, steps).accepted[req] > 0
    decreases |steps|
  {
    if steps != [] {
      var init, a := steps[..|steps| - 1], steps[|steps| - 1];
      NothingInvented(c, init, req);
      Conservation(c, init, req);
      Conservation(c, steps, req);
      RunOk(c, init);
      SpooledHeld(c, Run(c, init), req);
      AgainWasHeld(c, Run(c, init), a, req);
      UnackedWasHeld(c, Run(c, init), a, req);
      AcceptedGrows(c, Run(c, init), a, req);
    }
  }

  /** Without a spool a failed apply loses the batch: three steps after one accepted request it is in none
      of the places left to it. */
  lemma LossWithoutSpool()
    ensures var req := Request(1, UpsertFile(7, 7));
            var s := Run(Config(1, 1, false, false, 0, 0, 0), LossySteps(req));
            s.accepted == multiset{req} && s.ch == [] && s.mem == [] && s.rows == [] && s.log == [] &&
              s.lost == multiset{req}
  {
    hide Run, DueRows, WithoutIds, Deferred, Backoff, PerformAll;
    var c, req := Config(1, 1, false, false, 0, 0, 0), Request(1, UpsertFile(7, 7));
    var steps := LossySteps(req);
    var s := TakenInHand(c, req);
    RunPrefix(c, steps, 3);
    assert Run(c, steps[..4]) == s.(phase := Applying);
    RunPrefix(c, steps, 4);
    assert Run(c, steps[..5]) == s.(phase := Spilling);
    RunPrefix(c, steps, 5);
    assert steps[..6] == steps;
  }

  function LossySteps(req: Request): seq<Step> {
    [Enqueue(req), Receive, EndReceive(false), Fetch(true), Apply(false), Spill(true)]
  }

  lemma TakenInHand(c: Config, req: Request) returns (s: State)
    requires c == Config(1, 1, false, false, 0, 0, 0) && req == Request(1, UpsertFile(7, 7))
    ensures s == Init().(accepted := multiset{req}, mem := [req], phase := Fetching(false))
    ensures Run(c, LossySteps(req)[..3]) == s
  {
    var steps := LossySteps(req);
    var s0 := Init().(accepted := multiset{req}, ch := [req]);
    assert Run(c, steps[..0]) == Init();
    hide Run;
    RunPrefix(c, steps, 0);
    assert Run(c, steps[..1]) == s0;
    RunPrefix(c, steps, 1);
    assert Run(c, steps[..2]) == s0.(ch := [], mem := [req]);
    RunPrefix(c, steps, 2);
    s := s0.(ch := [], mem := [req], phase := Fetching(false));
  }

  lemma RunPrefix(c: Config, steps: seq<Step>, n: nat)
    requires n < |steps|
    ensures Run(c, steps[..n + 1]) == Advance(c, Run(c, steps[..n]), steps[n])
  {
    assert steps[..n + 1][..n] == steps[..n];
  }
}
