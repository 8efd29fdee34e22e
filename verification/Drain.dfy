/** Draining the queue and the spool at shutdown, when no producer runs any more. */
module Drain {
  import opened Collections
  import opened WriteQueues
  import WriteWorker

  datatype DrainResult = Drained | QueueCanceled | SpoolReadFailed | ApplyFailed | AckFailed

  ghost function Waiting(queue: MemoryQueue?): seq<Request>
    reads queue
  {
    if queue == null then [] else queue.ch
  }

  ghost function Spooled(spool: SQLiteSpool?): seq<Row>
    reads spool
  {
    if spool == null then [] else spool.rows
  }

  ghost predicate Ready(queue: MemoryQueue?, spool: SQLiteSpool?, store: SymbolStore)
    reads queue, spool, store
  {
    && (queue != null ==> queue.Valid())
    && (spool != null ==> spool.Valid())
    && store.Valid()
  }

  /** `left` is what remains of `rows` when the rows in `taken` are gone. */
  ghost predicate Leaves(rows: seq<Row>, taken: seq<Row>, left: seq<Row>) {
    && (forall row :: row in left <==> row in rows && row !in taken)
    && (forall row :: row in taken ==> row in rows)
    && Distinct(taken)
  }

  /** Each row was due when it was taken, and it overtook only rows with smaller ids that were not. */
  ghost predicate InOrder(taken: seq<Row>, at: seq<int>) {
    && |at| == |taken|
    && (forall i :: 0 <= i < |taken| ==> taken[i].due <= at[i])
    && (forall i, j :: 0 <= i < j < |taken| ==> at[i] <= at[j])
    && (forall i, j :: 0 <= i < j < |taken| && taken[j].id < taken[i].id ==> taken[j].due > at[i])
  }

  /** No row left in the table overtakes a taken one without reason. */
  ghost predicate NoneSkipped(taken: seq<Row>, at: seq<int>, left: seq<Row>)
    requires |at| == |taken|
  {
    forall i, row :: 0 <= i < |taken| && row in left && row.id < taken[i].id ==> row.due > at[i]
  }

  ghost predicate Progress(rows: seq<Row>, taken: seq<Row>, at: seq<int>, left: seq<Row>, now: int) {
    && Leaves(rows, taken, left)
    && InOrder(taken, at)
    && NoneSkipped(taken, at, left)
    && (forall i :: 0 <= i < |at| ==> at[i] <= now)
  }

  function Repeat(n: nat, x: int): (r: seq<int>)
    ensures |r| == n && forall i :: 0 <= i < n ==> r[i] == x
  {
    seq(n, _ => x)
  }

  lemma BatchLeaves(rows: seq<Row>, taken: seq<Row>, left: seq<Row>, nextId: int, batch: seq<Row>)
    requires Leaves(rows, taken, left) && SpoolOk(left, nextId) && PartOf(batch, left)
    ensures Leaves(rows, taken + batch, WithoutIds(left, IdsOf(batch)))
  {
    WithoutContents(left, IdsOf(batch));
    forall row
      ensures row in WithoutIds(left, IdsOf(batch)) <==> row in rows && row !in taken + batch
    {
      if row in left && row.id in IdsOf(batch) {
        var other :| other in batch && other.id == row.id;
        UniqueIds(left, nextId, row, other);
      }
    }
    var all := taken + batch;
    forall i, j | 0 <= i < j < |all|
      ensures all[i] != all[j]
    {
      if i < |taken| <= j {
        assert batch[j - |taken|] in batch && taken[i] in taken;
      }
    }
  }

  lemma BatchInOrder(taken: seq<Row>, at: seq<int>, left: seq<Row>, nextId: int, now: int, max: nat)
    requires InOrder(taken, at) && NoneSkipped(taken, at, left) && SpoolOk(left, nextId)
    requires forall i :: 0 <= i < |at| ==> at[i] <= now
    ensures var batch := DueRows(left, now, max);
            InOrder(taken + batch, at + Repeat(|batch|, now))
  {
    var batch := DueRows(left, now, max);
    DuePartOf(left, now, max, nextId);
    var all, times := taken + batch, at + Repeat(|batch|, now);
    forall i | 0 <= i < |all|
      ensures all[i].due <= times[i]
    {
      if i >= |taken| {
        assert batch[i - |taken|] in batch;
      }
    }
    forall i, j | 0 <= i < j < |all| && all[j].id < all[i].id
      ensures all[j].due > times[i]
    {
      if j >= |taken| {
        assert batch[j - |taken|] in batch && all[j] in left;
      }
    }
  }

  lemma BatchSkipsNone(taken: seq<Row>, at: seq<int>, left: seq<Row>, nextId: int, now: int, max: nat)
    requires |at| == |taken| && NoneSkipped(taken, at, left) && SpoolOk(left, nextId)
    ensures var batch := DueRows(left, now, max);
            NoneSkipped(taken + batch, at + Repeat(|batch|, now), WithoutIds(left, IdsOf(batch)))
  {
    var batch := DueRows(left, now, max);
    DuePartOf(left, now, max, nextId);
    WithoutContents(left, IdsOf(batch));
    var all, times := taken + batch, at + Repeat(|batch|, now);
    forall i, row | 0 <= i < |all| && row in WithoutIds(left, IdsOf(batch)) && row.id < all[i].id
      ensures row.due > times[i]
    {
      if i >= |taken| {
        assert batch[i - |taken|] in batch;
        if row.due <= now && row !in batch {
          DueTakesFirst(left, now, max, nextId, row);
        }
      }
    }
  }

  lemma BatchProgress(rows: seq<Row>, taken: seq<Row>, at: seq<int>, left: seq<Row>, nextId: int, now: int, max: nat)
    requires Progress(rows, taken, at, left, now) && SpoolOk(left, nextId)
    ensures var batch := DueRows(left, now, max);
            Progress(rows, taken + batch, at + Repeat(|batch|, now), WithoutIds(left, IdsOf(batch)), now)
  {
    DuePartOf(left, now, max, nextId);
    BatchLeaves(rows, taken, left, nextId, DueRows(left, now, max));
    BatchInOrder(taken, at, left, nextId, now, max);
    BatchSkipsNone(taken, at, left, nextId, now, max);
    hide Leaves, InOrder, NoneSkipped;
  }

  /** An empty batch with room to spare means that no row is due. */
  lemma NothingDue(left: seq<Row>, nextId: int, now: int, max: nat)
    requires SpoolOk(left, nextId) && max > 0 && DueRows(left, now, max) == []
    ensures forall row :: row in left ==> row.due > now
  {
    forall row | row in left
      ensures row.due > now
    {
      if row.due <= now {
        DueTakesFirst(left, now, max, nextId, row);
      }
    }
  }

  lemma RequestsCat(a: seq<Row>, b: seq<Row>)
    ensures Requests(a + b) == Requests(a) + Requests(b)
  {
  }

  /** Memory requests are committed before any row, or no more of them are left. */
  lemma LogGrows(log0: seq<Request>, done: seq<Request>, taken: seq<Row>, mem: seq<Request>, rows: seq<Row>)
    requires taken == [] || mem == []
    ensures log0 + done + Requests(taken) + (mem + Requests(rows)) == log0 + (done + mem) + Requests(taken + rows)
  {
    RequestsCat(taken, rows);
    hide Requests;
    if taken == [] {
      assert Requests(taken) == [] by {
        NoRequests();
      }
    }
  }

  lemma NoRequests()
    ensures Requests([]) == []
  {
  }

  method TakeMemory(queue: MemoryQueue?, batchSize: nat, canceled: bool)
    returns (batch: seq<Request>, status: DequeueStatus)
    requires queue != null ==> queue.Valid()
    requires batchSize >= 1
    modifies queue
    ensures queue != null ==> queue.closed == old(queue.closed)
    ensures queue != null ==> queue.Valid()
    ensures old(Waiting(queue)) == batch + Waiting(queue)
    ensures |batch| <= batchSize
    ensures status == Canceled ==> batch == []
    ensures status != Canceled && |batch| < batchSize ==> Waiting(queue) == []
  {
    if queue == null {
      return [], Fine;
    }
    batch, status := queue.DequeueBatch(batchSize, 0, canceled);
  }

  /** The same requests under the same ids; attempts and due times may differ. */
  ghost predicate SameRequests(a: seq<Row>, b: seq<Row>) {
    |a| == |b| && forall i :: 0 <= i < |a| ==> a[i].id == b[i].id && a[i].request == b[i].request
  }

  /** The table holds the request of `row` under its id. */
  ghost predicate Holds(rows: seq<Row>, row: Row) {
    exists i :: 0 <= i < |rows| && rows[i].id == row.id && rows[i].request == row.request
  }

  /** Every row that was not taken is still there with its id and request, and every row there was there before. */
  ghost predicate NoRowLost(rows0: seq<Row>, taken: seq<Row>, rows: seq<Row>) {
    && (forall row :: row in rows0 && row !in taken ==> Holds(rows, row))
    && (forall row :: row in rows ==> Holds(rows0, row))
  }

  lemma ProgressLosesNone(rows0: seq<Row>, taken: seq<Row>, at: seq<int>, left: seq<Row>, now: int, rows: seq<Row>)
    requires Progress(rows0, taken, at, left, now) && SameRequests(left, rows)
    ensures NoRowLost(rows0, taken, rows)
  {
    hide InOrder, NoneSkipped;
    forall row | row in rows0 && row !in taken
      ensures Holds(rows, row)
    {
      var i :| 0 <= i < |left| && left[i] == row;
      assert rows[i].id == row.id;
    }
    forall row | row in rows
      ensures Holds(rows0, row)
    {
      var i :| 0 <= i < |rows| && rows[i] == row;
      assert left[i] in left;
      var j :| 0 <= j < |rows0| && rows0[j] == left[i];
      assert rows0[j].id == row.id;
    }
  }

  /** Taking more rows and deleting none loses none. */
  lemma MoreTaken(rows0: seq<Row>, taken: seq<Row>, more: seq<Row>, rows: seq<Row>)
    requires NoRowLost(rows0, taken, rows)
    ensures NoRowLost(rows0, taken + more, rows)
  {
    hide Holds;
    assert forall row :: row in taken ==> row in taken + more;
  }

  lemma DeferredSame(rows: seq<Row>, batch: seq<Row>, due: int)
    ensures SameRequests(rows, Deferred(rows, batch, due)) && SameRequests(rows, rows)
  {
    forall i | 0 <= i < |rows|
      ensures rows[i].id == Deferred(rows, batch, due)[i].id && rows[i].request == Deferred(rows, batch, due)[i].request
    {
      DeferredAt(rows, batch, due, i);
    }
  }

  lemma SameRequestsAgree(a: seq<Row>, b: seq<Row>)
    requires SameRequests(a, b)
    ensures Requests(a) == Requests(b)
  {
  }

  /** What waits in memory and in the spool, and what is committed, at one moment. */
  datatype Books = Books(ch: seq<Request>, rows: seq<Row>, log: seq<Request>)

  /** What a drain has done: the memory requests and the rows it committed, when each row was taken, and the
      memory requests it took and could not commit. */
  datatype Work = Work(done: seq<Request>, taken: seq<Row>, at: seq<int>, lost: seq<Request>)

  ghost function BooksOf(queue: MemoryQueue?, spool: SQLiteSpool?, store: SymbolStore): Books
    reads queue, spool, store
  {
    Books(Waiting(queue), Spooled(spool), store.log)
  }

  /** The requests of the spool are those of the rows taken and those of the rows left. */
  ghost predicate RowsBalance(rows0: seq<Row>, taken: seq<Row>, rows: seq<Row>) {
    && |taken| + |rows| == |rows0|
    && multiset(Requests(taken)) + multiset(Requests(rows)) == multiset(Requests(rows0))
  }

  lemma RowsBalanceAgain(rows0: seq<Row>, taken: seq<Row>, left: seq<Row>, nextId: int, batch: seq<Row>)
    requires RowsBalance(rows0, taken, left) && SpoolOk(left, nextId) && PartOf(batch, left)
    ensures RowsBalance(rows0, taken + batch, WithoutIds(left, IdsOf(batch)))
  {
    RemovalSplits(left, batch, nextId);
    RequestsCat(taken, batch);
    assert multiset(Requests(taken) + Requests(batch)) == multiset(Requests(taken)) + multiset(Requests(batch));
  }

  /** What a finished drain has achieved. No row of the spool is lost, and unless an acknowledgement fails the rows
      committed are gone. */
  ghost predicate Outcome(r: DrainResult, before: Books, after: Books, w: Work, end: int) {
    && before.ch == w.done + w.lost + after.ch
    && after.log == before.log + w.done + Requests(w.taken)
    && (w.lost != [] ==> r.SpoolReadFailed? || r.ApplyFailed?)
    && NoRowLost(before.rows, w.taken, after.rows)
    && (!r.AckFailed? ==> RowsBalance(before.rows, w.taken, after.rows))
    && (r.Drained? ==>
          && after.ch == [] && Progress(before.rows, w.taken, w.at, after.rows, end)
          && forall row :: row in after.rows ==> row.due > end)
  }

  ghost predicate Draining(before: Books, b: Books, w: Work, now: int) {
    && before.ch == w.done + b.ch && w.lost == []
    && b.log == before.log + w.done + Requests(w.taken)
    && (w.taken != [] ==> b.ch == [])
    && RowsBalance(before.rows, w.taken, b.rows)
    && Progress(before.rows, w.taken, w.at, b.rows, now)
  }

  /** Commits what is waiting, batch by batch: memory requests first, spool rows when there is room. Every
      continuing turn takes something out of the channel or the spool. */
  method DrainWriteQueue(queue: MemoryQueue?, spool: SQLiteSpool?, store: SymbolStore, configuredBatch: int,
                         base: int, max: int, start: int)
    returns (r: DrainResult, ghost w: Work, ghost end: int)
    requires Ready(queue, spool, store)
    modifies queue, spool, store
    ensures Ready(queue, spool, store)
    ensures queue != null ==> queue.closed == old(queue.closed)
    ensures HoldsLastWrites(store.files, store.log)
    ensures start <= end && Outcome(r, old(BooksOf(queue, spool, store)), BooksOf(queue, spool, store), w, end)
  {
    hide Draining, Outcome, SpoolOk, PerformAll, AllSupported, HoldsLastWrites;
    hide MemoryQueue.Valid, SQLiteSpool.Valid, SymbolStore.Valid;
    var batchSize: nat := if configuredBatch <= 0 then 1 else configuredBatch;
    w, end := Work([], [], [], []), start;
    var now := start;
    ghost var before := BooksOf(queue, spool, store);
    StartDraining(before, now);
    while true
      invariant Ready(queue, spool, store)
      invariant queue != null ==> queue.closed == old(queue.closed)
      invariant start <= now == end && Draining(before, BooksOf(queue, spool, store), w, now)
      decreases |Waiting(queue)| + |Spooled(spool)|
    {
      var canceled: bool := *;
      ghost var b := BooksOf(queue, spool, store);
      var mem, status := TakeMemory(queue, batchSize, canceled);
      assert b == BooksOf(queue, spool, store).(ch := mem + Waiting(queue));
      if status == Canceled {
        CanceledOutcome(before, mem, BooksOf(queue, spool, store), w, now);
        r := QueueCanceled;
        StoreHolds(store);
        return;
      }
      ghost var earlier := now;
      now := Clock(now);
      end := now;
      ClockKeepsDraining(before, b, w, earlier, now);
      var step;
      step, w := DrainBatch(queue, spool, store, batchSize, mem, now, base, max, before, w);
      if step.Some? {
        r := step.value;
        StoreHolds(store);
        return;
      }
    }
  }

  lemma StoreHolds(store: SymbolStore)
    requires store.Valid()
    ensures HoldsLastWrites(store.files, store.log)
  {
    PerformedHolds(store.log);
  }

  /** Time passes as the environment pleases. */
  method Clock(now: int) returns (later: int)
    ensures now <= later
  {
    later := *;
    if later < now {
      later := now;
    }
  }

  lemma StartDraining(before: Books, now: int)
    ensures Draining(before, before, Work([], [], [], []), now)
  {
    assert Leaves(before.rows, [], before.rows);
    NoRequests();
  }

  lemma ClockKeepsDraining(before: Books, b: Books, w: Work, now: int, later: int)
    requires Draining(before, b, w, now) && now <= later
    ensures Draining(before, b, w, later)
  {
  }

  lemma CanceledOutcome(before: Books, mem: seq<Request>, b: Books, w: Work, now: int)
    requires Draining(before, b.(ch := mem + b.ch), w, now) && mem == []
    ensures Outcome(QueueCanceled, before, b, w, now)
  {
    hide Requests, NoRowLost, RowsBalance;
    ProgressLosesNone(before.rows, w.taken, w.at, b.rows, now, b.rows);
    assert mem + b.ch == b.ch;
  }

  /** One turn after the memory part `mem` has been taken. No result means that the loop continues. */
  method DrainBatch(queue: MemoryQueue?, spool: SQLiteSpool?, store: SymbolStore, batchSize: nat, mem: seq<Request>,
                    now: int, base: int, max: int, ghost before: Books, ghost w0: Work)
    returns (step: Option<DrainResult>, ghost w: Work)
    requires Ready(queue, spool, store) && 1 <= batchSize && |mem| <= batchSize
    requires Draining(before, BooksOf(queue, spool, store).(ch := mem + Waiting(queue)), w0, now)
    requires |mem| < batchSize ==> Waiting(queue) == []
    modifies spool, store
    ensures Ready(queue, spool, store)
    ensures step == None ==>
              && |Spooled(spool)| + |Waiting(queue)| < old(|Spooled(spool)|) + |Waiting(queue)| + |mem|
              && Draining(before, BooksOf(queue, spool, store), w, now)
    ensures step.Some? ==> Outcome(step.value, before, BooksOf(queue, spool, store), w, now)
  {
    hide Draining, Outcome, Requests;
    w := w0;
    MemoryOutcomes(before, mem, BooksOf(queue, spool, store), w, now);
    var rows: seq<Row> := [];
    if |mem| < batchSize && spool != null {
      var readFails: bool := *;
      var ok;
      rows, ok := spool.DequeueBatch(batchSize - |mem|, now, readFails);
      if !ok {
        return Some(SpoolReadFailed), w.(lost := mem);
      }
    }
    if |rows| > 0 {
      step, w := DrainRows(queue, spool, store, batchSize - |mem|, mem, rows, now, base, max, before, w0);
      return;
    }
    if |mem| == 0 {
      if spool != null {
        NothingDue(spool.rows, spool.nextId, now, batchSize - |mem|);
      }
      assert mem + Waiting(queue) == [];
      DrainedOutcome(before, BooksOf(queue, spool, store), w, now);
      return Some(Drained), w;
    }
    var applyFails: bool := *;
    var ok := store.ApplyWriteBatch(mem, applyFails);
    if !ok {
      return Some(ApplyFailed), w.(lost := mem);
    }
    return None, w.(done := w.done + mem);
  }

  /** What a failed read, a failed apply or a successful apply of the memory part alone leaves behind. */
  lemma MemoryOutcomes(before: Books, mem: seq<Request>, b: Books, w: Work, now: int)
    requires Draining(before, b.(ch := mem + b.ch), w, now)
    ensures Outcome(SpoolReadFailed, before, b, w.(lost := mem), now)
    ensures Outcome(ApplyFailed, before, b, w.(lost := mem), now)
    ensures mem != [] ==> Draining(before, b.(log := b.log + mem), w.(done := w.done + mem), now)
  {
    hide NoRowLost, RowsBalance;
    NoRequests();
    ProgressLosesNone(before.rows, w.taken, w.at, b.rows, now, b.rows);
    assert mem != [] ==> mem + b.ch != [];
  }

  lemma DrainedOutcome(before: Books, b: Books, w: Work, now: int)
    requires Draining(before, b, w, now) && b.ch == [] && forall row :: row in b.rows ==> row.due > now
    ensures Outcome(Drained, before, b, w, now)
  {
    hide NoRowLost, Requests, RowsBalance;
    ProgressLosesNone(before.rows, w.taken, w.at, b.rows, now, b.rows);
  }

  /** One turn with rows of the spool. */
  method DrainRows(queue: MemoryQueue?, spool: SQLiteSpool, store: SymbolStore, room: nat, mem: seq<Request>,
                   rows: seq<Row>, now: int, base: int, max: int, ghost before: Books, ghost w0: Work)
    returns (step: Option<DrainResult>, ghost w: Work)
    requires Ready(queue, spool, store)
    requires Draining(before, BooksOf(queue, spool, store).(ch := mem + Waiting(queue)), w0, now)
    requires Waiting(queue) == [] && rows != [] && rows == DueRows(spool.rows, now, room)
    modifies spool, store
    ensures Ready(queue, spool, store)
    ensures step == None ==>
              && |spool.rows| < old(|spool.rows|)
              && Draining(before, BooksOf(queue, spool, store), w, now)
    ensures step.Some? ==> Outcome(step.value, before, BooksOf(queue, spool, store), w, now)
  {
    hide Draining, Outcome, SpoolOk, DueRows, Deferred, SameRequests, WithoutIds;
    w := w0;
    ghost var b := BooksOf(queue, spool, store);
    assert mem + Waiting(queue) == mem;
    RowsCommitted(before, b, spool.nextId, w, now, mem, room);
    ApplyFailedOutcome(before, b, mem, w, now);
    var applyFails: bool := *;
    var ok := store.ApplyWriteBatch(mem + Requests(rows), applyFails);
    if !ok {
      var nackFails: bool := *;
      var delay := WriteWorker.BackoffDelay(base, max, 1);
      DeferredSame(spool.rows, rows, now + delay);
      var _ := spool.Nack(rows, now + delay, nackFails);
      return Some(ApplyFailed), w.(lost := mem);
    }
    w := Committed(w, mem, rows, now);
    var ackFails: bool := *;
    var acked := spool.Ack(IdsOf(rows), ackFails);
    if !acked {
      return Some(AckFailed), w;
    }
    step := None;
  }

  ghost function Committed(w: Work, mem: seq<Request>, rows: seq<Row>, now: int): Work {
    w.(done := w.done + mem, taken := w.taken + rows, at := w.at + Repeat(|rows|, now))
  }

  /** What committing the due rows together with the memory part `mem` achieves. */
  lemma RowsCommitted(before: Books, b: Books, nextId: int, w: Work, now: int, mem: seq<Request>, room: nat)
    requires Draining(before, b.(ch := mem), w, now)
    requires SpoolOk(b.rows, nextId) && DueRows(b.rows, now, room) != []
    ensures var rows := DueRows(b.rows, now, room);
            var committed := b.(ch := [], log := b.log + (mem + Requests(rows)));
            var left := WithoutIds(b.rows, IdsOf(rows));
            && |left| < |b.rows| && IdsOf(rows) != {}
            && Draining(before, committed.(rows := left), Committed(w, mem, rows, now), now)
            && Outcome(AckFailed, before, committed, Committed(w, mem, rows, now), now)
  {
    hide Progress, SpoolOk, PartOf, DueRows, Requests, WithoutIds, NoRowLost, RowsBalance;
    var rows := DueRows(b.rows, now, room);
    assert rows[0].id in IdsOf(rows);
    DuePartOf(b.rows, now, room, nextId);
    RemovalSplits(b.rows, rows, nextId);
    RowsBalanceAgain(before.rows, w.taken, b.rows, nextId, rows);
    BatchProgress(before.rows, w.taken, w.at, b.rows, nextId, now, room);
    LogGrows(before.log, w.done, w.taken, mem, rows);
    ProgressLosesNone(before.rows, w.taken, w.at, b.rows, now, b.rows);
    MoreTaken(before.rows, w.taken, rows, b.rows);
  }

  lemma ApplyFailedOutcome(before: Books, b: Books, mem: seq<Request>, w: Work, now: int)
    requires Draining(before, b.(ch := mem), w, now)
    ensures forall rows :: SameRequests(b.rows, rows) ==>
              Outcome(ApplyFailed, before, b.(ch := [], rows := rows), w.(lost := mem), now)
  {
    hide NoRowLost, Requests;
    forall rows | SameRequests(b.rows, rows)
      ensures Outcome(ApplyFailed, before, b.(ch := [], rows := rows), w.(lost := mem), now)
    {
      ProgressLosesNone(before.rows, w.taken, w.at, b.rows, now, rows);
      SameRequestsAgree(b.rows, rows);
    }
  }
}
