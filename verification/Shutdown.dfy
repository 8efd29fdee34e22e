/** Stopping the write pipeline: the worker leaves, the rest is drained, the queue is closed. */
module Shutdown {
  import opened WriteQueues
  import opened Drain
  import WriteWorker

  datatype StopResult = Stopped | WaitTimedOut | DrainFailed(cause: DrainResult) | SpoolCloseFailed

  /** The part of the shutdown that follows the signal to the worker. `workerLeft` says whether the worker was
      seen to leave before the caller's deadline; nothing is touched if it was not. Closing the memory queue cannot
      fail, closing the spool can. */
  method StopWriteWorker(queue: MemoryQueue?, spool: SQLiteSpool?, store: SymbolStore, workerLeft: bool,
                         spoolCloseFails: bool, configuredBatch: int, base: int, max: int, start: int)
    returns (r: StopResult, ghost w: Work, ghost end: int)
    requires Ready(queue, spool, store)
    modifies queue, spool, store
    ensures Ready(queue, spool, store)
    ensures workerLeft ==> HoldsLastWrites(store.files, store.log)
    ensures r == WaitTimedOut <==> !workerLeft
    ensures !workerLeft ==> BooksOf(queue, spool, store) == old(BooksOf(queue, spool, store))
    ensures r.DrainFailed? ==> !r.cause.Drained?
    ensures workerLeft ==>
              Outcome(if r.DrainFailed? then r.cause else Drained, old(BooksOf(queue, spool, store)),
                BooksOf(queue, spool, store), w, end)
    ensures r == SpoolCloseFailed ==> spool != null && spoolCloseFails
    ensures r == Stopped ==> spool == null || !spoolCloseFails
    ensures queue != null ==> queue.closed == (old(queue.closed) || r == Stopped || r == SpoolCloseFailed)
  {
    w, end := Work([], [], [], []), start;
    if !workerLeft {
      return WaitTimedOut, w, end;
    }
    hide Outcome, HoldsLastWrites;
    var result;
    result, w, end := DrainWriteQueue(queue, spool, store, configuredBatch, base, max, start);
    if !result.Drained? {
      return DrainFailed(result), w, end;
    }
    if queue != null {
      queue.Close();
    }
    r := if spool != null && spoolCloseFails then SpoolCloseFailed else Stopped;
  }

  lemma CountOfCat(a: seq<Request>, b: seq<Request>, c: seq<Request>, req: Request)
    ensures WriteWorker.CountIn(a + b + c, req) ==
            WriteWorker.CountIn(a, req) + WriteWorker.CountIn(b, req) + WriteWorker.CountIn(c, req)
  {
    WriteWorker.CountCat(a + b, c, req);
    WriteWorker.CountCat(a, b, req);
  }

  lemma DrainedCounts(before: Books, after: Books, w: Work, end: int, req: Request)
    requires Outcome(Drained, before, after, w, end)
    ensures WriteWorker.CountIn(after.log, req) + WriteWorker.CountIn(Requests(after.rows), req) ==
            WriteWorker.CountIn(before.log, req) + WriteWorker.CountIn(before.ch, req) +
            WriteWorker.CountIn(Requests(before.rows), req)
  {
    hide Requests, NoRowLost, Progress;
    assert before.ch == w.done;
    CountOfCat(before.log, w.done, Requests(w.taken), req);
    assert multiset(Requests(w.taken))[req] + multiset(Requests(after.rows))[req] ==
      multiset(Requests(before.rows))[req];
  }

  /** From the first request to the end of the shutdown: when the worker has left, no spill has failed on the way,
      and the drain of what the worker left behind succeeds, every accepted request is committed or is a row of the
      spool that is not yet due; and if every acknowledgement succeeded, exactly as often as it was accepted. */
  lemma ShutdownLosesNothing(c: WriteWorker.Config, steps: seq<WriteWorker.Step>, after: Books, w: Work, end: int,
                             req: Request)
    requires WriteWorker.NeverDrops(c, steps) && WriteWorker.Run(c, steps).phase.Stopped?
    requires var s := WriteWorker.Run(c, steps); Outcome(Drained, Books(s.ch, s.rows, s.log), after, w, end)
    ensures after.ch == [] && forall row :: row in after.rows ==> row.due > end
    ensures WriteWorker.Run(c, steps).accepted[req] <=
            WriteWorker.CountIn(after.log, req) + WriteWorker.CountIn(Requests(after.rows), req)
    ensures WriteWorker.AlwaysAcks(c, steps) ==>
              WriteWorker.Run(c, steps).accepted[req] ==
              WriteWorker.CountIn(after.log, req) + WriteWorker.CountIn(Requests(after.rows), req)
  {
    var s := WriteWorker.Run(c, steps);
    WriteWorker.NothingLost(c, steps, req);
    WriteWorker.RunOk(c, steps);
    DrainedCounts(Books(s.ch, s.rows, s.log), after, w, end, req);
    assert WriteWorker.CountIn(s.mem, req) == 0;
    if WriteWorker.AlwaysAcks(c, steps) {
      WriteWorker.ExactlyOnce(c, steps, req);
    }
  }

  // ----- a request that comes too late

  /** The steps that follow in a pipeline that is in state `s`. */
  function Continue(c: WriteWorker.Config, s: WriteWorker.State, steps: seq<WriteWorker.Step>): WriteWorker.State {
    if steps == [] then s
    else WriteWorker.Advance(c, Continue(c, s, steps[..|steps| - 1]), steps[|steps| - 1])
  }

  lemma StoppedTakesNone(c: WriteWorker.Config, s: WriteWorker.State, a: WriteWorker.Step)
    requires s.phase.Stopped?
    ensures WriteWorker.Advance(c, s, a).phase.Stopped? && s.ch <= WriteWorker.Advance(c, s, a).ch
  {
  }

  /** Once the worker has left, whatever goes into the channel stays there. */
  lemma {:induction false} ChannelStays(c: WriteWorker.Config, s: WriteWorker.State, steps: seq<WriteWorker.Step>)
    requires s.phase.Stopped?
    ensures Continue(c, s, steps).phase.Stopped? && s.ch <= Continue(c, s, steps).ch
    decreases |steps|
  {
    hide WriteWorker.Advance;
    if steps != [] {
      ChannelStays(c, s, steps[..|steps| - 1]);
      StoppedTakesNone(c, Continue(c, s, steps[..|steps| - 1]), steps[|steps| - 1]);
    }
  }

  /** A request that arrives when the worker has left and the drain is over is accepted into the channel exactly when
      the queue is still open and has room; then nothing takes it out any more. (The steps that follow are those of the
      producers and of time: a drain, which would take the request, is not among them.) */
  lemma LateRequest(c: WriteWorker.Config, s: WriteWorker.State, req: Request,
                    steps: seq<WriteWorker.Step>)
    requires s.phase.Stopped?
    ensures var t := WriteWorker.Advance(c, s, WriteWorker.Enqueue(req));
            var late := WriteWorker.Keyed(c, req);
            && (t.ch == s.ch + [late] <==> !s.closed && |s.ch| < WriteWorker.Limit(c.capacity))
            && (!s.closed && |s.ch| < WriteWorker.Limit(c.capacity) ==>
                  && t.accepted[late] == s.accepted[late] + 1
                  && t.ch <= Continue(c, t, steps).ch)
  {
    var t := WriteWorker.Advance(c, s, WriteWorker.Enqueue(req));
    ChannelStays(c, t, steps);
  }
}
