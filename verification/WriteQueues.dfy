/** The pieces of the write pipeline: requests, the symbol store, the memory queue and the spool table. */
module WriteQueues {

  // ----- requests and the store

  datatype Operation = UpsertFile(path: int, content: int) | DeleteFile(path: int) | PruneToPaths(paths: set<int>)
    | Unsupported(code: int)

  /** The empty project key is written 0. */
  datatype Request = Request(projectKey: int, operation: Operation)

  /** The stored files and their contents. */
  type Files = map<int, int>

  function Perform(files: Files, op: Operation): Files {
    match op
    case UpsertFile(path, content) => files[path := content]
    case DeleteFile(path) => files - {path}
    case PruneToPaths(paths) => map p | p in files && p in paths :: files[p]
    case Unsupported(_) => files
  }

  function PerformAll(files: Files, batch: seq<Request>): Files {
    if batch == [] then files else Perform(PerformAll(files, batch[..|batch| - 1]), batch[|batch| - 1].operation)
  }

  predicate AllSupported(batch: seq<Request>) {
    forall i :: 0 <= i < |batch| ==> !batch[i].operation.Unsupported?
  }

  lemma {:induction false} PerformConcat(files: Files, a: seq<Request>, b: seq<Request>)
    ensures PerformAll(files, a + b) == PerformAll(PerformAll(files, a), b)
    decreases |b|
  {
    if b == [] {
      assert a + b == a;
    } else {
      PerformConcat(files, a, b[..|b| - 1]);
      assert (a + b)[..|a + b| - 1] == a + b[..|b| - 1];
    }
  }

  /** The operation settles what is stored for `path`: it writes or deletes it, or keeps only other paths. */
  predicate Settles(op: Operation, path: int) {
    match op
    case UpsertFile(p, _) => p == path
    case DeleteFile(p) => p == path
    case PruneToPaths(paths) => path !in paths
    case Unsupported(_) => false
  }

  /** The last operation in the log that settles what is stored for `path` writes `content` there. */
  predicate LastWrites(log: seq<Request>, path: int, content: int) {
    exists i :: 0 <= i < |log| && log[i].operation == UpsertFile(path, content) &&
      forall j :: i < j < |log| ==> !Settles(log[j].operation, path)
  }

  lemma LastWritesMore(log: seq<Request>, last: Request, path: int, content: int)
    ensures LastWrites(log + [last], path, content) <==>
            last.operation == UpsertFile(path, content) ||
            (!Settles(last.operation, path) && LastWrites(log, path, content))
  {
    var all := log + [last];
    if last.operation == UpsertFile(path, content) {
      assert all[|log|].operation == UpsertFile(path, content);
    }
    if !Settles(last.operation, path) && LastWrites(log, path, content) {
      var i :| 0 <= i < |log| && log[i].operation == UpsertFile(path, content) &&
        forall j :: i < j < |log| ==> !Settles(log[j].operation, path);
      assert all[i].operation == UpsertFile(path, content);
    }
    if LastWrites(all, path, content) && last.operation != UpsertFile(path, content) {
      var i :| 0 <= i < |all| && all[i].operation == UpsertFile(path, content) &&
        forall j :: i < j < |all| ==> !Settles(all[j].operation, path);
      assert all[|log|] == last && log[i] == all[i];
      assert forall j :: i < j < |log| ==> log[j] == all[j];
    }
  }

  /** `files` holds for each path the content that was written last and is not deleted or pruned since. */
  ghost predicate HoldsLastWrites(files: Files, log: seq<Request>) {
    forall path, content :: path in files && files[path] == content <==> LastWrites(log, path, content)
  }

  lemma {:induction false} StoredIffLastWritten(log: seq<Request>, path: int, content: int)
    ensures var files := PerformAll(map[], log);
            path in files && files[path] == content <==> LastWrites(log, path, content)
    decreases |log|
  {
    if log != [] {
      hide LastWrites;
      var init, last := log[..|log| - 1], log[|log| - 1];
      assert log == init + [last];
      StoredIffLastWritten(init, path, content);
      LastWritesMore(init, last, path, content);
    }
  }

  lemma PerformedHolds(log: seq<Request>)
    ensures HoldsLastWrites(PerformAll(map[], log), log)
  {
    hide LastWrites;
    forall path, content
      ensures var files := PerformAll(map[], log);
              path in files && files[path] == content <==> LastWrites(log, path, content)
    {
      StoredIffLastWritten(log, path, content);
    }
  }

  /** The symbol store. `log` lists every request committed so far; the files are what it makes of them. */
  class SymbolStore {
    var files: Files
    ghost var log: seq<Request>

    ghost predicate Valid()
      reads this
    {
      files == PerformAll(map[], log) && AllSupported(log)
    }

    constructor ()
      ensures Valid() && log == [] && files == map[]
    {
      files, log := map[], [];
    }

    /** Applies a batch in one transaction: all of it or nothing. `fails` is the environment's choice. */
    method ApplyWriteBatch(batch: seq<Request>, fails: bool) returns (ok: bool)
      requires Valid()
      modifies this
      ensures Valid()
      ensures ok <==> batch == [] || (!fails && AllSupported(batch))
      ensures log == (if ok then old(log) + batch else old(log))
      ensures HoldsLastWrites(files, log)
    {
      hide HoldsLastWrites;
      PerformedHolds(log);
      PerformedHolds(log + batch);
      if batch == [] {
        assert log + batch == log;
        return true;
      }
      if fails {
        return false;
      }
      var pending := files;
      for i := 0 to |batch|
        invariant pending == PerformAll(files, batch[..i]) && AllSupported(batch[..i])
      {
        assert batch[..i + 1][..i] == batch[..i];
        if batch[i].operation.Unsupported? {
          return false;
        }
        pending := Perform(pending, batch[i].operation);
      }
      assert batch[..|batch|] == batch;
      PerformConcat(map[], log, batch);
      files := pending;
      log := log + batch;
      return true;
    }
  }

  // ----- the memory queue

  datatype EnqueueResult = Accepted | Dropped

  datatype DequeueStatus = Fine | Eof | Canceled

  class MemoryQueue {
    const capacity: nat
    var ch: seq<Request>
    var closed: bool

    ghost predicate Valid()
      reads this
    {
      1 <= capacity && |ch| <= capacity
    }

    constructor (capacity: int)
      ensures Valid() && ch == [] && !closed
      ensures this.capacity == if capacity <= 0 then 1 else capacity
    {
      this.capacity := if capacity <= 0 then 1 else capacity;
      ch, closed := [], false;
    }

    method Enqueue(req: Request) returns (result: EnqueueResult)
      requires Valid()
      modifies this`ch
      ensures Valid()
      ensures result == Accepted <==> !closed && |old(ch)| < capacity
      ensures ch == if result == Accepted then old(ch) + [req] else old(ch)
    {
      if closed || |ch| >= capacity {
        return Dropped;
      }
      ch := ch + [req];
      return Accepted;
    }

    /** Takes up to `maxItems` requests from the front. The first `select` may choose any case that is ready:
        a request or the closed channel, the cancelled context, or, with a positive `wait`, the timer. */
    method DequeueBatch(maxItems: int, wait: int, canceled: bool) returns (batch: seq<Request>, status: DequeueStatus)
      requires Valid()
      modifies this`ch
      ensures Valid()
      ensures old(ch) == batch + ch
      ensures |batch| <= if maxItems <= 0 then 1 else maxItems
      ensures status == Eof ==> closed && ch == [] && |batch| < if maxItems <= 0 then 1 else maxItems
      ensures status == Canceled ==> canceled && batch == []
      ensures wait <= 0 && status == Fine ==> ch == [] || |batch| == if maxItems <= 0 then 1 else maxItems
    {
      var n := if maxItems <= 0 then 1 else maxItems;
      batch := [];
      var preferContext: bool := *;
      var timerFired: bool := *;
      if canceled && (preferContext || (ch == [] && !closed)) {
        return [], Canceled;
      }
      if wait > 0 && (timerFired || (ch == [] && !closed)) {
        return [], Fine;
      }
      if ch == [] {
        return [], if closed then Eof else Fine;
      }
      batch := [ch[0]];
      ch := ch[1..];
      while |batch| < n
        invariant old(ch) == batch + ch && 1 <= |batch| <= n && |ch| <= capacity
        decreases n - |batch|
      {
        if ch == [] {
          return batch, if closed then Eof else Fine;
        }
        batch := batch + [ch[0]];
        ch := ch[1..];
      }
      return batch, Fine;
    }

    method Close()
      modifies this`closed
      ensures closed
    {
      closed := true;
    }
  }

  // ----- the spool table

  datatype Row = Row(id: int, request: Request, attempts: nat, due: int)

  /** Ids are assigned in increasing order and never reused; rows are listed by id. */
  ghost predicate SpoolOk(rows: seq<Row>, nextId: int) {
    && (forall i, j :: 0 <= i < j < |rows| ==> rows[i].id < rows[j].id)
    && (forall i :: 0 <= i < |rows| ==> rows[i].id < nextId)
  }

  function Requests(rows: seq<Row>): seq<Request> {
    seq(|rows|, i requires 0 <= i < |rows| => rows[i].request)
  }

  /** The first `max` due rows in id order. */
  function DueRows(rows: seq<Row>, now: int, max: nat): seq<Row> {
    if rows == [] || max == 0 then []
    else if rows[0].due <= now then [rows[0]] + DueRows(rows[1..], now, max - 1)
    else DueRows(rows[1..], now, max)
  }

  function WithoutIds(rows: seq<Row>, ids: set<int>): seq<Row> {
    if rows == [] then []
    else if rows[0].id in ids then WithoutIds(rows[1..], ids)
    else [rows[0]] + WithoutIds(rows[1..], ids)
  }

  function IdsOf(rows: seq<Row>): set<int> {
    set row | row in rows :: row.id
  }

  /** The rows of the batch tried once more and put off until `due`. */
  function Deferred(rows: seq<Row>, batch: seq<Row>, due: int): (r: seq<Row>)
    ensures |r| == |rows|
  {
    if rows == [] then []
    else
      [if rows[0].id in IdsOf(batch) then rows[0].(attempts := AttemptsIn(batch, rows[0].id) + 1, due := due)
        else rows[0]] +
      Deferred(rows[1..], batch, due)
  }

  /** The number of attempts recorded in the batch for row `id`. */
  function AttemptsIn(batch: seq<Row>, id: int): nat {
    if batch == [] then 0 else if batch[0].id == id then batch[0].attempts else AttemptsIn(batch[1..], id)
  }

  class SQLiteSpool {
    var rows: seq<Row>
    var nextId: int

    ghost predicate Valid()
      reads this
    {
      SpoolOk(rows, nextId)
    }

    constructor ()
      ensures Valid() && rows == []
    {
      rows, nextId := [], 1;
    }

    method Enqueue(req: Request, now: int, fails: bool) returns (ok: bool)
      requires Valid()
      modifies this
      ensures Valid() && ok == !fails
      ensures rows == (if ok then old(rows) + [Row(old(nextId), req, 0, now)] else old(rows))
      ensures nextId == if ok then old(nextId) + 1 else old(nextId)
    {
      if fails {
        return false;
      }
      rows := rows + [Row(nextId, req, 0, now)];
      nextId := nextId + 1;
      return true;
    }

    method DequeueBatch(maxItems: int, now: int, fails: bool) returns (batch: seq<Row>, ok: bool)
      requires Valid()
      ensures ok == !fails
      ensures batch == if ok then DueRows(rows, now, if maxItems <= 0 then 1 else maxItems) else []
    {
      if fails {
        return [], false;
      }
      var n := if maxItems <= 0 then 1 else maxItems;
      batch := [];
      var i := 0;
      while i < |rows| && |batch| < n
        invariant i <= |rows| && |batch| <= n
        invariant DueRows(rows, now, n) == batch + DueRows(rows[i..], now, n - |batch|)
        decreases |rows| - i
      {
        assert rows[i..][1..] == rows[i + 1..];
        if rows[i].due <= now {
          batch := batch + [rows[i]];
        }
        i := i + 1;
      }
      return batch, true;
    }

    method Ack(ids: set<int>, fails: bool) returns (ok: bool)
      requires Valid()
      modifies this`rows
      ensures Valid() && (ok <==> ids == {} || !fails)
      ensures rows == if ok then WithoutIds(old(rows), ids) else old(rows)
    {
      if ids == {} {
        WithoutNone(rows);
        return true;
      }
      if fails {
        return false;
      }
      WithoutKeeps(rows, ids, nextId);
      rows := WithoutIds(rows, ids);
      return true;
    }

    method Nack(batch: seq<Row>, due: int, fails: bool) returns (ok: bool)
      requires Valid()
      modifies this`rows
      ensures Valid() && (ok <==> batch == [] || !fails)
      ensures rows == if ok then Deferred(old(rows), batch, due) else old(rows)
    {
      if batch == [] {
        DeferNone(rows, due);
        return true;
      }
      if fails {
        return false;
      }
      DeferredKeeps(rows, batch, due);
      rows := Deferred(rows, batch, due);
      return true;
    }
  }

  lemma {:induction false} WithoutNone(rows: seq<Row>)
    ensures WithoutIds(rows, {}) == rows
    decreases |rows|
  {
    if rows != [] {
      WithoutNone(rows[1..]);
    }
  }

  lemma {:induction false} DeferNone(rows: seq<Row>, due: int)
    ensures Deferred(rows, [], due) == rows
    decreases |rows|
  {
    if rows != [] {
      DeferNone(rows[1..], due);
    }
  }

  lemma {:induction false} WithoutContents(rows: seq<Row>, ids: set<int>)
    ensures forall row :: row in WithoutIds(rows, ids) <==> row in rows && row.id !in ids
    decreases |rows|
  {
    if rows != [] {
      WithoutContents(rows[1..], ids);
      assert rows == [rows[0]] + rows[1..];
    }
  }

  lemma {:induction false} WithoutKeeps(rows: seq<Row>, ids: set<int>, nextId: int)
    requires SpoolOk(rows, nextId)
    ensures SpoolOk(WithoutIds(rows, ids), nextId)
    decreases |rows|
  {
    if rows != [] {
      assert SpoolOk(rows[1..], nextId);
      WithoutKeeps(rows[1..], ids, nextId);
      WithoutContents(rows[1..], ids);
      var w := WithoutIds(rows[1..], ids);
      assert WithoutIds(rows, ids) == if rows[0].id in ids then w else [rows[0]] + w;
      hide WithoutIds;
      forall row | row in w
        ensures rows[0].id < row.id
      {
        var j :| 0 <= j < |rows[1..]| && rows[1..][j] == row;
        assert rows[j + 1] == row;
      }
      FirstKeeps(rows[0], w, nextId);
    }
  }

  lemma FirstKeeps(first: Row, rest: seq<Row>, nextId: int)
    requires SpoolOk(rest, nextId) && first.id < nextId && forall row :: row in rest ==> first.id < row.id
    ensures SpoolOk([first] + rest, nextId)
  {
  }

  lemma {:induction false} DeferredAt(rows: seq<Row>, batch: seq<Row>, due: int, i: nat)
    requires i < |rows|
    ensures Deferred(rows, batch, due)[i].id == rows[i].id && Deferred(rows, batch, due)[i].request == rows[i].request
    ensures rows[i].id !in IdsOf(batch) ==> Deferred(rows, batch, due)[i] == rows[i]
    ensures rows[i].id in IdsOf(batch) ==>
              Deferred(rows, batch, due)[i] == rows[i].(attempts := AttemptsIn(batch, rows[i].id) + 1, due := due)
    decreases |rows|
  {
    if i > 0 {
      DeferredAt(rows[1..], batch, due, i - 1);
    }
  }

  lemma {:induction false} AttemptsOf(rows: seq<Row>, nextId: int, batch: seq<Row>, row: Row)
    requires SpoolOk(rows, nextId) && (forall r :: r in batch ==> r in rows) && row in rows && row.id in IdsOf(batch)
    ensures row in batch && AttemptsIn(batch, row.id) == row.attempts
    decreases |batch|
  {
    if batch[0].id == row.id {
      UniqueIds(rows, nextId, batch[0], row);
    } else {
      assert batch == [batch[0]] + batch[1..];
      AttemptsOf(rows, nextId, batch[1..], row);
    }
  }

  /** Putting off a batch of rows counts one more attempt for each of them, makes them due at the given time, and
      leaves the others alone. */
  lemma PutOffOnce(rows: seq<Row>, nextId: int, batch: seq<Row>, due: int, i: nat)
    requires SpoolOk(rows, nextId) && PartOf(batch, rows) && i < |rows|
    ensures Deferred(rows, batch, due)[i] ==
            if rows[i] in batch then Row(rows[i].id, rows[i].request, rows[i].attempts + 1, due) else rows[i]
  {
    DeferredAt(rows, batch, due, i);
    if rows[i].id in IdsOf(batch) {
      AttemptsOf(rows, nextId, batch, rows[i]);
    }
  }

  lemma DeferredKeeps(rows: seq<Row>, batch: seq<Row>, due: int)
    ensures forall nextId :: SpoolOk(rows, nextId) ==> SpoolOk(Deferred(rows, batch, due), nextId)
    ensures Requests(Deferred(rows, batch, due)) == Requests(rows)
  {
    forall i | 0 <= i < |rows|
      ensures Deferred(rows, batch, due)[i].id == rows[i].id && Deferred(rows, batch, due)[i].request == rows[i].request
    {
      DeferredAt(rows, batch, due, i);
    }
  }

  // ----- taking rows out of the table

  /** `batch` is part of the table, in its order. */
  ghost predicate PartOf(batch: seq<Row>, rows: seq<Row>) {
    && (forall row :: row in batch ==> row in rows)
    && (forall i, j :: 0 <= i < j < |batch| ==> batch[i].id < batch[j].id)
  }

  lemma {:induction false} DuePartOf(rows: seq<Row>, now: int, max: nat, nextId: int)
    requires SpoolOk(rows, nextId)
    ensures PartOf(DueRows(rows, now, max), rows) && |DueRows(rows, now, max)| <= max
    ensures forall row :: row in DueRows(rows, now, max) ==> row.due <= now
    decreases |rows|
  {
    if rows != [] && max > 0 {
      assert rows == [rows[0]] + rows[1..];
      var n := if rows[0].due <= now then max - 1 else max;
      DuePartOf(rows[1..], now, n, nextId);
      var d := DueRows(rows[1..], now, n);
      forall i | 0 <= i < |d|
        ensures rows[0].id < d[i].id
      {
        assert d[i] in d;
        var j :| 0 <= j < |rows[1..]| && rows[1..][j] == d[i];
        assert rows[j + 1] == d[i];
      }
    }
  }

  /** A due row that is left behind has every taken row before it, and the batch is full. */
  lemma {:induction false} DueTakesFirst(rows: seq<Row>, now: int, max: nat, nextId: int, row: Row)
    requires SpoolOk(rows, nextId) && row in rows && row.due <= now && row !in DueRows(rows, now, max)
    ensures |DueRows(rows, now, max)| == max
    ensures forall taken :: taken in DueRows(rows, now, max) ==> taken.id < row.id
    decreases |rows|
  {
    if max > 0 {
      assert rows == [rows[0]] + rows[1..];
      var n := if rows[0].due <= now then max - 1 else max;
      assert row in rows[1..];
      DueTakesFirst(rows[1..], now, n, nextId, row);
      var j :| 0 <= j < |rows[1..]| && rows[1..][j] == row;
      assert rows[j + 1] == row;
    }
  }

  lemma {:induction false} UniqueIds(rows: seq<Row>, nextId: int, a: Row, b: Row)
    requires SpoolOk(rows, nextId) && a in rows && b in rows && a.id == b.id
    ensures a == b
  {
    var i :| 0 <= i < |rows| && rows[i] == a;
    var j :| 0 <= j < |rows| && rows[j] == b;
  }

  lemma PartOfSome(batch: seq<Row>, rows: seq<Row>)
    requires PartOf(batch, rows)
    ensures batch == [] || exists row :: row in rows
  {
    if batch != [] {
      assert batch[0] in rows;
    }
  }

  lemma RequestsCons(head: Row, tail: seq<Row>)
    ensures multiset(Requests([head] + tail)) == multiset{head.request} + multiset(Requests(tail))
  {
    assert Requests([head] + tail) == [head.request] + Requests(tail);
  }

  /** Removing a part of the table by its ids takes out exactly its requests. */
  lemma {:induction false} RemovalSplits(rows: seq<Row>, batch: seq<Row>, nextId: int)
    requires SpoolOk(rows, nextId) && PartOf(batch, rows)
    ensures multiset(Requests(rows)) == multiset(Requests(WithoutIds(rows, IdsOf(batch)))) + multiset(Requests(batch))
    ensures |WithoutIds(rows, IdsOf(batch))| == |rows| - |batch|
    decreases |rows|
  {
    if rows == [] {
      PartOfSome(batch, rows);
    } else if batch != [] && batch[0] == rows[0] {
      HeadTaken(rows, batch, nextId);
      hide PartOf, SpoolOk, Requests;
      RemovalSplits(rows[1..], batch[1..], nextId);
      SameRemoval(rows[1..], IdsOf(batch), IdsOf(batch[1..]), rows[0].id);
      assert rows == [rows[0]] + rows[1..] && batch == [rows[0]] + batch[1..];
      RequestsCons(rows[0], rows[1..]);
      RequestsCons(rows[0], batch[1..]);
    } else {
      HeadLeft(rows, batch, nextId);
      hide PartOf, SpoolOk, Requests;
      RemovalSplits(rows[1..], batch, nextId);
      assert rows == [rows[0]] + rows[1..];
      RequestsCons(rows[0], rows[1..]);
      RequestsCons(rows[0], WithoutIds(rows[1..], IdsOf(batch)));
    }
  }

  lemma HeadTaken(rows: seq<Row>, batch: seq<Row>, nextId: int)
    requires SpoolOk(rows, nextId) && PartOf(batch, rows) && rows != [] && batch != [] && batch[0] == rows[0]
    ensures PartOf(batch[1..], rows[1..]) && SpoolOk(rows[1..], nextId)
    ensures IdsOf(batch) == IdsOf(batch[1..]) + {rows[0].id}
    ensures forall row :: row in rows[1..] ==> row.id != rows[0].id
  {
    assert batch == [batch[0]] + batch[1..];
    forall row | row in batch[1..]
      ensures row in rows[1..]
    {
      var i :| 0 <= i < |batch[1..]| && batch[1..][i] == row;
      assert batch[i + 1] == row;
      assert row in rows && row != rows[0];
    }
    forall row | row in rows[1..]
      ensures row.id != rows[0].id
    {
      var i :| 0 <= i < |rows[1..]| && rows[1..][i] == row;
      assert rows[i + 1] == row;
    }
  }

  lemma HeadLeft(rows: seq<Row>, batch: seq<Row>, nextId: int)
    requires SpoolOk(rows, nextId) && PartOf(batch, rows) && rows != [] && (batch == [] || batch[0] != rows[0])
    ensures PartOf(batch, rows[1..]) && SpoolOk(rows[1..], nextId) && rows[0].id !in IdsOf(batch)
  {
    forall row | row in batch
      ensures row in rows[1..] && row.id != rows[0].id
    {
      assert batch[0] in batch && batch[0] in rows;
      var j :| 0 <= j < |rows| && rows[j] == batch[0];
      assert j > 0;
      var i :| 0 <= i < |batch| && batch[i] == row;
      assert batch[0].id <= row.id;
      var k :| 0 <= k < |rows| && rows[k] == row;
      assert rows[1..][k - 1] == row;
    }
  }

  lemma {:induction false} SameRemoval(rows: seq<Row>, ids: set<int>, fewer: set<int>, id: int)
    requires ids == fewer + {id} && forall row :: row in rows ==> row.id != id
    ensures WithoutIds(rows, ids) == WithoutIds(rows, fewer)
    decreases |rows|
  {
    if rows != [] {
      assert rows[0] in rows;
      assert forall row :: row in rows[1..] ==> row in rows;
      SameRemoval(rows[1..], ids, fewer, id);
    }
  }
}
