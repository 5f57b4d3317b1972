/**
 * The writer side of the bulk importer: `import_from_queue`, the loop a
 * client runs under the reconnecting call wrapper.  The task queue is a
 * sequence, the target store a map from table to primary key and rows, and
 * the insert query an oracle that either raises (a lost connection) or reports
 * an error count.
 */
module Writer {
  import opened Wrappers
  import opened Records
  import opened Batching

  /** A queue entry: a `(db, table, batch)` task, or the `"exit"` sentinel. */
  datatype QueueItem = Work(task: Task) | Exit

  datatype Durability = Hard | Soft

  /** The `conflict` argument of the insert: `'replace'` or `'error'`. */
  datatype Conflict = Replace | Error

  /** What one insert query does: raise, or return its `errors` count and `first_error`. */
  datatype InsertReply = InsertRaised | InsertDone(errors: nat, firstError: string)

  type Inserter = (Task, Durability, Conflict) -> InsertReply

  /** A table in the store: its primary key and its rows by primary-key value. */
  datatype TableState = TableState(primaryKey: string, rows: map<Value, Record>)

  type Store = map<(string, string), TableState>

  datatype WriterError =
    | ConnectionLost
    | InsertErrors(db: string, table: string, firstError: string)
    | MissingPrimaryKey
    | DuplicatePrimaryKey(pkey: string, row: Record, stored: Option<Record>)
    | NoSuchTable(db: string, table: string)
    | NoParkedTask

  /** `get(key)`: the stored row, or `None`. */
  function Lookup(rows: map<Value, Record>, key: Value): Option<Record>
  {
    if key in rows then Some(rows[key]) else None
  }

  /** The test of the resume loop: the row has the key and `row == obj` holds for the stored row. */
  predicate StoredSame(row: Record, pkey: string, stored: map<Value, Record>)
  {
    pkey in row && Lookup(stored, row[pkey]) == Some(row)
  }

  /** The error the resume loop raises for a row that fails `StoredSame`. */
  function Reject(row: Record, pkey: string, stored: map<Value, Record>): WriterError
  {
    if pkey !in row then MissingPrimaryKey else DuplicatePrimaryKey(pkey, row, Lookup(stored, row[pkey]))
  }

  // ---------------------------------------------------------------------------
  // Re-validating a parked batch

  /**
   * The rows left in the parked batch, the rows counted as already written,
   * and the error raised, if any.
   */
  datatype ResumeResult = ResumeResult(kept: seq<Record>, matched: nat, error: Option<WriterError>)

  /**
   * The resume loop as written: rows are checked from the last one back; a
   * row stored identically is counted and deleted, and the first other row
   * (no key, stored differently, or not stored at all) raises, leaving it and
   * the rows before it in the batch.
   */
  function ResumeSpec(rows: seq<Record>, pkey: string, stored: map<Value, Record>): ResumeResult
    decreases |rows|
  {
    if rows == [] then ResumeResult([], 0, None)
    else
      var last := rows[|rows| - 1];
      if StoredSame(last, pkey, stored) then
        var r := ResumeSpec(rows[..|rows| - 1], pkey, stored);
        ResumeResult(r.kept, r.matched + 1, r.error)
      else
        ResumeResult(rows, 0, Some(Reject(last, pkey, stored)))
  }

  /**
   * The rows left in the batch are a prefix of it, as many as were not
   * counted; they are left exactly when the check raises, and then for the
   * last of them.
   */
  lemma {:induction false} ResumeSpecKeepsPrefix(rows: seq<Record>, pkey: string, stored: map<Value, Record>)
    ensures var r := ResumeSpec(rows, pkey, stored);
            && r.matched + |r.kept| == |rows|
            && r.kept == rows[..|r.kept|]
            && (r.error.None? <==> r.kept == [])
            && (r.kept != [] ==> !StoredSame(r.kept[|r.kept| - 1], pkey, stored)
                                 && r.error == Some(Reject(r.kept[|r.kept| - 1], pkey, stored)))
    decreases |rows|
  {
    if rows != [] {
      var n := |rows| - 1;
      if StoredSame(rows[n], pkey, stored) {
        ResumeSpecKeepsPrefix(rows[..n], pkey, stored);
        var r := ResumeSpec(rows[..n], pkey, stored);
        assert rows[..n][..|r.kept|] == rows[..|r.kept|];
      }
    }
  }

  /** Every row behind the ones left in the batch is stored identically. */
  lemma {:induction false} ResumeSpecCountsStored(rows: seq<Record>, pkey: string, stored: map<Value, Record>)
    ensures var r := ResumeSpec(rows, pkey, stored);
            |r.kept| <= |rows| && forall i :: |r.kept| <= i < |rows| ==> StoredSame(rows[i], pkey, stored)
    decreases |rows|
  {
    if rows != [] {
      var n := |rows| - 1;
      if StoredSame(rows[n], pkey, stored) {
        ResumeSpecCountsStored(rows[..n], pkey, stored);
        var r := ResumeSpec(rows[..n], pkey, stored);
        forall i | |r.kept| <= i < |rows| ensures StoredSame(rows[i], pkey, stored) {
          if i < n { assert rows[..n][i] == rows[i]; }
        }
      }
    }
  }

  /**
   * The resume loop succeeds exactly when every row is already stored
   * identically, and then counts and removes them all; otherwise it raises
   * for the last offending row, after counting and removing the rows behind it.
   */
  lemma ResumeSpecShape(rows: seq<Record>, pkey: string, stored: map<Value, Record>)
    ensures var r := ResumeSpec(rows, pkey, stored);
            && r.matched + |r.kept| == |rows|
            && r.kept == rows[..|r.kept|]
            && (r.error.None? <==> forall i :: 0 <= i < |rows| ==> StoredSame(rows[i], pkey, stored))
            && (r.error.None? ==> r.kept == [])
            && (r.error.Some? ==>
                  && r.kept != []
                  && !StoredSame(r.kept[|r.kept| - 1], pkey, stored)
                  && r.error == Some(Reject(r.kept[|r.kept| - 1], pkey, stored))
                  && forall i :: |r.kept| <= i < |rows| ==> StoredSame(rows[i], pkey, stored))
  {
    ResumeSpecKeepsPrefix(rows, pkey, stored);
    ResumeSpecCountsStored(rows, pkey, stored);
    var r := ResumeSpec(rows, pkey, stored);
    if r.kept != [] {
      assert r.kept[|r.kept| - 1] == rows[|r.kept| - 1];
    }
  }

  /** The resume loop of `import_from_queue` (the not-replacing branch). */
  method ResumeCheck(rows: seq<Record>, pkey: string, stored: map<Value, Record>) returns (r: ResumeResult)
    ensures r == ResumeSpec(rows, pkey, stored)
  {
    var i := |rows|;
    var matched := 0;
    assert rows[..i] == rows;
    while i > 0
      invariant 0 <= i <= |rows|
      invariant matched == |rows| - i
      invariant ResumeSpec(rows, pkey, stored) ==
                  var p := ResumeSpec(rows[..i], pkey, stored); ResumeResult(p.kept, p.matched + matched, p.error)
    {
      var obj := rows[i - 1];
      assert rows[..i][..i - 1] == rows[..i - 1];
      if !StoredSame(obj, pkey, stored) {
        return ResumeResult(rows[..i], matched, Some(Reject(obj, pkey, stored)));
      }
      matched := matched + 1;
      i := i - 1;
    }
    assert rows[..0] == [];
    return ResumeResult([], matched, None);
  }

  /**
   * The resume loop the comment above it describes: a row that is absent from
   * the store is acceptable and stays in the batch to be sent again; a row
   * stored identically is counted and removed; anything else raises.
   */
  function ResumeIntended(rows: seq<Record>, pkey: string, stored: map<Value, Record>): ResumeResult
    decreases |rows|
  {
    if rows == [] then ResumeResult([], 0, None)
    else
      var last := rows[|rows| - 1];
      var r := ResumeIntended(rows[..|rows| - 1], pkey, stored);
      if StoredSame(last, pkey, stored) then ResumeResult(r.kept, r.matched + 1, r.error)
      else if pkey in last && Lookup(stored, last[pkey]).None? then ResumeResult(r.kept + [last], r.matched, r.error)
      else ResumeResult(rows, 0, Some(Reject(last, pkey, stored)))
  }

  /** Each row is either already written identically or not written at all. */
  ghost predicate CommittedOrAbsent(rows: seq<Record>, pkey: string, stored: map<Value, Record>)
  {
    forall i :: 0 <= i < |rows| ==>
      pkey in rows[i] && (Lookup(stored, rows[i][pkey]) == Some(rows[i]) || Lookup(stored, rows[i][pkey]).None?)
  }

  /** A row that carries its primary key and was never written. */
  predicate Unwritten(row: Record, pkey: string, stored: map<Value, Record>)
  {
    pkey in row && Lookup(stored, row[pkey]).None?
  }

  /** The unwritten rows of a batch, in batch order. */
  function UnwrittenRows(rows: seq<Record>, pkey: string, stored: map<Value, Record>): (u: seq<Record>)
    ensures |u| <= |rows|
    ensures forall k :: 0 <= k < |u| ==> Unwritten(u[k], pkey, stored)
    decreases |rows|
  {
    if rows == [] then []
    else if Unwritten(rows[0], pkey, stored) then [rows[0]] + UnwrittenRows(rows[1..], pkey, stored)
    else UnwrittenRows(rows[1..], pkey, stored)
  }

  /** Filtering a batch extended by one row. */
  lemma {:induction false} UnwrittenRowsSnoc(rows: seq<Record>, row: Record, pkey: string, stored: map<Value, Record>)
    ensures UnwrittenRows(rows + [row], pkey, stored)
            == UnwrittenRows(rows, pkey, stored) + (if Unwritten(row, pkey, stored) then [row] else [])
    decreases |rows|
  {
    if rows != [] {
      assert (rows + [row])[1..] == rows[1..] + [row];
      UnwrittenRowsSnoc(rows[1..], row, pkey, stored);
    } else {
      assert [row][1..] == [];
    }
  }

  /** Every unwritten row of a batch is among its filtered rows. */
  lemma {:induction false} UnwrittenRowsMembers(rows: seq<Record>, pkey: string, stored: map<Value, Record>)
    ensures forall i :: 0 <= i < |rows| && Unwritten(rows[i], pkey, stored) ==> rows[i] in UnwrittenRows(rows, pkey, stored)
    decreases |rows|
  {
    if rows != [] {
      UnwrittenRowsMembers(rows[1..], pkey, stored);
      forall i | 0 <= i < |rows| && Unwritten(rows[i], pkey, stored)
        ensures rows[i] in UnwrittenRows(rows, pkey, stored)
      {
        if i > 0 { assert rows[1..][i - 1] == rows[i]; }
      }
    }
  }

  /** The intended check keeps exactly the unwritten rows and counts the others. */
  lemma {:induction false} ResumeIntendedKeepsUnwritten(rows: seq<Record>, pkey: string, stored: map<Value, Record>)
    requires CommittedOrAbsent(rows, pkey, stored)
    ensures var r := ResumeIntended(rows, pkey, stored);
            && r.error.None?
            && r.kept == UnwrittenRows(rows, pkey, stored)
            && r.matched == |rows| - |UnwrittenRows(rows, pkey, stored)|
    decreases |rows|
  {
    if rows != [] {
      var n := |rows| - 1;
      assert CommittedOrAbsent(rows[..n], pkey, stored) by {
        forall i | 0 <= i < n ensures rows[..n][i] == rows[i] { }
      }
      ResumeIntendedKeepsUnwritten(rows[..n], pkey, stored);
      assert rows == rows[..n] + [rows[n]];
      UnwrittenRowsSnoc(rows[..n], rows[n], pkey, stored);
    }
  }

  /**
   * With the intended check, a batch interrupted part-way resumes without
   * loss or duplication: nothing raises, the written rows are counted, and
   * exactly the unwritten rows, in order, are sent again.
   */
  lemma ResumeIntendedSound(rows: seq<Record>, pkey: string, stored: map<Value, Record>)
    requires CommittedOrAbsent(rows, pkey, stored)
    ensures var r := ResumeIntended(rows, pkey, stored);
            && r.error.None?
            && r.kept == UnwrittenRows(rows, pkey, stored)
            && r.matched == |rows| - |UnwrittenRows(rows, pkey, stored)|
            && (forall k :: 0 <= k < |r.kept| ==> Unwritten(r.kept[k], pkey, stored))
            && (forall i :: 0 <= i < |rows| && Unwritten(rows[i], pkey, stored) ==> rows[i] in r.kept)
  {
    ResumeIntendedKeepsUnwritten(rows, pkey, stored);
    UnwrittenRowsMembers(rows, pkey, stored);
  }

  /** The comment's acceptable case, a row not written before the failure, makes the code as written raise. */
  lemma AsWrittenRejectsUnwrittenRow(row: Record, pkey: string)
    requires pkey in row
    ensures ResumeSpec([row], pkey, map[]).error == Some(DuplicatePrimaryKey(pkey, row, None))
    ensures ResumeIntended([row], pkey, map[]) == ResumeResult([row], 0, None)
  {
    assert [row][..0] == [];
  }

  // ---------------------------------------------------------------------------
  // Draining the queue

  datatype DrainOutcome = SawExit | QueueEmpty | InsertFailed(failed: Task) | InsertReportedErrors(db: string, table: string, firstError: string)

  /** Rows inserted by the loop, the index it stopped at, and why it stopped. */
  datatype DrainResult = DrainResult(added: nat, stop: nat, outcome: DrainOutcome)

  /** The number of rows in the tasks of `items`. */
  function TotalRows(items: seq<QueueItem>): nat
  {
    if items == [] then 0 else (if items[0].Work? then |items[0].task.rows| else 0) + TotalRows(items[1..])
  }

  predicate InsertSucceeds(reply: InsertReply)
  {
    reply.InsertDone? && reply.errors == 0
  }

  /**
   * The `while len(task) == 3` loop from `items[from]` on: insert each task,
   * stop at the sentinel, at an insert that raises, or at one that reports
   * errors; a queue that runs dry leaves the client blocked in `get()`.
   */
  function Drain(items: seq<QueueItem>, durability: Durability, conflict: Conflict, insert: Inserter, from: nat): DrainResult
    requires from <= |items|
    decreases |items| - from
  {
    if from == |items| then DrainResult(0, from, QueueEmpty)
    else match items[from]
      case Exit => DrainResult(0, from, SawExit)
      case Work(t) =>
        var reply := insert(t, durability, conflict);
        if reply.InsertRaised? then DrainResult(0, from, InsertFailed(t))
        else if reply.errors > 0 then DrainResult(0, from, InsertReportedErrors(t.db, t.table, reply.firstError))
        else
          var rest := Drain(items, durability, conflict, insert, from + 1);
          DrainResult(|t.rows| + rest.added, rest.stop, rest.outcome)
  }

  /**
   * The loop takes tasks up to the first sentinel, each of them inserted
   * without error, counts exactly their rows, and stops for the reason its
   * outcome gives.
   */
  lemma {:induction false} DrainShape(items: seq<QueueItem>, durability: Durability, conflict: Conflict, insert: Inserter, from: nat)
    requires from <= |items|
    ensures var r := Drain(items, durability, conflict, insert, from);
            && from <= r.stop <= |items|
            && (forall k :: from <= k < r.stop ==> items[k].Work? && InsertSucceeds(insert(items[k].task, durability, conflict)))
            && r.added == TotalRows(items[from..r.stop])
            && (r.outcome == QueueEmpty <==> r.stop == |items|)
            && (r.outcome == SawExit <==> r.stop < |items| && items[r.stop].Exit?)
            && (r.outcome.InsertFailed? <==>
                  r.stop < |items| && items[r.stop].Work? && insert(items[r.stop].task, durability, conflict).InsertRaised?)
            && (r.outcome.InsertFailed? ==> r.outcome.failed == items[r.stop].task)
            && (r.outcome.InsertReportedErrors? <==>
                  r.stop < |items| && items[r.stop].Work? && insert(items[r.stop].task, durability, conflict).InsertDone?
                  && insert(items[r.stop].task, durability, conflict).errors > 0)
    decreases |items| - from
  {
    if from < |items| && items[from].Work? && InsertSucceeds(insert(items[from].task, durability, conflict)) {
      DrainShape(items, durability, conflict, insert, from + 1);
      var r := Drain(items, durability, conflict, insert, from + 1);
      assert items[from..r.stop][1..] == items[from + 1..r.stop];
    } else {
      assert items[from..from] == [];
    }
  }

  /** The loop of `import_from_queue` over the first task and the tasks it pulls from the queue. */
  method DrainTasks(items: seq<QueueItem>, durability: Durability, conflict: Conflict, insert: Inserter)
    returns (r: DrainResult)
    ensures r == Drain(items, durability, conflict, insert, 0)
  {
    var i := 0;
    var added: nat := 0;
    while i < |items| && items[i].Work?
      invariant 0 <= i <= |items|
      invariant Drain(items, durability, conflict, insert, 0) ==
                  var d := Drain(items, durability, conflict, insert, i); DrainResult(added + d.added, d.stop, d.outcome)
      decreases |items| - i
    {
      var t := items[i].task;
      var reply := insert(t, durability, conflict);
      if reply.InsertRaised? {
        return DrainResult(added, i, InsertFailed(t));
      }
      if reply.errors > 0 {
        return DrainResult(added, i, InsertReportedErrors(t.db, t.table, reply.firstError));
      }
      added := added + |t.rows|;
      i := i + 1;
    }
    if i == |items| {
      return DrainResult(added, i, QueueEmpty);
    }
    return DrainResult(added, i, SawExit);
  }

  // ---------------------------------------------------------------------------
  // One call of `import_from_queue`

  /** The `progress` list: the rows counted so far (`None` before the first call) and the parked task. */
  datatype WriterState = WriterState(count: Option<nat>, parked: Option<Task>)

  /** How a call ends: it returns the row count, raises, or waits forever on an empty queue. */
  datatype Outcome = Returned(rows: nat) | Raised(error: WriterError) | Blocked

  datatype ResumeOutcome = ResumeOutcome(state: WriterState, error: Option<WriterError>)

  /**
   * The start of `import_from_queue`: the first call zeroes the count; a
   * later call without `replace_conflicts` re-validates the parked task
   * against the store, counting and removing the rows found there.
   */
  function ResumePhase(st: WriterState, replace: bool, store: Store): ResumeOutcome
  {
    if st.count.None? then ResumeOutcome(WriterState(Some(0), None), None)
    else if replace then ResumeOutcome(st, None)
    else if st.parked.None? then ResumeOutcome(st, Some(NoParkedTask))
    else
      var t := st.parked.value;
      if (t.db, t.table) !in store then ResumeOutcome(st, Some(NoSuchTable(t.db, t.table)))
      else
        var table := store[(t.db, t.table)];
        var rr := ResumeSpec(t.rows, table.primaryKey, table.rows);
        ResumeOutcome(WriterState(Some(st.count.value + rr.matched), Some(Task(t.db, t.table, rr.kept))), rr.error)
  }

  /** The first task and the queue after it: the parked task when there is one, else the queue's head. */
  function TaskSource(parked: Option<Task>, queue: seq<QueueItem>): seq<QueueItem>
  {
    if parked.None? then queue else [Work(parked.value)] + queue
  }

  datatype CallResult = CallResult(outcome: Outcome, state: WriterState, rest: seq<QueueItem>)

  function ConflictOf(replace: bool): Conflict
  {
    if replace then Replace else Error
  }

  /** One call of `import_from_queue`: its outcome, the new `progress`, and the queue left behind. */
  function ImportSpec(st: WriterState, queue: seq<QueueItem>, replace: bool, durability: Durability,
                      store: Store, insert: Inserter): CallResult
  {
    var ro := ResumePhase(st, replace, store);
    if ro.error.Some? then CallResult(Raised(ro.error.value), ro.state, queue)
    else DrainPhase(ro.state.count.value, ro.state.parked, queue, replace, durability, insert)
  }

  /** The rest of a call after a clean resume: the task loop, from `base` rows counted. */
  function DrainPhase(base: nat, parked: Option<Task>, queue: seq<QueueItem>, replace: bool, durability: Durability,
                      insert: Inserter): CallResult
  {
    var items := TaskSource(parked, queue);
    var d := Drain(items, durability, ConflictOf(replace), insert, 0);
    var count := base + d.added;
    var rest := if d.stop < |items| then items[d.stop + 1..] else [];
    match d.outcome
    case SawExit => CallResult(Returned(count), WriterState(Some(count), parked), rest)
    case QueueEmpty => CallResult(Blocked, WriterState(Some(count), parked), rest)
    case InsertFailed(t) => CallResult(Raised(ConnectionLost), WriterState(Some(count), Some(t)), rest)
    case InsertReportedErrors(db, table, e) =>
      CallResult(Raised(InsertErrors(db, table, e)), WriterState(Some(count), parked), rest)
  }

  /**
   * A call that returns has consumed tasks up to and including the first
   * sentinel, every one of them inserted without error, and returns the rows
   * counted by the resume step plus the rows of those tasks; the rest of the
   * queue is left alone.
   */
  lemma ReturnCountsResumedAndInserted(st: WriterState, queue: seq<QueueItem>, replace: bool, durability: Durability,
                                       store: Store, insert: Inserter)
    ensures var r := ImportSpec(st, queue, replace, durability, store, insert);
            var ro := ResumePhase(st, replace, store);
            var items := TaskSource(ro.state.parked, queue);
            r.outcome.Returned? ==>
              exists k :: 0 <= k < |items| && items[k] == Exit
                          && (forall i :: 0 <= i < k ==> items[i].Work? && InsertSucceeds(insert(items[i].task, durability, ConflictOf(replace))))
                          && r.outcome.rows == ro.state.count.value + TotalRows(items[..k])
                          && r.state == WriterState(Some(r.outcome.rows), ro.state.parked)
                          && r.rest == items[k + 1..]
  {
    var ro := ResumePhase(st, replace, store);
    if ro.error.None? {
      var items := TaskSource(ro.state.parked, queue);
      DrainEndsAtExit(items, durability, ConflictOf(replace), insert);
    }
  }

  /** A drain that sees the sentinel stops on it, after inserting and counting every task before it. */
  lemma DrainEndsAtExit(items: seq<QueueItem>, durability: Durability, conflict: Conflict, insert: Inserter)
    ensures var d := Drain(items, durability, conflict, insert, 0);
            d.outcome == SawExit ==>
              && d.stop < |items| && items[d.stop] == Exit
              && (forall i :: 0 <= i < d.stop ==> items[i].Work? && InsertSucceeds(insert(items[i].task, durability, conflict)))
              && d.added == TotalRows(items[..d.stop])
  {
    DrainShape(items, durability, conflict, insert, 0);
    var d := Drain(items, durability, conflict, insert, 0);
    assert items[0..d.stop] == items[..d.stop];
  }

  /**
   * An insert that raises parks its task, so that the next call starts from
   * it, and its rows are not counted.
   */
  lemma FailedInsertIsParked(st: WriterState, queue: seq<QueueItem>, replace: bool, durability: Durability,
                             store: Store, insert: Inserter)
    ensures var r := ImportSpec(st, queue, replace, durability, store, insert);
            var items := TaskSource(ResumePhase(st, replace, store).state.parked, queue);
            r.outcome == Raised(ConnectionLost) ==>
              exists k :: 0 <= k < |items| && items[k].Work?
                          && r.state.parked == Some(items[k].task)
                          && insert(items[k].task, durability, ConflictOf(replace)).InsertRaised?
                          && r.rest == items[k + 1..]
                          && r.state.count.value == ResumePhase(st, replace, store).state.count.value + TotalRows(items[..k])
  {
    ResumeNeverLosesConnection(st, replace, store);
    var ro := ResumePhase(st, replace, store);
    if ro.error.None? {
      DrainEndsAtFailedInsert(TaskSource(ro.state.parked, queue), durability, ConflictOf(replace), insert);
    }
  }

  /** The resume step raises only for the parked task itself, never for the connection. */
  lemma ResumeNeverLosesConnection(st: WriterState, replace: bool, store: Store)
    ensures ResumePhase(st, replace, store).error != Some(ConnectionLost)
  {
    if st.count.Some? && !replace && st.parked.Some? && (st.parked.value.db, st.parked.value.table) in store {
      var t := st.parked.value;
      var table := store[(t.db, t.table)];
      ResumeSpecKeepsPrefix(t.rows, table.primaryKey, table.rows);
    }
  }

  /** A drain that stops on a raising insert stops on that task, after counting every task before it. */
  lemma DrainEndsAtFailedInsert(items: seq<QueueItem>, durability: Durability, conflict: Conflict, insert: Inserter)
    ensures var d := Drain(items, durability, conflict, insert, 0);
            d.outcome.InsertFailed? ==>
              && d.stop < |items| && items[d.stop].Work? && d.outcome.failed == items[d.stop].task
              && insert(items[d.stop].task, durability, conflict).InsertRaised?
              && d.added == TotalRows(items[..d.stop])
  {
    DrainShape(items, durability, conflict, insert, 0);
    var d := Drain(items, durability, conflict, insert, 0);
    assert items[0..d.stop] == items[..d.stop];
  }

  /**
   * Resuming a parked batch whose rows were all written before the failure
   * counts each of them once and leaves an empty batch to send; any row that
   * is missing from the store or stored differently raises instead.
   */
  lemma ResumeCountsParkedBatchOnce(c: nat, t: Task, store: Store)
    requires (t.db, t.table) in store
    ensures var table := store[(t.db, t.table)];
            var ro := ResumePhase(WriterState(Some(c), Some(t)), false, store);
            && ((forall i :: 0 <= i < |t.rows| ==> StoredSame(t.rows[i], table.primaryKey, table.rows)) ==>
                  ro == ResumeOutcome(WriterState(Some(c + |t.rows|), Some(Task(t.db, t.table, []))), None))
            && ((exists i :: 0 <= i < |t.rows| && !StoredSame(t.rows[i], table.primaryKey, table.rows)) ==>
                  ro.error.Some? && (ro.error.value.MissingPrimaryKey? || ro.error.value.DuplicatePrimaryKey?))
  {
    var table := store[(t.db, t.table)];
    ResumeSpecShape(t.rows, table.primaryKey, table.rows);
  }

  class WriterProgress {
    /** `progress[0]`: rows counted so far, `None` until the first call. */
    var count: Option<nat>
    /** `progress[1]`: the task whose insert last raised. */
    var parked: Option<Task>

    function State(): WriterState
      reads this
    {
      WriterState(count, parked)
    }

    constructor ()
      ensures count == None && parked == None
    {
      count := None;
      parked := None;
    }

    /** The start of `import_from_queue`, up to the choice of the first task. */
    method Resume(replace: bool, store: Store) returns (error: Option<WriterError>)
      modifies this
      ensures var ro := ResumePhase(old(State()), replace, store);
              State() == ro.state && error == ro.error
    {
      if count.None? {
        count, parked := Some(0), None;
        return None;
      }
      if replace {
        return None;
      }
      if parked.None? {
        return Some(NoParkedTask);
      }
      var t := parked.value;
      if (t.db, t.table) !in store {
        return Some(NoSuchTable(t.db, t.table));
      }
      var table := store[(t.db, t.table)];
      var rr := ResumeCheck(t.rows, table.primaryKey, table.rows);
      count, parked := Some(count.value + rr.matched), Some(Task(t.db, t.table, rr.kept));
      return rr.error;
    }

    /** `import_from_queue(progress, conn, task_queue, ...)`. */
    method ImportFromQueue(queue: seq<QueueItem>, replace: bool, durability: Durability, store: Store, insert: Inserter)
      returns (outcome: Outcome, rest: seq<QueueItem>)
      modifies this
      ensures var r := ImportSpec(old(State()), queue, replace, durability, store, insert);
              outcome == r.outcome && State() == r.state && rest == r.rest
    {
      var error := Resume(replace, store);
      if error.Some? {
        return Raised(error.value), queue;
      }
      outcome, rest := RunTasks(queue, replace, durability, insert);
    }

    /** The `while len(task) == 3` part of `import_from_queue`, once the resume step has passed. */
    method RunTasks(queue: seq<QueueItem>, replace: bool, durability: Durability, insert: Inserter)
      returns (outcome: Outcome, rest: seq<QueueItem>)
      requires count.Some?
      modifies this
      ensures var r := DrainPhase(old(count.value), old(parked), queue, replace, durability, insert);
              outcome == r.outcome && State() == r.state && rest == r.rest
    {
      var items := TaskSource(parked, queue);
      var d := DrainTasks(items, durability, ConflictOf(replace), insert);
      var total := count.value + d.added;
      rest := if d.stop < |items| then items[d.stop + 1..] else [];
      outcome := match d.outcome
        case SawExit => Returned(total)
        case QueueEmpty => Blocked
        case InsertFailed(_) => Raised(ConnectionLost)
        case InsertReportedErrors(db, table, e) => Raised(InsertErrors(db, table, e));
      count, parked := Some(total), if d.outcome.InsertFailed? then Some(d.outcome.failed) else parked;
    }
  }
}
