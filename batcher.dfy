/**
 * The per-file batcher of the bulk importer: `object_callback` and the
 * end-of-file flush of `json_reader` / `csv_reader`.  Records are buffered
 * with their serialised sizes and handed to the task queue as one
 * `(db, table, batch)` task when the batch reaches the record-count limit or
 * its serialised size exceeds the byte limit.
 */
module Batching {
  import opened Wrappers
  import opened Records

  const BatchLengthLimit: nat := 200
  const BatchSizeLimit: nat := 500000

  /** A task on the task queue: the destination table and a batch of records. */
  datatype Task = Task(db: string, table: string, rows: seq<Record>)

  function Sum(s: seq<nat>): nat
  {
    if s == [] then 0 else Sum(s[..|s| - 1]) + s[|s| - 1]
  }

  lemma SumAppend(s: seq<nat>, x: nat)
    ensures Sum(s + [x]) == Sum(s) + x
  {
    assert (s + [x])[..|s|] == s;
  }

  /** The serialised sizes of `rows`, one per record. */
  function SizesOf(sizeOf: Record -> nat, rows: seq<Record>): seq<nat>
  {
    seq(|rows|, i requires 0 <= i < |rows| => sizeOf(rows[i]))
  }

  /** The records of `tasks`, batch after batch. */
  function Flatten(tasks: seq<Task>): seq<Record>
  {
    if tasks == [] then [] else Flatten(tasks[..|tasks| - 1]) + tasks[|tasks| - 1].rows
  }

  lemma FlattenAppend(tasks: seq<Task>, t: Task)
    ensures Flatten(tasks + [t]) == Flatten(tasks) + t.rows
  {
    assert (tasks + [t])[..|tasks|] == tasks;
  }

  lemma SizesOfAppend(sizeOf: Record -> nat, rows: seq<Record>, x: Record)
    ensures SizesOf(sizeOf, rows + [x]) == SizesOf(sizeOf, rows) + [sizeOf(x)]
  {
  }

  lemma FlushedBatchWellFormed(t: Task, pending: seq<Record>, x: Record, db: string, table: string, sizeOf: Record -> nat)
    requires t == Task(db, table, pending + [x])
    requires |pending| < BatchLengthLimit && Sum(SizesOf(sizeOf, pending)) <= BatchSizeLimit
    ensures WellFormedBatch(t, db, table, sizeOf)
  {
    assert t.rows[..|t.rows| - 1] == pending;
  }

  /**
   * A batch as the batcher emits it: for the batcher's table, non-empty, at
   * most `BatchLengthLimit` records, and every record but the last fitted
   * under the byte limit.
   */
  ghost predicate WellFormedBatch(t: Task, db: string, table: string, sizeOf: Record -> nat)
  {
    && t.db == db && t.table == table
    && 0 < |t.rows| <= BatchLengthLimit
    && Sum(SizesOf(sizeOf, t.rows[..|t.rows| - 1])) <= BatchSizeLimit
  }

  ghost predicate AllWellFormed(tasks: seq<Task>, db: string, table: string, sizeOf: Record -> nat)
  {
    forall i :: 0 <= i < |tasks| ==> WellFormedBatch(tasks[i], db, table, sizeOf)
  }

  lemma AllWellFormedAppend(tasks: seq<Task>, t: Task, db: string, table: string, sizeOf: Record -> nat)
    requires AllWellFormed(tasks, db, table, sizeOf) && WellFormedBatch(t, db, table, sizeOf)
    ensures AllWellFormed(tasks + [t], db, table, sizeOf)
  {
  }

  /** The record left after dropping every key outside the allowlist (if any). */
  function Filtered(obj: Record, fields: Option<seq<string>>): Record
  {
    if fields.None? then obj else map k | k in obj && k in fields.value :: obj[k]
  }

  /** The allowlist loop of `object_callback`: delete every key not in `fields`. */
  method FilterFields(obj: Record, fields: seq<string>) returns (r: Record)
    ensures forall k :: k in r ==> k in obj && k in fields
    ensures forall k :: k in obj && k in fields ==> k in r && r[k] == obj[k]
  {
    r := obj;
    var keys := obj.Keys;
    while keys != {}
      invariant keys <= obj.Keys
      invariant forall k :: k in r <==> k in obj && (k in keys || k in fields)
      invariant forall k :: k in r ==> r[k] == obj[k]
      decreases keys
    {
      var k :| k in keys;
      if k !in fields {
        r := r - {k};
      }
      keys := keys - {k};
    }
  }

  class Batcher {
    const db: string
    const table: string
    const fields: Option<seq<string>>
    /** The length of a record once serialised (pickled). */
    const sizeOf: Record -> nat
    /** `object_buffers` and `buffer_sizes`: the pending batch. */
    var objectBuffers: seq<Record>
    var bufferSizes: seq<nat>
    /** The tasks this reader has put on the task queue, oldest first. */
    var emitted: seq<Task>

    ghost predicate BatchesWellFormed()
      reads this
    {
      AllWellFormed(emitted, db, table, sizeOf)
    }

    /** The pending batch is below both limits and every emitted batch is well formed. */
    ghost predicate Valid()
      reads this
    {
      && bufferSizes == SizesOf(sizeOf, objectBuffers)
      && |objectBuffers| < BatchLengthLimit
      && Sum(bufferSizes) <= BatchSizeLimit
      && BatchesWellFormed()
    }

    /** Every record accepted so far, flushed or pending, in arrival order. */
    ghost function Accepted(): seq<Record>
      reads this
    {
      Flatten(emitted) + objectBuffers
    }

    constructor (db: string, table: string, fields: Option<seq<string>>, sizeOf: Record -> nat)
      ensures Valid()
      ensures this.db == db && this.table == table && this.fields == fields && this.sizeOf == sizeOf
      ensures objectBuffers == [] && bufferSizes == [] && emitted == []
    {
      this.db := db;
      this.table := table;
      this.fields := fields;
      this.sizeOf := sizeOf;
      objectBuffers := [];
      bufferSizes := [];
      emitted := [];
    }

    /**
     * `object_callback`: refuse when interrupted or when `obj` is not an
     * object, apply the allowlist, then buffer the record (see `Push`).
     */
    method ObjectCallback(obj: Value, exitSet: bool) returns (r: Result<Record, ImportError>)
      requires Valid()
      modifies this
      ensures Valid()
      ensures exitSet ==> r == Failure(Interrupted)
      ensures !exitSet && !obj.Object? ==> r == Failure(NotAnObject(obj))
      ensures r.Success? <==> !exitSet && obj.Object?
      ensures r.Failure? ==>
                objectBuffers == old(objectBuffers) && bufferSizes == old(bufferSizes) && emitted == old(emitted)
      ensures r.Success? ==> r.value == Filtered(obj.fields, fields)
      ensures r.Success? ==> Pushed(old(objectBuffers), old(bufferSizes), old(emitted), r.value)
      ensures r.Success? ==> Accepted() == old(Accepted()) + [r.value]
    {
      if exitSet {
        return Failure(Interrupted);
      }
      if !obj.Object? {
        return Failure(NotAnObject(obj));
      }
      var rec := obj.fields;
      if fields.Some? {
        rec := FilterFields(rec, fields.value);
        assert rec == Filtered(obj.fields, fields);
      }
      Push(rec);
      r := Success(rec);
    }

    /**
     * The new state after buffering `rec` on top of the given old state: the
     * batch is flushed as one task when it holds `BatchLengthLimit` records or
     * its serialised size exceeds `BatchSizeLimit`, and kept pending otherwise.
     */
    ghost predicate Pushed(buffers: seq<Record>, sizes: seq<nat>, tasks: seq<Task>, rec: Record)
      reads this
    {
      var batch := buffers + [rec];
      if |batch| >= BatchLengthLimit || Sum(SizesOf(sizeOf, batch)) > BatchSizeLimit then
        emitted == tasks + [Task(db, table, batch)] && objectBuffers == [] && bufferSizes == []
      else
        emitted == tasks && objectBuffers == batch && bufferSizes == sizes + [sizeOf(rec)]
    }

    /** The buffering half of `object_callback`: append the record and its size, flush if full. */
    method Push(rec: Record)
      requires Valid()
      modifies this
      ensures Valid()
      ensures Pushed(old(objectBuffers), old(bufferSizes), old(emitted), rec)
      ensures Accepted() == old(Accepted()) + [rec]
    {
      var batch := objectBuffers + [rec];
      var sizes := bufferSizes + [sizeOf(rec)];
      SizesOfAppend(sizeOf, objectBuffers, rec);
      if |batch| >= BatchLengthLimit || Sum(sizes) > BatchSizeLimit {
        var t := Task(db, table, batch);
        FlushedBatchWellFormed(t, objectBuffers, rec, db, table, sizeOf);
        FlattenAppend(emitted, t);
        AllWellFormedAppend(emitted, t, db, table, sizeOf);
        emitted, objectBuffers, bufferSizes := emitted + [t], [], [];
      } else {
        objectBuffers, bufferSizes := batch, sizes;
      }
    }

    /** The end-of-file flush: put the pending batch on the queue if it is not empty. */
    method FlushRemaining()
      requires Valid()
      modifies this`emitted
      ensures BatchesWellFormed()
      ensures emitted == old(emitted) + (if objectBuffers == [] then [] else [Task(db, table, objectBuffers)])
      ensures Flatten(emitted) == old(Accepted())
    {
      if |objectBuffers| > 0 {
        var last := objectBuffers[|objectBuffers| - 1];
        assert objectBuffers[..|objectBuffers| - 1] + [last] == objectBuffers;
        SizesOfAppend(sizeOf, objectBuffers[..|objectBuffers| - 1], last);
        SumAppend(SizesOf(sizeOf, objectBuffers[..|objectBuffers| - 1]), sizeOf(last));
        var t := Task(db, table, objectBuffers);
        FlushedBatchWellFormed(t, objectBuffers[..|objectBuffers| - 1], objectBuffers[|objectBuffers| - 1], db, table, sizeOf);
        FlattenAppend(emitted, t);
        AllWellFormedAppend(emitted, t, db, table, sizeOf);
        emitted := emitted + [t];
      }
    }
  }
}
