/**
 * The reader side of the bulk importer: the leading-character check of
 * `json_reader`, the header choice and the row-to-record step of
 * `csv_reader`, and the two reader loops that feed the batcher and flush it at
 * end of file.  Decoding JSON text and tokenising CSV lines are done by
 * library code; here their output is given as a sequence.
 */
module Readers {
  import opened Wrappers
  import opened Records
  import opened Batching

  // ---------------------------------------------------------------------------
  // JSON: the first significant character

  /** The characters of the `json.decoder.WHITESPACE` pattern `[ \t\n\r]*`. */
  predicate IsJsonSpace(c: char)
  {
    c == ' ' || c == '\t' || c == '\n' || c == '\r'
  }

  /** The end of the whitespace run that starts at `i`. */
  function SkipWhitespace(s: string, i: nat): (j: nat)
    requires i <= |s|
    ensures i <= j <= |s|
    ensures forall k :: i <= k < j ==> IsJsonSpace(s[k])
    ensures j < |s| ==> !IsJsonSpace(s[j])
    decreases |s| - i
  {
    if i < |s| && IsJsonSpace(s[i]) then SkipWhitespace(s, i + 1) else i
  }

  /** `k` is the first character of `chunk` that is not JSON whitespace. */
  predicate SignificantAt(chunk: string, k: nat)
  {
    k < |chunk| && !IsJsonSpace(chunk[k]) && forall m :: 0 <= m < k ==> IsJsonSpace(chunk[m])
  }

  /**
   * The check at the top of `json_reader`: after leading whitespace the first
   * chunk must hold `[` (an array, whose contents follow) or `{` (a stream of
   * objects, starting at the brace).  Indexing past the end of an all-blank
   * chunk raises `IndexError`, modelled as `JsonEmpty`.
   */
  function JsonStart(chunk: string): (r: Result<(string, bool), ImportError>)
    ensures (forall m :: 0 <= m < |chunk| ==> IsJsonSpace(chunk[m])) ==> r == Failure(JsonEmpty)
    ensures forall k: nat :: SignificantAt(chunk, k) ==>
              r == if chunk[k] == '[' then Success((chunk[k + 1..], true))
                   else if chunk[k] == '{' then Success((chunk[k..], false))
                   else Failure(JsonNotRecognized)
  {
    var offset := SkipWhitespace(chunk, 0);
    assert forall k: nat :: SignificantAt(chunk, k) ==> k == offset;
    if offset == |chunk| then Failure(JsonEmpty)
    else if chunk[offset] == '[' then Success((chunk[offset + 1..], true))
    else if chunk[offset] == '{' then Success((chunk[offset..], false))
    else Failure(JsonNotRecognized)
  }

  // ---------------------------------------------------------------------------
  // CSV: header and row-to-record

  /** One row as `csv.reader` yields it, with `reader.line_num` after reading it. */
  datatype CsvRow = CsvRow(line: nat, cells: seq<string>)

  /**
   * The header choice of `csv_reader`: unless `noHeader`, the first row is the
   * file's header; a custom header overrides it; with neither there is no
   * field name information.  The result is the header and the data rows.
   */
  function ResolveHeader(noHeader: bool, customHeader: Option<seq<string>>, rows: seq<CsvRow>)
    : (r: Result<(seq<string>, seq<CsvRow>), ImportError>)
    ensures !noHeader && rows == [] ==> r == Failure(NoHeaderRow)
    ensures noHeader && customHeader.None? ==> r == Failure(NoFieldNames)
    ensures r.Success? ==> r.value.1 == (if noHeader then rows else rows[1..])
    ensures r.Success? ==> r.value.0 == (if customHeader.Some? then customHeader.value else rows[0].cells)
  {
    if !noHeader && rows == [] then Failure(NoHeaderRow)
    else if customHeader.Some? then Success((customHeader.value, if noHeader then rows else rows[1..]))
    else if noHeader then Failure(NoFieldNames)
    else Success((rows[0].cells, rows[1..]))
  }

  /** `dict(zip(header, cells))`: pairs are inserted in order, so a repeated name keeps its last value. */
  function ZipDict(header: seq<string>, cells: seq<string>): map<string, string>
    requires |header| == |cells|
    decreases |header|
  {
    if header == [] then map[]
    else ZipDict(header[..|header| - 1], cells[..|cells| - 1])[header[|header| - 1] := cells[|cells| - 1]]
  }

  /** `i` is the last column named `header[i]`. */
  predicate LastOccurrence(header: seq<string>, i: nat)
    requires i < |header|
  {
    header[i] !in header[i + 1..]
  }

  /** The zipped dictionary has exactly the header names as keys. */
  lemma {:induction false} ZipDictKeys(header: seq<string>, cells: seq<string>)
    requires |header| == |cells|
    ensures forall k :: k in ZipDict(header, cells) <==> k in header
    decreases |header|
  {
    if header != [] {
      var n := |header| - 1;
      ZipDictKeys(header[..n], cells[..n]);
      assert header == header[..n] + [header[n]];
    }
  }

  /** A name maps to the cell of the last column that carries it. */
  lemma {:induction false} ZipDictLast(header: seq<string>, cells: seq<string>, i: nat)
    requires |header| == |cells| && i < |header| && LastOccurrence(header, i)
    ensures header[i] in ZipDict(header, cells) && ZipDict(header, cells)[header[i]] == cells[i]
    decreases |header|
  {
    var n := |header| - 1;
    if i < n {
      var h := header[..n];
      assert header[n] != header[i] by {
        assert header[i + 1..][n - i - 1] == header[n];
      }
      assert header[i + 1..] == h[i + 1..] + [header[n]];
      ZipDictLast(h, cells[..n], i);
    }
  }

  /** `dict(zip(header, cells))`: its keys are the header names, and each maps to the cell of its last column. */
  lemma ZipDictAt(header: seq<string>, cells: seq<string>)
    requires |header| == |cells|
    ensures forall k :: k in ZipDict(header, cells) <==> k in header
    ensures forall i :: 0 <= i < |header| && LastOccurrence(header, i) ==> ZipDict(header, cells)[header[i]] == cells[i]
  {
    ZipDictKeys(header, cells);
    forall i | 0 <= i < |header| && LastOccurrence(header, i)
      ensures ZipDict(header, cells)[header[i]] == cells[i]
    {
      ZipDictLast(header, cells, i);
    }
  }

  /** The record `csv_reader` builds from a row: the zipped dictionary without its empty fields. */
  function CsvRecord(header: seq<string>, cells: seq<string>): map<string, string>
    requires |header| == |cells|
  {
    var z := ZipDict(header, cells);
    map k | k in z && z[k] != "" :: z[k]
  }

  /**
   * What a CSV record holds: only header names, only non-empty values, and for
   * each column (the last one, when a name repeats) its value exactly when the
   * value is non-empty.
   */
  lemma CsvRecordShape(header: seq<string>, cells: seq<string>)
    requires |header| == |cells|
    ensures forall k :: k in CsvRecord(header, cells) ==> k in header && CsvRecord(header, cells)[k] != ""
    ensures forall i :: 0 <= i < |header| && LastOccurrence(header, i) ==>
              (cells[i] == "" ==> header[i] !in CsvRecord(header, cells)) &&
              (cells[i] != "" ==> header[i] in CsvRecord(header, cells) && CsvRecord(header, cells)[header[i]] == cells[i])
  {
    ZipDictAt(header, cells);
  }

  /**
   * The row step of `csv_reader`: a column count different from the header's
   * is an error naming the file and line; otherwise zip header with row and
   * delete the empty fields one key at a time.
   */
  method RowToRecord(filename: string, header: seq<string>, row: CsvRow)
    returns (r: Result<map<string, string>, ImportError>)
    ensures |row.cells| != |header| ==> r == Failure(InconsistentColumns(filename, row.line))
    ensures |row.cells| == |header| ==> r == Success(CsvRecord(header, row.cells))
  {
    if |header| != |row.cells| {
      return Failure(InconsistentColumns(filename, row.line));
    }
    var zipped := ZipDict(header, row.cells);
    var obj := zipped;
    var keys := zipped.Keys;
    while keys != {}
      invariant keys <= zipped.Keys
      invariant forall k :: k in obj <==> k in zipped && (k in keys || zipped[k] != "")
      invariant forall k :: k in obj ==> obj[k] == zipped[k]
      decreases keys
    {
      var k :| k in keys;
      if |obj[k]| == 0 {
        obj := obj - {k};
      }
      keys := keys - {k};
    }
    assert obj.Keys == CsvRecord(header, row.cells).Keys;
    assert forall k :: k in obj ==> obj[k] == CsvRecord(header, row.cells)[k];
    assert obj == CsvRecord(header, row.cells);
    return Success(obj);
  }

  /** CSV values are all strings. */
  function StrFields(m: map<string, string>): Record
  {
    map k | k in m :: Str(m[k])
  }

  // ---------------------------------------------------------------------------
  // The reader loops

  /** The exit event is set from the `interruptAt`-th record on. */
  predicate ExitSet(interruptAt: Option<nat>, i: nat)
  {
    interruptAt.Some? && i >= interruptAt.value
  }

  predicate CsvRowAccepted(header: seq<string>, rows: seq<CsvRow>, interruptAt: Option<nat>, i: nat)
    requires i < |rows|
  {
    |rows[i].cells| == |header| && !ExitSet(interruptAt, i)
  }

  /** The index of the first row the CSV loop stops at, or `|rows|`. */
  function CsvFirstRejected(header: seq<string>, rows: seq<CsvRow>, interruptAt: Option<nat>, from: nat): (j: nat)
    requires from <= |rows|
    ensures from <= j <= |rows|
    ensures forall i :: from <= i < j ==> |rows[i].cells| == |header| && !ExitSet(interruptAt, i)
    ensures j < |rows| ==> |rows[j].cells| != |header| || ExitSet(interruptAt, j)
    decreases |rows| - from
  {
    if from == |rows| || !CsvRowAccepted(header, rows, interruptAt, from) then from
    else CsvFirstRejected(header, rows, interruptAt, from + 1)
  }

  /** The records the CSV loop hands to the batcher for the first `n` rows, after the allowlist. */
  function CsvRecords(header: seq<string>, rows: seq<CsvRow>, n: nat, fields: Option<seq<string>>): seq<Record>
    requires n <= |rows|
    requires forall i :: 0 <= i < n ==> |rows[i].cells| == |header|
  {
    seq(n, i requires 0 <= i < n => Filtered(StrFields(CsvRecord(header, rows[i].cells)), fields))
  }

  /** One more accepted row adds its record at the end. */
  lemma CsvRecordsSnoc(header: seq<string>, rows: seq<CsvRow>, n: nat, fields: Option<seq<string>>)
    requires n < |rows|
    requires forall i :: 0 <= i <= n ==> |rows[i].cells| == |header|
    ensures CsvRecords(header, rows, n + 1, fields)
            == CsvRecords(header, rows, n, fields) + [Filtered(StrFields(CsvRecord(header, rows[n].cells)), fields)]
  {
  }

  /** One iteration of the loop of `csv_reader`: build the row's record and hand it to the batcher. */
  method FeedCsvRow(b: Batcher, filename: string, header: seq<string>, row: CsvRow, exitSet: bool)
    returns (r: Result<(), ImportError>)
    requires b.Valid()
    modifies b
    ensures b.Valid()
    ensures r.Success? <==> |row.cells| == |header| && !exitSet
    ensures r.Failure? ==>
              r.error == (if |row.cells| != |header| then InconsistentColumns(filename, row.line) else Interrupted)
    ensures r.Failure? ==> Flatten(b.emitted) <= old(b.Accepted())
    ensures r.Success? ==> b.Accepted() == old(b.Accepted()) + [Filtered(StrFields(CsvRecord(header, row.cells)), b.fields)]
  {
    var rec := RowToRecord(filename, header, row);
    if rec.Failure? {
      return Failure(rec.error);
    }
    var res := b.ObjectCallback(Object(StrFields(rec.value)), exitSet);
    if res.Failure? {
      return Failure(res.error);
    }
    return Success(());
  }

  /**
   * The decode loop of `csv_reader` (without tokenising) and its end-of-file
   * flush.  On success the batches put on the queue hold exactly the rows'
   * records in file order; an error stops the loop at the first bad row
   * without the final flush, so what was queued is a prefix of the records
   * before that row.
   */
  method ReadCsv(filename: string, db: string, table: string, header: seq<string>, rows: seq<CsvRow>,
                 fields: Option<seq<string>>, sizeOf: Record -> nat, interruptAt: Option<nat>)
    returns (emitted: seq<Task>, r: Result<(), ImportError>)
    ensures AllWellFormed(emitted, db, table, sizeOf)
    ensures r.Success? <==> CsvFirstRejected(header, rows, interruptAt, 0) == |rows|
    ensures r.Success? ==> Flatten(emitted) == CsvRecords(header, rows, |rows|, fields)
    ensures r.Failure? ==>
              var j := CsvFirstRejected(header, rows, interruptAt, 0);
              && j < |rows|
              && r.error == (if |rows[j].cells| != |header| then InconsistentColumns(filename, rows[j].line) else Interrupted)
              && Flatten(emitted) <= CsvRecords(header, rows, j, fields)
  {
    var b := new Batcher(db, table, fields, sizeOf);
    var i := 0;
    while i < |rows|
      invariant 0 <= i <= CsvFirstRejected(header, rows, interruptAt, 0)
      invariant b.Valid() && b.db == db && b.table == table && b.fields == fields && b.sizeOf == sizeOf
      invariant b.Accepted() == CsvRecords(header, rows, i, fields)
    {
      var res := FeedCsvRow(b, filename, header, rows[i], ExitSet(interruptAt, i));
      if res.Failure? {
        return b.emitted, res;
      }
      CsvRecordsSnoc(header, rows, i, fields);
      i := i + 1;
    }
    b.FlushRemaining();
    return b.emitted, Success(());
  }

  predicate JsonValueAccepted(values: seq<Value>, interruptAt: Option<nat>, i: nat)
    requires i < |values|
  {
    !ExitSet(interruptAt, i) && values[i].Object?
  }

  /** The index of the first value the JSON loop stops at, or `|values|`. */
  function JsonFirstRejected(values: seq<Value>, interruptAt: Option<nat>, from: nat): (j: nat)
    requires from <= |values|
    ensures from <= j <= |values|
    ensures forall i :: from <= i < j ==> !ExitSet(interruptAt, i) && values[i].Object?
    ensures j < |values| ==> ExitSet(interruptAt, j) || !values[j].Object?
    decreases |values| - from
  {
    if from == |values| || !JsonValueAccepted(values, interruptAt, from) then from
    else JsonFirstRejected(values, interruptAt, from + 1)
  }

  /** The records the JSON loop hands to the batcher for the first `n` values, after the allowlist. */
  function JsonRecords(values: seq<Value>, n: nat, fields: Option<seq<string>>): seq<Record>
    requires n <= |values|
    requires forall i :: 0 <= i < n ==> values[i].Object?
  {
    seq(n, i requires 0 <= i < n => Filtered(values[i].fields, fields))
  }

  /** One more accepted value adds its record at the end. */
  lemma JsonRecordsSnoc(values: seq<Value>, n: nat, fields: Option<seq<string>>)
    requires n < |values|
    requires forall i :: 0 <= i <= n ==> values[i].Object?
    ensures JsonRecords(values, n + 1, fields) == JsonRecords(values, n, fields) + [Filtered(values[n].fields, fields)]
  {
  }

  /** One decoded value handed to `object_callback`. */
  method FeedJsonValue(b: Batcher, value: Value, exitSet: bool) returns (r: Result<(), ImportError>)
    requires b.Valid()
    modifies b
    ensures b.Valid()
    ensures r.Success? <==> !exitSet && value.Object?
    ensures r.Failure? ==> r.error == (if exitSet then Interrupted else NotAnObject(value))
    ensures r.Failure? ==> Flatten(b.emitted) <= old(b.Accepted())
    ensures r.Success? ==> b.Accepted() == old(b.Accepted()) + [Filtered(value.fields, b.fields)]
  {
    var res := b.ObjectCallback(value, exitSet);
    if res.Failure? {
      assert Flatten(b.emitted) <= b.Accepted();
      return Failure(res.error);
    }
    return Success(());
  }

  /**
   * `json_reader` with the decoder abstracted: check the first chunk, hand
   * each decoded value to `object_callback`, then flush what is pending.
   */
  method ReadJson(db: string, table: string, firstChunk: string, values: seq<Value>,
                  fields: Option<seq<string>>, sizeOf: Record -> nat, interruptAt: Option<nat>)
    returns (emitted: seq<Task>, r: Result<(), ImportError>)
    ensures AllWellFormed(emitted, db, table, sizeOf)
    ensures JsonStart(firstChunk).Failure? ==> emitted == [] && r == Failure(JsonStart(firstChunk).error)
    ensures r.Success? <==> JsonStart(firstChunk).Success? && JsonFirstRejected(values, interruptAt, 0) == |values|
    ensures r.Success? ==> Flatten(emitted) == JsonRecords(values, |values|, fields)
    ensures r.Failure? && JsonStart(firstChunk).Success? ==>
              var j := JsonFirstRejected(values, interruptAt, 0);
              && j < |values|
              && r.error == (if ExitSet(interruptAt, j) then Interrupted else NotAnObject(values[j]))
              && Flatten(emitted) <= JsonRecords(values, j, fields)
  {
    var start := JsonStart(firstChunk);
    if start.Failure? {
      return [], Failure(start.error);
    }
    var b := new Batcher(db, table, fields, sizeOf);
    var i := 0;
    while i < |values|
      invariant 0 <= i <= JsonFirstRejected(values, interruptAt, 0)
      invariant b.Valid() && b.db == db && b.table == table && b.fields == fields && b.sizeOf == sizeOf
      invariant b.Accepted() == JsonRecords(values, i, fields)
    {
      var res := FeedJsonValue(b, values[i], ExitSet(interruptAt, i));
      if res.Failure? {
        return b.emitted, res;
      }
      JsonRecordsSnoc(values, i, fields);
      i := i + 1;
    }
    b.FlushRemaining();
    return b.emitted, Success(());
  }
}
