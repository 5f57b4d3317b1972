# RethinkDB import pipeline and admin datum converters, in Dafny

This project models two sequential cores of RethinkDB and proves properties of the model.

1. **The record path of the bulk importer** (`rethinkdb import`, in `drivers/python/rethinkdb/_import.py`):
   - Readers (`json_reader`, `csv_reader`) turn files into records.
   - `object_callback` filters each record, buffers it, and flushes batches of at most 200 records or about 500000 serialised bytes onto the task queue.
   - `import_from_queue` inserts the batches. After a lost connection it resumes from the batch it parked.
   - `update_progress` aggregates the progress of all readers.
   - Also modelled: the option, path and directory rules that decide what is imported, and the catalogue checks run before importing.
2. **The administration datum converters** (`src/clustering/administration/datum_adapter.cc`):
   - conversions between cluster metadata (server, table and database ids, names, UUIDs) and ReQL datums, with their typed errors;
   - `converter_from_datum_object_t`, which tracks the keys of an object datum that nobody has asked for.

Modules, one per file:

| file | module | what it holds |
|---|---|---|
| `wrappers.dfy` | `Wrappers` | `Option` and `Result` |
| `records.dfy` | `Records` | JSON values, records and importer errors |
| `batcher.dfy` | `Batching` | `object_callback` and the end-of-file flush, as the class `Batcher` |
| `readers.dfy` | `Readers` | the JSON leading-character check, the CSV header and row step, the two reader loops |
| `writer.dfy` | `Writer` | `import_from_queue`: the resume check, the insert loop, the class `WriterProgress` |
| `progress.dfy` | `Progress` | `update_progress` |
| `paths.dfy` | `Paths` | `str.split`/`join`, POSIX `os.path.split`/`join`, `--delimiter`, `--format`, `get_import_info_for_file` |
| `directory.dfy` | `Directory` | the folder pruning and file classification of `import_directory` |
| `catalogue.dfy` | `Catalogue` | `table_check` and `tables_check` over a catalogue map |
| `datum_adapter.dfy` | `DatumAdapter` | the `convert_*` functions |
| `object_converter.dfy` | `ObjectConverter` | `converter_from_datum_object_t`, as the class `Converter` |

Stand-ins:
- The task queue is a sequence of tasks and `"exit"` sentinels.
  - The queue is a `SimpleQueue`, which pickles inside `put`. So a queued batch is a copy, even though the buffer is cleared right after.
- The target tables are a map from `(db, table)` to a primary key and rows keyed by primary-key value.
- An insert query is an oracle function. It either raises or reports an error count.
- A pickled record's size is an opaque function `sizeOf`.
- The exit event is the index of the first record at which it is seen set.
- In the C++ part:
  - `uuid_to_str`/`str_to_uuid` are a codec parameter. Lemmas assume only that parsing reads back what showing writes.
  - `name_string_t::assign_value` is a validity predicate parameter.
  - Each error message is a typed value carrying what the message prints.

## Model

| member | source | states |
|---|---|---|
| Batching.FilterFields | drivers/python/rethinkdb/_import.py:325-332 | the filtered record keeps exactly the allowlisted keys of the input, with their values |
| Batching.FlushedBatchWellFormed | drivers/python/rethinkdb/_import.py:335-340 | a batch flushed from buffers that met the invariant has 1 to 200 records, and all but its last record fit in 500000 bytes |
| Batching.Batcher.ObjectCallback | drivers/python/rethinkdb/_import.py:318-341 | a set exit flag fails with `Interrupted` and a non-object with `NotAnObject`, both before any state changes; otherwise it returns the filtered record, appends it to the accepted records, and keeps the buffer invariant (equal lengths, fewer than 200 pending, at most 500000 bytes pending, every emitted batch well formed) |
| Batching.Batcher.Push | drivers/python/rethinkdb/_import.py:334-340 | a record is appended; the batch is emitted and both buffers are emptied exactly when the count reaches 200 or the total size exceeds 500000; otherwise the batch stays pending |
| Batching.Batcher.FlushRemaining | drivers/python/rethinkdb/_import.py:433-434 | a non-empty pending batch is emitted; afterwards the emitted batches concatenate to exactly the accepted records, in order |
| Readers.SkipWhitespace | drivers/python/rethinkdb/_import.py:416 | the result is the end of the `[ \t\n\r]*` run: all whitespace before it, none at it |
| Readers.JsonStart | drivers/python/rethinkdb/_import.py:416-423 | after leading whitespace, `[` starts an array (content after the bracket) and `{` an object stream (content from the brace); any other character is "not recognized"; an all-blank chunk is an error |
| Readers.ResolveHeader | drivers/python/rethinkdb/_import.py:488-497 | the first row is the header unless `--no-header`; a custom header overrides it; `--no-header` without a custom header is an error |
| Readers.ZipDictAt | drivers/python/rethinkdb/_import.py:505 | `dict(zip(header, row))` has exactly the header names as keys, and each name maps to the cell of its last column |
| Readers.CsvRecordShape | drivers/python/rethinkdb/_import.py:505-508 | a CSV record's keys are header names; its values are non-empty; an empty cell is absent and a non-empty cell present with its value |
| Readers.RowToRecord | drivers/python/rethinkdb/_import.py:501-508 | a column-count mismatch fails naming the file and line; otherwise the deletion loop yields exactly the zipped record without empty fields |
| Readers.FeedCsvRow | drivers/python/rethinkdb/_import.py:499-508 | one row: a column error or interrupt fails without accepting the row; otherwise the row's record, after the allowlist, is accepted |
| Readers.ReadCsv | drivers/python/rethinkdb/_import.py:499-512 | the queued batches are well formed; success exactly when no row is bad or interrupted, and then they concatenate to every row's record in file order; on failure the error is the first bad row's and the queued records are a prefix of the records before it |
| Readers.ReadJson | drivers/python/rethinkdb/_import.py:409-434 | a bad first chunk queues nothing; otherwise as for CSV: all decoded objects in order on success, the first non-object or interrupt as the error, and a prefix queued on failure |
| Writer.ResumeSpecShape | drivers/python/rethinkdb/_import.py:262-277 | the resume check succeeds iff every parked row is stored identically, and then counts and removes them all; otherwise it raises for the last offending row, after removing the rows behind it |
| Writer.ResumeCheck | drivers/python/rethinkdb/_import.py:269-277 | the reversed deletion loop computes the resume check |
| Writer.ResumeIntendedSound | drivers/python/rethinkdb/_import.py:262-277 | with absent rows accepted, as the comment intends, a batch of rows that are each written or absent resumes without error; the rows sent again are exactly the unwritten rows, in batch order, and every other row is counted |
| Writer.AsWrittenRejectsUnwrittenRow | drivers/python/rethinkdb/_import.py:272-277 | a parked row that never reached the table raises "Duplicate primary key" as written, but is kept under the intended check |
| Writer.DrainShape | drivers/python/rethinkdb/_import.py:279-296 | the loop inserts tasks up to the first sentinel, each without error, counts exactly their rows, and stops on a sentinel, a raising insert, an insert reporting errors, or an empty queue |
| Writer.DrainTasks | drivers/python/rethinkdb/_import.py:279-296 | the `while len(task) == 3` loop computes the drain |
| Writer.ReturnCountsResumedAndInserted | drivers/python/rethinkdb/_import.py:258-297 | a call that returns consumed tasks through the first sentinel and returns the rows counted by the resume step plus the rows of the tasks it inserted |
| Writer.FailedInsertIsParked | drivers/python/rethinkdb/_import.py:280-288 | an insert that raises parks its task in `progress[1]`, leaves the rest of the queue, and does not count that task's rows |
| Writer.ResumeCountsParkedBatchOnce | drivers/python/rethinkdb/_import.py:259-277 | when every parked row is stored identically, the count grows by the batch's length and the parked batch becomes empty; a missing or differing row raises |
| Writer.WriterProgress.RunTasks | drivers/python/rethinkdb/_import.py:279-296 | after a clean resume, the task loop's outcome, new `progress` and remaining queue are those of the drain phase |
| Writer.WriterProgress.Resume | drivers/python/rethinkdb/_import.py:259-277 | the start of a call updates `progress` as the resume phase specifies |
| Writer.WriterProgress.ImportFromQueue | drivers/python/rethinkdb/_import.py:258-297 | outcome, new `progress` and remaining queue are those of one call of `import_from_queue` |
| Progress.CompletionInRange | drivers/python/rethinkdb/_import.py:570-580 | the aggregate is always in [0, 1], and 1.0 when there are no jobs |
| Progress.UpdateProgress | drivers/python/rethinkdb/_import.py:570-580 | the loop computes the aggregate, which lies in [0, 1] |
| Progress.SlowestJobIsMinimum | drivers/python/rethinkdb/_import.py:570-580 | the intended aggregate is the least job completion (capped at 1.0), and is in [0, 1] |
| Progress.CompletionIsSlowestJob | drivers/python/rethinkdb/_import.py:575-580 | when no job has a total of zero or less, the loop computes exactly the least job completion |
| Progress.LaterEmptyJobErasesEarlierOnes | drivers/python/rethinkdb/_import.py:577-578 | a job with total at most 0 placed last makes the aggregate 1.0 whatever came before |
| Progress.EmptyJobHidesSlowJob | drivers/python/rethinkdb/_import.py:577-578 | jobs (1 of 10) then (0 of 0) read 1.0 as written, against 0.1 for the slowest job |
| Paths.JoinSplit | drivers/python/rethinkdb/_import.py:677-679 | joining the parts of `s.split(".")` gives `s`, and no part holds a dot |
| Paths.SplitJoin | drivers/python/rethinkdb/_import.py:677-679 | splitting the join of dot-free parts gives the parts back |
| Paths.PathSplitShape | drivers/python/rethinkdb/_import.py:677-679 | `os.path.split` gives a slash-free tail ending the path, and a head that is a prefix of the rest followed only by slashes |
| Paths.PathSplitJoined | drivers/python/rethinkdb/_import.py:677-679 | `os.path.split(a + "/" + b)` is `(a, b)` for a slash-free `b` and an `a` not ending in a slash |
| Paths.PathJoin | drivers/python/rethinkdb/_import.py:686 | `os.path.join`: an absolute second part wins, otherwise one slash separates the parts |
| Paths.ParseDelimiter | drivers/python/rethinkdb/_import.py:223-231 | no delimiter gives `,`, one character is kept, `\t` gives a tab, and everything else is refused |
| Paths.ResolveFormat | drivers/python/rethinkdb/_import.py:197-207 | the format is always `csv` or `json`: an explicit one must be one of these; with none, a recognised extension is used, else `json` |
| Paths.ImportInfoForFile | drivers/python/rethinkdb/_import.py:674-686 | a file is taken exactly when its database (the directory name) or its table (the name before the first dot) passes the filter; the format is the text after the last dot |
| Paths.ExportLayoutReadBack | drivers/python/rethinkdb/_import.py:674-686 | a file at `<dir>/<db>/<table>.<format>` is read as that database, table and format, with `<table>.info` beside it |
| Directory.KeepListedMembers | drivers/python/rethinkdb/_import.py:727-730 | a database folder is kept exactly when it is in the filter |
| Directory.PruneDatabaseFolders | drivers/python/rethinkdb/_import.py:727-730 | the reversed deletion leaves all folders without a filter, else exactly the filtered folders in order |
| Directory.KindsPartitionFiles | drivers/python/rethinkdb/_import.py:735-744 | every listed file's path is in the list of its own kind (data, info or ignored), and the three lists together have exactly as many entries as there are files |
| Directory.OfKindSound | drivers/python/rethinkdb/_import.py:735-744 | every path in a kind's list is the joined path of a listed file of that kind |
| Directory.DataFilesHaveInfo | drivers/python/rethinkdb/_import.py:735-744 | each file to import is `<table>.json` or `<table>.csv` with one dot, and its `<table>.info` exists |
| Directory.ClassifyFiles | drivers/python/rethinkdb/_import.py:735-744 | the loop yields the data files and the ignored files, in listed order |
| Catalogue.TableCheck | drivers/python/rethinkdb/_import.py:784-805 | fails for the system database, for an existing table without `--force`, or for one with a different requested key; otherwise returns the existing key, or creates the table with the requested or default key and changes nothing else |
| Catalogue.TableCheckSettles | drivers/python/rethinkdb/_import.py:784-805 | after a passing check, a forced re-check with the table's key passes and changes nothing |
| Catalogue.WithDatabases | drivers/python/rethinkdb/_import.py:694-699 | the catalogue gains an empty entry for exactly the missing databases of the files |
| Catalogue.EnsureDatabases | drivers/python/rethinkdb/_import.py:694-699 | fails iff some file targets the system database; otherwise creates the missing databases |
| Catalogue.CheckTables | drivers/python/rethinkdb/_import.py:701-714 | fails at the first file whose table exists with another key; otherwise returns the existing tables as `db.table` in file order, or none with `--force` |
| Catalogue.TablesCheck | drivers/python/rethinkdb/_import.py:692-714 | both loops together: the result and the catalogue after them |
| Catalogue.ExistingMembers | drivers/python/rethinkdb/_import.py:701-708 | the reported names are exactly those of files whose tables exist |
| Catalogue.NewDatabasesHaveNoTables | drivers/python/rethinkdb/_import.py:692-714 | creating databases adds no table, so the reports and key clashes are those of the catalogue before the call |
| DatumAdapter.StringToDatum | src/clustering/administration/datum_adapter.cc:8-11 | a string becomes a string datum |
| DatumAdapter.StringFromDatum | src/clustering/administration/datum_adapter.cc:13-23 | succeeds exactly on string datums; any other datum gives "Expected a string" |
| DatumAdapter.StringRoundTrip | src/clustering/administration/datum_adapter.cc:8-23 | decoding an encoded string gives it back |
| DatumAdapter.NameFromDatum | src/clustering/administration/datum_adapter.cc:30-45 | succeeds exactly on string datums holding a valid name; otherwise "Expected a <what>" or "not a valid <what>" |
| DatumAdapter.NameRoundTrip | src/clustering/administration/datum_adapter.cc:25-45 | a valid name survives encoding and decoding |
| DatumAdapter.UuidFromDatum | src/clustering/administration/datum_adapter.cc:52-65 | succeeds exactly on a string that parses as a UUID, with that UUID; both failures are "Expected a UUID" |
| DatumAdapter.UuidRoundTrip | src/clustering/administration/datum_adapter.cc:47-65 | decoding an encoded UUID gives it back |
| DatumAdapter.NameOrUuidToDatum | src/clustering/administration/datum_adapter.cc:67-76 | the name datum in name format, the UUID datum otherwise |
| DatumAdapter.ServerIdToDatum | src/clustering/administration/datum_adapter.cc:78-95 | fails exactly for an unknown server; otherwise gives its name-or-UUID datum and its name |
| DatumAdapter.ServerIdFromDatum | src/clustering/administration/datum_adapter.cc:97-145 | by name: a bad name fails, zero matches give "does not exist", several give "ambiguous", one gives that id; by UUID: a bad UUID fails, an unknown one gives "no server with UUID" |
| DatumAdapter.ServerIdRoundTrip | src/clustering/administration/datum_adapter.cc:78-145 | a known server's datum decodes to it: always by UUID, and by name exactly when its name is unique; a shared name is "ambiguous" |
| DatumAdapter.TableIdToDatums | src/clustering/administration/datum_adapter.cc:147-180 | fails exactly for a missing or deleted table; a missing or deleted database is named `__deleted_database__` |
| DatumAdapter.TableDatumsDecode | src/clustering/administration/datum_adapter.cc:147-180 | in UUID format the table and database datums decode to the table's and its database's ids |
| DatumAdapter.DatabaseIdToDatum | src/clustering/administration/datum_adapter.cc:182-200 | requires the id to be present; fails exactly for a deleted database, else gives the name-or-UUID datum of its name and id, and its name |
| DatumAdapter.DatabaseIdFromUuidDatum | src/clustering/administration/datum_adapter.cc:226-240 | a bad UUID fails; a missing or deleted database gives "no database with UUID"; otherwise its id and name |
| DatumAdapter.DatabaseIdRoundTrip | src/clustering/administration/datum_adapter.cc:182-240 | a live database's UUID datum decodes back to its id and name |
| ObjectConverter.Converter.Init | src/clustering/administration/datum_adapter.cc:253-266 | a non-object gives "Expected an object" and changes nothing; otherwise every key of the object is added to the extra keys |
| ObjectConverter.Converter.Get | src/clustering/administration/datum_adapter.cc:268-279 | the key stops being extra whether present or not; a missing field gives "Expected a field named" |
| ObjectConverter.Converter.GetOptional | src/clustering/administration/datum_adapter.cc:281-286 | the key stops being extra; the field is returned if present |
| ObjectConverter.Converter.Has | src/clustering/administration/datum_adapter.cc:288-290 | whether the field exists, with the extra keys unchanged |
| ObjectConverter.Converter.CheckNoExtraKeys | src/clustering/administration/datum_adapter.cc:292-301 | succeeds iff no key is extra, that is iff every key of the object has been asked for; otherwise lists each extra key once |

## Left out

- Process spawning, the reader and client processes, the SIGINT handler, the shared row counter and its lock. Their point is concurrency; the queue is a sequence and one writer call is modelled at a time.
- The reconnecting wrapper around `import_from_queue` and every ReQL query. Queries are stand-ins: the insert oracle, the store map and the catalogue map.
- JSON decoding (`read_json_array`, `read_json_single_object`) and the trailing-whitespace check. The decoder's output is given as a sequence of values.
- CSV tokenising, UTF-8 recoding and the line-count pass. Rows are given with their line numbers.
- Readers.ReadCsv: an empty CSV file never binds `i` in the line-count pass (lines 475-478), so the source raises `UnboundLocalError` before the header is read. The model, which leaves that pass out, reports `NoHeaderRow` for it, or succeeds with nothing queued under `--no-header` with a custom header.
- `pickle`: a record's serialised size is the opaque `sizeOf`, and the queued bytes are the record itself.
- Batching.Batcher.ObjectCallback: the exception types (`InterruptedError`, `RuntimeError`) are error values. The type name printed for a non-object is left out.
- Help text, progress printing (`print_progress`), `OptionParser`, file-existence checks, reading `.info` files and the `os.walk` traversal.
  - For the walk, only the folder filter and the per-folder classification are modelled.
  - Not modelled: the top-level files and nested folders it ignores, and the duplicate-table and format checks that follow.
- Catalogue.EnsureDatabases: the source loops over a set of databases, whose order Python does not fix. The model visits files in order, so which databases exist after a system-database error is not modelled.
- Catalogue.TableCheck: the primary key the server gives a table created without one is taken to be `id`.
- ObjectConverter.Converter.CheckNoExtraKeys: the order of the listed keys and the message text are left out. The source prints them in `std::set` order.
- ObjectConverter.Converter.Get: `get`, `get_optional` and `has` require `init` to have succeeded. The source has no defined behaviour on an uninitialised datum.
- DatumAdapter.ServerIdFromDatum: the name-to-id multimap is its list of entries.
  - `ServerIdRoundTrip` assumes it agrees with the id-to-name map, as the server config client maintains.
  - The watchable and `apply_read` are left out.
- The name branch of `convert_database_id_from_datum`: `const_metadata_searcher_t` and `check_metadata_status` are not part of this model.
- `convert_port_to_datum` and `convert_microtime_to_datum` (floating point), and the text of `datum.print()`.
- `datum_string_t` is a plain string. Its storage layout and comparison are not part of this model.

## Findings

The writer keeps the resume check as the code is written. The corrected definitions are proved beside the as-written ones.

| source | as written | input that shows it | evidently intended | confidence | as-written member | corrected member |
|---|---|---|---|---|---|---|
| drivers/python/rethinkdb/_import.py:272-277 | `row == obj` is false when `get` returns `None`, so a parked row that never reached the table raises "Duplicate primary key" | a parked batch `[{id: 1}]` whose insert failed before writing, resumed against an empty table | the comment at lines 263-264: a row absent from the server is acceptable and is sent again | not executed; high | Writer.AsWrittenRejectsUnwrittenRow | Writer.ResumeIntendedSound |
| drivers/python/rethinkdb/_import.py:577-578 | a job with `max_count <= 0` sets the running value to 1.0, erasing slower jobs seen before it | jobs `(1, 10)` then `(0, 0)` give 1.0 | the least completion over all jobs, 0.1 here | not executed; medium | Progress.EmptyJobHidesSlowJob | Progress.SlowestJobIsMinimum |
