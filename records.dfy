/**
 * The values the bulk importer moves around: decoded JSON values, the records
 * (dictionaries from field name to value) built from them, and the errors a
 * reader can raise.
 */
module Records {

  /** A decoded JSON value (the Python object `json` produces). */
  datatype Value =
    | Null
    | Bool(b: bool)
    | Number(n: real)
    | Str(s: string)
    | Array(items: seq<Value>)
    | Object(fields: map<string, Value>)

  /** A record is a dictionary from field name to value. */
  type Record = map<string, Value>

  /** The errors a reader raises; `Interrupted` is the `InterruptedError`. */
  datatype ImportError =
    | Interrupted
    | NotAnObject(got: Value)
    | InconsistentColumns(file: string, line: nat)
    | NoHeaderRow
    | NoFieldNames
    | JsonEmpty
    | JsonNotRecognized
}
