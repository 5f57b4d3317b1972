/**
 * The administration layer's conversions between cluster metadata and
 * ReQL datums: strings, names, UUIDs, server ids, table ids and database
 * ids.  Each C++ converter that returns `bool` and writes out-parameters
 * becomes a function returning a `Result` or an `Option`.  The UUID text
 * codec (`uuid_to_str`/`str_to_uuid`) and the rule for valid names
 * (`name_string_t::assign_value`) are parameters.
 */
module DatumAdapter {
  import opened Wrappers

  /** A ReQL datum; `datum_string_t` is a plain string here. */
  datatype Datum =
    | Null
    | Bool(b: bool)
    | Num(n: real)
    | Str(s: string)
    | Arr(items: seq<Datum>)
    | Obj(fields: map<string, Datum>)

  /** A 128-bit UUID, by its numeric value. */
  type Uuid = u: nat | u < 0x1_0000_0000_0000_0000_0000_0000_0000_0000

  /** `uuid_to_str` and `str_to_uuid`. */
  datatype UuidCodec = UuidCodec(show: Uuid -> string, parse: string -> Option<Uuid>)

  /** `str_to_uuid` reads back what `uuid_to_str` writes. */
  ghost predicate Lawful(codec: UuidCodec)
  {
    forall u: Uuid :: codec.parse(codec.show(u)) == Some(u)
  }

  datatype IdentifierFormat = NameFormat | UuidFormat

  /** The conditions reported through `error_out`. */
  datatype AdminError =
    | Expected(what: string, got: Datum)
    | InvalidName(what: string, got: Datum)
    | ServerDoesNotExist(name: string)
    | ServerAmbiguous(name: string)
    | NoServerWithUuid(id: Uuid)
    | NoDatabaseWithUuid(id: Uuid)
    | MissingField(key: string)
    | UnexpectedKeys(keys: seq<string>)

  // ---------------------------------------------------------------------------
  // Strings, names and UUIDs

  function StringToDatum(value: string): (d: Datum)
    ensures d.Str?
  {
    Str(value)
  }

  /** Any string datum gives its string; any other datum is refused as not a string. */
  function StringFromDatum(d: Datum): (r: Result<string, AdminError>)
    ensures r.Success? <==> d.Str?
    ensures r.Failure? ==> r.error == Expected("string", d)
  {
    if !d.Str? then Failure(Expected("string", d)) else Success(d.s)
  }

  /** Decoding an encoded string gives it back. */
  lemma StringRoundTrip(value: string)
    ensures StringFromDatum(StringToDatum(value)) == Success(value)
  {
  }

  function NameToDatum(name: string): Datum
  {
    Str(name)
  }

  /** A name must be a string datum and a valid name; `what` names the expected kind in the error. */
  function NameFromDatum(d: Datum, what: string, validName: string -> bool): (r: Result<string, AdminError>)
    ensures r.Success? <==> d.Str? && validName(d.s)
    ensures r.Success? ==> r.value == d.s
    ensures !d.Str? ==> r == Failure(Expected(what, d))
    ensures d.Str? && !validName(d.s) ==> r == Failure(InvalidName(what, d))
  {
    if !d.Str? then Failure(Expected(what, d))
    else if !validName(d.s) then Failure(InvalidName(what, d))
    else Success(d.s)
  }

  /** A valid name survives encoding and decoding. */
  lemma NameRoundTrip(name: string, what: string, validName: string -> bool)
    requires validName(name)
    ensures NameFromDatum(NameToDatum(name), what, validName) == Success(name)
  {
  }

  function UuidToDatum(id: Uuid, codec: UuidCodec): Datum
  {
    Str(codec.show(id))
  }

  /** A UUID must be a string datum that parses; both failures read "Expected a UUID". */
  function UuidFromDatum(d: Datum, codec: UuidCodec): (r: Result<Uuid, AdminError>)
    ensures r.Success? <==> d.Str? && codec.parse(d.s).Some?
    ensures r.Success? ==> r.value == codec.parse(d.s).value
    ensures r.Failure? ==> r.error == Expected("UUID", d)
  {
    if !d.Str? then Failure(Expected("UUID", d))
    else
      match codec.parse(d.s)
      case None => Failure(Expected("UUID", d))
      case Some(id) => Success(id)
  }

  /** With a lawful codec, decoding an encoded UUID gives it back. */
  lemma UuidRoundTrip(id: Uuid, codec: UuidCodec)
    requires Lawful(codec)
    ensures UuidFromDatum(UuidToDatum(id, codec), codec) == Success(id)
  {
    assert codec.parse(codec.show(id)) == Some(id);
  }

  /** The name when the format asks for names, the UUID's text otherwise. */
  function NameOrUuidToDatum(name: string, id: Uuid, format: IdentifierFormat, codec: UuidCodec): (d: Datum)
    ensures format == NameFormat ==> d == NameToDatum(name)
    ensures format == UuidFormat ==> d == UuidToDatum(id, codec)
  {
    if format == NameFormat then NameToDatum(name) else UuidToDatum(id, codec)
  }

  // ---------------------------------------------------------------------------
  // Servers

  /**
   * What the server config client offers: the name of each server id, and
   * the name-to-id multimap as its list of entries.
   */
  datatype ServerDirectory = ServerDirectory(nameOf: map<Uuid, string>, byName: seq<(string, Uuid)>)

  /** The ids filed under `name` in the multimap, in entry order. */
  function IdsNamed(byName: seq<(string, Uuid)>, name: string): seq<Uuid>
  {
    if byName == [] then []
    else (if byName[0].0 == name then [byName[0].1] else []) + IdsNamed(byName[1..], name)
  }

  /** The multimap lists each known server once, under its name, and nothing else. */
  ghost predicate Consistent(dir: ServerDirectory)
  {
    && (forall k :: 0 <= k < |dir.byName| ==> dir.byName[k].1 in dir.nameOf && dir.nameOf[dir.byName[k].1] == dir.byName[k].0)
    && (forall id :: id in dir.nameOf ==> exists k :: 0 <= k < |dir.byName| && dir.byName[k].1 == id)
  }

  /** `convert_server_id_to_datum`: `None` for an unknown server, else its datum and name. */
  function ServerIdToDatum(id: Uuid, format: IdentifierFormat, dir: ServerDirectory, codec: UuidCodec)
    : (r: Option<(Datum, string)>)
    ensures r.Some? <==> id in dir.nameOf
    ensures r.Some? ==> r.value == (NameOrUuidToDatum(dir.nameOf[id], id, format, codec), dir.nameOf[id])
  {
    if id !in dir.nameOf then None
    else Some((NameOrUuidToDatum(dir.nameOf[id], id, format, codec), dir.nameOf[id]))
  }

  /**
   * `convert_server_id_from_datum`: by name, the name must be filed under
   * exactly one id; by UUID, the id must belong to a known server.  The
   * result is the id and the server's name.
   */
  function ServerIdFromDatum(d: Datum, format: IdentifierFormat, dir: ServerDirectory, codec: UuidCodec,
                             validName: string -> bool): (r: Result<(Uuid, string), AdminError>)
    ensures format == NameFormat && NameFromDatum(d, "server name", validName).Failure? ==>
              r == Failure(NameFromDatum(d, "server name", validName).error)
    ensures format == NameFormat && NameFromDatum(d, "server name", validName).Success? ==>
              var name := d.s;
              var ids := IdsNamed(dir.byName, name);
              && (|ids| == 0 ==> r == Failure(ServerDoesNotExist(name)))
              && (|ids| > 1 ==> r == Failure(ServerAmbiguous(name)))
              && (|ids| == 1 ==> r == Success((ids[0], name)))
    ensures format == UuidFormat ==>
              match UuidFromDatum(d, codec)
              case Failure(e) => r == Failure(e)
              case Success(id) => r == (if id in dir.nameOf then Success((id, dir.nameOf[id])) else Failure(NoServerWithUuid(id)))
  {
    if format == NameFormat then
      match NameFromDatum(d, "server name", validName)
      case Failure(e) => Failure(e)
      case Success(name) =>
        var ids := IdsNamed(dir.byName, name);
        if |ids| == 0 then Failure(ServerDoesNotExist(name))
        else if |ids| > 1 then Failure(ServerAmbiguous(name))
        else Success((ids[0], name))
    else
      match UuidFromDatum(d, codec)
      case Failure(e) => Failure(e)
      case Success(id) =>
        if id !in dir.nameOf then Failure(NoServerWithUuid(id)) else Success((id, dir.nameOf[id]))
  }

  /** An id that the multimap files under a name appears among that name's ids. */
  lemma {:induction false} IdsNamedContains(byName: seq<(string, Uuid)>, k: nat)
    requires k < |byName|
    ensures byName[k].1 in IdsNamed(byName, byName[k].0)
  {
    if k > 0 {
      IdsNamedContains(byName[1..], k - 1);
      assert byName[1..][k - 1] == byName[k];
    }
  }

  /**
   * A known server's datum decodes to that server: always in UUID format,
   * and in name format exactly when no other server has its name.
   */
  lemma ServerIdRoundTrip(id: Uuid, format: IdentifierFormat, dir: ServerDirectory, codec: UuidCodec,
                          validName: string -> bool)
    requires Consistent(dir) && Lawful(codec)
    requires id in dir.nameOf && validName(dir.nameOf[id])
    ensures var (d, name) := ServerIdToDatum(id, format, dir, codec).value;
            format == UuidFormat || |IdsNamed(dir.byName, name)| == 1 ==>
              ServerIdFromDatum(d, format, dir, codec, validName) == Success((id, name))
    ensures var (d, name) := ServerIdToDatum(id, format, dir, codec).value;
            format == NameFormat && |IdsNamed(dir.byName, name)| > 1 ==>
              ServerIdFromDatum(d, format, dir, codec, validName) == Failure(ServerAmbiguous(name))
  {
    var name := dir.nameOf[id];
    var d := NameOrUuidToDatum(name, id, format, codec);
    assert ServerIdToDatum(id, format, dir, codec).value == (d, name);
    if format == UuidFormat {
      UuidRoundTrip(id, codec);
      assert UuidFromDatum(d, codec) == Success(id);
    } else {
      assert NameFromDatum(d, "server name", validName) == Success(name);
      var k :| 0 <= k < |dir.byName| && dir.byName[k].1 == id;
      IdsNamedContains(dir.byName, k);
      var ids := IdsNamed(dir.byName, name);
      assert id in ids;
      if |ids| == 1 {
        assert ids[0] == id;
      }
    }
  }

  // ---------------------------------------------------------------------------
  // Tables and databases

  /** A table's semilattice entry: its name and its database. */
  datatype TableEntry = TableEntry(name: string, db: Uuid)

  /** The cluster metadata: tables and databases by id, `None` for a deleted entry. */
  datatype Metadata = Metadata(tables: map<Uuid, Option<TableEntry>>, databases: map<Uuid, Option<string>>)

  /** The name reported for a table whose database is missing or deleted. */
  const DeletedDatabaseName := "__deleted_database__"

  predicate Live<K, V>(m: map<K, Option<V>>, k: K)
  {
    k in m && m[k].Some?
  }

  /** The four out-parameters of `convert_table_id_to_datums`. */
  datatype TableDatums = TableDatums(table: Datum, tableName: string, db: Datum, dbName: string)

  /**
   * `convert_table_id_to_datums`: fails only for a missing or deleted table;
   * a missing or deleted database is reported as `__deleted_database__`.
   */
  function TableIdToDatums(tableId: Uuid, format: IdentifierFormat, meta: Metadata, codec: UuidCodec)
    : (r: Option<TableDatums>)
    ensures r.None? <==> !Live(meta.tables, tableId)
    ensures r.Some? ==>
              var entry := meta.tables[tableId].value;
              && r.value.tableName == entry.name
              && r.value.dbName == (if Live(meta.databases, entry.db) then meta.databases[entry.db].value else DeletedDatabaseName)
              && r.value.table == NameOrUuidToDatum(entry.name, tableId, format, codec)
              && r.value.db == NameOrUuidToDatum(r.value.dbName, entry.db, format, codec)
  {
    if !Live(meta.tables, tableId) then None
    else
      var entry := meta.tables[tableId].value;
      var dbName := if !Live(meta.databases, entry.db) then DeletedDatabaseName else meta.databases[entry.db].value;
      Some(TableDatums(NameOrUuidToDatum(entry.name, tableId, format, codec), entry.name,
                       NameOrUuidToDatum(dbName, entry.db, format, codec), dbName))
  }

  /** In UUID format, the table datum decodes to the table's id and the database datum to its database's id. */
  lemma TableDatumsDecode(tableId: Uuid, meta: Metadata, codec: UuidCodec)
    requires Lawful(codec) && Live(meta.tables, tableId)
    ensures var r := TableIdToDatums(tableId, UuidFormat, meta, codec).value;
            && UuidFromDatum(r.table, codec) == Success(tableId)
            && UuidFromDatum(r.db, codec) == Success(meta.tables[tableId].value.db)
  {
    UuidRoundTrip(tableId, codec);
    UuidRoundTrip(meta.tables[tableId].value.db, codec);
  }

  /**
   * `convert_database_id_to_datum`: the id must be in the metadata (a
   * guarantee in the source); a deleted database gives `None`.
   */
  function DatabaseIdToDatum(dbId: Uuid, format: IdentifierFormat, meta: Metadata, codec: UuidCodec)
    : (r: Option<(Datum, string)>)
    requires dbId in meta.databases
    ensures r.None? <==> meta.databases[dbId].None?
    ensures r.Some? ==> r.value.1 == meta.databases[dbId].value
    ensures r.Some? ==> r.value.0 == NameOrUuidToDatum(meta.databases[dbId].value, dbId, format, codec)
  {
    match meta.databases[dbId]
    case None => None
    case Some(name) => Some((NameOrUuidToDatum(name, dbId, format, codec), name))
  }

  /** The UUID branch of `convert_database_id_from_datum`: the id must parse and name a live database. */
  function DatabaseIdFromUuidDatum(d: Datum, meta: Metadata, codec: UuidCodec): (r: Result<(Uuid, string), AdminError>)
    ensures r.Success? <==> UuidFromDatum(d, codec).Success? && Live(meta.databases, UuidFromDatum(d, codec).value)
    ensures r.Success? ==> r.value == (UuidFromDatum(d, codec).value, meta.databases[UuidFromDatum(d, codec).value].value)
    ensures UuidFromDatum(d, codec).Failure? ==> r == Failure(UuidFromDatum(d, codec).error)
    ensures UuidFromDatum(d, codec).Success? && !Live(meta.databases, UuidFromDatum(d, codec).value) ==>
              r == Failure(NoDatabaseWithUuid(UuidFromDatum(d, codec).value))
  {
    match UuidFromDatum(d, codec)
    case Failure(e) => Failure(e)
    case Success(id) =>
      if !Live(meta.databases, id) then Failure(NoDatabaseWithUuid(id)) else Success((id, meta.databases[id].value))
  }

  /** A live database's UUID datum decodes back to its id and name. */
  lemma DatabaseIdRoundTrip(dbId: Uuid, meta: Metadata, codec: UuidCodec)
    requires Lawful(codec) && Live(meta.databases, dbId)
    ensures var (d, name) := DatabaseIdToDatum(dbId, UuidFormat, meta, codec).value;
            DatabaseIdFromUuidDatum(d, meta, codec) == Success((dbId, name))
  {
    UuidRoundTrip(dbId, codec);
  }
}
