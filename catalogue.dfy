/**
 * The importer's checks of the target databases and tables, `table_check`
 * for a single file and `tables_check` for an exported directory, over the
 * server's catalogue of databases, tables and primary keys.  The queries
 * that read and change the catalogue become reads and updates of a map.
 */
module Catalogue {
  import opened Wrappers

  /** Database name → table name → primary key. */
  type Catalogue = map<string, map<string, string>>

  /** The server's own database, which the importer never writes into. */
  const SystemDatabase := "rethinkdb"

  /** The key the server gives a table created without one. */
  const DefaultPrimaryKey := "id"

  datatype CatalogueError =
    | SystemDatabaseTarget
    | TableAlreadyExists
    | DifferentPrimaryKey(db: string, table: string)

  predicate HasTable(cat: Catalogue, db: string, table: string)
  {
    db in cat && table in cat[db]
  }

  /** The same tables with the same keys, apart from `db.table`. */
  ghost predicate SameElsewhere(before: Catalogue, after: Catalogue, db: string, table: string)
  {
    && (forall d :: d in before ==> d in after)
    && (forall d :: d in after && d != db ==> d in before && after[d] == before[d])
    && (db in before ==> forall t :: t in after[db] && t != table ==> t in before[db] && after[db][t] == before[db][t])
    && (db in before ==> forall t :: t in before[db] ==> t in after[db])
  }

  /**
   * `table_check`: refuse the system database; create the database if
   * missing; an existing table is refused unless `force` is set, and then
   * must have the requested key, if one is given, and its key is returned;
   * a missing table is created with the requested key, or the default one.
   */
  function TableCheck(db: string, table: string, pkey: Option<string>, force: bool, cat: Catalogue)
    : (r: Result<(Option<string>, Catalogue), CatalogueError>)
    ensures r.Failure? <==>
              db == SystemDatabase
              || (HasTable(cat, db, table) && (!force || (pkey.Some? && pkey.value != cat[db][table])))
    ensures r.Failure? ==> r.error == (if db == SystemDatabase then SystemDatabaseTarget
                                       else if !force then TableAlreadyExists
                                       else DifferentPrimaryKey(db, table))
    ensures r.Success? && HasTable(cat, db, table) ==> r.value == (Some(cat[db][table]), cat)
    ensures r.Success? && !HasTable(cat, db, table) ==>
              && r.value.0 == pkey
              && HasTable(r.value.1, db, table)
              && r.value.1[db][table] == (if pkey.Some? then pkey.value else DefaultPrimaryKey)
              && SameElsewhere(cat, r.value.1, db, table)
  {
    if db == SystemDatabase then Failure(SystemDatabaseTarget)
    else
      var withDb := if db in cat then cat else cat[db := map[]];
      if table in withDb[db] then
        if !force then Failure(TableAlreadyExists)
        else
          var extant := withDb[db][table];
          if pkey.Some? && pkey.value != extant then Failure(DifferentPrimaryKey(db, table))
          else Success((Some(extant), withDb))
      else
        var key := if pkey.None? then DefaultPrimaryKey else pkey.value;
        Success((pkey, withDb[db := withDb[db][table := key]]))
  }

  /**
   * Once the check has passed, the table is there with the reported key: a
   * second, forced check with that key passes without changing anything.
   */
  lemma TableCheckSettles(db: string, table: string, pkey: Option<string>, force: bool, cat: Catalogue)
    requires TableCheck(db, table, pkey, force, cat).Success?
    ensures var (key, after) := TableCheck(db, table, pkey, force, cat).value;
            TableCheck(db, table, Some(after[db][table]), true, after) == Success((Some(after[db][table]), after))
            && (key.Some? ==> key.value == after[db][table])
  {
  }

  // ---------------------------------------------------------------------------
  // `tables_check`

  /** What the importer knows of one exported table: its names and the key from its `.info` file. */
  datatype TableFile = TableFile(db: string, table: string, pkey: string)

  ghost predicate NoSystemTarget(files: seq<TableFile>)
  {
    forall i :: 0 <= i < |files| ==> files[i].db != SystemDatabase
  }

  /** The databases the files are for. */
  function DatabasesOf(files: seq<TableFile>): set<string>
  {
    set i | 0 <= i < |files| :: files[i].db
  }

  /** The catalogue with an empty entry for every database of `files` that it lacks. */
  function WithDatabases(cat: Catalogue, files: seq<TableFile>): (r: Catalogue)
    ensures forall d :: d in r <==> d in cat || d in DatabasesOf(files)
    ensures forall d :: d in cat ==> r[d] == cat[d]
    ensures forall d :: d in r && d !in cat ==> r[d] == map[]
  {
    map d | d in cat.Keys + DatabasesOf(files) :: if d in cat then cat[d] else map[]
  }

  /** The file's table exists with a key other than the file's. */
  predicate KeyClash(cat: Catalogue, f: TableFile)
  {
    HasTable(cat, f.db, f.table) && cat[f.db][f.table] != f.pkey
  }

  /** `db.table` for every file whose table already exists, in file order. */
  function Existing(cat: Catalogue, files: seq<TableFile>): seq<string>
  {
    if files == [] then []
    else
      var f := files[|files| - 1];
      Existing(cat, files[..|files| - 1]) + (if HasTable(cat, f.db, f.table) then [f.db + "." + f.table] else [])
  }

  /** The names reported are exactly those of files whose tables already exist. */
  lemma {:induction false} ExistingMembers(cat: Catalogue, files: seq<TableFile>)
    ensures forall i :: 0 <= i < |files| && HasTable(cat, files[i].db, files[i].table) ==>
              files[i].db + "." + files[i].table in Existing(cat, files)
    ensures forall s :: s in Existing(cat, files) ==>
              exists i :: 0 <= i < |files| && HasTable(cat, files[i].db, files[i].table) && s == files[i].db + "." + files[i].table
  {
    if files != [] {
      var n := |files| - 1;
      ExistingMembers(cat, files[..n]);
      forall i | 0 <= i < |files| && HasTable(cat, files[i].db, files[i].table)
        ensures files[i].db + "." + files[i].table in Existing(cat, files)
      {
        if i < n { assert files[..n][i] == files[i]; }
      }
      forall s | s in Existing(cat, files)
        ensures exists i :: 0 <= i < |files| && HasTable(cat, files[i].db, files[i].table) && s == files[i].db + "." + files[i].table
      {
        if s in Existing(cat, files[..n]) {
          var i :| 0 <= i < n && HasTable(cat, files[..n][i].db, files[..n][i].table) && s == files[..n][i].db + "." + files[..n][i].table;
          assert files[..n][i] == files[i];
        } else {
          assert s == files[n].db + "." + files[n].table;
        }
      }
    }
  }

  /** The first database loop: refuse the system database, create the missing ones. */
  method EnsureDatabases(files: seq<TableFile>, cat: Catalogue) returns (r: Result<Catalogue, CatalogueError>)
    ensures r.Success? <==> NoSystemTarget(files)
    ensures r.Success? ==> r.value == WithDatabases(cat, files)
    ensures r.Failure? ==> r.error == SystemDatabaseTarget
  {
    var after := cat;
    assert files[..0] == [];
    for i := 0 to |files|
      invariant after == WithDatabases(cat, files[..i])
      invariant forall k :: 0 <= k < i ==> files[k].db != SystemDatabase
    {
      assert files[..i + 1][..i] == files[..i];
      var db := files[i].db;
      if db == SystemDatabase {
        assert !NoSystemTarget(files) by { assert files[i].db == SystemDatabase; }
        return Failure(SystemDatabaseTarget);
      }
      if db !in after {
        after := after[db := map[]];
      }
      assert DatabasesOf(files[..i + 1]) == DatabasesOf(files[..i]) + {db} by {
        assert forall k :: 0 <= k < i ==> files[..i + 1][k] == files[..i][k];
      }
    }
    assert files[..|files|] == files;
    return Success(after);
  }

  /** The second loop: collect the tables that exist already and refuse any with another key. */
  method CheckTables(files: seq<TableFile>, force: bool, cat: Catalogue) returns (r: Result<seq<string>, CatalogueError>)
    ensures r.Success? <==> forall i :: 0 <= i < |files| ==> !KeyClash(cat, files[i])
    ensures r.Success? ==> r.value == (if force then [] else Existing(cat, files))
    ensures r.Failure? ==> exists j :: 0 <= j < |files| && KeyClash(cat, files[j])
                                       && r.error == DifferentPrimaryKey(files[j].db, files[j].table)
                                       && forall i :: 0 <= i < j ==> !KeyClash(cat, files[i])
  {
    var alreadyExist := [];
    for i := 0 to |files|
      invariant alreadyExist == (if force then [] else Existing(cat, files[..i]))
      invariant forall k :: 0 <= k < i ==> !KeyClash(cat, files[k])
    {
      assert files[..i + 1][..i] == files[..i];
      var f := files[i];
      if HasTable(cat, f.db, f.table) {
        if !force {
          alreadyExist := alreadyExist + [f.db + "." + f.table];
        }
        var extant := cat[f.db][f.table];
        if f.pkey != extant {
          return Failure(DifferentPrimaryKey(f.db, f.table));
        }
      }
    }
    assert files[..|files|] == files;
    return Success(alreadyExist);
  }

  /**
   * `tables_check`: the database loop, then the table loop on the catalogue
   * it leaves; the new catalogue is returned beside the result.
   */
  method TablesCheck(files: seq<TableFile>, force: bool, cat: Catalogue)
    returns (r: Result<seq<string>, CatalogueError>, after: Catalogue)
    ensures r.Success? <==>
              NoSystemTarget(files) && forall i :: 0 <= i < |files| ==> !KeyClash(WithDatabases(cat, files), files[i])
    ensures NoSystemTarget(files) ==> after == WithDatabases(cat, files)
    ensures !NoSystemTarget(files) ==> r == Failure(SystemDatabaseTarget) && after == cat
    ensures r.Success? ==> r.value == (if force then [] else Existing(WithDatabases(cat, files), files))
  {
    var dbs := EnsureDatabases(files, cat);
    if dbs.Failure? {
      return Failure(dbs.error), cat;
    }
    after := dbs.value;
    r := CheckTables(files, force, after);
  }

  /** Creating the missing databases adds no table, so exactly the tables already in the catalogue are reported. */
  lemma {:induction false} NewDatabasesHaveNoTables(cat: Catalogue, files: seq<TableFile>)
    ensures Existing(WithDatabases(cat, files), files) == Existing(cat, files)
    ensures forall i :: 0 <= i < |files| ==> (KeyClash(WithDatabases(cat, files), files[i]) <==> KeyClash(cat, files[i]))
  {
    var all := WithDatabases(cat, files);
    assert forall d, t :: HasTable(all, d, t) <==> HasTable(cat, d, t);
    ExistingSameTables(all, cat, files);
  }

  lemma {:induction false} ExistingSameTables(a: Catalogue, b: Catalogue, files: seq<TableFile>)
    requires forall d, t :: HasTable(a, d, t) <==> HasTable(b, d, t)
    ensures Existing(a, files) == Existing(b, files)
  {
    if files != [] {
      ExistingSameTables(a, b, files[..|files| - 1]);
    }
  }
}
