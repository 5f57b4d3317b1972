/**
 * The importer's string rules for command-line options and export paths:
 * `str.split(".")`, POSIX `os.path.split`/`os.path.join`, the delimiter and
 * format options, and `get_import_info_for_file`.
 */
module Paths {
  import opened Wrappers

  // ---------------------------------------------------------------------------
  // `s.split(sep)` and `sep.join(parts)` for a one-character separator

  /** Python's `s.split(sep)`: never empty, and one more part than there are separators. */
  function SplitOn(s: string, sep: char): (parts: seq<string>)
    ensures |parts| >= 1
  {
    if s == [] then [[]]
    else
      var rest := SplitOn(s[1..], sep);
      if s[0] == sep then [[]] + rest else [[s[0]] + rest[0]] + rest[1..]
  }

  /** `sep.join(parts)`. */
  function JoinWith(parts: seq<string>, sep: char): string
    requires |parts| >= 1
  {
    if |parts| == 1 then parts[0] else parts[0] + [sep] + JoinWith(parts[1..], sep)
  }

  predicate Free(s: string, c: char)
  {
    forall i :: 0 <= i < |s| ==> s[i] != c
  }

  /** Splitting then joining gives the string back, and no part holds the separator. */
  lemma JoinSplit(s: string, sep: char)
    ensures JoinWith(SplitOn(s, sep), sep) == s
    ensures forall k :: 0 <= k < |SplitOn(s, sep)| ==> Free(SplitOn(s, sep)[k], sep)
  {
    JoinOfSplit(s, sep);
    SplitPartsFree(s, sep);
  }

  /** `sep.join(s.split(sep)) == s`. */
  lemma {:induction false} JoinOfSplit(s: string, sep: char)
    ensures JoinWith(SplitOn(s, sep), sep) == s
    decreases |s|
  {
    if s != [] {
      JoinOfSplit(s[1..], sep);
      var rest := SplitOn(s[1..], sep);
      var parts := SplitOn(s, sep);
      if s[0] == sep {
        assert parts[1..] == rest;
        assert s == [] + [sep] + s[1..];
      } else if |rest| == 1 {
        assert parts == [[s[0]] + rest[0]];
      } else {
        assert parts[1..] == rest[1..];
        assert JoinWith(rest, sep) == rest[0] + [sep] + JoinWith(rest[1..], sep);
      }
    }
  }

  /** No part of `s.split(sep)` holds the separator. */
  lemma {:induction false} SplitPartsFree(s: string, sep: char)
    ensures forall k :: 0 <= k < |SplitOn(s, sep)| ==> Free(SplitOn(s, sep)[k], sep)
    decreases |s|
  {
    if s != [] {
      SplitPartsFree(s[1..], sep);
      var rest := SplitOn(s[1..], sep);
      var parts := SplitOn(s, sep);
      if s[0] == sep {
        forall k | 1 <= k < |parts| ensures Free(parts[k], sep) {
          assert parts[k] == rest[k - 1];
        }
      } else {
        assert Free(parts[0], sep) by {
          assert parts[0] == [s[0]] + rest[0];
          assert Free(rest[0], sep);
        }
        forall k | 1 <= k < |parts| ensures Free(parts[k], sep) {
          assert parts[k] == rest[k];
        }
      }
    }
  }

  /** A string without the separator splits into itself. */
  lemma {:induction false} SplitFree(s: string, sep: char)
    requires Free(s, sep)
    ensures SplitOn(s, sep) == [s]
    decreases |s|
  {
    if s != [] {
      assert Free(s[1..], sep);
      SplitFree(s[1..], sep);
      assert s == [s[0]] + s[1..];
    }
  }

  /** Splitting a part without the separator followed by the rest extends the first part. */
  lemma {:induction false} SplitConcat(a: string, b: string, sep: char)
    requires Free(a, sep)
    ensures SplitOn(a + b, sep) == [a + SplitOn(b, sep)[0]] + SplitOn(b, sep)[1..]
    decreases |a|
  {
    if a != [] {
      assert Free(a[1..], sep);
      SplitConcat(a[1..], b, sep);
      assert (a + b)[1..] == a[1..] + b;
      assert (a + b)[0] == a[0];
      assert a + SplitOn(b, sep)[0] == [a[0]] + (a[1..] + SplitOn(b, sep)[0]);
    } else {
      var parts := SplitOn(b, sep);
      assert a + b == b && a + parts[0] == parts[0];
      assert parts == [parts[0]] + parts[1..];
    }
  }

  /** Joining parts that hold no separator then splitting gives the parts back. */
  lemma {:induction false} SplitJoin(parts: seq<string>, sep: char)
    requires |parts| >= 1
    requires forall k :: 0 <= k < |parts| ==> Free(parts[k], sep)
    ensures SplitOn(JoinWith(parts, sep), sep) == parts
    decreases |parts|
  {
    if |parts| == 1 {
      SplitFree(parts[0], sep);
    } else {
      var tail := JoinWith(parts[1..], sep);
      SplitJoin(parts[1..], sep);
      SplitConcat(parts[0], [sep] + tail, sep);
      assert parts[0] + [sep] + tail == parts[0] + ([sep] + tail);
      assert ([sep] + tail)[1..] == tail;
      assert ([sep] + tail)[0] == sep;
      assert SplitOn([sep] + tail, sep) == [[]] + SplitOn(tail, sep);
      assert parts[0] + [] == parts[0];
      assert parts == [parts[0]] + parts[1..];
    }
  }

  // ---------------------------------------------------------------------------
  // POSIX `os.path.split` and `os.path.join`

  /** The index just after the last `/`, or 0 when there is none. */
  function AfterLastSlash(p: string): (i: nat)
    ensures i <= |p|
    ensures Free(p[i..], '/')
    ensures i > 0 ==> p[i - 1] == '/'
  {
    if p == [] then 0
    else if p[|p| - 1] == '/' then |p|
    else
      var i := AfterLastSlash(p[..|p| - 1]);
      assert p[i..] == p[..|p| - 1][i..] + [p[|p| - 1]];
      i
  }

  /** `head.rstrip("/")`. */
  function StripTrailingSlashes(h: string): (r: string)
    ensures r <= h
    ensures r == [] || r[|r| - 1] != '/'
    ensures forall i :: |r| <= i < |h| ==> h[i] == '/'
  {
    if h != [] && h[|h| - 1] == '/' then StripTrailingSlashes(h[..|h| - 1]) else h
  }

  /**
   * `os.path.split(p)`: the tail is everything after the last slash; the
   * head is everything before it, without trailing slashes unless it is
   * slashes only.
   */
  function PathSplit(p: string): (r: (string, string))
  {
    var i := AfterLastSlash(p);
    var head := p[..i];
    (if Free(head, '/') || StripTrailingSlashes(head) == [] then head else StripTrailingSlashes(head), p[i..])
  }

  /** The tail holds no slash, ends the path, and the head is a prefix of what comes before it. */
  lemma PathSplitShape(p: string)
    ensures var (head, tail) := PathSplit(p);
            && Free(tail, '/')
            && |tail| <= |p| && p[|p| - |tail|..] == tail
            && head <= p[..|p| - |tail|]
            && (forall i :: |head| <= i < |p| - |tail| ==> p[i] == '/')
  {
    var i := AfterLastSlash(p);
    var head := p[..i];
    if !(Free(head, '/') || StripTrailingSlashes(head) == []) {
      var s := StripTrailingSlashes(head);
      assert forall j :: |s| <= j < i ==> p[j] == head[j];
    }
  }

  /** A path whose last component has no slash splits at the slash before it. */
  lemma {:induction false} AfterLastSlashAppend(a: string, b: string)
    requires Free(b, '/')
    ensures AfterLastSlash(a + "/" + b) == |a| + 1
    decreases |b|
  {
    if b != [] {
      var p := a + "/" + b;
      assert p[..|p| - 1] == a + "/" + b[..|b| - 1];
      AfterLastSlashAppend(a, b[..|b| - 1]);
    } else {
      assert a + "/" + b == a + "/";
    }
  }

  /** `os.path.split(a + "/" + b)` gives `(a, b)` when `b` has no slash and `a` does not end in one. */
  lemma PathSplitJoined(a: string, b: string)
    requires Free(b, '/')
    requires a != [] && a[|a| - 1] != '/'
    ensures PathSplit(a + "/" + b) == (a, b)
  {
    AfterLastSlashAppend(a, b);
    var p := a + "/" + b;
    assert p[..|a| + 1] == a + "/";
    assert p[|a| + 1..] == b;
    assert (a + "/")[..|a|] == a;
    assert !Free(a + "/", '/') by { assert (a + "/")[|a|] == '/'; }
    assert StripTrailingSlashes(a) == a;
    assert StripTrailingSlashes(a + "/") == a;
  }

  /** `os.path.join(a, b)`: an absolute `b` wins; otherwise one slash separates them. */
  function PathJoin(a: string, b: string): (r: string)
    ensures b != [] && b[0] == '/' ==> r == b
    ensures (b == [] || b[0] != '/') && a != [] && a[|a| - 1] != '/' ==> r == a + "/" + b
  {
    if b != [] && b[0] == '/' then b
    else if a == [] || a[|a| - 1] == '/' then a + b
    else a + "/" + b
  }

  // ---------------------------------------------------------------------------
  // Options

  datatype OptionError = DelimiterTooLong(given: string) | UnknownFormat(given: string)

  /**
   * The `--delimiter` rule: absent means `,`, a single character is taken
   * as is, the two characters `\t` mean a tab, and anything else is refused.
   */
  function ParseDelimiter(given: Option<string>): (r: Result<char, OptionError>)
    ensures given.None? ==> r == Success(',')
    ensures given.Some? && |given.value| == 1 ==> r == Success(given.value[0])
    ensures given == Some("\\t") ==> r == Success('\t')
    ensures r.Failure? <==> given.Some? && |given.value| != 1 && given.value != "\\t"
    ensures r.Failure? ==> r.error == DelimiterTooLong(given.value)
  {
    if given.None? then Success(',')
    else if |given.value| == 1 then Success(given.value[0])
    else if given.value == "\\t" then Success('\t')
    else Failure(DelimiterTooLong(given.value))
  }

  /** The text after the last `.` of the file name: `os.path.split(f)[1].split(".")[-1]`. */
  function Extension(filename: string): string
  {
    var parts := SplitOn(PathSplit(filename).1, '.');
    parts[|parts| - 1]
  }

  /** The text before the first `.` of the file name: `os.path.split(f)[1].split(".")[0]`. */
  function BaseName(filename: string): string
  {
    SplitOn(PathSplit(filename).1, '.')[0]
  }

  predicate KnownFormat(f: string)
  {
    f == "csv" || f == "json"
  }

  /**
   * The `--format` rule: an explicit format must be `csv` or `json`; with
   * none, the file's extension is used when it is one of those, else `json`.
   */
  function ResolveFormat(given: Option<string>, importFile: string): (r: Result<string, OptionError>)
    ensures r.Success? ==> KnownFormat(r.value)
    ensures given.Some? ==> (r.Success? <==> KnownFormat(given.value))
    ensures given.Some? && KnownFormat(given.value) ==> r.value == given.value
    ensures given.Some? && !KnownFormat(given.value) ==> r.error == UnknownFormat(given.value)
    ensures given.None? ==> r == Success(if KnownFormat(Extension(importFile)) then Extension(importFile) else "json")
  {
    match given
    case None =>
      var ext := Extension(importFile);
      Success(if KnownFormat(ext) then ext else "json")
    case Some(f) =>
      if KnownFormat(f) then Success(f) else Failure(UnknownFormat(f))
  }

  // ---------------------------------------------------------------------------
  // `get_import_info_for_file`

  /** What the importer learns from an exported data file's path; the `.info` contents are read separately. */
  datatype FileInfo = FileInfo(file: string, format: string, db: string, table: string, infoPath: string)

  /** An entry of `--table` filters: a whole database (`None`) or one table of it. */
  type TableFilter = set<(string, Option<string>)>

  predicate Selected(db: string, table: string, filter: TableFilter)
  {
    |filter| == 0 || (db, None) in filter || (db, Some(table)) in filter
  }

  /**
   * The database is the name of the file's directory, the table the file
   * name up to its first dot, the format the text after its last dot; a file
   * outside the filter gives `None`.
   */
  function ImportInfoForFile(filename: string, filter: TableFilter): (r: Option<FileInfo>)
    ensures r.Some? <==> Selected(PathSplit(PathSplit(filename).0).1, BaseName(filename), filter)
    ensures r.Some? ==> r.value.file == filename && r.value.format == Extension(filename)
  {
    var (dir, name) := PathSplit(filename);
    var db := PathSplit(dir).1;
    var table := SplitOn(name, '.')[0];
    if !Selected(db, table, filter) then None
    else Some(FileInfo(filename, Extension(filename), db, table, PathJoin(dir, table + ".info")))
  }

  /** A file name `<table>.<format>` with neither part holding a dot or slash. */
  lemma DataFileName(table: string, format: string)
    requires Free(table, '/') && Free(table, '.') && Free(format, '/') && Free(format, '.')
    ensures Free(table + "." + format, '/')
    ensures SplitOn(table + "." + format, '.') == [table, format]
  {
    var name := table + "." + format;
    forall i | 0 <= i < |name| ensures name[i] != '/' {
      if i < |table| { assert name[i] == table[i]; }
      else if i > |table| { assert name[i] == format[i - |table| - 1]; }
    }
    assert name == JoinWith([table, format], '.');
    SplitJoin([table, format], '.');
  }

  /**
   * The layout `rethinkdb export` writes, `<dir>/<db>/<table>.<format>`, is
   * read back as that database, table and format, with the `.info` file
   * beside the data file.
   */
  lemma ExportLayoutReadBack(dir: string, db: string, table: string, format: string)
    requires dir != [] && dir[|dir| - 1] != '/'
    requires db != [] && Free(db, '/')
    requires Free(table, '/') && Free(table, '.') && Free(format, '/') && Free(format, '.')
    ensures var filename := dir + "/" + db + "/" + table + "." + format;
            ImportInfoForFile(filename, {}) ==
              Some(FileInfo(filename, format, db, table, dir + "/" + db + "/" + table + ".info"))
  {
    var folder, name := dir + "/" + db, table + "." + format;
    var filename := dir + "/" + db + "/" + table + "." + format;
    SlashJoin(folder, table + ".", format);
    SlashJoin(folder, table, ".");
    SlashJoin(folder, table, ".info");
    DataFileName(table, format);
    assert folder[|folder| - 1] == db[|db| - 1];
    PathSplitJoined(folder, name);
    PathSplitJoined(dir, db);
    InfoForSplitPath(filename, folder, db, table, format);
    InfoPathBeside(folder, table);
  }

  /** Regrouping `a/bc`: the slash-joined path ends with `b` followed by `c`. */
  lemma SlashJoin(a: string, b: string, c: string)
    ensures a + "/" + b + c == a + "/" + (b + c)
  {
  }

  /** What `get_import_info_for_file` reports, without a filter, for a path already split into its parts. */
  lemma InfoForSplitPath(filename: string, folder: string, db: string, table: string, format: string)
    requires PathSplit(filename) == (folder, table + "." + format)
    requires PathSplit(folder).1 == db
    requires SplitOn(table + "." + format, '.') == [table, format]
    ensures ImportInfoForFile(filename, {}) == Some(FileInfo(filename, format, db, table, PathJoin(folder, table + ".info")))
  {
    assert Extension(filename) == format;
  }

  /** Joining a folder with a slash-free `<table>.info` puts one slash between them. */
  lemma InfoPathBeside(folder: string, table: string)
    requires folder != [] && folder[|folder| - 1] != '/'
    requires Free(table, '/')
    ensures PathJoin(folder, table + ".info") == folder + "/" + (table + ".info")
  {
    assert table + ".info" != [] ==> (table + ".info")[0] != '/' by {
      if table != [] { assert (table + ".info")[0] == table[0]; }
    }
  }
}
