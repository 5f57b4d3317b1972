/**
 * The directory scan of `import_directory`: the database folders kept under
 * `--table` filters, and the sorting of each database folder's files into
 * data files to import, `.info` files, and ignored files.  The file system
 * walk itself is left out; a folder's listing and the set of existing paths
 * are given.
 */
module Directory {
  import opened Paths

  // ---------------------------------------------------------------------------
  // Database folders

  /** The folders whose names are in the filter, in their listed order. */
  function KeepListed(dirs: seq<string>, dbFilter: set<string>): seq<string>
  {
    if dirs == [] then [] else (if dirs[0] in dbFilter then [dirs[0]] else []) + KeepListed(dirs[1..], dbFilter)
  }

  /** A folder is kept exactly when it is listed, and nothing else appears. */
  lemma {:induction false} KeepListedMembers(dirs: seq<string>, dbFilter: set<string>)
    ensures forall d :: d in KeepListed(dirs, dbFilter) <==> d in dirs && d in dbFilter
    ensures |KeepListed(dirs, dbFilter)| <= |dirs|
  {
    if dirs != [] {
      KeepListedMembers(dirs[1..], dbFilter);
      assert dirs == [dirs[0]] + dirs[1..];
    }
  }

  /**
   * The pruning of the top-level folders: with a non-empty filter, delete
   * from the back every folder that is not a filtered database.
   */
  method PruneDatabaseFolders(dirs: seq<string>, dbFilter: set<string>) returns (kept: seq<string>)
    ensures |dbFilter| == 0 ==> kept == dirs
    ensures |dbFilter| > 0 ==> kept == KeepListed(dirs, dbFilter)
  {
    kept := dirs;
    if |dbFilter| > 0 {
      var i := |dirs|;
      assert dirs[i..] == [];
      while i > 0
        invariant 0 <= i <= |dirs|
        invariant kept == dirs[..i] + KeepListed(dirs[i..], dbFilter)
      {
        assert dirs[i - 1..] == [dirs[i - 1]] + dirs[i..];
        assert kept[..i - 1] == dirs[..i - 1];
        assert kept[i - 1..] == [dirs[i - 1]] + KeepListed(dirs[i..], dbFilter);
        if dirs[i - 1] !in dbFilter {
          kept := kept[..i - 1] + kept[i..];
        } else {
          assert dirs[..i] == dirs[..i - 1] + [dirs[i - 1]];
        }
        i := i - 1;
      }
      assert dirs[..0] == [];
    }
  }

  // ---------------------------------------------------------------------------
  // Files of a database folder

  datatype FileKind = DataFile | InfoFile | Ignored

  /**
   * A file is data when its name is `<table>.json` or `<table>.csv` (one dot)
   * and `<table>.info` exists beside it; `<table>.info` itself is taken only
   * with its data file; anything else is ignored.
   */
  function Kind(root: string, f: string, present: set<string>): FileKind
  {
    var parts := SplitOn(f, '.');
    if |parts| != 2 || !(parts[1] in ["json", "csv", "info"]) then Ignored
    else if parts[1] == "info" then InfoFile
    else if PathJoin(root, parts[0] + ".info") !in present then Ignored
    else DataFile
  }

  /** The paths of the files of one kind, in listed order. */
  function OfKind(root: string, files: seq<string>, present: set<string>, kind: FileKind): seq<string>
  {
    if files == [] then []
    else
      var last := files[|files| - 1];
      OfKind(root, files[..|files| - 1], present, kind) + (if Kind(root, last, present) == kind then [PathJoin(root, last)] else [])
  }

  /**
   * Every file lands in the list of its own kind, and the three lists
   * together hold no more entries than there are files.
   */
  lemma {:induction false} KindsPartitionFiles(root: string, files: seq<string>, present: set<string>)
    ensures |OfKind(root, files, present, DataFile)| + |OfKind(root, files, present, InfoFile)|
            + |OfKind(root, files, present, Ignored)| == |files|
    ensures forall i :: 0 <= i < |files| ==>
              PathJoin(root, files[i]) in OfKind(root, files, present, Kind(root, files[i], present))
  {
    if files != [] {
      KindsPartitionFiles(root, files[..|files| - 1], present);
    }
    forall i | 0 <= i < |files|
      ensures PathJoin(root, files[i]) in OfKind(root, files, present, Kind(root, files[i], present))
    {
      OfKindHas(root, files, present, i);
    }
  }

  /** The `i`-th listed file has its path in the list of its kind. */
  lemma {:induction false} OfKindHas(root: string, files: seq<string>, present: set<string>, i: nat)
    requires i < |files|
    ensures PathJoin(root, files[i]) in OfKind(root, files, present, Kind(root, files[i], present))
    decreases |files|
  {
    var n := |files| - 1;
    var kind := Kind(root, files[i], present);
    var before := OfKind(root, files[..n], present, kind);
    assert OfKind(root, files, present, kind) == before
      + (if Kind(root, files[n], present) == kind then [PathJoin(root, files[n])] else []);
    if i < n {
      OfKindHas(root, files[..n], present, i);
      assert files[..n][i] == files[i];
      assert PathJoin(root, files[i]) in before;
    }
  }

  /** Every path in the list of a kind comes from a listed file of that kind. */
  lemma {:induction false} OfKindSound(root: string, files: seq<string>, present: set<string>, kind: FileKind)
    ensures forall p :: p in OfKind(root, files, present, kind) ==>
              exists f :: f in files && Kind(root, f, present) == kind && p == PathJoin(root, f)
  {
    if files != [] {
      var n := |files| - 1;
      OfKindSound(root, files[..n], present, kind);
      forall p | p in OfKind(root, files, present, kind)
        ensures exists f :: f in files && Kind(root, f, present) == kind && p == PathJoin(root, f)
      {
        if p in OfKind(root, files[..n], present, kind) {
          var f :| f in files[..n] && Kind(root, f, present) == kind && p == PathJoin(root, f);
          assert f in files;
        } else {
          assert files[n] in files;
        }
      }
    }
  }

  /** Each data path names a `.json` or `.csv` file whose `.info` file is present. */
  lemma {:induction false} DataFilesHaveInfo(root: string, files: seq<string>, present: set<string>)
    ensures forall p :: p in OfKind(root, files, present, DataFile) ==>
              exists f :: f in files && p == PathJoin(root, f) && |SplitOn(f, '.')| == 2
                          && KnownFormat(SplitOn(f, '.')[1])
                          && PathJoin(root, SplitOn(f, '.')[0] + ".info") in present
  {
    if files != [] {
      var n := |files| - 1;
      DataFilesHaveInfo(root, files[..n], present);
      forall p | p in OfKind(root, files, present, DataFile)
        ensures exists f :: f in files && p == PathJoin(root, f) && |SplitOn(f, '.')| == 2
                            && KnownFormat(SplitOn(f, '.')[1])
                            && PathJoin(root, SplitOn(f, '.')[0] + ".info") in present
      {
        if p in OfKind(root, files[..n], present, DataFile) {
          var f :| f in files[..n] && p == PathJoin(root, f) && |SplitOn(f, '.')| == 2
                   && KnownFormat(SplitOn(f, '.')[1]) && PathJoin(root, SplitOn(f, '.')[0] + ".info") in present;
          assert f in files;
        } else {
          assert p == PathJoin(root, files[n]) && Kind(root, files[n], present) == DataFile;
        }
      }
    }
  }

  /** The loop over a database folder's files. */
  method ClassifyFiles(root: string, files: seq<string>, present: set<string>)
    returns (toImport: seq<string>, ignored: seq<string>)
    ensures toImport == OfKind(root, files, present, DataFile)
    ensures ignored == OfKind(root, files, present, Ignored)
  {
    toImport, ignored := [], [];
    for i := 0 to |files|
      invariant toImport == OfKind(root, files[..i], present, DataFile)
      invariant ignored == OfKind(root, files[..i], present, Ignored)
    {
      assert files[..i + 1][..i] == files[..i];
      var f := files[i];
      var splitFile := SplitOn(f, '.');
      if |splitFile| != 2 || !(splitFile[1] in ["json", "csv", "info"]) {
        ignored := ignored + [PathJoin(root, f)];
      } else if splitFile[1] == "info" {
        // taken later, with its data file
      } else if PathJoin(root, splitFile[0] + ".info") !in present {
        ignored := ignored + [PathJoin(root, f)];
      } else {
        toImport := toImport + [PathJoin(root, f)];
      }
    }
    assert files[..|files|] == files;
  }
}
