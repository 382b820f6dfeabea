/**
 * Database bootstrap: is_existing_file and create_db_if_not_exists, run
 * against the Disk model of the filesystem.
 */
module Db {
  import opened Wrappers
  import opened Paths
  import opened FileSystem

  /** The source's classification of bootstrap errors. */
  datatype DatabaseError = AlreadyExists | InvalidPath

  /** Why create_db_if_not_exists failed: one of its own guards, or an error propagated by `?`. */
  datatype BootstrapError =
    | Rejected(kind: DatabaseError, message: string)
    | DirCreation(cause: IoError)
    | DbCreation(cause: IoError)

  const EmptyPathMessage: string := "db_path cannot be an empty string"
  const ExistingFileMessage: string := "db_path is an existing file. Cannot overwrite."
  const NoParentMessage: string := "Parent path: None does not exist"

  /**
   * is_existing_file: a lookup of the path text finds a regular file. A text
   * ending in a separator or in "/." can only be looked up as a directory, so
   * it is never an existing file.
   */
  function IsExistingFile(fs: Tree, path: string): (b: bool)
    ensures b ==> Target(path) in fs && fs[Target(path)] != Dir && !IsRoot(Target(path))
    ensures DemandsDirectory(path) ==> !b
  {
    !DemandsDirectory(path) && IsRegularFile(fs, Target(path))
  }

  /**
   * create_db_if_not_exists as a function of the filesystem before the call:
   * the outcome and the filesystem after it.
   */
  function Bootstrap(fs: Tree, dbPath: string, engineFails: bool): (res: (Outcome<BootstrapError>, Tree))
    ensures res.0.Fail? && res.0.error.Rejected? ==> res.1 == fs
    ensures res.0 == Pass ==> IsRegularFile(res.1, Target(dbPath))
  {
    if dbPath == "" then (Fail(Rejected(InvalidPath, EmptyPathMessage)), fs)
    else if IsExistingFile(fs, dbPath) then (Fail(Rejected(AlreadyExists, ExistingFileMessage)), fs)
    else
      match Parent(dbPath)
      case None => (Fail(Rejected(InvalidPath, NoParentMessage)), fs)
      case Some(parent) =>
        match MakeDirs(fs, Resolve(parent))
        case Err(e) => (Fail(DirCreation(e)), fs)
        case Ok(withDirs) =>
          match OpenDatabase(withDirs, Target(dbPath), engineFails)
          case Err(e) => (Fail(DbCreation(e)), withDirs)
          case Ok(withDb) => (Pass, withDb)
  }

  /**
   * create_db_if_not_exists: the guards in the source's order, then the two
   * mutations. `engineFails` stands for an I/O failure inside the engine.
   */
  method CreateDbIfNotExists(disk: Disk, dbPath: string, engineFails: bool) returns (r: Outcome<BootstrapError>)
    requires disk.Valid()
    modifies disk
    ensures disk.Valid()
    ensures (r, disk.tree) == Bootstrap(old(disk.tree), dbPath, engineFails)
  {
    if dbPath == "" {
      return Fail(Rejected(InvalidPath, EmptyPathMessage));
    }
    if IsExistingFile(disk.tree, dbPath) {
      return Fail(Rejected(AlreadyExists, ExistingFileMessage));
    }
    var parent := Parent(dbPath);
    if parent.Some? {
      var dirs := disk.CreateDirAll(Resolve(parent.value));
      if dirs.Fail? {
        return Fail(DirCreation(dirs.error));
      }
      var db := disk.CreateDatabase(Target(dbPath), engineFails);
      if db.Fail? {
        return Fail(DbCreation(db.error));
      }
    } else {
      return Fail(Rejected(InvalidPath, NoParentMessage));
    }
    return Pass;
  }

  /**
   * The guards, in order: an empty path is rejected first, then a path that
   * is a regular file, then a path without a parent; each leaves the
   * filesystem exactly as it was.
   */
  lemma BootstrapGuards(fs: Tree, dbPath: string, engineFails: bool)
    ensures var (r, after) := Bootstrap(fs, dbPath, engineFails);
      (dbPath == "" ==> r == Fail(Rejected(InvalidPath, EmptyPathMessage)) && after == fs)
      && (dbPath != "" && IsExistingFile(fs, dbPath) ==>
            r == Fail(Rejected(AlreadyExists, ExistingFileMessage)) && after == fs)
      && (dbPath != "" && !IsExistingFile(fs, dbPath) && Parent(dbPath).None? ==>
            r == Fail(Rejected(InvalidPath, NoParentMessage)) && after == fs)
      && (DemandsDirectory(dbPath) ==> r != Fail(Rejected(AlreadyExists, ExistingFileMessage)))
      && (r.Fail? && r.error.Rejected? ==> after == fs)
  {
  }

  /**
   * Whatever the outcome, no entry that existed before the call is changed:
   * an existing file is never overwritten and existing directories stay.
   */
  lemma BootstrapKeepsExisting(fs: Tree, dbPath: string, engineFails: bool)
    ensures Extends(fs, Bootstrap(fs, dbPath, engineFails).1)
  {
  }

  /** Every entry of `after` missing from `before` is a directory above `target`, or a database file at `target`. */
  ghost predicate CreatedOnlyOnPath(before: Tree, after: Tree, target: seq<Component>)
  {
    forall k :: k in after && k !in before ==>
      (k == target && after[k] == DbFile) || (after[k] == Dir && |k| < |target| && k == target[..|k|])
  }

  /** create_dir_all on the parent creates only directories above the target. */
  lemma MakeDirsCreatesAbove(fs: Tree, t: seq<Component>)
    requires t != [] && MakeDirs(fs, Up(t)).Ok?
    ensures CreatedOnlyOnPath(fs, MakeDirs(fs, Up(t)).value, t)
  {
    var withDirs := MakeDirs(fs, Up(t)).value;
    forall k | k in withDirs && k !in fs
      ensures withDirs[k] == Dir && |k| < |t| && k == t[..|k|]
    {
      assert k <= Up(t);
      assert k == Up(t)[..|k|] == t[..|k|];
    }
  }

  /** Opening the database adds at most the database file at the target. */
  lemma OpenCreatesTarget(fs: Tree, withDirs: Tree, t: seq<Component>, engineFails: bool)
    requires CreatedOnlyOnPath(fs, withDirs, t) && Extends(fs, withDirs)
    requires OpenDatabase(withDirs, t, engineFails).Ok?
    ensures CreatedOnlyOnPath(fs, OpenDatabase(withDirs, t, engineFails).value, t)
  {
  }

  /** Everything the call creates is a directory above the target, or the database file at the target. */
  lemma {:induction false} BootstrapCreatesOnlyOnPath(fs: Tree, dbPath: string, engineFails: bool)
    ensures CreatedOnlyOnPath(fs, Bootstrap(fs, dbPath, engineFails).1, Target(dbPath))
  {
    if dbPath == "" || IsExistingFile(fs, dbPath) || Parent(dbPath).None? {
      return;
    }
    var t := Target(dbPath);
    var parentLoc := Resolve(Parent(dbPath).value);
    TargetUnderParent(dbPath);
    if t == [] {
      assert MakeDirs(fs, parentLoc) == Ok(fs);
      assert OpenDatabase(fs, t, engineFails).Err?;
      assert Bootstrap(fs, dbPath, engineFails).1 == fs;
      return;
    }
    assert parentLoc == Up(t);
    match MakeDirs(fs, parentLoc)
    case Err(_) =>
      assert Bootstrap(fs, dbPath, engineFails).1 == fs;
    case Ok(withDirs) =>
      MakeDirsCreatesAbove(fs, t);
      match OpenDatabase(withDirs, t, engineFails)
      case Err(_) =>
        assert Bootstrap(fs, dbPath, engineFails).1 == withDirs;
      case Ok(withDb) =>
        OpenCreatesTarget(fs, withDirs, t, engineFails);
        assert Bootstrap(fs, dbPath, engineFails).1 == withDb;
  }

  /**
   * Once create_dir_all has made the parent of a target that is not a root,
   * the engine can open a database there exactly when the target is not a
   * directory and the engine works.
   */
  lemma OpenAfterMakeDirs(fs: Tree, t: seq<Component>, engineFails: bool)
    requires !IsRoot(t)
    requires MakeDirs(fs, Up(t)).Ok?
    ensures OpenDatabase(MakeDirs(fs, Up(t)).value, t, engineFails).Ok?
      <==> !(t in fs && fs[t] == Dir) && !engineFails
  {
    var withDirs := MakeDirs(fs, Up(t)).value;
    assert IsDirectory(withDirs, Up(t));
    if t in withDirs {
      assert t in fs;
    }
  }

  /**
   * Making the parent and then opening the target both succeed exactly when
   * no file lies above the target, the engine works, and an existing target
   * is a file the guard let through.
   */
  lemma MakeAndOpen(fs: Tree, t: seq<Component>, engineFails: bool, demands: bool)
    requires WellFormed(fs) && !IsRoot(t)
    requires demands || !IsRegularFile(fs, t)
    ensures (MakeDirs(fs, Up(t)).Ok? && OpenDatabase(MakeDirs(fs, Up(t)).value, t, engineFails).Ok?)
      <==> NoFileOnPath(fs, Up(t)) && !engineFails && (t in fs ==> fs[t] != Dir && demands)
  {
    MakeDirsFailsIff(fs, Up(t));
    if MakeDirs(fs, Up(t)).Ok? {
      OpenAfterMakeDirs(fs, t, engineFails);
    }
  }

  /** Past the guards, a path whose target is a root fails: the engine cannot open a directory. */
  lemma RootTargetFails(fs: Tree, dbPath: string, engineFails: bool)
    requires dbPath != "" && !IsExistingFile(fs, dbPath) && Parent(dbPath).Some?
    requires IsRoot(Target(dbPath))
    ensures Bootstrap(fs, dbPath, engineFails).0 != Pass
  {
    TargetUnderParent(dbPath);
    var t := Target(dbPath);
    assert Resolve(Parent(dbPath).value) == [];
    assert MakeDirs(fs, []) == Ok(fs);
    assert OpenDatabase(fs, t, engineFails).Err?;
  }

  /** The success condition once all three guards have passed. */
  lemma BootstrapPastGuards(fs: Tree, dbPath: string, engineFails: bool)
    requires WellFormed(fs)
    requires dbPath != "" && !IsExistingFile(fs, dbPath) && Parent(dbPath).Some?
    ensures var t := Target(dbPath);
      Bootstrap(fs, dbPath, engineFails).0 == Pass
      <==> !IsRoot(t) && NoFileOnPath(fs, Up(t)) && !engineFails
           && (t in fs ==> fs[t] != Dir && DemandsDirectory(dbPath))
  {
    var t := Target(dbPath);
    if IsRoot(t) {
      RootTargetFails(fs, dbPath, engineFails);
      return;
    }
    TargetUnderParent(dbPath);
    var parentLoc := Resolve(Parent(dbPath).value);
    assert parentLoc == Up(t);
    var demands := DemandsDirectory(dbPath);
    assert demands || !IsRegularFile(fs, t);
    MakeAndOpen(fs, t, engineFails, demands);
    match MakeDirs(fs, parentLoc)
    case Err(e) =>
      assert Bootstrap(fs, dbPath, engineFails).0 == Fail(DirCreation(e));
    case Ok(withDirs) =>
      match OpenDatabase(withDirs, t, engineFails)
      case Err(e) =>
        assert Bootstrap(fs, dbPath, engineFails).0 == Fail(DbCreation(e));
      case Ok(_) =>
        assert Bootstrap(fs, dbPath, engineFails).0 == Pass;
  }

  /**
   * In a well-formed tree, the call succeeds exactly when the target is not a
   * root, no file lies above it, the engine works, and the target is new or
   * is a file the existing-file guard did not see because the path text ends
   * in a separator.
   */
  lemma BootstrapSucceedsIff(fs: Tree, dbPath: string, engineFails: bool)
    requires WellFormed(fs)
    ensures var t := Target(dbPath);
      Bootstrap(fs, dbPath, engineFails).0 == Pass
      <==> !IsRoot(t) && NoFileOnPath(fs, Up(t)) && !engineFails
           && (t in fs ==> fs[t] != Dir && DemandsDirectory(dbPath))
  {
    if dbPath == "" {
      EmptyAndRootTargets();
    } else if IsExistingFile(fs, dbPath) {
    } else if Parent(dbPath).None? {
      assert Components(dbPath) == [RootDir];
      assert Resolve([RootDir]) == Resolve([]) + [RootDir];
    } else {
      BootstrapPastGuards(fs, dbPath, engineFails);
    }
  }

  /**
   * After a successful call the target is a regular file inside an existing
   * directory: the new database file, or the file that was already there.
   * Unless the path text ends in a separator, is_existing_file now holds.
   */
  lemma BootstrapSuccess(fs: Tree, dbPath: string, engineFails: bool)
    ensures var (r, after) := Bootstrap(fs, dbPath, engineFails);
      var t := Target(dbPath);
      r == Pass ==>
        IsRegularFile(after, t) && IsDirectory(after, Up(t))
        && after[t] == (if t in fs then fs[t] else DbFile)
        && (!DemandsDirectory(dbPath) ==> IsExistingFile(after, dbPath))
  {
    var t := Target(dbPath);
    if Bootstrap(fs, dbPath, engineFails).0 == Pass {
      TargetUnderParent(dbPath);
      var withDirs := MakeDirs(fs, Resolve(Parent(dbPath).value)).value;
      if t in withDirs {
        assert t in fs;
      }
    }
  }

  /** The call keeps the filesystem well formed, whatever its outcome. */
  lemma BootstrapWellFormed(fs: Tree, dbPath: string, engineFails: bool)
    requires WellFormed(fs)
    ensures WellFormed(Bootstrap(fs, dbPath, engineFails).1)
  {
    if dbPath != "" && !IsExistingFile(fs, dbPath) && Parent(dbPath).Some? {
      MakeDirsWellFormed(fs, Resolve(Parent(dbPath).value));
    }
  }

  /**
   * A database creation that fails after the directories were made still
   * fails the call, and the new directories remain.
   */
  lemma BootstrapPartialEffect(fs: Tree, dbPath: string, engineFails: bool)
    ensures var (r, after) := Bootstrap(fs, dbPath, engineFails);
      r.Fail? && r.error.DbCreation? ==>
        Parent(dbPath).Some? && MakeDirs(fs, Resolve(Parent(dbPath).value)) == Ok(after)
  {
  }

  /**
   * Running the bootstrap again after it succeeded changes nothing. It is the
   * existing-file error, unless the path text ends in a separator: then the
   * guard does not see the file and the engine opens it again.
   */
  lemma BootstrapTwice(fs: Tree, dbPath: string, first: bool, second: bool)
    requires Bootstrap(fs, dbPath, first).0 == Pass
    ensures var after := Bootstrap(fs, dbPath, first).1;
      Bootstrap(after, dbPath, second)
      == if !DemandsDirectory(dbPath) then (Fail(Rejected(AlreadyExists, ExistingFileMessage)), after)
         else if second then (Fail(DbCreation(EngineFailure)), after)
         else (Pass, after)
  {
    BootstrapSuccess(fs, dbPath, first);
    TargetUnderParent(dbPath);
  }

  /**
   * With "name" a database file, "name/" passes the existing-file guard, has
   * the parent "", and the engine opens the file that is there: the call
   * succeeds and changes nothing.
   */
  lemma TrailingSeparatorReopens(name: string)
    requires IsPlainName(name)
    ensures var fs := map[[Normal(name)] := DbFile];
      IsExistingFile(fs, name) && !IsExistingFile(fs, name + "/")
      && Bootstrap(fs, name + "/", false) == (Pass, fs)
  {
    SingleName(name);
    TrailingSeparator(name);
    var fs := map[[Normal(name)] := DbFile];
    assert name + "/" != "";
    assert MakeDirs(fs, []) == Ok(fs);
    assert Up([Normal(name)]) == [];
  }

  /** "." is not a regular file and has a parent, but the engine cannot create a database at a directory. */
  lemma DotFails(fs: Tree, engineFails: bool)
    ensures Bootstrap(fs, ".", engineFails) == (Fail(DbCreation(CannotOpen)), fs)
  {
    EmptyAndRootTargets();
  }

  /** "/" has no parent. */
  lemma RootHasNoParent(fs: Tree, engineFails: bool)
    ensures Bootstrap(fs, "/", engineFails) == (Fail(Rejected(InvalidPath, NoParentMessage)), fs)
  {
    EmptyAndRootTargets();
  }

  /** A name that Path::components keeps as one Normal component. */
  predicate IsPlainName(s: string)
  {
    '/' !in s && s != "" && s != "." && s != ".."
  }

  /**
   * is_existing_file in a directory that holds a file and a subdirectory (the
   * repository checkout with "README.md" and "src"): true for the file, false
   * for the subdirectory and for a name that is not there ("teemo.txt").
   */
  lemma IsExistingFileCases(file: string, dir: string, missing: string)
    requires IsPlainName(file) && IsPlainName(dir) && IsPlainName(missing)
    requires file != dir && missing != file && missing != dir
    ensures var fs := map[[Normal(file)] := File, [Normal(dir)] := Dir];
      IsExistingFile(fs, file) && !IsExistingFile(fs, dir) && !IsExistingFile(fs, missing)
  {
    SingleName(file);
    SingleName(dir);
    SingleName(missing);
  }

  /**
   * A fresh name in an existing directory (a temporary directory, as in the
   * tests) becomes a database file and nothing else changes; a second call on
   * it fails.
   */
  lemma FreshPathInDirectory(dir: string, name: string, engineFails: bool)
    requires IsPlainName(dir) && IsPlainName(name)
    ensures var fs := map[[RootDir, Normal(dir)] := Dir];
      var p := "/" + dir + "/" + name;
      var (r, after) := Bootstrap(fs, p, false);
      r == Pass && IsExistingFile(after, p)
      && after == fs[[RootDir, Normal(dir), Normal(name)] := DbFile]
      && Bootstrap(after, p, engineFails).0.Fail?
  {
    var fs := map[[RootDir, Normal(dir)] := Dir];
    var p := "/" + dir + "/" + name;
    AbsoluteTwoNames(dir, name);
    assert p != "";
    BootstrapSuccess(fs, p, false);
    BootstrapTwice(fs, p, false, engineFails);
  }

  /** When the engine fails after the directory was made, the call fails and the new directory remains. */
  lemma EngineFailureLeavesDirectory(dir: string, name: string)
    requires IsPlainName(dir) && IsPlainName(name)
    ensures var (r, after) := Bootstrap(map[], dir + "/" + name, true);
      r == Fail(DbCreation(EngineFailure)) && after == map[[Normal(dir)] := Dir]
  {
    RelativeTwoNames(dir, name);
    var t: seq<Component> := [Normal(dir), Normal(name)];
    var empty: Tree := map[];
    assert dir + "/" + name != "";
    assert Up([Normal(dir)]) == [];
    assert MakeDirs(empty, []) == Ok(empty);
    assert MakeDirs(empty, [Normal(dir)]) == Ok(map[[Normal(dir)] := Dir]);
    assert Up(t) == [Normal(dir)];
    assert OpenDatabase(map[[Normal(dir)] := Dir], t, true) == Err(EngineFailure);
  }
}
