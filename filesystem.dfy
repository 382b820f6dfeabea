/**
 * The part of the operating system the bootstrap touches: a tree of
 * directories and files, std::fs::create_dir_all, and the SQLite engine's
 * create-if-missing open (sqlx's Sqlite::create_database).
 */
module FileSystem {
  import opened Wrappers
  import opened Paths

  /** What a location holds: a plain file, a directory, or a SQLite database file. */
  datatype Node = File | Dir | DbFile

  /** Every existing location except the two roots, with what it holds. */
  type Tree = map<seq<Component>, Node>

  /** The io::ErrorKind-level failures the two primitives can report. */
  datatype IoError =
    | FileExists      // mkdir on a location that is a file
    | NotADirectory   // mkdir below a location that is a file
    | CannotOpen      // the engine cannot open a database file there
    | EngineFailure   // the engine fails for a reason outside this model (permissions, disk full)

  predicate IsDirectory(fs: Tree, loc: seq<Component>)
  {
    IsRoot(loc) || (loc in fs && fs[loc] == Dir)
  }

  /** Path::is_file: the location exists and is not a directory. */
  predicate IsRegularFile(fs: Tree, loc: seq<Component>)
  {
    !IsRoot(loc) && loc in fs && fs[loc] != Dir
  }

  /** The tree invariant: every entry sits in a directory. */
  ghost predicate WellFormed(fs: Tree)
  {
    forall loc :: loc in fs ==> !IsRoot(loc) && IsDirectory(fs, Up(loc))
  }

  /** No prefix of `loc`, `loc` included, is a regular file. */
  predicate NoFileOnPath(fs: Tree, loc: seq<Component>)
  {
    forall n :: 0 <= n <= |loc| ==> !IsRegularFile(fs, loc[..n])
  }

  /** `after` keeps every entry of `before` exactly as it was. */
  ghost predicate Extends(before: Tree, after: Tree)
  {
    forall k :: k in before ==> k in after && after[k] == before[k]
  }

  /**
   * std::fs::create_dir_all: nothing to do when the location is already a
   * directory; a file in the way fails; otherwise the parent chain is
   * created first and then the location itself.
   */
  function MakeDirs(fs: Tree, loc: seq<Component>): (r: Result<Tree, IoError>)
    decreases |loc|
    ensures r.Ok? ==> IsDirectory(r.value, loc) && Extends(fs, r.value)
    ensures r.Ok? ==> forall k :: k in r.value && k !in fs ==> k <= loc && r.value[k] == Dir
    ensures r.Err? ==> (r.error == FileExists <==> IsRegularFile(fs, loc))
  {
    if IsDirectory(fs, loc) then Ok(fs)
    else if loc in fs then Err(FileExists)
    else
      match MakeDirs(fs, Up(loc))
      case Err(_) => Err(NotADirectory)
      case Ok(withParent) => Ok(withParent[loc := Dir])
  }

  /** In a well-formed tree every proper prefix of an entry is a directory. */
  lemma {:induction false} DirectoriesAbove(fs: Tree, loc: seq<Component>)
    requires WellFormed(fs) && loc in fs
    ensures forall n :: 0 <= n < |loc| ==> IsDirectory(fs, loc[..n])
  {
    var up := Up(loc);
    assert forall n :: 0 <= n <= |up| ==> loc[..n] == up[..n];
    if up in fs {
      DirectoriesAbove(fs, up);
      assert loc[..|up|] == up;
    }
  }

  /** A path is free of files when its parent's path is and the location itself is not a file. */
  lemma NoFileOnPathStep(fs: Tree, loc: seq<Component>)
    requires loc != []
    ensures NoFileOnPath(fs, loc) <==> NoFileOnPath(fs, Up(loc)) && !IsRegularFile(fs, loc)
  {
    var up := Up(loc);
    assert forall n :: 0 <= n <= |up| ==> loc[..n] == up[..n];
    assert loc[..|loc|] == loc;
  }

  /** In a well-formed tree create_dir_all fails exactly when a file lies on the path. */
  lemma {:induction false} MakeDirsFailsIff(fs: Tree, loc: seq<Component>)
    requires WellFormed(fs)
    ensures MakeDirs(fs, loc).Err? <==> !NoFileOnPath(fs, loc)
    decreases |loc|
  {
    if IsDirectory(fs, loc) {
      assert loc[..|loc|] == loc;
      if !IsRoot(loc) {
        DirectoriesAbove(fs, loc);
      } else {
        assert forall n :: 0 <= n <= |loc| ==> IsRoot(loc[..n]);
      }
    } else if loc in fs {
      assert loc[..|loc|] == loc;
    } else {
      var up := Up(loc);
      MakeDirsFailsIff(fs, up);
      assert forall n :: 0 <= n <= |up| ==> loc[..n] == up[..n];
      assert loc[..|loc|] == loc;
    }
  }

  /** create_dir_all keeps the tree well formed. */
  lemma {:induction false} MakeDirsWellFormed(fs: Tree, loc: seq<Component>)
    requires WellFormed(fs)
    ensures MakeDirs(fs, loc).Ok? ==> WellFormed(MakeDirs(fs, loc).value)
    decreases |loc|
  {
    if !IsDirectory(fs, loc) && loc !in fs {
      MakeDirsWellFormed(fs, Up(loc));
    }
  }

  /** create_dir_all is idempotent: repeating it changes nothing and succeeds. */
  lemma MakeDirsIdempotent(fs: Tree, loc: seq<Component>)
    ensures MakeDirs(fs, loc).Ok? ==> MakeDirs(MakeDirs(fs, loc).value, loc) == MakeDirs(fs, loc)
  {
  }

  /**
   * Sqlite::create_database: opening with create-if-missing fails on a
   * directory and in a missing directory, leaves an existing file as it is,
   * and otherwise creates a new database file.
   */
  function OpenDatabase(fs: Tree, loc: seq<Component>, engineFails: bool): (r: Result<Tree, IoError>)
    ensures r.Ok? ==> IsRegularFile(r.value, loc) && Extends(fs, r.value)
    ensures r.Ok? ==> forall k :: k in r.value && k !in fs ==> k == loc && r.value[k] == DbFile
    ensures r.Ok? <==> !IsDirectory(fs, loc) && IsDirectory(fs, Up(loc)) && !engineFails
    ensures WellFormed(fs) && r.Ok? ==> WellFormed(r.value)
  {
    if IsDirectory(fs, loc) then Err(CannotOpen)
    else if !IsDirectory(fs, Up(loc)) then Err(CannotOpen)
    else if engineFails then Err(EngineFailure)
    else if loc in fs then Ok(fs)
    else Ok(fs[loc := DbFile])
  }

  /** The machine's filesystem, updated in place by the two primitives. */
  class Disk {
    var tree: Tree

    ghost predicate Valid()
      reads this
    {
      WellFormed(tree)
    }

    constructor (initial: Tree)
      requires WellFormed(initial)
      ensures Valid() && tree == initial
    {
      tree := initial;
    }

    /** std::fs::create_dir_all on the location. */
    method CreateDirAll(loc: seq<Component>) returns (r: Outcome<IoError>)
      requires Valid()
      modifies this
      ensures Valid()
      ensures MakeDirs(old(tree), loc).Ok? ==> r == Pass && tree == MakeDirs(old(tree), loc).value
      ensures MakeDirs(old(tree), loc).Err? ==> r == Fail(MakeDirs(old(tree), loc).error) && tree == old(tree)
    {
      MakeDirsWellFormed(tree, loc);
      match MakeDirs(tree, loc)
      case Err(e) =>
        r := Fail(e);
      case Ok(next) =>
        tree := next;
        r := Pass;
    }

    /** Sqlite::create_database on the location. */
    method CreateDatabase(loc: seq<Component>, engineFails: bool) returns (r: Outcome<IoError>)
      requires Valid()
      modifies this
      ensures Valid()
      ensures OpenDatabase(old(tree), loc, engineFails).Ok? ==> r == Pass && tree == OpenDatabase(old(tree), loc, engineFails).value
      ensures OpenDatabase(old(tree), loc, engineFails).Err? ==> r == Fail(OpenDatabase(old(tree), loc, engineFails).error) && tree == old(tree)
    {
      match OpenDatabase(tree, loc, engineFails)
      case Err(e) =>
        r := Fail(e);
      case Ok(next) =>
        tree := next;
        r := Pass;
    }
  }
}
