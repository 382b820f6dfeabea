# istp-shortcut persistence core in Dafny

istp-shortcut is a command-line tool that stores named shell commands in a local
SQLite database. This project models and proves the two parts of it that have
behaviour worth stating:

- **Database bootstrap** (`src/database/sqlite/db.rs`): `is_existing_file`, and
  `create_db_if_not_exists`. The second runs its guards in a fixed order: the
  path is empty, the path is already a regular file, the path has no parent.
  Then it makes the parent directory tree and creates the SQLite file. The
  filesystem is a `Disk` object. Its `tree` field maps locations to `File`,
  `Dir` or `DbFile`. Two methods, `CreateDirAll` (std's `fs::create_dir_all`)
  and `CreateDatabase` (sqlx's `Sqlite::create_database`), are the only things
  that change it.
- **Command store** (`src/database/sqlite/command.rs`): `SqliteCommandStore`
  seen as its one table. The class holds the rows in storage order and the next
  auto-increment id. `create` appends a row, `get` returns some row with exactly
  the requested name, `get_all` returns all rows, and `delete`/`update` are
  `todo!()` placeholders.

Files:

- `wrappers.dfy`: `Option`, `Result` and `Outcome` (Rust's `Result<(), E>`).
- `paths.dfy` (module `Paths`): Unix path syntax as Rust's `std::path` reads it.
  `Components` follows `Path::components`, `Parent` follows `Path::parent`, and
  `Target` is the location a path string names once "." is resolved.
- `filesystem.dfy` (module `FileSystem`): the directory tree, its
  well-formedness invariant, `MakeDirs` (create_dir_all), `OpenDatabase`
  (create-if-missing open), and the `Disk` class.
- `db.dfy` (module `Db`): `IsExistingFile`, the `Bootstrap` specification
  function, the imperative `CreateDbIfNotExists`, and lemmas about it.
- `command_store.dfy` (module `CommandStore`): the `Command` row, the
  `SqliteCommandStore` class, and client methods for the round trip and the
  scenarios.

Modelling decisions:

- The filesystem is keyed by resolved component sequences. "a//b", "a/b/" and
  "./a/b" all resolve to the location `[Normal("a"), Normal("b")]`. The working
  directory `[]` and the root `[RootDir]` are always directories and never appear
  as entries.
- A path text that ends in a separator or in "/." (`DemandsDirectory`) is looked
  up by the operating system as a directory. `is_file()` on "x.db/" is false even
  when "x.db" is a regular file, because the lookup fails with "not a
  directory". `IsExistingFile` is therefore false for such a text, and the
  bootstrap goes on to `create_dir_all` and the engine.
- The engine is taken to open the location the components name, "x.db" for
  "x.db/". It drops empty and "." elements when it builds the full file name,
  as the Unix VFS of recent SQLite versions does. An existing regular file
  there is opened as it is (`TrailingSeparatorReopens`).
- Three choices follow the code as written:
  - `create_db_if_not_exists` does not return the `DatabaseError` enum it
    declares. It returns eyre errors with fixed messages. The model keeps those
    messages verbatim. It classifies the three guard errors with
    `DatabaseError`, following the enum's doc comment: an empty or wrong path is
    `InvalidPath`, and an existing file is `AlreadyExists`.
  - The not-found message of `get` is the code's
    ``Command: `<name>` is not defined``.
  - Calling the bootstrap on an existing database file is an error, not a no-op
    (`BootstrapTwice`). The exception is a path text ending in a separator: the
    guard does not see the file, and the engine opens it again.
- `IsExistingFile` checks only what `is_file()` checks. `is_file()` already
  implies `exists()`.
- The working directory and the root are unrelated locations. A relative
  spelling and an absolute spelling of one file are two different locations in
  the model.

## Model

| member | source | states |
|---|---|---|
| `Db.IsExistingFile` | src/database/sqlite/db.rs:6-9 | true only when the path's location exists and is not a directory; false whenever the text ends in a separator or "/.", since that lookup only succeeds on a directory |
| `Db.Bootstrap` | src/database/sqlite/db.rs:19-37 | the outcome and the filesystem after `create_db_if_not_exists`: a rejection by one of the guards leaves the filesystem unchanged, and success leaves a regular file at the path's location |
| `Db.IsExistingFileCases` | src/database/sqlite/db.rs:95-107 | in a directory holding a file and a subdirectory, `is_existing_file` is true for the file and false for the subdirectory and for a missing name |
| `Db.CreateDbIfNotExists` | src/database/sqlite/db.rs:19-37 | the imperative guards and the two mutations leave the outcome and the disk exactly as the `Bootstrap` specification says, and keep the tree well formed |
| `Db.BootstrapGuards` | src/database/sqlite/db.rs:20-28 | the empty path is rejected first (`InvalidPath`), then an existing regular file (`AlreadyExists`), then a path without a parent (`InvalidPath`); each guard failure leaves the filesystem unchanged; a text ending in a separator is never rejected as an existing file |
| `Db.BootstrapKeepsExisting` | src/database/sqlite/db.rs:23-31 | whatever the outcome, every entry that existed before the call is still there and unchanged, so an existing file is never overwritten and existing directories stay as they were |
| `Db.BootstrapCreatesOnlyOnPath` | src/database/sqlite/db.rs:27-31 | the only new entries are directories on the path above the target and the database file at the target |
| `Db.BootstrapSucceedsIff` | src/database/sqlite/db.rs:19-37 | in a well-formed tree the call succeeds exactly when the target is not a root, no file lies above it, the engine does not fail, and the target either does not exist or is a regular file that the guard let through because the text ends in a separator |
| `Db.BootstrapSuccess` | src/database/sqlite/db.rs:29-31 | after success the target is a regular file inside an existing directory: a new database file, or the file that was already there; unless the text ends in a separator, `is_existing_file` now holds |
| `Db.BootstrapWellFormed` | src/database/sqlite/db.rs:29-31 | every outcome keeps every entry inside a directory |
| `Db.BootstrapPartialEffect` | src/database/sqlite/db.rs:29-31 | when database creation fails, the call fails, and the filesystem is left as create_dir_all made it |
| `Db.EngineFailureLeavesDirectory` | src/database/sqlite/db.rs:29-31 | on an empty disk, `dir/name` with a failing engine fails with a database-creation error and leaves the new directory `dir` behind |
| `Db.BootstrapTwice` | src/database/sqlite/db.rs:23-31 | a second call on a path that succeeded changes nothing; it fails with the existing-file error, except for a text ending in a separator, which passes the guard and reopens the file (or fails in the engine) |
| `Db.TrailingSeparatorReopens` | src/database/sqlite/db.rs:6-9 | with "name" a database file, `is_existing_file` holds of "name" but not of "name/", and the call on "name/" succeeds without changing anything |
| `Db.DotFails` | src/database/sqlite/db.rs:109-115 | "." passes both guards and has a parent, but the engine cannot open a database at a directory, so the call fails and nothing changes |
| `Db.RootHasNoParent` | src/database/sqlite/db.rs:32-34 | "/" has no parent, so the call fails with `InvalidPath` and "Parent path: None does not exist" without creating anything |
| `Db.FreshPathInDirectory` | src/database/sqlite/db.rs:73-93 | a fresh name in an existing directory succeeds, adds exactly one database file, and then exists as a file; a second call fails |
| `Paths.Components` | src/database/sqlite/db.rs:27 | no root or "." component after the first position, and no components exactly for the empty path |
| `Paths.Parent` | src/database/sqlite/db.rs:27 | `Path::parent` is absent exactly for the empty path and for the root, and otherwise drops the last component |
| `Paths.TargetUnderParent` | src/database/sqlite/db.rs:27-31 | the parent computed at line 27 resolves to the directory holding the target that line 31 creates |
| `Paths.JoinSplit` | src/database/sqlite/db.rs:27 | splitting a path at its separators loses nothing: joining the pieces gives back the string |
| `Paths.TrailingSeparator` | src/database/sqlite/db.rs:27 | "name/" has the single component "name" and the parent "", but its text demands a directory |
| `Paths.EmptyAndRootTargets` | src/database/sqlite/db.rs:111 | "" and "/" have no parent; "." has the empty parent and names the working directory |
| `FileSystem.MakeDirs` | src/database/sqlite/db.rs:29 | on success the location is a directory, every old entry is kept, and every new entry is a directory on the location's path; the error is "file exists" exactly when the location is a file |
| `FileSystem.MakeDirsFailsIff` | src/database/sqlite/db.rs:29 | in a well-formed tree create_dir_all fails exactly when a regular file lies on the path |
| `FileSystem.MakeDirsWellFormed` | src/database/sqlite/db.rs:29 | create_dir_all keeps the tree well formed |
| `FileSystem.MakeDirsIdempotent` | src/database/sqlite/db.rs:26-29 | running create_dir_all again on its own result succeeds and changes nothing |
| `FileSystem.OpenDatabase` | src/database/sqlite/db.rs:31 | database creation succeeds exactly outside a directory, inside an existing directory and without an engine failure; it then leaves a regular file at the location, keeps every old entry, and adds nothing else |
| `FileSystem.Disk.CreateDirAll` | src/database/sqlite/db.rs:29 | the disk becomes the result of `MakeDirs`, or stays unchanged with its error |
| `FileSystem.Disk.CreateDatabase` | src/database/sqlite/db.rs:31 | the disk becomes the result of `OpenDatabase`, or stays unchanged with its error |
| `CommandStore.SqliteCommandStore.constructor` | src/database/sqlite/command.rs:9-11 | a store over a migrated, empty table whose next id is 1 |
| `CommandStore.SqliteCommandStore.Create` | src/database/sqlite/command.rs:22-37 | appends exactly one row with the command's name, statement and description, the next id and the current time; the caller's id and timestamps are not used; there is no duplicate check; ids stay increasing |
| `CommandStore.SqliteCommandStore.Get` | src/database/sqlite/command.rs:38-52 | returns a row of the table whose name equals the argument exactly; fails with ``Command: `name` is not defined`` exactly when no row has that name; read-only |
| `CommandStore.SqliteCommandStore.GetAll` | src/database/sqlite/command.rs:53-65 | returns every row of the table in storage order (empty for an empty table); read-only |
| `CommandStore.SqliteCommandStore.Delete` | src/database/sqlite/command.rs:66-68 | a `todo!()` placeholder: the operation stops with "not yet implemented" and the table is unchanged |
| `CommandStore.SqliteCommandStore.Update` | src/database/sqlite/command.rs:69-71 | a `todo!()` placeholder: the operation stops with "not yet implemented" and the table is unchanged |
| `CommandStore.AppendedRowIsOnlyMatch` | src/database/sqlite/command.rs:24-35 | when no row carried the name, the appended row is the only one that does |
| `CommandStore.CreateThenGet` | src/database/sqlite/command.rs:22-52 | round trip: if no row had the command's name, create then get returns the inserted row, with that name, statement and description |
| `CommandStore.TwoCommandsScenario` | src/database/sqlite/command.rs:22-65 | on a fresh store, get_all returns the empty list; after inserting "ls" and "grep-me" it returns exactly those two rows; get("ls") returns the first; get("nope") fails with the not-defined error |
| `CommandStore.DuplicateNameScenario` | src/database/sqlite/command.rs:22-52 | two creates with the same name both succeed and leave two rows; get returns one of them |

## Left out

- `connect`, the connection pool and the migrations (src/database/sqlite/db.rs:42-48), and `SqliteCommandStore::from_str` (src/database/sqlite/command.rs:14-17). These are asynchronous sqlx I/O, and the migration files are not part of this model. The store's constructor stands for a connected store over a freshly migrated, empty table.
- Async execution and pool concurrency. Every operation is one atomic step.
- The SQL text, and which matching row sqlx's `fetch_optional` picks. `Get` promises only some row with that name, with no order among duplicates.
- Errors from the database connection, which `?` propagates after `execute`, `fetch_optional` and `fetch_all`. Every store operation is taken to reach the database.
- `Get`: text equality stands for SQLite's default BINARY comparison of `name`.
- `Delete`, `Update`: `todo!()` panics. The model returns a "not yet implemented" error and changes nothing. It gives no behaviour beyond that.
- The caller side of db.rs is not modelled. `main.rs` logs a bootstrap failure and carries on. `state.rs` dispatches to the store and prints results. The `CommandBuilder` and the `CommandStore` trait are not part of this model.
- The `println!` in `create` is not modelled (output only).
- `MakeDirs`: the only failure modelled is a regular file somewhere on the path. Permission and disk errors from `create_dir_all` are not modelled.
- `OpenDatabase`: an engine failure is the parameter `engineFails`, which stands for any I/O error inside SQLite. It also stands for a regular file that is not a database, which the engine rejects on its first statement. Opening an existing regular file is otherwise taken to leave it as it is. The bootstrap reaches that case only through a path text ending in a separator, since its guard rejects the plain spelling first.
- sqlx's parsing of the path as a connection string is not modelled. That means the `sqlite:` prefix, `?` query options and `:memory:`. The path is taken as a plain file name.
- ".." components and symbolic links are not resolved. A location containing ".." is treated as a name like any other. As a consequence the model lets the bootstrap on ".." in an empty working directory succeed and create a database file named "..", which no real filesystem allows.
- Timestamps are an abstract clock value passed to `Create`, standing for the table's default `CURRENT_TIMESTAMP`.
