/**
 * SqliteCommandStore: the COMMAND table behind the connection pool, seen as
 * the sequence of its rows in storage order.
 */
module CommandStore {
  import opened Wrappers

  /** The engine's clock, as the value CURRENT_TIMESTAMP gives a new row. */
  type Timestamp = int

  /** A stored shell command: one row of the COMMAND table. */
  datatype Command = Command(
    id: int,
    name: string,
    statement: string,
    description: Option<string>,
    createdAt: Timestamp,
    updatedAt: Timestamp)

  datatype StoreError =
    | NotDefined(message: string)      // get found no row with that name
    | NotImplemented(message: string)  // the operation is a todo!() placeholder

  /** The message get reports for a name no row carries. */
  function NotDefinedMessage(name: string): string
  {
    "Command: `" + name + "` is not defined"
  }

  /** The message of Rust's todo!(). */
  const TodoMessage: string := "not yet implemented"

  /**
   * The row INSERT stores for `command`: only name, statement and description
   * are bound; the id and both timestamps come from the table.
   */
  function Inserted(command: Command, id: int, now: Timestamp): Command
  {
    Command(id, command.name, command.statement, command.description, now, now)
  }

  /** Auto-increment identity: ids are positive, below the next id, and increase along the table. */
  ghost predicate IdsIncreasing(rows: seq<Command>, nextId: int)
  {
    1 <= nextId
    && (forall i :: 0 <= i < |rows| ==> 1 <= rows[i].id < nextId)
    && (forall i, j :: 0 <= i < j < |rows| ==> rows[i].id < rows[j].id)
  }

  class SqliteCommandStore {
    var rows: seq<Command>
    var nextId: int

    ghost predicate Valid()
      reads this
    {
      IdsIncreasing(rows, nextId)
    }

    /** A store over a freshly migrated, empty table. */
    constructor ()
      ensures Valid() && rows == [] && nextId == 1
    {
      rows := [];
      nextId := 1;
    }

    /** create: appends one row, with no check for an existing row of the same name. */
    method Create(command: Command, now: Timestamp) returns (r: Outcome<StoreError>)
      requires Valid()
      modifies this
      ensures Valid()
      ensures r == Pass
      ensures rows == old(rows) + [Inserted(command, old(nextId), now)]
      ensures nextId == old(nextId) + 1
    {
      rows := rows + [Inserted(command, nextId, now)];
      nextId := nextId + 1;
      r := Pass;
    }

    /** get: some row whose name is exactly `name`, or the not-defined error when there is none. */
    method Get(name: string) returns (r: Result<Command, StoreError>)
      ensures r.Ok? ==> r.value in rows && r.value.name == name
      ensures r.Err? <==> forall i :: 0 <= i < |rows| ==> rows[i].name != name
      ensures r.Err? ==> r.error == NotDefined(NotDefinedMessage(name))
    {
      if i :| 0 <= i < |rows| && rows[i].name == name {
        r := Ok(rows[i]);
      } else {
        r := Err(NotDefined(NotDefinedMessage(name)));
      }
    }

    /** get_all: every row, in storage order. */
    method GetAll() returns (r: seq<Command>)
      ensures r == rows
    {
      r := rows;
    }

    /** delete: a todo!() placeholder; it stops the operation and changes nothing. */
    method Delete(command: Command) returns (r: Outcome<StoreError>)
      ensures r == Fail(NotImplemented(TodoMessage))
    {
      r := Fail(NotImplemented(TodoMessage));
    }

    /** update: a todo!() placeholder; it stops the operation and changes nothing. */
    method Update(name: string, command: Command) returns (r: Outcome<StoreError>)
      ensures r == Fail(NotImplemented(TodoMessage))
    {
      r := Fail(NotImplemented(TodoMessage));
    }
  }

  /** When the name was absent, a row appended under it is the only row that carries it. */
  lemma AppendedRowIsOnlyMatch(rows: seq<Command>, row: Command, other: Command)
    requires forall i :: 0 <= i < |rows| ==> rows[i].name != row.name
    requires other in rows + [row] && other.name == row.name
    ensures other == row
  {
  }

  /**
   * Round trip: when no row carries the command's name, create followed by
   * get returns the inserted row, with the command's name, statement and
   * description.
   */
  method CreateThenGet(store: SqliteCommandStore, command: Command, now: Timestamp) returns (r: Result<Command, StoreError>)
    requires store.Valid()
    requires forall i :: 0 <= i < |store.rows| ==> store.rows[i].name != command.name
    modifies store
    ensures store.Valid()
    ensures r == Ok(Inserted(command, old(store.nextId), now))
    ensures r.value.name == command.name && r.value.statement == command.statement
      && r.value.description == command.description
  {
    ghost var before := store.rows;
    var _ := store.Create(command, now);
    r := store.Get(command.name);
    assert r.Ok? by {
      assert store.rows[|store.rows| - 1].name == command.name;
    }
    AppendedRowIsOnlyMatch(before, Inserted(command, old(store.nextId), now), r.value);
  }

  /**
   * Listing and lookup on a fresh store holding ("ls", "ls -la") and
   * ("grep-me", "grep -r TODO .", "find todos"): get_all gives both rows,
   * get("ls") the first, get("nope") the not-defined error; before the
   * inserts get_all is empty.
   */
  method TwoCommandsScenario(t1: Timestamp, t2: Timestamp)
    returns (empty: seq<Command>, all: seq<Command>, ls: Result<Command, StoreError>, nope: Result<Command, StoreError>)
    ensures empty == []
    ensures |all| == 2
    ensures all[0] == Command(1, "ls", "ls -la", None, t1, t1)
    ensures all[1] == Command(2, "grep-me", "grep -r TODO .", Some("find todos"), t2, t2)
    ensures ls == Ok(all[0])
    ensures nope == Err(NotDefined(NotDefinedMessage("nope")))
  {
    var store := new SqliteCommandStore();
    empty := store.GetAll();
    var _ := store.Create(Command(0, "ls", "ls -la", None, 0, 0), t1);
    var _ := store.Create(Command(0, "grep-me", "grep -r TODO .", Some("find todos"), 0, 0), t2);
    all := store.GetAll();
    ls := store.Get("ls");
    assert "grep-me" != "ls";
    assert "ls" != "nope" && "grep-me" != "nope";
    nope := store.Get("nope");
  }

  /** Two creates with one name both succeed and leave two rows; get returns one of them. */
  method DuplicateNameScenario(first: Command, second: Command, t1: Timestamp, t2: Timestamp)
    returns (all: seq<Command>, got: Result<Command, StoreError>)
    requires first.name == second.name
    ensures all == [Inserted(first, 1, t1), Inserted(second, 2, t2)]
    ensures got.Ok? && got.value in all && got.value.name == first.name
  {
    var store := new SqliteCommandStore();
    var _ := store.Create(first, t1);
    var _ := store.Create(second, t2);
    all := store.GetAll();
    got := store.Get(first.name);
    assert all[0].name == first.name;
  }
}
