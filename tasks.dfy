/**
 * The task store: the single `tasks(id, circuit, status, result, error)` table,
 * held in memory as a map from task id to row.
 */
module Tasks {
  import opened Wrappers

  /** The primary key of the table (a UUID rendered as text). */
  type TaskId = string

  /** The values the code writes into the status column. */
  datatype Status = Submitted | Pending | Completed | Failed {

    /** The literal text stored in the column and echoed in responses. */
    function Name(): string {
      match this
      case Submitted => "submitted"
      case Pending => "pending"
      case Completed => "completed"
      case Failed => "failed"
    }

    /** Completed and failed tasks are never selected again. */
    predicate IsTerminal() {
      this == Completed || this == Failed
    }
  }

  /** One row of the table; `result` and `error` are NULL-able text columns. */
  datatype Row = Row(circuit: string, status: Status, result: Option<string>, error: Option<string>)

  /** The three columns that the status lookup selects. */
  datatype Fetched = Fetched(status: Status, result: Option<string>, error: Option<string>)

  /**
   * How status, result and error fit together in every row the code writes:
   * no outcome while submitted or pending, a non-empty result and no error once completed,
   * a non-empty error and no result once failed.
   */
  predicate Consistent(status: Status, result: Option<string>, error: Option<string>) {
    match status
    case Submitted => result.None? && error.None?
    case Pending => result.None? && error.None?
    case Completed => result.Some? && result.value != "" && error.None?
    case Failed => result.None? && error.Some? && error.value != ""
  }

  predicate WellFormed(row: Row) {
    Consistent(row.status, row.result, row.error)
  }

  type Table = map<TaskId, Row>

  predicate TableWellFormed(t: Table) {
    forall id :: id in t ==> WellFormed(t[id])
  }

  /** The ids of the rows that the worker may still select. */
  function SubmittedIds(t: Table): set<TaskId> {
    set id | id in t && t[id].status == Submitted
  }

  /** The ids of the rows that have reached a terminal status. */
  function TerminalIds(t: Table): set<TaskId> {
    set id | id in t && t[id].status.IsTerminal()
  }

  /** An error raised by the store instead of writing. */
  datatype StoreError = DuplicateId(id: TaskId)

  /** Some bound exceeds the length of every key of a finite table. */
  lemma {:induction false} LengthBound(keys: set<TaskId>) returns (n: nat)
    ensures forall k :: k in keys ==> |k| < n
  {
    if keys == {} {
      n := 0;
    } else {
      var k :| k in keys;
      var m := LengthBound(keys - {k});
      n := if |k| < m then m else |k| + 1;
    }
  }

  /**
   * Whatever rows the table holds, some id is not yet a key, so a freshly
   * generated id can always be inserted.
   */
  lemma FreshIdExists(t: Table)
    ensures exists id: TaskId :: id !in t
  {
    var n := LengthBound(t.Keys);
    var id: TaskId := seq(n, _ => 'x');
    assert id !in t;
  }

  /** The `tasks` table, which every component reads and the worker and the API update in place. */
  class TaskStore {
    var rows: Table

    ghost predicate Valid()
      reads this
    {
      TableWellFormed(rows)
    }

    /** A freshly created, empty table. */
    constructor ()
      ensures Valid() && rows == map[]
    {
      rows := map[];
    }

    /**
     * Insert a task with the given generated id: the circuit, status
     * `submitted`, and NULL result and error. The id is the primary key,
     * so an id already present makes the insert raise and nothing is written.
     */
    method CreateTask(circuit: string, uuid: TaskId) returns (r: Result<TaskId, StoreError>)
      requires Valid()
      modifies this
      ensures Valid()
      ensures uuid in old(rows) ==> r == Failure(DuplicateId(uuid)) && rows == old(rows)
      ensures uuid !in old(rows) ==> r == Success(uuid)
      ensures uuid !in old(rows) ==> rows.Keys == old(rows).Keys + {uuid}
      ensures uuid !in old(rows) ==> rows[uuid] == Row(circuit, Submitted, None, None)
      ensures forall id :: id in old(rows) ==> id in rows && rows[id] == old(rows)[id]
    {
      if uuid in rows {
        return Failure(DuplicateId(uuid));
      }
      rows := rows[uuid := Row(circuit, Submitted, None, None)];
      r := Success(uuid);
    }

    /** Look up the status, result and error of a task; `None` when no row has that id. */
    function GetTaskById(id: TaskId): (r: Option<Fetched>)
      reads this
      ensures r.None? <==> id !in rows
      ensures r.Some? ==> r.value.status == rows[id].status
      ensures r.Some? ==> r.value.result == rows[id].result && r.value.error == rows[id].error
      ensures r.Some? && Valid() ==> Consistent(r.value.status, r.value.result, r.value.error)
    {
      if id in rows then
        var row := rows[id];
        Some(Fetched(row.status, row.result, row.error))
      else
        None
    }
  }
}
