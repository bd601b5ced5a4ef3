/**
 * The API's bridge to the store: submitting a circuit, and turning a stored
 * row into the status response.
 */
module WorkerClient {
  import opened Wrappers
  import opened Tasks

  /** The body returned on submission: the new task id and its initial status. */
  datatype Receipt = Receipt(taskId: TaskId, status: string)

  /** A response's result: the decoded JSON value, or the stored text when it does not decode. */
  datatype ResultField<V> = Structured(value: V) | Raw(text: string)

  /** The status response; `error` and `result` are keys that may be left out. */
  datatype TaskInfo<V> = TaskInfo(status: string, error: Option<string>, result: Option<ResultField<V>>)

  /** The JSON decoder: the value a text decodes to, or `None` when decoding raises. */
  type Decoder<V> = string -> Option<V>

  /** Create the task and answer with its id and the status `submitted`. */
  method SubmitTaskToQueue(db: TaskStore, circuit: string, uuid: TaskId) returns (r: Result<Receipt, StoreError>)
    requires db.Valid()
    modifies db
    ensures db.Valid()
    ensures uuid in old(db.rows) ==> r == Failure(DuplicateId(uuid)) && db.rows == old(db.rows)
    ensures uuid !in old(db.rows) ==> r == Success(Receipt(uuid, "submitted"))
    ensures uuid !in old(db.rows) ==> db.rows == old(db.rows)[uuid := Row(circuit, Submitted, None, None)]
  {
    var created := db.CreateTask(circuit, uuid);
    match created {
      case Success(id) =>
        r := Success(Receipt(id, "submitted"));
      case Failure(e) =>
        r := Failure(e);
    }
  }

  /** Text that Python treats as true: present and non-empty. */
  predicate Truthy(v: Option<string>) {
    v.Some? && v.value != ""
  }

  /**
   * The response for a stored row: always its status; its error only when the
   * stored error is non-empty; its result only when the stored result is
   * non-empty, decoded when possible and raw otherwise.
   */
  function FormatTask<V>(task: Fetched, decode: Decoder<V>): (r: TaskInfo<V>)
    ensures r.status == task.status.Name()
    ensures r.error.Some? <==> Truthy(task.error)
    ensures r.error.Some? ==> r.error == task.error
    ensures r.result.Some? <==> Truthy(task.result)
    ensures r.result.Some? && decode(task.result.value).Some? ==> r.result.value == Structured(decode(task.result.value).value)
    ensures r.result.Some? && decode(task.result.value).None? ==> r.result.value == Raw(task.result.value)
  {
    var error := if Truthy(task.error) then task.error else None;
    var result :=
      if !Truthy(task.result) then None
      else match decode(task.result.value)
        case Some(v) => Some(Structured(v))
        case None => Some(Raw(task.result.value));
    TaskInfo(task.status.Name(), error, result)
  }

  /**
   * For a row that keeps the table invariant, a failed task's response carries
   * an error and no result, a completed task's response carries a result and no error, and a
   * submitted or pending task's response carries neither.
   */
  lemma FormatConsistent<V>(task: Fetched, decode: Decoder<V>)
    requires Consistent(task.status, task.result, task.error)
    ensures task.status == Failed ==> FormatTask(task, decode).result.None? && FormatTask(task, decode).error.Some?
    ensures task.status == Completed ==> FormatTask(task, decode).error.None? && FormatTask(task, decode).result.Some?
    ensures !task.status.IsTerminal() ==> FormatTask(task, decode).result.None? && FormatTask(task, decode).error.None?
  {
  }

  /** The status response for a task id, or `None` when the task does not exist. */
  function GetTaskInfo<V>(db: TaskStore, id: TaskId, decode: Decoder<V>): (r: Option<TaskInfo<V>>)
    reads db
    ensures r.None? <==> id !in db.rows
    ensures r.Some? ==> r.value.status == db.rows[id].status.Name()
    ensures r.Some? ==> r.value == FormatTask(Fetched(db.rows[id].status, db.rows[id].result, db.rows[id].error), decode)
  {
    match db.GetTaskById(id)
    case None => None
    case Some(task) => Some(FormatTask(task, decode))
  }
}
