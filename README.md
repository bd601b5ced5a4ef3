# Task lifecycle of the quantum task service

This project models the task lifecycle of a small quantum-circuit execution
service. A client submits an OpenQASM circuit over HTTP. The service stores it
as a task in one SQLite table, `tasks(id, circuit, status, result, error)`.
A worker process polls that table, runs the circuit on a simulator and writes
back the counts or the error. The client then polls the task's status.

The model keeps the table as an in-memory `map` from task id to row, held in a
class (`Tasks.TaskStore`) which every component reads and the worker and the
API update in place:

- `tasks.dfy`: the table (shared/database.py). It defines the row shape, the
  row invariant (`Consistent`), task creation and the status lookup.
- `worker.dfy`: one polling step of the worker (`CheckForTasks`), its pure
  specification (`Processed`, `Process`) with lemmas about it, and the main
  loop bounded to a number of rounds (worker/main.py).
- `worker_client.dfy`: submission and the formatting of a row into the status
  response (api_server/worker_client.py).
- `routes.dfy`: the blank-circuit guard on `POST /tasks/` and the not-found
  mapping on `GET /tasks/{task_id}` (api_server/routes.py).
- `wrappers.dfy`: `Option` and `Result`.

Collaborators that cannot be seen are parameters:

- The UUID generator is a `uuid` argument. When the id is already a key, the
  insert raises, as the primary key demands. `FreshIdExists` shows that a
  fresh id always exists.
- The circuit executor is a function `Executor` from circuit text to an
  `Outcome`: either the serialised counts (non-empty JSON text) or a raised
  exception. The simulator samples without a fixed seed, so every worker step
  receives its own executor; the same circuit may give different counts in
  different steps.
- The JSON decoder is a function `Decoder<V>` from text to an optional
  decoded value.

The status the worker writes while a task runs is `pending`, as in
worker/main.py:23; the state is elsewhere called "claimed", and the model
follows the code. Likewise the code selects a submitted
row with no ordering and updates it without a compare-and-set, so the model
picks any submitted row and claims neither oldest-first order nor
at-most-once claiming under concurrent workers.

## Model

| member | source | states |
|---|---|---|
| `Tasks.TaskStore.constructor` | shared/database.py:29-37 | the table starts empty, which satisfies the row invariant |
| `Tasks.TaskStore.CreateTask` | shared/database.py:44-58 | a fresh id gains exactly one row: the input circuit, status `submitted`, NULL result and error; the id is returned; a duplicate id raises and writes nothing; every earlier row is unchanged; the row invariant is kept |
| `Tasks.FreshIdExists` | shared/database.py:48 | for every table some id is not yet a key, so the generated-id insert can always succeed |
| `Tasks.TaskStore.GetTaskById` | shared/database.py:61-70 | the lookup is `None` exactly when the id is absent, and never fails then; otherwise it returns the row's status, result and error unchanged and reads without writing; a row of a valid table is consistent |
| `Worker.ErrorMessage` | worker/main.py:35 | the recorded failure message is never empty, and it is `str(e)` whenever that is non-empty |
| `Worker.Processed` | worker/main.py:26-41 | the selected row ends terminal with its circuit unchanged; it is `completed` exactly when the executor returned; then the result is the serialised output and the error is left as it was; otherwise it is `failed` with the result cleared and a non-empty error message; a consistent submitted row stays consistent |
| `Worker.Process` | worker/main.py:15-41 | a step changes only the selected row: same keys, every other row unchanged; processing a submitted row keeps the row invariant of the whole table |
| `Worker.ProcessCounts` | worker/main.py:15-43 | a step that finds a submitted row removes exactly that row from the submitted set and adds exactly it to the terminal set, so the submitted count falls by one and the terminal count rises by one |
| `Worker.CheckForTasks` | worker/main.py:7-43 | with no submitted row nothing changes; otherwise some row that was submitted ends with its processed contents, and no other row changes; the invariant is kept (the body first writes `pending`; the contract gives the final row) |
| `Worker.RoundStep` | worker/main.py:50-51 | one more round that processes a still-submitted row with the next round's executor extends the record of rounds by that row, which is distinct from every row processed before |
| `Worker.RunWorker` | worker/main.py:46-55 | over any number of rounds, each with its own executor, the keys stay the same; round `k` processes its own distinct, initially submitted row with round `k`'s executor, as long as submitted rows remain; every other row, and in particular every pending, completed or failed row, is unchanged; the submitted count falls by one per round until none is left |
| `WorkerClient.SubmitTaskToQueue` | api_server/worker_client.py:5-14 | creates the task and returns the id that creation produced, with status `submitted`; a creation error is passed on and the table is unchanged |
| `WorkerClient.FormatTask` | api_server/worker_client.py:27-38 | the status is always the stored status text; the error key is present exactly when the stored error is non-empty, and then equals it; the result key is present exactly when the stored result is non-empty, and is the decoded value when decoding succeeds and the raw text otherwise |
| `WorkerClient.FormatConsistent` | api_server/worker_client.py:29-36 | for a consistent row, a failed task's response has an error and no result, a completed task's has a result and no error, and a submitted or pending task's has neither |
| `WorkerClient.GetTaskInfo` | api_server/worker_client.py:17-38 | `None` exactly when the lookup finds no row; otherwise the formatted row, whose status equals the stored status |
| `Routes.StripEmptyIffBlank` | api_server/routes.py:19 | the stripped circuit is empty exactly when every character is whitespace in Python's sense, including the empty circuit |
| `Routes.SubmitTask` | api_server/routes.py:13-25 | a blank circuit is rejected with 400 "Circuit cannot be empty" and the table is unchanged; any other circuit is handed on unchanged, and its receipt is returned with 201; a store error escapes unhandled |
| `Routes.GetStatus` | api_server/routes.py:28-40 | 404 "Task not found" exactly when the task does not exist; otherwise 200 with the status response unchanged |

## Left out

- SQLite itself is replaced by an in-memory map. Connections, cursors, commits, transactions, `sqlite3.Error` handling other than the duplicate key, and logging are not modelled.
- `init_db` and the environment and path configuration are bootstrap code; the model starts from an empty table.
- UUID generation is an argument, not a random draw.
- The circuit executor (qiskit parsing and the Aer simulator) is not part of this model; its outcome, after JSON serialisation, is the `Executor` parameter.
- JSON encoding and decoding are not modelled: the serialised text comes with the outcome, and decoding is the `Decoder` parameter. The serialised text is a non-empty `JsonText`, since `json.dumps` of a counts dictionary is at least `{}`; the row invariant records that a completed row's result is non-empty.
- Worker.ErrorMessage: models `repr(e)` as the class name followed by `()`, the form for an exception raised without arguments; an exception whose single argument is the empty string has a longer `repr`, but that text is non-empty as well.
- Worker.RunWorker: models the `while True` loop as a bounded number of rounds; the five-second sleep and the shutdown on `KeyboardInterrupt` are not modelled.
- A crash between the `pending` update and the final update, which leaves the row pending, is not modelled: each step runs to completion.
- Concurrency between several workers, and between the API and the worker, is not modelled. The select-then-update is not atomic and the code makes no race-safety promise.
- FastAPI, pydantic, uvicorn and the health endpoint are HTTP plumbing. An unhandled store error is modelled as the `Unhandled` reply rather than as a 500 response.
