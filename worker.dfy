/**
 * The worker: one polling step picks a submitted task, marks it pending,
 * runs its circuit and records the outcome; the main loop repeats that step.
 */
module Worker {
  import opened Wrappers
  import opened Tasks

  /** An exception caught by the worker: its class name and its `str` text. */
  datatype Exception = Exception(className: string, text: string)

  /** The JSON text of a counts dictionary: never empty, since it is at least `{}`. */
  type JsonText = s: string | s != "" witness "{}"

  /**
   * What running a circuit and serialising its counts produced: the JSON text,
   * or the exception raised by the simulator, the circuit parser or the encoder.
   */
  datatype Outcome = Returned(serialised: JsonText) | Raised(exc: Exception)

  /**
   * The circuit executor during one worker step. The simulator samples shots
   * without a fixed seed, so each step gets its own executor: the same circuit
   * may give different counts in different steps.
   */
  type Executor = string -> Outcome

  /** `repr` of an exception raised without arguments: its class name and empty parentheses. */
  function Repr(e: Exception): (s: string)
    ensures s != ""
  {
    e.className + "()"
  }

  /** The message recorded for a failure: `str(e)` when non-empty, else `repr(e)`. */
  function ErrorMessage(e: Exception): (msg: string)
    ensures msg != ""
    ensures e.text != "" ==> msg == e.text
  {
    if e.text != "" then e.text else Repr(e)
  }

  /**
   * The final contents of the row the step selected: `completed` with the
   * serialised counts (the error column is not written), or `failed` with the
   * error message and the result cleared. The circuit is never written.
   */
  function Processed(row: Row, run: Executor): (r: Row)
    ensures r.circuit == row.circuit && r.status.IsTerminal()
    ensures r.status == Completed <==> run(row.circuit).Returned?
    ensures r.status == Completed ==> r.result == Some(run(row.circuit).serialised) && r.error == row.error
    ensures r.status == Failed ==> r.result == None && r.error.Some? && r.error.value != ""
    ensures r.status == Failed ==> r.error == Some(ErrorMessage(run(row.circuit).exc))
    ensures WellFormed(row) && row.status == Submitted ==> WellFormed(r)
  {
    match run(row.circuit)
    case Returned(text) => row.(status := Completed, result := Some(text))
    case Raised(e) => row.(status := Failed, error := Some(ErrorMessage(e)), result := None)
  }

  /** The table after one step that processed task `id`. */
  function Process(t: Table, id: TaskId, run: Executor): (t': Table)
    requires id in t
    ensures t'.Keys == t.Keys
    ensures t'[id] == Processed(t[id], run)
    ensures forall other :: other in t && other != id ==> t'[other] == t[other]
    ensures TableWellFormed(t) && t[id].status == Submitted ==> TableWellFormed(t')
  {
    t[id := Processed(t[id], run)]
  }

  /**
   * Processing a submitted task removes exactly that task from the submitted
   * rows and adds exactly it to the terminal rows.
   */
  lemma ProcessCounts(t: Table, id: TaskId, run: Executor)
    requires id in t && t[id].status == Submitted
    ensures SubmittedIds(Process(t, id, run)) == SubmittedIds(t) - {id}
    ensures TerminalIds(Process(t, id, run)) == TerminalIds(t) + {id}
    ensures |SubmittedIds(Process(t, id, run))| == |SubmittedIds(t)| - 1
    ensures |TerminalIds(Process(t, id, run))| == |TerminalIds(t)| + 1
  {
    var t' := Process(t, id, run);
    assert SubmittedIds(t') == SubmittedIds(t) - {id};
    assert TerminalIds(t') == TerminalIds(t) + {id};
    assert id !in TerminalIds(t);
  }

  /**
   * One polling step. When no row is submitted nothing changes. Otherwise some
   * submitted row (the query has no ordering, so any of them) is first set to
   * `pending`, then its circuit is run and the row is set to `completed` or
   * `failed`; every other row is left alone.
   */
  method CheckForTasks(db: TaskStore, run: Executor) returns (picked: Option<TaskId>)
    requires db.Valid()
    modifies db
    ensures db.Valid()
    ensures SubmittedIds(old(db.rows)) == {} ==> picked == None && db.rows == old(db.rows)
    ensures SubmittedIds(old(db.rows)) != {} ==> picked.Some? && picked.value in SubmittedIds(old(db.rows))
    ensures picked.Some? ==> db.rows == Process(old(db.rows), picked.value, run)
  {
    var submitted := SubmittedIds(db.rows);
    if submitted == {} {
      return None;
    }
    var id :| id in submitted;
    ghost var before := db.rows;
    var task := db.rows[id];
    db.rows := db.rows[id := task.(status := Pending)];
    var outcome := run(task.circuit);
    match outcome {
      case Returned(text) =>
        db.rows := db.rows[id := db.rows[id].(status := Completed, result := Some(text))];
      case Raised(e) =>
        var msg := ErrorMessage(e);
        db.rows := db.rows[id := db.rows[id].(status := Failed, error := Some(msg), result := None)];
    }
    assert db.rows == Process(before, id, run);
    picked := Some(id);
  }

  /** No row is processed twice. */
  ghost predicate Distinct(order: seq<TaskId>) {
    forall j, k :: 0 <= j < k < |order| ==> order[j] != order[k]
  }

  /** Step `k` processed the initially submitted row `order[k]` with `runs[k]`. */
  ghost predicate StepsProcessed(initial: Table, t: Table, runs: seq<Executor>, order: seq<TaskId>) {
    && |order| <= |runs|
    && forall k :: 0 <= k < |order| ==>
         order[k] in SubmittedIds(initial) && order[k] in t && t[order[k]] == Processed(initial[order[k]], runs[k])
  }

  /** Every row no step processed keeps its initial contents. */
  ghost predicate OthersUnchanged(initial: Table, t: Table, order: seq<TaskId>) {
    forall id :: id in t && id !in order ==> id in initial && t[id] == initial[id]
  }

  /**
   * After the steps recorded in `order`, starting from table `initial`: step `k`
   * processed the distinct, initially submitted row `order[k]` with `runs[k]`,
   * every other row kept its contents, and each step consumed one submitted row.
   */
  ghost predicate RoundsDone(initial: Table, t: Table, runs: seq<Executor>, order: seq<TaskId>) {
    && t.Keys == initial.Keys
    && Distinct(order)
    && StepsProcessed(initial, t, runs, order)
    && OthersUnchanged(initial, t, order)
    && |SubmittedIds(t)| == |SubmittedIds(initial)| - |order|
  }

  /** A row still submitted after the recorded steps is none of the rows they processed. */
  lemma NotYetProcessed(initial: Table, t: Table, runs: seq<Executor>, order: seq<TaskId>, id: TaskId)
    requires StepsProcessed(initial, t, runs, order) && OthersUnchanged(initial, t, order)
    requires id in SubmittedIds(t)
    ensures id !in order && id in initial && t[id] == initial[id]
  {
    forall k | 0 <= k < |order| ensures order[k] != id {
      assert t[order[k]].status.IsTerminal();
    }
  }

  /** Processing a row not yet processed with the next executor extends the record of processed steps. */
  lemma StepsProcessedStep(initial: Table, t: Table, runs: seq<Executor>, order: seq<TaskId>, id: TaskId)
    requires StepsProcessed(initial, t, runs, order) && |order| < |runs|
    requires id in SubmittedIds(initial) && id !in order && id in t && t[id] == initial[id]
    ensures StepsProcessed(initial, Process(t, id, runs[|order|]), runs, order + [id])
  {
    var t' := Process(t, id, runs[|order|]);
    var order' := order + [id];
    forall k | 0 <= k < |order'|
      ensures order'[k] in SubmittedIds(initial) && order'[k] in t' && t'[order'[k]] == Processed(initial[order'[k]], runs[k])
    {
      if k < |order| {
        assert order'[k] == order[k] && order[k] != id;
      }
    }
  }

  /** A step that processes a still-submitted row with the next round's executor extends the record by that row. */
  lemma RoundStep(initial: Table, t: Table, runs: seq<Executor>, order: seq<TaskId>, id: TaskId)
    requires RoundsDone(initial, t, runs, order) && |order| < |runs|
    requires id in SubmittedIds(t)
    ensures RoundsDone(initial, Process(t, id, runs[|order|]), runs, order + [id])
  {
    var t' := Process(t, id, runs[|order|]);
    var order' := order + [id];
    NotYetProcessed(initial, t, runs, order, id);
    ProcessCounts(t, id, runs[|order|]);
    StepsProcessedStep(initial, t, runs, order, id);
    assert Distinct(order') by {
      forall j, k | 0 <= j < k < |order'| ensures order'[j] != order'[k] {
        if k < |order| {
          assert order'[j] == order[j] && order'[k] == order[k];
        }
      }
    }
    assert OthersUnchanged(initial, t', order') by {
      forall other | other in t' && other !in order'
        ensures other in initial && t'[other] == initial[other]
      {
        assert other != id && other !in order;
      }
    }
  }

  /**
   * The worker's main loop, bounded to one step per executor in `runs`. Step
   * `k` processes the distinct submitted row `order[k]` with `runs[k]`, until
   * no submitted row is left; every other row keeps its contents.
   */
  method RunWorker(db: TaskStore, runs: seq<Executor>) returns (ghost order: seq<TaskId>)
    requires db.Valid()
    modifies db
    ensures db.Valid()
    ensures db.rows.Keys == old(db.rows).Keys
    ensures |order| == if |runs| <= |SubmittedIds(old(db.rows))| then |runs| else |SubmittedIds(old(db.rows))|
    ensures forall j, k :: 0 <= j < k < |order| ==> order[j] != order[k]
    ensures forall k :: 0 <= k < |order| ==>
      order[k] in SubmittedIds(old(db.rows)) && order[k] in db.rows && db.rows[order[k]] == Processed(old(db.rows)[order[k]], runs[k])
    ensures forall id :: id in db.rows && id !in order ==> db.rows[id] == old(db.rows)[id]
    ensures forall id :: id in old(db.rows) && old(db.rows)[id].status != Submitted ==> db.rows[id] == old(db.rows)[id]
    ensures |SubmittedIds(db.rows)| == |SubmittedIds(old(db.rows))| - |order|
  {
    ghost var initial := db.rows;
    order := [];
    var i := 0;
    while i < |runs|
      invariant 0 <= i <= |runs|
      invariant db.Valid()
      invariant RoundsDone(initial, db.rows, runs, order)
      invariant |order| == if i <= |SubmittedIds(initial)| then i else |SubmittedIds(initial)|
    {
      ghost var before := db.rows;
      var picked := CheckForTasks(db, runs[i]);
      if picked.Some? {
        assert |order| == i;
        RoundStep(initial, before, runs, order, picked.value);
        order := order + [picked.value];
      } else {
        assert |SubmittedIds(before)| == 0;
      }
      i := i + 1;
    }
  }
}
