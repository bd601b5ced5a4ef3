/**
 * The two task endpoints: submission, guarded against blank circuits, and
 * the status lookup, which maps a missing task to "not found".
 */
module Routes {
  import opened Wrappers
  import opened Tasks
  import opened WorkerClient

  /**
   * An endpoint's answer: a body with its status code, a client error raised as
   * an HTTP exception, or a store error that escapes the handler.
   */
  datatype Reply<T> = Ok(code: int, body: T) | HttpError(code: int, detail: string) | Unhandled(cause: StoreError)

  /** The characters Python's `str.isspace` accepts, which `str.strip()` removes. */
  predicate IsSpace(c: char) {
    || ('\t' <= c <= '\r')
    || ('\U{1c}' <= c <= '\U{1f}')
    || c == ' ' || c == '\U{85}' || c == '\U{a0}' || c == '\U{1680}'
    || ('\U{2000}' <= c <= '\U{200a}')
    || c == '\U{2028}' || c == '\U{2029}' || c == '\U{202f}' || c == '\U{205f}' || c == '\U{3000}'
  }

  /** Every character of `s` is whitespace (so the empty string is blank too). */
  predicate Blank(s: string) {
    forall i :: 0 <= i < |s| ==> IsSpace(s[i])
  }

  /** `s` without its leading whitespace: a suffix of `s` that does not start with whitespace. */
  function StripStart(s: string): (r: string)
    ensures |r| <= |s| && r == s[|s| - |r|..]
    ensures r != [] ==> !IsSpace(r[0])
  {
    if s != [] && IsSpace(s[0]) then StripStart(s[1..]) else s
  }

  /** `s` without its trailing whitespace: a prefix of `s` that does not end with whitespace. */
  function StripEnd(s: string): (r: string)
    ensures |r| <= |s| && r == s[..|r|]
    ensures r != [] ==> !IsSpace(r[|r| - 1])
  {
    if s != [] && IsSpace(s[|s| - 1]) then StripEnd(s[..|s| - 1]) else s
  }

  /** `str.strip()`: drop leading and trailing whitespace. */
  function Strip(s: string): (r: string)
    ensures r != [] ==> !IsSpace(r[0]) && !IsSpace(r[|r| - 1])
  {
    StripEnd(StripStart(s))
  }

  /** Stripping the leading whitespace leaves nothing exactly when `s` is blank. */
  lemma {:induction false} StripStartEmpty(s: string)
    ensures StripStart(s) == [] <==> Blank(s)
  {
    if s == [] {
    } else if IsSpace(s[0]) {
      var rest := s[1..];
      StripStartEmpty(rest);
      assert StripStart(s) == StripStart(rest);
      if Blank(rest) {
        forall i | 0 <= i < |s| ensures IsSpace(s[i]) {
          if i > 0 { assert s[i] == rest[i - 1]; }
        }
      } else {
        var i :| 0 <= i < |rest| && !IsSpace(rest[i]);
        assert s[i + 1] == rest[i];
      }
    } else {
      assert StripStart(s) == s;
    }
  }

  /** A text that starts with a non-whitespace character keeps it when trailing whitespace is stripped. */
  lemma {:induction false} StripEndOfNonBlank(s: string)
    requires s != [] && !IsSpace(s[0])
    ensures StripEnd(s) != []
  {
    if IsSpace(s[|s| - 1]) {
      StripEndOfNonBlank(s[..|s| - 1]);
    }
  }

  /** `circuit.strip()` is empty exactly when the circuit is empty or whitespace only. */
  lemma {:induction false} StripEmptyIffBlank(s: string)
    ensures Strip(s) == [] <==> Blank(s)
  {
    StripStartEmpty(s);
    var t := StripStart(s);
    if t != [] {
      StripEndOfNonBlank(t);
    }
  }

  /**
   * POST /tasks/: a circuit whose stripped text is empty is rejected with 400
   * before the store is touched; any other circuit is handed unchanged to the
   * queue, and its receipt is answered with 201.
   */
  method SubmitTask(db: TaskStore, circuit: string, uuid: TaskId) returns (r: Reply<Receipt>)
    requires db.Valid()
    modifies db
    ensures db.Valid()
    ensures Blank(circuit) ==> r == HttpError(400, "Circuit cannot be empty") && db.rows == old(db.rows)
    ensures !Blank(circuit) && uuid !in old(db.rows) ==> r == Ok(201, Receipt(uuid, "submitted"))
    ensures !Blank(circuit) && uuid !in old(db.rows) ==> db.rows == old(db.rows)[uuid := Row(circuit, Submitted, None, None)]
    ensures !Blank(circuit) && uuid in old(db.rows) ==> r == Unhandled(DuplicateId(uuid)) && db.rows == old(db.rows)
  {
    StripEmptyIffBlank(circuit);
    if Strip(circuit) == [] {
      return HttpError(400, "Circuit cannot be empty");
    }
    var submitted := SubmitTaskToQueue(db, circuit, uuid);
    match submitted {
      case Success(receipt) =>
        r := Ok(201, receipt);
      case Failure(e) =>
        r := Unhandled(e);
    }
  }

  /**
   * GET /tasks/{task_id}: 404 "Task not found" exactly when the task does not
   * exist, otherwise the formatted status response unchanged.
   */
  function GetStatus<V>(db: TaskStore, id: TaskId, decode: Decoder<V>): (r: Reply<TaskInfo<V>>)
    reads db
    ensures r.Ok? || r.HttpError?
    ensures r.HttpError? <==> id !in db.rows
    ensures r.HttpError? ==> r == HttpError(404, "Task not found")
    ensures r.Ok? ==> r.code == 200 && Some(r.body) == GetTaskInfo(db, id, decode)
  {
    match GetTaskInfo(db, id, decode)
    case None => HttpError(404, "Task not found")
    case Some(info) => Ok(200, info)
  }
}
