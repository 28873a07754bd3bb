/*
 * Runs of the task store: what holds after any sequence of create, get,
 * delete and list calls made since process start (app.py keeps its state for
 * the life of the process, one request at a time).
 */
module TaskHistory {
  import opened TaskModel

  /** One call into the store, as the handlers make them. */
  datatype Op =
    | Create(task: Task, createdAt: string)
    | Get(id: int)
    | Delete(id: int)
    | List

  /** The state after one call; get_task and get_tasks only read. */
  function Step(db: Db, op: Op): Db
  {
    match op
    case Create(task, createdAt) => CreateTask(db, task, createdAt).0
    case Delete(id) => DeleteTask(db, id).0
    case Get(_) => db
    case List => db
  }

  function Run(db: Db, ops: seq<Op>): Db
    decreases |ops|
  {
    if ops == [] then db else Run(Step(db, ops[0]), ops[1..])
  }

  /** How many calls in `ops` are creates. */
  function Creates(ops: seq<Op>): nat
  {
    if ops == [] then 0 else (if ops[0].Create? then 1 else 0) + Creates(ops[1..])
  }

  /** How many deletes along the run from `db` found their id. */
  function Removals(db: Db, ops: seq<Op>): nat
    decreases |ops|
  {
    if ops == [] then 0
    else (if ops[0].Delete? && ops[0].id in db.tasks then 1 else 0) + Removals(Step(db, ops[0]), ops[1..])
  }

  /** The ids that the creates along the run from `db` returned, in call order. */
  function Issued(db: Db, ops: seq<Op>): seq<int>
    decreases |ops|
  {
    if ops == [] then []
    else
      var head := if ops[0].Create? then [CreateTask(db, ops[0].task, ops[0].createdAt).1.id] else [];
      head + Issued(Step(db, ops[0]), ops[1..])
  }

  /** Every call keeps the store invariant. */
  lemma StepValid(db: Db, op: Op)
    requires Valid(db)
    ensures Valid(Step(db, op))
    ensures Step(db, op).counter >= db.counter
  {
    match op
    case Create(task, createdAt) => CreateTaskValid(db, task, createdAt);
    case Delete(id) => if id in db.tasks { DeleteTaskPresent(db, id); }
    case Get(_) =>
    case List =>
  }

  lemma {:induction false} RunValid(db: Db, ops: seq<Op>)
    requires Valid(db)
    ensures Valid(Run(db, ops))
    decreases |ops|
  {
    if ops != [] {
      StepValid(db, ops[0]);
      RunValid(Step(db, ops[0]), ops[1..]);
    }
  }

  /**
   * The creates of a run return counter+1, counter+2, ... in turn, whatever
   * gets and deletes come between them; only creates move the counter.
   */
  lemma {:induction false} IssuedIds(db: Db, ops: seq<Op>)
    ensures |Issued(db, ops)| == Creates(ops)
    ensures forall i :: 0 <= i < |Issued(db, ops)| ==> Issued(db, ops)[i] == db.counter + i + 1
    ensures Run(db, ops).counter == db.counter + Creates(ops)
    decreases |ops|
  {
    if ops != [] {
      var db' := Step(db, ops[0]);
      IssuedIds(db', ops[1..]);
      assert db'.counter == db.counter + (if ops[0].Create? then 1 else 0);
    }
  }

  /**
   * From process start the first create returns id 1 and the i-th returns i;
   * so ids strictly increase and are never reused, even across deletes.
   */
  lemma IssuedFromStart(ops: seq<Op>)
    ensures |Issued(Empty, ops)| == Creates(ops)
    ensures forall i :: 0 <= i < |Issued(Empty, ops)| ==> Issued(Empty, ops)[i] == i + 1
    ensures forall i, j :: 0 <= i < j < |Issued(Empty, ops)| ==> Issued(Empty, ops)[i] < Issued(Empty, ops)[j]
    ensures Run(Empty, ops).counter == Creates(ops)
  {
    IssuedIds(Empty, ops);
  }

  /** Each create adds one record and each delete that finds its id removes one. */
  lemma {:induction false} RunSize(db: Db, ops: seq<Op>)
    requires Valid(db)
    ensures |Run(db, ops).tasks| == |db.tasks| + Creates(ops) - Removals(db, ops)
    decreases |ops|
  {
    if ops != [] {
      var op := ops[0];
      StepValid(db, op);
      RunSize(Step(db, op), ops[1..]);
      match op
      case Create(task, createdAt) => CreateTaskSpec(db, task, createdAt);
      case Delete(id) => if id in db.tasks { DeleteTaskPresent(db, id); }
      case Get(_) =>
      case List =>
    }
  }

  /** After N creates and M successful deletes since start, get_tasks lists N - M records. */
  lemma ListLength(ops: seq<Op>)
    ensures Valid(Run(Empty, ops))
    ensures |GetTasks(Run(Empty, ops))| == Creates(ops) - Removals(Empty, ops)
  {
    RunValid(Empty, ops);
    RunSize(Empty, ops);
    GetTasksSpec(Run(Empty, ops));
  }

  /**
   * An id that was handed out and is no longer stored stays absent for the
   * rest of the run: later creates only use larger ids.
   */
  lemma {:induction false} DeletedStaysGone(db: Db, ops: seq<Op>, id: int)
    requires Valid(db)
    requires id !in db.tasks && id <= db.counter
    ensures GetTask(Run(db, ops), id) == Err(NotFound)
    decreases |ops|
  {
    if ops != [] {
      StepValid(db, ops[0]);
      DeletedStaysGone(Step(db, ops[0]), ops[1..], id);
    }
  }

  /** A delete that succeeds leaves its id absent from then on. */
  lemma DeleteThenNeverFound(db: Db, id: int, ops: seq<Op>)
    requires Valid(db)
    requires id in db.tasks
    ensures GetTask(Run(DeleteTask(db, id).0, ops), id) == Err(NotFound)
  {
    DeleteTaskPresent(db, id);
    DeletedStaysGone(DeleteTask(db, id).0, ops, id);
  }
}
