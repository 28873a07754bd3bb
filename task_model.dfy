/*
 * The in-memory task store of the Task Management API (app.py), as values.
 *
 * The service keeps two module-level globals: `tasks_db`, a dict from task id
 * to task record, and `task_counter`, the last id handed out. A Python dict
 * remembers the order in which its keys were first inserted, and that order is
 * what `list(tasks_db.values())` returns, so the dict is modelled as a map
 * together with the sequence of its keys in insertion order.
 *
 * The functions below give the meaning of each handler on that state; the
 * class in module TaskStore performs the same updates in place and is proved
 * to agree with them.
 */
module TaskModel {

  datatype Option<+T> = None | Some(value: T)

  /** Body of POST /tasks (pydantic model `Task`); `description` is nullable. */
  datatype Task = Task(title: string, description: Option<string>, completed: bool)

  /** A body that gives only a title gets the model's defaults: no description, not completed. */
  function TaskWithTitle(title: string): Task
  {
    Task(title, None, false)
  }

  /** A stored task (pydantic model `TaskResponse`): the request fields plus id and created_at. */
  datatype TaskResponse = TaskResponse(
    id: int,
    title: string,
    description: Option<string>,
    completed: bool,
    createdAt: string)

  /** An `HTTPException`: status code and detail message. */
  datatype HttpError = HttpError(status: int, detail: string)

  /** The one error the store raises, for an id that is not in `tasks_db`. */
  const NotFound: HttpError := HttpError(404, "Task not found")

  datatype Result<+T> = Ok(value: T) | Err(error: HttpError)

  /** Body of a successful DELETE: a fixed message and the deleted id. */
  datatype DeleteResponse = DeleteResponse(message: string, id: int)

  const DeletedMessage: string := "Task deleted successfully"

  /**
   * The store: `tasks_db` as a map plus its keys in insertion order, and
   * `task_counter`.
   */
  datatype Db = Db(tasks: map<int, TaskResponse>, order: seq<int>, counter: nat)

  /** The state at process start: `tasks_db = {}`, `task_counter = 0`. */
  const Empty: Db := Db(map[], [], 0)

  predicate StrictlyIncreasing(s: seq<int>)
  {
    forall i, j :: 0 <= i < j < |s| ==> s[i] < s[j]
  }

  /**
   * The store invariant: the insertion order lists every key exactly once and,
   * because ids are handed out in increasing order, ascendingly; each record's
   * id is its key; every key was handed out by the counter.
   */
  ghost predicate Valid(db: Db)
  {
    && StrictlyIncreasing(db.order)
    && OrderedKeys(db)
    && (forall k :: k in db.tasks ==> k in db.order)
    && |db.order| == |db.tasks|
    && (forall k :: k in db.tasks ==> db.tasks[k].id == k && 1 <= k <= db.counter)
  }

  /** Every entry of the insertion order is a key of the map. */
  predicate OrderedKeys(db: Db)
  {
    forall i :: 0 <= i < |db.order| ==> db.order[i] in db.tasks
  }

  /** `s` with every occurrence of `x` removed, the rest kept in order. */
  function Without(s: seq<int>, x: int): (r: seq<int>)
    ensures forall y :: y in r <==> y in s && y != x
    ensures x !in s ==> r == s
    ensures x in s && StrictlyIncreasing(s) ==> |r| == |s| - 1
    ensures StrictlyIncreasing(s) ==> StrictlyIncreasing(r)
  {
    if s == [] then []
    else
      var rest := Without(s[1..], x);
      assert forall y :: y in s <==> y == s[0] || y in s[1..];
      if s[0] == x then rest
      else
        assert StrictlyIncreasing(s) ==> forall i :: 0 <= i < |rest| ==> s[0] < rest[i] by {
          if StrictlyIncreasing(s) {
            forall i | 0 <= i < |rest| ensures s[0] < rest[i] {
              assert rest[i] in s[1..];
            }
          }
        }
        [s[0]] + rest
  }

  /** The values of `tasks` listed in the order of `keys`. */
  function Values(tasks: map<int, TaskResponse>, keys: seq<int>): (r: seq<TaskResponse>)
    requires forall i :: 0 <= i < |keys| ==> keys[i] in tasks
    ensures |r| == |keys|
    ensures forall i :: 0 <= i < |keys| ==> r[i] == tasks[keys[i]]
  {
    if keys == [] then [] else [tasks[keys[0]]] + Values(tasks, keys[1..])
  }

  /** create_task: bump the counter, build the record under the new id, store it. */
  function CreateTask(db: Db, task: Task, createdAt: string): (Db, TaskResponse)
  {
    var id := db.counter + 1;
    var t := TaskResponse(id, task.title, task.description, task.completed, createdAt);
    // assigning to an existing dict key keeps its place in the order
    var order := if id in db.tasks then db.order else db.order + [id];
    (Db(db.tasks[id := t], order, id), t)
  }

  /** get_task: the record under `id`, or 404 "Task not found". */
  function GetTask(db: Db, id: int): Result<TaskResponse>
  {
    if id !in db.tasks then Err(NotFound) else Ok(db.tasks[id])
  }

  /** delete_task: 404 when absent, otherwise pop the key and report its id. */
  function DeleteTask(db: Db, id: int): (Db, Result<DeleteResponse>)
  {
    if id !in db.tasks then (db, Err(NotFound))
    else (db.(tasks := db.tasks - {id}, order := Without(db.order, id)),
          Ok(DeleteResponse(DeletedMessage, id)))
  }

  /** get_tasks: `list(tasks_db.values())`, in the dict's insertion order. */
  function GetTasks(db: Db): seq<TaskResponse>
    requires OrderedKeys(db)
  {
    Values(db.tasks, db.order)
  }

  /**
   * create_task hands out the counter plus one, an id above every stored key,
   * and stores under it a record whose fields are copied from the request;
   * the key is new, so it goes to the end of the insertion order.
   */
  lemma CreateTaskSpec(db: Db, task: Task, createdAt: string)
    requires Valid(db)
    ensures var (db', t) := CreateTask(db, task, createdAt);
      && t.id == db.counter + 1 == db'.counter
      && t.id !in db.tasks
      && (forall k :: k in db.tasks ==> k < t.id)
      && t.title == task.title && t.description == task.description
      && t.completed == task.completed && t.createdAt == createdAt
      && db'.tasks == db.tasks[t.id := t]
      && db'.order == db.order + [t.id]
      && |db'.tasks| == |db.tasks| + 1
  {
  }

  /** create_task keeps the store invariant. */
  lemma CreateTaskValid(db: Db, task: Task, createdAt: string)
    requires Valid(db)
    ensures Valid(CreateTask(db, task, createdAt).0)
  {
    var db' := CreateTask(db, task, createdAt).0;
    var id := db.counter + 1;
    assert id !in db.tasks;
    assert db'.order == db.order + [id];
    forall i, j | 0 <= i < j < |db'.order| ensures db'.order[i] < db'.order[j] {
      assert db.order[i] in db.tasks;
    }
  }

  /** Round trip: fetching the id that create_task returned yields the created record. */
  lemma GetAfterCreate(db: Db, task: Task, createdAt: string)
    ensures var (db', t) := CreateTask(db, task, createdAt);
      && GetTask(db', t.id) == Ok(t)
      && (forall id :: id != t.id ==> GetTask(db', id) == GetTask(db, id))
  {
  }

  /** get_task succeeds exactly for stored ids, with the record whose id is the one asked for. */
  lemma GetTaskSpec(db: Db, id: int)
    requires Valid(db)
    ensures GetTask(db, id).Ok? <==> id in db.tasks
    ensures GetTask(db, id).Ok? ==> GetTask(db, id).value == db.tasks[id] && GetTask(db, id).value.id == id
    ensures GetTask(db, id).Err? ==> GetTask(db, id).error == HttpError(404, "Task not found")
  {
  }

  /**
   * delete_task on a stored id removes exactly that key, keeps every other
   * record, the counter and the invariant, and answers with that id; a later
   * get_task of the id fails.
   */
  lemma DeleteTaskPresent(db: Db, id: int)
    requires Valid(db)
    requires id in db.tasks
    ensures var (db', r) := DeleteTask(db, id);
      && r == Ok(DeleteResponse(DeletedMessage, id))
      && db'.tasks.Keys == db.tasks.Keys - {id}
      && (forall k :: k in db'.tasks ==> db'.tasks[k] == db.tasks[k])
      && db'.counter == db.counter
      && |db'.tasks| == |db.tasks| - 1
      && GetTask(db', id) == Err(NotFound)
      && Valid(db')
  {
    var db' := DeleteTask(db, id).0;
    assert db'.tasks.Keys == db.tasks.Keys - {id};
    forall i | 0 <= i < |db'.order| ensures db'.order[i] in db'.tasks {
      assert db'.order[i] in db'.order;
    }
    assert |db'.tasks.Keys| == |db.tasks.Keys| - 1;
  }

  /** delete_task on an absent id answers 404 and changes nothing. */
  lemma DeleteTaskAbsent(db: Db, id: int)
    requires id !in db.tasks
    ensures DeleteTask(db, id) == (db, Err(NotFound))
  {
  }

  /**
   * get_tasks returns every stored record exactly once, in ascending id order
   * (ids are handed out increasingly, so insertion order is id order).
   */
  lemma GetTasksSpec(db: Db)
    requires Valid(db)
    ensures |GetTasks(db)| == |db.tasks|
    ensures forall t :: t in GetTasks(db) ==> t.id in db.tasks && db.tasks[t.id] == t
    ensures forall k :: k in db.tasks ==> db.tasks[k] in GetTasks(db)
    ensures forall i, j :: 0 <= i < j < |GetTasks(db)| ==> GetTasks(db)[i].id < GetTasks(db)[j].id
  {
    var r := GetTasks(db);
    forall k | k in db.tasks
      ensures db.tasks[k] in r
    {
      var i :| 0 <= i < |db.order| && db.order[i] == k;
      assert r[i] == db.tasks[k];
    }
  }
}
