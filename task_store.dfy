/*
 * The task store as the service holds it: the globals `tasks_db` and
 * `task_counter` of app.py, updated in place by the handlers.
 *
 * Each method performs the handler's update on the fields and is proved to
 * agree with the corresponding function of module TaskModel, so the lemmas
 * proved there (fresh increasing ids, round trips, the invariant) carry over.
 */
module TaskStore {
  import opened TaskModel

  class Store {
    /** `tasks_db`: the records by id ... */
    var tasksDb: map<int, TaskResponse>
    /** ... and the order in which the dict first saw each key. */
    var order: seq<int>
    /** `task_counter`: the last id handed out. */
    var taskCounter: nat

    /** The fields read as a value of the pure model. */
    function State(): Db
      reads this
    {
      Db(tasksDb, order, taskCounter)
    }

    ghost predicate Valid()
      reads this
    {
      TaskModel.Valid(State())
    }

    /** Process start: `tasks_db = {}`, `task_counter = 0`. */
    constructor ()
      ensures Valid()
      ensures tasksDb == map[] && order == [] && taskCounter == 0
      ensures State() == Empty
    {
      tasksDb := map[];
      order := [];
      taskCounter := 0;
    }

    /**
     * create_task: increments the counter, builds the record under the new id
     * from the request fields and the creation time, and stores it.
     */
    method CreateTask(task: Task, createdAt: string) returns (t: TaskResponse)
      requires Valid()
      modifies this
      ensures Valid()
      ensures (State(), t) == TaskModel.CreateTask(old(State()), task, createdAt)
      ensures taskCounter == old(taskCounter) + 1 && t.id == taskCounter
      ensures t.id !in old(tasksDb)
      ensures t == TaskResponse(t.id, task.title, task.description, task.completed, createdAt)
      ensures tasksDb == old(tasksDb)[t.id := t]
      ensures order == old(order) + [t.id]
    {
      CreateTaskSpec(State(), task, createdAt);
      CreateTaskValid(State(), task, createdAt);
      taskCounter := taskCounter + 1;
      t := TaskResponse(taskCounter, task.title, task.description, task.completed, createdAt);
      if taskCounter !in tasksDb {
        order := order + [taskCounter];
      }
      tasksDb := tasksDb[taskCounter := t];
    }

    /** get_task: the stored record, or 404 "Task not found" when the id is absent. */
    method GetTask(id: int) returns (r: Result<TaskResponse>)
      requires Valid()
      ensures r.Ok? <==> id in tasksDb
      ensures r.Ok? ==> r.value == tasksDb[id] && r.value.id == id
      ensures r.Err? ==> r.error == NotFound
      ensures r == TaskModel.GetTask(State(), id)
    {
      if id !in tasksDb {
        return Err(NotFound);
      }
      r := Ok(tasksDb[id]);
    }

    /**
     * delete_task: 404 and no change when the id is absent; otherwise pops
     * exactly that key, keeps the counter, and answers with the id.
     */
    method DeleteTask(id: int) returns (r: Result<DeleteResponse>)
      requires Valid()
      modifies this
      ensures Valid()
      ensures (State(), r) == TaskModel.DeleteTask(old(State()), id)
      ensures r.Ok? <==> id in old(tasksDb)
      ensures r.Ok? ==> r.value == DeleteResponse(DeletedMessage, id) && tasksDb == old(tasksDb) - {id}
      ensures r.Err? ==> r.error == NotFound && tasksDb == old(tasksDb) && order == old(order)
      ensures taskCounter == old(taskCounter)
    {
      if id !in tasksDb {
        return Err(NotFound);
      }
      DeleteTaskPresent(State(), id);
      tasksDb := tasksDb - {id};
      order := Without(order, id);
      r := Ok(DeleteResponse(DeletedMessage, id));
    }

    /**
     * get_tasks: `list(tasks_db.values())`, built by walking the dict's keys
     * in insertion order; that is every stored record once, by ascending id.
     */
    method GetTasks() returns (r: seq<TaskResponse>)
      requires Valid()
      ensures |r| == |tasksDb|
      ensures forall i :: 0 <= i < |r| ==> r[i] == tasksDb[order[i]]
      ensures forall t :: t in r ==> t.id in tasksDb && tasksDb[t.id] == t
      ensures forall k :: k in tasksDb ==> tasksDb[k] in r
      ensures forall i, j :: 0 <= i < j < |r| ==> r[i].id < r[j].id
      ensures r == TaskModel.GetTasks(State())
    {
      r := [];
      var i := 0;
      while i < |order|
        invariant 0 <= i <= |order|
        invariant |r| == i
        invariant forall j :: 0 <= j < i ==> r[j] == tasksDb[order[j]]
      {
        r := r + [tasksDb[order[i]]];
        i := i + 1;
      }
      assert r == TaskModel.GetTasks(State());
      GetTasksSpec(State());
    }
  }
}
