# Task Management API: the in-memory task store, in Dafny

The service (`app.py`) is a small HTTP API over a process-lifetime store of
tasks. Two module-level globals hold the state: `tasks_db`, a dict from task
id to task record, and `task_counter`, the last id handed out. `create_task`
bumps the counter and stores a new record under it, `get_task` looks an id up,
`delete_task` pops it, and `get_tasks` lists every record. Each one answers
404 "Task not found" when the id is absent. A middleware wraps every request.
After the handler answers, it increments the Prometheus counter
`http_requests_total`, labelled by method, URL path and status.

The project has five modules:

- `TaskModel` (task_model.dfy) gives the store as a value, `Db`. It holds the
  map, the dict's insertion order of keys, and the counter. Each handler is a
  function on `Db`. The store invariant `Valid` says:
  - every record's id is its key;
  - every key lies between 1 and the counter;
  - the insertion order lists each key once, in ascending order.

  The lemmas here state what each handler promises.
- `TaskStore` (task_store.dfy) is the store as the service holds it. The class
  `Store` has the fields `tasksDb`, `order` and `taskCounter`, and its methods
  update them in place. Each method is proved to agree with its `TaskModel`
  function and to keep `Valid`. `GetTasks` walks the keys in insertion order,
  as `list(tasks_db.values())` does.
- `TaskHistory` (task_history.dfy) covers runs of create, get, delete and list
  calls since process start. It proves these facts:
  - the i-th create returns id i, so ids strictly increase and are never
    reused, whatever gets and deletes come between the creates;
  - the list length is the number of creates minus the number of deletes that
    found their id;
  - a deleted id is never found again.
- `Metrics` (metrics.dfy) models the request counter as a map from label sets
  to counts. A label set that was never used reads as 0. Each request adds
  exactly one to its own child and nothing to any other. After a sequence of
  requests, each child equals the number of requests that carried its labels,
  and there is a child for exactly the label sets that were used.
- `App` (app.dfy) holds the handlers and `log_and_metrics`. `Handle` gives each
  routed request's status and body: 201 only for creates, and 404 exactly for
  a get or delete of an absent id. Only creates and successful deletes change
  the store. `Service.LogAndMetrics` runs the handler first, then counts the
  request under its method, path and the status the handler returned. This
  order means a `/metrics` response does not include its own request. Two
  client methods, `CreateTwoAndList` and `DeleteThenFetch`, walk the create,
  list, delete and fetch session through the service, with proved
  assertions about each answer.

Where the code and its design description differ, the model follows the code:

- `delete_task` answers `{"message": "Task deleted successfully", "id": id}`.
  It does not return the removed record.
- A new id is the counter plus one, not the largest stored id plus one. The
  two differ after the newest task has been deleted. Ids are never reused
  (`TaskHistory.DeletedStaysGone`).

## Model

| member | source | states |
|---|---|---|
| `TaskModel.Without` | app.py:105 | Popping a key from the dict's order removes exactly that key and keeps the rest. On an ascending order with the key present, the order stays ascending and gets one shorter. An absent key leaves the order unchanged. |
| `TaskModel.Values` | app.py:67 | Listing the values follows the key order: one entry per key, the i-th being the record stored under the i-th key. |
| `TaskModel.CreateTaskSpec` | app.py:71-86 | The new id is the old counter plus one and becomes the counter. It is absent from the store and above every stored id. The stored record copies title, description and completed from the request and takes the creation time. Only that key is added, at the end of the insertion order, and the store grows by one. |
| `TaskModel.CreateTaskValid` | app.py:72-83 | create_task keeps the store invariant: ids equal keys, keys lie in 1..counter, and the insertion order is ascending and lists each key once. |
| `TaskModel.GetAfterCreate` | app.py:89-96 | Round trip: get_task on the id create_task returned yields exactly the created record. Every other id answers as before. |
| `TaskModel.GetTaskSpec` | app.py:90-96 | get_task succeeds exactly when the id is stored, and then returns that record, whose id is the one asked for. Otherwise it fails with 404 "Task not found". |
| `TaskModel.DeleteTaskPresent` | app.py:100-108 | delete_task on a stored id answers with the fixed message and that id. It removes exactly that key, keeps every other record and the counter, and shrinks the store by one. A later get of the id is 404, and the invariant holds. |
| `TaskModel.DeleteTaskAbsent` | app.py:100-103 | delete_task on an absent id answers 404 "Task not found" and changes nothing. |
| `TaskModel.GetTasksSpec` | app.py:65-67 | get_tasks lists every stored record exactly once and nothing else. Its length is the number of stored tasks, and it is in ascending id order. |
| `TaskStore.Store.constructor` | app.py:25-27 | At process start the store is empty, the counter is 0, and the invariant holds. |
| `TaskStore.Store.CreateTask` | app.py:71-86 | In place: the counter goes up by one, and the returned record has the new id, the request's fields and the creation time. The dict gains exactly that key, appended to the order. The invariant is kept, and the result agrees with `TaskModel.CreateTask`. |
| `TaskStore.Store.GetTask` | app.py:90-96 | Read only: succeeds exactly for stored ids with the stored record, whose id is the one asked for. Otherwise it fails with 404 "Task not found". |
| `TaskStore.Store.DeleteTask` | app.py:100-108 | In place: succeeds exactly for stored ids, pops exactly that key and answers with the id. An absent id gives 404 and leaves the dict and its order unchanged. The counter never changes, and the invariant is kept. |
| `TaskStore.Store.GetTasks` | app.py:65-67 | Read only: the loop returns the records in the dict's insertion order. The result holds every stored record once and nothing else, in ascending id order. |
| `TaskHistory.StepValid` | app.py:63-108 | Every store call keeps the invariant, and none lowers the counter. |
| `TaskHistory.RunValid` | app.py:63-108 | The invariant holds after any sequence of calls. |
| `TaskHistory.IssuedIds` | app.py:72-76 | The creates of a run return counter+1, counter+2, ... in turn, whatever calls come between them. The counter moves only on creates, by one each, so delete never touches it. |
| `TaskHistory.IssuedFromStart` | app.py:72-76 | From process start the first create returns id 1 and the i-th returns id i. So ids strictly increase and are never reused, even after deletes. |
| `TaskHistory.RunSize` | app.py:71-108 | Each create adds one record and each delete that finds its id removes one. Gets and failed deletes change nothing. |
| `TaskHistory.ListLength` | app.py:65-108 | After N creates and M deletes that found their id since start, get_tasks returns exactly N - M records. |
| `TaskHistory.DeletedStaysGone` | app.py:72-105 | An id that was handed out and is no longer stored answers 404 for the rest of any run. |
| `TaskHistory.DeleteThenNeverFound` | app.py:100-108 | After a successful delete, get_task on that id answers 404 after any later calls. |
| `Metrics.Increment` | app.py:51 | `labels(...).inc()` adds the label set if it is new, raises its count by exactly one, and leaves every other count as it was. |
| `Metrics.TallyCount` | app.py:51 | After a sequence of requests, each label set's count equals its earlier count plus the number of requests that carried it. |
| `Metrics.TallyKeys` | app.py:51 | After a sequence of requests, the counter has a child for exactly the label sets it started with or that some request carried. |
| `Metrics.RequestCounter.constructor` | app.py:19 | The counter starts with no children. |
| `Metrics.RequestCounter.Inc` | app.py:51 | In place: the request's label set grows by one and every other count is unchanged. |
| `App.Handle` | app.py:59-126 | A create answers 201 and nothing else does. A get or delete answers 404 "Task not found" exactly when the id is absent. Every other answer is 200. Only creates and deletes of stored ids change the store. |
| `App.Service.constructor` | app.py:19-27 | At process start the store is empty and the request counter has no children. |
| `App.Service.LogAndMetrics` | app.py:40-56 | The handler runs first, against the store and the counter as they were. Then the counter for (method, path, returned status) goes up by one and no other count changes. |
| `App.Service.CallNext` | app.py:59-126 | Each route runs its handler on the store and answers as `App.Handle` says. The request counter is only read. |

## Left out

- FastAPI routing, path-parameter parsing and decorators are not modelled. A
  request arrives already routed, as an `App.Route`. Unknown paths and the
  framework's 405 answers are not modelled.
- Pydantic validation and the 422 answer for a missing or ill-typed title are
  not modelled, because that code belongs to the library. Every `Task` value
  is taken as valid.
- `HTTPException` is modelled as the error value `HttpError` inside `Result`,
  not as an exception.
- Logging is I/O and is left out. This covers the messages before and after
  each request and inside the handlers.
- The `uuid.uuid4()` trace ids and `request.state.trace_id` are left out,
  because they are random and feed only the logs.
- `time.time()` durations and the `http_request_duration_seconds` histogram
  are left out, because they are wall-clock floats.
- `datetime.now().isoformat()` is an input instead. The `now` and `createdAt`
  parameters stand for the clock reading.
- `generate_latest()` belongs to the Prometheus client library. `/metrics`
  answers with the counter's map, not with the exposition text.
- Prometheus keeps label values as strings. The model keeps the status label
  as an integer.
- The static payloads of `/` and `/health` are reduced to `Welcome` and
  `Healthy(timestamp)`. They carry no logic.
- The async middleware and concurrent requests are left out. The code assumes
  one request at a time, and so does the model.
