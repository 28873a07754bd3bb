/*
 * The request path of app.py: the middleware `log_and_metrics` hands each
 * request to its handler (`call_next`) and, once the handler has answered,
 * bumps `http_requests_total` for the request's method, URL path and status.
 *
 * Routing, body validation and serialisation are FastAPI's; a request arrives
 * here already routed (`Route`) and a response leaves as a status and a body.
 */
module App {
  import opened TaskModel
  import TaskStore
  import Metrics

  /** The handler the router picked, with its decoded path parameter or body. */
  datatype Route =
    | HealthCheck         // GET /health
    | AllTasks            // GET /tasks
    | NewTask(task: Task) // POST /tasks
    | OneTask(id: int)    // GET /tasks/{task_id}
    | RemoveTask(id: int) // DELETE /tasks/{task_id}
    | MetricsText         // GET /metrics
    | Root                // GET /

  /** A request: its method and URL path (the metric labels) and its route. */
  datatype Request = Request(httpMethod: string, path: string, route: Route)

  datatype Body =
    | Healthy(timestamp: string)
    | TaskList(tasks: seq<TaskResponse>)
    | TaskBody(task: TaskResponse)
    | Deleted(deleted: DeleteResponse)
    | Error(error: HttpError)
    | Exposition(counts: map<Metrics.Labels, nat>)
    | Welcome

  datatype Response = Response(status: int, body: Body)

  /** The labels the middleware uses for a request and its response. */
  function LabelsOf(req: Request, resp: Response): Metrics.Labels
  {
    Metrics.Labels(req.httpMethod, req.path, resp.status)
  }

  /**
   * What the handler answers and the store it leaves. `counts` is the request
   * counter when the handler runs; `now` is the wall-clock reading that
   * health_check and create_task take.
   */
  function Handle(db: Db, counts: map<Metrics.Labels, nat>, route: Route, now: string): (r: (Db, Response))
    requires OrderedKeys(db)
    ensures r.1.status == 201 <==> route.NewTask?
    ensures r.1.status == 404 <==> (route.OneTask? || route.RemoveTask?) && route.id !in db.tasks
    ensures r.1.status == 200 || r.1.status == 201 || r.1.status == 404
    ensures r.1.status == 404 ==> r.1.body == Error(NotFound)
    ensures r.0 != db ==> route.NewTask? || (route.RemoveTask? && route.id in db.tasks)
  {
    match route
    case HealthCheck => (db, Response(200, Healthy(now)))
    case AllTasks => (db, Response(200, TaskList(GetTasks(db))))
    case NewTask(task) =>
      var (db', t) := CreateTask(db, task, now);
      (db', Response(201, TaskBody(t)))
    case OneTask(id) =>
      (db, match GetTask(db, id)
           case Ok(t) => Response(200, TaskBody(t))
           case Err(e) => Response(e.status, Error(e)))
    case RemoveTask(id) =>
      var (db', r) := DeleteTask(db, id);
      (db', match r
            case Ok(d) => Response(200, Deleted(d))
            case Err(e) => Response(e.status, Error(e)))
    case MetricsText => (db, Response(200, Exposition(counts)))
    case Root => (db, Response(200, Welcome))
  }

  /** The application: the task store and the request counter it shares across requests. */
  class Service {
    const store: TaskStore.Store
    const requestCount: Metrics.RequestCounter

    ghost predicate Valid()
      reads this, store
    {
      store.Valid()
    }

    /** Process start: empty store, counter with no children. */
    constructor ()
      ensures fresh(store) && fresh(requestCount)
      ensures Valid()
      ensures store.State() == Empty && requestCount.counts == map[]
    {
      store := new TaskStore.Store();
      requestCount := new Metrics.RequestCounter();
    }

    /**
     * log_and_metrics: run the handler, then count the request under its
     * method, path and the status the handler answered with.
     */
    method LogAndMetrics(req: Request, now: string) returns (resp: Response)
      requires Valid()
      modifies store, requestCount
      ensures Valid()
      ensures (store.State(), resp) == Handle(old(store.State()), old(requestCount.counts), req.route, now)
      ensures requestCount.counts == Metrics.Increment(old(requestCount.counts), LabelsOf(req, resp))
    {
      resp := CallNext(req.route, now);
      requestCount.Inc(LabelsOf(req, resp));
    }

    /** The handlers: each performs its store operation and builds the response. */
    method CallNext(route: Route, now: string) returns (resp: Response)
      requires Valid()
      modifies store
      ensures Valid()
      ensures (store.State(), resp) == Handle(old(store.State()), requestCount.counts, route, now)
    {
      match route
      case HealthCheck =>
        resp := Response(200, Healthy(now));
      case AllTasks =>
        var tasks := store.GetTasks();
        resp := Response(200, TaskList(tasks));
      case NewTask(task) =>
        var t := store.CreateTask(task, now);
        resp := Response(201, TaskBody(t));
      case OneTask(id) =>
        var r := store.GetTask(id);
        match r {
          case Ok(t) => resp := Response(200, TaskBody(t));
          case Err(e) => resp := Response(e.status, Error(e));
        }
      case RemoveTask(id) =>
        var r := store.DeleteTask(id);
        match r {
          case Ok(d) => resp := Response(200, Deleted(d));
          case Err(e) => resp := Response(e.status, Error(e));
        }
      case MetricsText =>
        resp := Response(200, Exposition(requestCount.counts));
      case Root =>
        resp := Response(200, Welcome);
    }
  }

  /**
   * The first half of the session the service's tests and documentation walk
   * through: two creates from a fresh process get ids 1 and 2 and the list
   * then holds both.
   */
  method CreateTwoAndList(now: string)
  {
    var app := new Service();
    var a := app.LogAndMetrics(Request("POST", "/tasks", NewTask(TaskWithTitle("A"))), now);
    assert a.status == 201 && a.body.task.id == 1 && a.body.task.title == "A";
    var b := app.LogAndMetrics(Request("POST", "/tasks", NewTask(TaskWithTitle("B"))), now);
    assert b.status == 201 && b.body.task.id == 2;
    assert |app.store.tasksDb| == 2;
    var all := app.LogAndMetrics(Request("GET", "/tasks", AllTasks), now);
    GetTasksSpec(app.store.State());
    assert all.status == 200 && |all.body.tasks| == 2;
  }

  /**
   * The second half: deleting task 1 answers with its id, and a later fetch
   * of 1 is a 404 while task 2 is still stored.
   */
  method DeleteThenFetch(now: string)
  {
    var app := new Service();
    var a := app.LogAndMetrics(Request("POST", "/tasks", NewTask(TaskWithTitle("A"))), now);
    var b := app.LogAndMetrics(Request("POST", "/tasks", NewTask(TaskWithTitle("B"))), now);
    assert a.body.task.id == 1 && b.body.task.id == 2;
    var del := app.LogAndMetrics(Request("DELETE", "/tasks/1", RemoveTask(1)), now);
    assert del.status == 200 && del.body.deleted == DeleteResponse("Task deleted successfully", 1);
    assert 1 !in app.store.tasksDb && 2 in app.store.tasksDb;
    var gone := app.LogAndMetrics(Request("GET", "/tasks/1", OneTask(1)), now);
    assert gone.status == 404 && gone.body == Error(HttpError(404, "Task not found"));
  }
}
