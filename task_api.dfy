/** The `/tasks` handlers: query-parameter bounds, the owner taken from the
    resolved user, the mapping of a miss to 404, and the public count. Each
    protected handler receives the user `get_current_active_user` resolved. */
module TaskApi {
  import opened Wrappers
  import opened Models
  import opened Http
  import Schemas
  import Seqs
  import TaskCrud

  /** Query parameters of `GET /tasks/` as sent; absent ones take their defaults. */
  datatype ListParams = ListParams(
    skip: Option<int>,
    limit: Option<int>,
    completed: Option<bool>,
    search: Option<string>,
    createdAfter: Option<Time>,
    createdBefore: Option<Time>)

  /** `skip >= 0` with default 0, `1 <= limit <= 100` with default 100. */
  function ValidatePagination(skip: Option<int>, limit: Option<int>): (r: Result<(nat, nat), HttpError>)
    ensures r.Success? <==> (skip.None? || skip.value >= 0) && (limit.None? || 1 <= limit.value <= 100)
    ensures r.Success? ==> r.value.0 == skip.GetOr(0) && r.value.1 == limit.GetOr(100)
    ensures r.Success? ==> 1 <= r.value.1 <= 100
    ensures r.Failure? ==> r.error.status == 422
  {
    var s := skip.GetOr(0);
    var l := limit.GetOr(100);
    if s < 0 || l < 1 || l > 100 then Failure(Unprocessable) else Success((s, l))
  }

  /** `GET /tasks/`: always scoped to the caller; at most 100 rows. */
  function ListTasks(tasks: seq<Task>, current: User, params: ListParams): (r: Result<seq<Task>, HttpError>)
    ensures r.Success? <==> ValidatePagination(params.skip, params.limit).Success?
    ensures r.Failure? ==> r.error.status == 422
    ensures r.Success? ==> |r.value| <= 100
    ensures r.Success? ==> forall t :: t in r.value ==> t in tasks && t.userId == current.id
    ensures r.Success? ==> forall t :: t in r.value ==> params.completed.Some? ==> t.completed == params.completed.value
    ensures r.Success? ==>
      var (skip, limit) := ValidatePagination(params.skip, params.limit).value;
      r.value == TaskCrud.GetUserTasks(tasks, current.id,
        TaskCrud.TaskQuery(skip, limit, params.completed, params.search, params.createdAfter, params.createdBefore))
  {
    match ValidatePagination(params.skip, params.limit)
    case Failure(e) => Failure(e)
    case Success((skip, limit)) =>
      Success(TaskCrud.GetUserTasks(tasks, current.id,
        TaskCrud.TaskQuery(skip, limit, params.completed, params.search, params.createdAfter, params.createdBefore)))
  }

  /** `GET /tasks/{task_id}`: the caller's task, or 404 "Task not found" both
      for an unknown id and for another user's task. */
  function GetTaskEndpoint(tasks: seq<Task>, current: User, taskId: string): (r: Result<Task, HttpError>)
    ensures r.Failure? ==> r.error == TaskNotFound
    ensures r.Success? <==> exists t :: t in tasks && t.id == taskId && t.userId == current.id
    ensures r.Success? ==> r.value in tasks && r.value.id == taskId && r.value.userId == current.id
  {
    match TaskCrud.GetTask(tasks, taskId, current.id)
    case None => Failure(TaskNotFound)
    case Some(t) => Success(t)
  }

  /** Two users: a task owned by one is not found by the other, and never
      appears in the other's listing. */
  lemma OtherUsersTaskInvisible(tasks: seq<Task>, t: Task, other: User, params: ListParams)
    requires t in tasks && t.userId != other.id
    requires UniqueTaskIds(tasks)
    ensures GetTaskEndpoint(tasks, other, t.id) == Failure(TaskNotFound)
    ensures ListTasks(tasks, other, params).Success? ==> t !in ListTasks(tasks, other, params).value
  {
    forall x | x in tasks && x.id == t.id
      ensures x == t
    {
      var i :| 0 <= i < |tasks| && tasks[i] == x;
      var j :| 0 <= j < |tasks| && tasks[j] == t;
      assert i == j;
    }
  }

  /** `POST /tasks/`: the owner is the caller; the body has no owner field. */
  method CreateTaskEndpoint(table: TaskCrud.TaskTable, current: User, body: Schemas.TaskCreate, id: string, now: Time)
    returns (t: Task)
    requires table.Valid() && Schemas.ValidTaskCreate(body)
    requires forall x :: x in table.tasks ==> x.id != id
    modifies table
    ensures table.Valid()
    ensures t.userId == current.id && t.id == id
    ensures t.title == body.title && t.description == body.description
    ensures t.completed == body.completed && t.priority == body.priority
    ensures table.tasks == old(table.tasks) + [t]
  {
    t := table.CreateTask(body, current.id, id, now);
  }

  /** `PUT /tasks/{task_id}`: 404 when the caller has no such task, with the
      table unchanged. */
  method UpdateTaskEndpoint(table: TaskCrud.TaskTable, current: User, taskId: string, u: Schemas.TaskUpdate, now: Time)
    returns (r: Result<Task, HttpError>)
    requires table.Valid() && Schemas.ValidTaskUpdate(u)
    modifies table
    ensures table.Valid()
    ensures r.Failure? <==> TaskCrud.GetTask(old(table.tasks), taskId, current.id).None?
    ensures r.Failure? ==> r.error == TaskNotFound && table.tasks == old(table.tasks)
    ensures r.Success? ==>
      var i := TaskCrud.FindTaskIndex(old(table.tasks), taskId, current.id).value;
      r.value == TaskCrud.Updated(old(table.tasks)[i], u, now)
      && r.value.userId == current.id
      && table.tasks == old(table.tasks)[i := r.value]
  {
    var updated := table.UpdateTask(taskId, current.id, u, now);
    if updated.None? {
      return Failure(TaskNotFound);
    }
    r := Success(updated.value);
  }

  /** `DELETE /tasks/{task_id}`: 204 after removing the caller's task, 404
      with the table unchanged otherwise. */
  method DeleteTaskEndpoint(table: TaskCrud.TaskTable, current: User, taskId: string)
    returns (r: Result<nat, HttpError>)
    requires table.Valid()
    modifies table
    ensures table.Valid()
    ensures r.Success? <==> TaskCrud.GetTask(old(table.tasks), taskId, current.id).Some?
    ensures r.Success? ==> r.value == 204
    ensures r.Success? ==>
      var i := TaskCrud.FindTaskIndex(old(table.tasks), taskId, current.id).value;
      table.tasks == old(table.tasks)[..i] + old(table.tasks)[i + 1..]
    ensures r.Failure? ==> r.error == TaskNotFound && table.tasks == old(table.tasks)
    ensures TaskCrud.GetTask(table.tasks, taskId, current.id).None?
  {
    var deleted := table.DeleteTask(taskId, current.id);
    if !deleted {
      return Failure(TaskNotFound);
    }
    r := Success(204);
  }

  /** `GET /tasks/public/stats`: the number of rows in the whole table. */
  function PublicStats(tasks: seq<Task>): (n: nat)
    ensures forall owner :: |Seqs.Filter(tasks, TaskCrud.OwnerIs(owner))| <= n
  {
    |tasks|
  }

  /** The public count is not scoped to any owner: it is the caller's own
      tasks plus everybody else's. */
  lemma {:induction false} PublicStatsCountsAllOwners(tasks: seq<Task>, owner: string)
    ensures PublicStats(tasks)
         == |Seqs.Filter(tasks, TaskCrud.OwnerIs(owner))| + |Seqs.Filter(tasks, NotOwnedBy(owner))|
  {
    if tasks != [] {
      PublicStatsCountsAllOwners(tasks[1..], owner);
    }
  }
}
