/** `TasksService`: the task repository behind not-found guards. A missing task
    is reported as `NotFound` here, before the repository's own check (which
    would report it as a plain failure) is ever reached. */
module TasksService {

  import opened Outcome
  import opened Models
  import opened Store
  import TasksRepository

  const TaskNotFound := "Task not found"

  /** `GetTaskByIdAsync`: the stored task with its participants, or
      `NotFound`. */
  function GetTaskById(db: Db, taskId: Id): (r: Result<LoadedTask>)
    ensures r.Err? <==> taskId !in db.tasks
    ensures r.Err? ==> r.error == NotFound(TaskNotFound)
    ensures r.Ok? ==> r.value == Load(db, taskId)
  {
    match TasksRepository.GetTaskById(db, taskId)
    case None => Err(NotFound(TaskNotFound))
    case Some(task) => Ok(task)
  }

  /** `GetTasksUserAsync`: exactly the tasks `userId` reports. */
  function GetTasksUser(db: Db, userId: Id): (r: map<Id, LoadedTask>)
    ensures forall id :: id in r <==> id in db.tasks && db.tasks[id].reporterId == userId
    ensures forall id :: id in r ==> r[id] == Load(db, id)
  {
    TasksRepository.GetTasksUser(db, userId)
  }

  /** `CreateTaskAsync`: the task goes to the repository unchanged. */
  function CreateTask(db: Db, task: TaskItem, freshId: Id): (r: Response<TaskItem>)
    requires freshId !in db.tasks
    ensures r.result.Ok? <==> task.reporterId in UserIds(db.users)
    ensures r.result.Err? ==> r.db == db
    ensures r.result.Ok? ==> r.result.value == task.(taskId := freshId) && r.db.tasks == db.tasks[freshId := r.result.value]
    ensures r.db.users == db.users && r.db.grants == db.grants
  {
    TasksRepository.CreateTask(db, task, freshId)
  }

  /** `UpdateTaskAsync`: `NotFound` for a missing task, with the store
      untouched; otherwise the repository's five-field update. */
  function UpdateTask(db: Db, taskId: Id, task: TaskItem): (r: Response<TaskItem>)
    ensures taskId !in db.tasks ==> r == Response(db, Err(NotFound(TaskNotFound)))
    ensures taskId in db.tasks ==> r.result.Ok?
    ensures r.result.Ok? ==> EditableOf(r.result.value) == EditableOf(task) && FixedOf(r.result.value) == FixedOf(db.tasks[taskId])
    ensures r.result.Ok? ==> r.db == db.(tasks := db.tasks[taskId := r.result.value])
  {
    if TasksRepository.GetTaskById(db, taskId).None? then Response(db, Err(NotFound(TaskNotFound)))
    else TasksRepository.UpdateTask(db, taskId, task)
  }

  /** `DeleteTaskAsync`: `NotFound` for a missing task, with the store
      untouched; otherwise the task and its grants are removed and the result
      is `true`. */
  function DeleteTask(db: Db, taskId: Id): (r: Response<bool>)
    ensures taskId !in db.tasks ==> r == Response(db, Err(NotFound(TaskNotFound)))
    ensures taskId in db.tasks ==> r.result == Ok(true)
    ensures r.result.Ok? ==> r.db == Db(db.users, db.tasks - {taskId}, DropTaskGrants(db.grants, taskId))
  {
    if TasksRepository.GetTaskById(db, taskId).None? then Response(db, Err(NotFound(TaskNotFound)))
    else TasksRepository.DeleteTask(db, taskId)
  }
}
