/** `TasksRepository`: reads and writes of the task table. */
module TasksRepository {

  import opened Outcome
  import opened Models
  import opened Store
  import Seqs

  const UpdateMissing := "Task not found in db"
  const DeleteMissing := "Task not found in database"

  /** `GetTaskByIdAsync`: the task with its participants, or nothing. */
  function GetTaskById(db: Db, id: Id): (r: Option<LoadedTask>)
    ensures r.None? <==> id !in db.tasks
    ensures r.Some? ==> r.value.item == db.tasks[id]
    ensures r.Some? ==> forall i :: 0 <= i < |r.value.participants| ==>
      r.value.participants[i] in db.grants && r.value.participants[i].taskId == id
    ensures r.Some? ==> forall i :: 0 <= i < |db.grants| && db.grants[i].taskId == id ==>
      db.grants[i] in r.value.participants
  {
    if id in db.tasks then Some(Load(db, id)) else None
  }

  /** `GetTasksUserAsync`: the tasks, keyed by id, whose reporter is `userId`. */
  function GetTasksUser(db: Db, userId: Id): (r: map<Id, LoadedTask>)
    ensures forall id :: id in r <==> id in db.tasks && db.tasks[id].reporterId == userId
    ensures forall id :: id in r ==> r[id] == Load(db, id)
  {
    map id | id in db.tasks && db.tasks[id].reporterId == userId :: Load(db, id)
  }

  /** `CreateTaskAsync`: stores the task under the fresh key `freshId`, which
      replaces whatever key the task carried. The database refuses a task
      whose reporter is not a user. */
  function CreateTask(db: Db, task: TaskItem, freshId: Id): (r: Response<TaskItem>)
    requires freshId !in db.tasks
    ensures r.result.Ok? <==> task.reporterId in UserIds(db.users)
    ensures r.result.Err? ==> r == Response(db, Err(BadRequest(SaveFailed)))
    ensures r.result.Ok? ==> r.result.value.taskId == freshId
    ensures r.result.Ok? ==> r.result.value.(taskId := task.taskId) == task
    ensures r.result.Ok? ==> r.db.tasks.Keys == db.tasks.Keys + {freshId}
    ensures r.result.Ok? ==> r.db.tasks[freshId] == r.result.value
    ensures r.result.Ok? ==> forall id :: id in db.tasks ==> r.db.tasks[id] == db.tasks[id]
    ensures r.db.users == db.users && r.db.grants == db.grants
  {
    var created := task.(taskId := freshId);
    if created.reporterId !in UserIds(db.users) then Response(db, Err(BadRequest(SaveFailed)))
    else Response(db.(tasks := db.tasks[freshId := created]), Ok(created))
  }

  /** `UpdateTaskAsync`: copies the five editable fields of `task` onto the
      stored task `id`; its key, reporter and creation date stay. */
  function UpdateTask(db: Db, id: Id, task: TaskItem): (r: Response<TaskItem>)
    ensures id !in db.tasks ==> r == Response(db, Err(BadRequest(UpdateMissing)))
    ensures id in db.tasks ==> r.result.Ok?
    ensures r.result.Ok? ==> EditableOf(r.result.value) == EditableOf(task)
    ensures r.result.Ok? ==> FixedOf(r.result.value) == FixedOf(db.tasks[id])
    ensures r.result.Ok? ==> r.db.tasks == db.tasks[id := r.result.value]
    ensures r.db.users == db.users && r.db.grants == db.grants
  {
    if id !in db.tasks then Response(db, Err(BadRequest(UpdateMissing)))
    else
      var stored := db.tasks[id];
      var updated := stored.(title := task.title, description := task.description, status := task.status,
                             priority := task.priority, dueDate := task.dueDate);
      Response(db.(tasks := db.tasks[id := updated]), Ok(updated))
  }

  /** `DeleteTaskAsync`: removes task `id` and, by the cascade on the grant
      table's task key, every grant on it. */
  function DeleteTask(db: Db, id: Id): (r: Response<bool>)
    ensures id !in db.tasks ==> r == Response(db, Err(BadRequest(DeleteMissing)))
    ensures id in db.tasks ==> r.result == Ok(true)
    ensures r.result.Ok? ==> r.db.tasks == db.tasks - {id} && r.db.users == db.users
    ensures r.result.Ok? ==> forall i :: 0 <= i < |r.db.grants| ==> r.db.grants[i] in db.grants && r.db.grants[i].taskId != id
    ensures r.result.Ok? ==> forall i :: 0 <= i < |db.grants| && db.grants[i].taskId != id ==> db.grants[i] in r.db.grants
  {
    if id !in db.tasks then Response(db, Err(BadRequest(DeleteMissing)))
    else Response(Db(db.users, db.tasks - {id}, DropTaskGrants(db.grants, id)), Ok(true))
  }

  /** Creating a task with a fresh key keeps the store invariant. */
  lemma CreateTaskKeepsValid(db: Db, task: TaskItem, freshId: Id)
    requires Valid(db) && freshId !in db.tasks
    ensures Valid(CreateTask(db, task, freshId).db)
  {
  }

  /** Updating a task keeps the store invariant. */
  lemma UpdateTaskKeepsValid(db: Db, id: Id, task: TaskItem)
    requires Valid(db)
    ensures Valid(UpdateTask(db, id, task).db)
  {
  }

  /** Deleting a task keeps the store invariant: the cascade leaves no grant
      naming the deleted task. */
  lemma DeleteTaskKeepsValid(db: Db, id: Id)
    requires Valid(db)
    ensures Valid(DeleteTask(db, id).db)
  {
    if id in db.tasks {
      var keep := (g: TaskUser) => g.taskId != id;
      Seqs.FilterPairwise(db.grants, keep, DistinctGrantIds);
      Seqs.FilterPairwise(db.grants, keep, DistinctPairs);
      var after := DeleteTask(db, id).db;
      forall k | 0 <= k < |after.grants|
        ensures after.grants[k].taskId in after.tasks && after.grants[k].userId in UserIds(after.users)
      {
        var g := after.grants[k];
        var j :| 0 <= j < |db.grants| && db.grants[j] == g;
      }
    }
  }

  /** After a task is deleted no lookup finds a grant on it, for any user. */
  lemma DeleteLeavesNoGrant(db: Db, id: Id, userId: Id)
    requires id in db.tasks
    ensures FirstGrant(DeleteTask(db, id).db.grants, id, userId).None?
  {
  }
}
