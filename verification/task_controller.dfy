/** `TaskController`: the task endpoints. Each reads the task first (so a
    missing task is `NotFound` before anything else), then the caller, then
    applies its own permission check, which its contract shows to be
    `Authorization.Decide` for its action. */
module TaskController {

  import opened Outcome
  import opened Models
  import opened Store
  import opened Authorization
  import TasksService
  import TaskSharingService
  import UserContext

  const NoPermission := "You don't have permission"
  const NoPermissionToChange := "You don't have permission.."

  /** `Participants.Any(p => p.UserId == userId)`. */
  predicate AnyWithUser(participants: seq<TaskUser>, userId: Id) {
    exists k :: 0 <= k < |participants| && participants[k].userId == userId
  }

  /** The task is stored under its own key, as the key invariant demands. */
  predicate StoredUnderKey(db: Db, taskId: Id) {
    taskId in db.tasks && db.tasks[taskId].taskId == taskId
  }

  /** A user appears among the loaded participants of a task exactly when
      the user holds a grant on it. */
  lemma ParticipantIffGrant(grants: seq<TaskUser>, taskId: Id, userId: Id)
    ensures AnyWithUser(Participants(grants, taskId), userId) <==> HoldsGrant(grants, taskId, userId)
  {
    var ps := Participants(grants, taskId);
    if AnyWithUser(ps, userId) {
      var k :| 0 <= k < |ps| && ps[k].userId == userId;
      var j :| 0 <= j < |grants| && grants[j] == ps[k];
      assert IsPair(grants[j], taskId, userId);
    }
    if HoldsGrant(grants, taskId, userId) {
      var j :| 0 <= j < |grants| && IsPair(grants[j], taskId, userId);
      var k :| 0 <= k < |ps| && ps[k] == grants[j];
      assert ps[k].userId == userId;
    }
  }

  /** `GetTaskById`: the task with its participants, shown only to the
      reporter, a participant or an admin. */
  function GetTaskById(db: Db, claims: Claims, parseGuid: string -> UserContext.GuidParse, taskId: Id): (r: Result<LoadedTask>)
    ensures taskId !in db.tasks ==> r == Err(NotFound(TasksService.TaskNotFound))
    ensures taskId in db.tasks && UserContext.GetUserId(claims, parseGuid).Err? ==>
      r == Err(UserContext.GetUserId(claims, parseGuid).error)
    ensures StoredUnderKey(db, taskId) && UserContext.GetUserId(claims, parseGuid).Ok? ==>
      (r.Ok? <==> Decide(UserContext.IsAdmin(claims), UserContext.GetUserId(claims, parseGuid).value, db.tasks[taskId], db.grants, View) == Allow)
    ensures taskId in db.tasks && UserContext.GetUserId(claims, parseGuid).Ok? && r.Err? ==> r == Err(Unauthorized(NoPermission))
    ensures r.Ok? ==> r.value == Load(db, taskId)
  {
    match TasksService.GetTaskById(db, taskId)
    case Err(e) => Err(e)
    case Ok(task) =>
      match UserContext.GetUserId(claims, parseGuid)
      case Err(e) => Err(e)
      case Ok(userId) =>
        var admin := UserContext.IsAdmin(claims);
        ParticipantIffGrant(db.grants, taskId, userId);
        if task.item.reporterId != userId && !AnyWithUser(task.participants, userId) && !admin then
          Err(Unauthorized(NoPermission))
        else Ok(task)
  }

  /** `GetUserTasks`: the tasks the caller reports, and no others; a task
      merely shared with the caller is not listed. */
  function GetUserTasks(db: Db, claims: Claims, parseGuid: string -> UserContext.GuidParse): (r: Result<map<Id, LoadedTask>>)
    ensures r.Err? <==> UserContext.GetUserId(claims, parseGuid).Err?
    ensures r.Err? ==> r.error == UserContext.GetUserId(claims, parseGuid).error
    ensures r.Ok? ==> forall id :: id in r.value <==>
      id in db.tasks && db.tasks[id].reporterId == UserContext.GetUserId(claims, parseGuid).value
    ensures r.Ok? ==> forall id :: id in r.value ==> r.value[id] == Load(db, id)
  {
    match UserContext.GetUserId(claims, parseGuid)
    case Err(e) => Err(e)
    case Ok(userId) => Ok(TasksService.GetTasksUser(db, userId))
  }

  /** `CreateTask`: the request's fields on a new task whose reporter is the
      caller, whatever the request says, stored under a fresh key. */
  function CreateTask(db: Db, claims: Claims, parseGuid: string -> UserContext.GuidParse, fields: TaskFields, now: Timestamp, freshId: Id): (r: Response<TaskItem>)
    requires freshId !in db.tasks
    ensures UserContext.GetUserId(claims, parseGuid).Err? ==>
      r == Response(db, Err(UserContext.GetUserId(claims, parseGuid).error))
    ensures UserContext.GetUserId(claims, parseGuid).Ok? ==>
      (r.result.Ok? <==> UserContext.GetUserId(claims, parseGuid).value in UserIds(db.users))
    ensures r.result.Err? ==> r.db == db
    ensures r.result.Ok? ==> r.result.value.reporterId == UserContext.GetUserId(claims, parseGuid).value
    ensures r.result.Ok? ==> EditableOf(r.result.value) == EditableFrom(fields)
    ensures r.result.Ok? ==> r.result.value.taskId == freshId && r.result.value.createdDate == now
    ensures r.result.Ok? ==> r.db == db.(tasks := db.tasks[freshId := r.result.value])
  {
    var task := NewTaskFrom(fields, now);
    match UserContext.GetUserId(claims, parseGuid)
    case Err(e) => Response(db, Err(e))
    case Ok(userId) => TasksService.CreateTask(db, task.(reporterId := userId), freshId)
  }

  /** `UpdateTask`: the request's fields copied onto the stored task, for the
      reporter, an admin, or a holder of a `ReadWrite` grant. A refusal comes
      before any write. */
  function UpdateTask(db: Db, claims: Claims, parseGuid: string -> UserContext.GuidParse, taskId: Id, fields: TaskFields): (r: Response<TaskItem>)
    ensures taskId !in db.tasks ==> r == Response(db, Err(NotFound(TasksService.TaskNotFound)))
    ensures taskId in db.tasks && UserContext.GetUserId(claims, parseGuid).Err? ==>
      r == Response(db, Err(UserContext.GetUserId(claims, parseGuid).error))
    ensures StoredUnderKey(db, taskId) && UserContext.GetUserId(claims, parseGuid).Ok? ==>
      (r.result.Ok? <==> Decide(UserContext.IsAdmin(claims), UserContext.GetUserId(claims, parseGuid).value, db.tasks[taskId], db.grants, Edit) == Allow)
    ensures taskId in db.tasks && UserContext.GetUserId(claims, parseGuid).Ok? && r.result.Err? ==>
      r.result == Err(Unauthorized(NoPermissionToChange))
    ensures r.result.Err? ==> r.db == db
    ensures r.result.Ok? ==> EditableOf(r.result.value) == EditableFrom(fields) && FixedOf(r.result.value) == FixedOf(db.tasks[taskId])
    ensures r.result.Ok? ==> r.db == db.(tasks := db.tasks[taskId := r.result.value])
  {
    match TasksService.GetTaskById(db, taskId)
    case Err(e) => Response(db, Err(e))
    case Ok(existing) =>
      match UserContext.GetUserId(claims, parseGuid)
      case Err(e) => Response(db, Err(e))
      case Ok(userId) =>
        var admin := UserContext.IsAdmin(claims);
        match TaskSharingService.GetParticipantPermissionEditTask(db, taskId, userId)
        case Err(e) => Response(db, Err(e))
        case Ok(participantEdit) =>
          var hasEditPermission := existing.item.reporterId == userId || admin || participantEdit;
          if !hasEditPermission then Response(db, Err(Unauthorized(NoPermissionToChange)))
          else TasksService.UpdateTask(db, taskId, ApplyFields(fields, existing.item))
  }

  /** `DeleteTask`: the task and its grants removed, for the reporter or an
      admin only. A refusal comes before any write. */
  function DeleteTask(db: Db, claims: Claims, parseGuid: string -> UserContext.GuidParse, taskId: Id): (r: Response<()>)
    ensures taskId !in db.tasks ==> r == Response(db, Err(NotFound(TasksService.TaskNotFound)))
    ensures taskId in db.tasks && UserContext.GetUserId(claims, parseGuid).Err? ==>
      r == Response(db, Err(UserContext.GetUserId(claims, parseGuid).error))
    ensures taskId in db.tasks && UserContext.GetUserId(claims, parseGuid).Ok? ==>
      (r.result.Ok? <==> Decide(UserContext.IsAdmin(claims), UserContext.GetUserId(claims, parseGuid).value, db.tasks[taskId], db.grants, Delete) == Allow)
    ensures taskId in db.tasks && UserContext.GetUserId(claims, parseGuid).Ok? && r.result.Err? ==>
      r.result == Err(Unauthorized(NoPermissionToChange))
    ensures r.result.Err? ==> r.db == db
    ensures r.result.Ok? ==> r.db == Db(db.users, db.tasks - {taskId}, DropTaskGrants(db.grants, taskId))
  {
    match TasksService.GetTaskById(db, taskId)
    case Err(e) => Response(db, Err(e))
    case Ok(task) =>
      match UserContext.GetUserId(claims, parseGuid)
      case Err(e) => Response(db, Err(e))
      case Ok(userId) =>
        var admin := UserContext.IsAdmin(claims);
        if task.item.reporterId != userId && !admin then Response(db, Err(Unauthorized(NoPermissionToChange)))
        else
          var deleted := TasksService.DeleteTask(db, taskId);
          Response(deleted.db, Ok(()))
  }

  /** Whoever may update a task may also read it. */
  lemma UpdateAllowedImpliesGetAllowed(db: Db, claims: Claims, parseGuid: string -> UserContext.GuidParse, taskId: Id, fields: TaskFields)
    requires StoredUnderKey(db, taskId)
    requires UpdateTask(db, claims, parseGuid, taskId, fields).result.Ok?
    ensures GetTaskById(db, claims, parseGuid, taskId).Ok?
  {
    var userId := UserContext.GetUserId(claims, parseGuid).value;
    EditImpliesView(UserContext.IsAdmin(claims), userId, db.tasks[taskId], db.grants);
  }

  /** A participant who is neither the reporter nor an admin can never
      delete the task, whatever the level of the grant. */
  lemma ParticipantCannotDelete(db: Db, claims: Claims, parseGuid: string -> UserContext.GuidParse, taskId: Id)
    requires taskId in db.tasks
    requires UserContext.GetUserId(claims, parseGuid).Ok?
    requires !UserContext.IsAdmin(claims)
    requires UserContext.GetUserId(claims, parseGuid).value != db.tasks[taskId].reporterId
    ensures DeleteTask(db, claims, parseGuid, taskId) == Response(db, Err(Unauthorized(NoPermissionToChange)))
  {
    NonOwnerDecisions(UserContext.GetUserId(claims, parseGuid).value, db.tasks[taskId], db.grants);
  }
}
