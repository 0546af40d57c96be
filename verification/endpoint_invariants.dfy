/** Every endpoint that writes keeps the store invariant: keys unique,
    references resolved, at most one grant per pair, user names unique. */
module EndpointInvariants {

  import opened Outcome
  import opened Models
  import opened Store
  import TasksRepository
  import TaskSharingRepository
  import TaskSharingService
  import TaskController
  import TaskSharingController
  import AuthController
  import UsersService
  import UserContext

  lemma CreateTaskKeepsValid(db: Db, claims: Claims, parseGuid: string -> UserContext.GuidParse, fields: TaskFields, now: Timestamp, freshId: Id)
    requires Valid(db) && freshId !in db.tasks
    ensures Valid(TaskController.CreateTask(db, claims, parseGuid, fields, now, freshId).db)
  {
    var r := TaskController.CreateTask(db, claims, parseGuid, fields, now, freshId);
    if r.result.Ok? {
      var task := NewTaskFrom(fields, now).(reporterId := r.result.value.reporterId);
      TasksRepository.CreateTaskKeepsValid(db, task, freshId);
    }
  }

  lemma UpdateTaskKeepsValid(db: Db, claims: Claims, parseGuid: string -> UserContext.GuidParse, taskId: Id, fields: TaskFields)
    requires Valid(db)
    ensures Valid(TaskController.UpdateTask(db, claims, parseGuid, taskId, fields).db)
  {
    var r := TaskController.UpdateTask(db, claims, parseGuid, taskId, fields);
    if r.result.Ok? {
      TasksRepository.UpdateTaskKeepsValid(db, taskId, ApplyFields(fields, db.tasks[taskId]));
    }
  }

  lemma DeleteTaskKeepsValid(db: Db, claims: Claims, parseGuid: string -> UserContext.GuidParse, taskId: Id)
    requires Valid(db)
    ensures Valid(TaskController.DeleteTask(db, claims, parseGuid, taskId).db)
  {
    TasksRepository.DeleteTaskKeepsValid(db, taskId);
  }

  lemma ShareTaskKeepsValid(db: Db, claims: Claims, parseGuid: string -> UserContext.GuidParse, taskId: Id,
                            participant: UserPermission, freshId: Id, now: Timestamp)
    requires Valid(db) && freshId !in GrantIds(db.grants)
    ensures Valid(TaskSharingController.ShareTask(db, claims, parseGuid, taskId, participant, freshId, now).db)
  {
    TaskSharingRepository.ShareKeepsValid(db, taskId, participant.userId, participant.permission, freshId, now);
  }

  lemma ShareTaskMultipleUsersKeepsValid(db: Db, claims: Claims, parseGuid: string -> UserContext.GuidParse, taskId: Id,
                                         participants: seq<UserPermission>, freshIds: seq<Id>, now: Timestamp)
    requires Valid(db)
    requires |freshIds| == |participants| && TaskSharingService.FreshKeys(db.grants, freshIds)
    ensures Valid(TaskSharingController.ShareTaskMultipleUsers(db, claims, parseGuid, taskId, participants, freshIds, now).db)
  {
    TaskSharingService.ShareEachKeepsValid(db, taskId, participants, freshIds, now);
  }

  lemma RegisterKeepsValid(db: Db, req: AuthController.RegisterRequest, freshId: Id, hash: string -> string)
    requires Valid(db) && freshId !in UserIds(db.users)
    ensures Valid(AuthController.Register(db, req, freshId, hash).db)
  {
    if AuthController.RequestValid(req) {
      UsersService.RegisterKeepsValid(db, req.userName.value, req.password.value, freshId, hash);
    }
  }

  lemma DeleteUserKeepsValid(db: Db, userId: Id)
    requires Valid(db)
    ensures Valid(UsersService.DeleteUser(db, userId).db)
  {
    UsersService.DeleteUserKeepsValid(db, userId);
  }
}
