/** Request sequences across the controllers, stated for every store and
    every pair of users that fit the story. */
module Scenarios {

  import opened Outcome
  import opened Models
  import opened Store
  import opened Authorization
  import TaskController
  import TaskSharingController
  import TaskSharingRepository
  import UserContext

  /** The owner creates a task and shares it read-only with another user,
      who is refused an update; after the owner re-shares it read-write the
      same update goes through. */
  lemma ReadGrantThenReadWriteGrant(db: Db, owner: Claims, other: Claims, parseGuid: string -> UserContext.GuidParse,
                                    o: Id, u: Id, fields: TaskFields, edit: TaskFields, now: Timestamp,
                                    t: Id, g1: Id, g2: Id)
    requires UserContext.GetUserId(owner, parseGuid) == Ok(o) && UserContext.GetUserId(other, parseGuid) == Ok(u)
    requires !UserContext.IsAdmin(other)
    requires o in UserIds(db.users) && u in UserIds(db.users) && o != u
    requires t !in db.tasks && g1 !in GrantIds(db.grants) && g2 !in GrantIds(db.grants) && g1 != g2
    ensures
      var created := TaskController.CreateTask(db, owner, parseGuid, fields, now, t);
      var shared := TaskSharingController.ShareTask(created.db, owner, parseGuid, t, UserPermission(u, Read), g1, now);
      var refused := TaskController.UpdateTask(shared.db, other, parseGuid, t, edit);
      var reshared := TaskSharingController.ShareTask(refused.db, owner, parseGuid, t, UserPermission(u, ReadWrite), g2, now);
      var updated := TaskController.UpdateTask(reshared.db, other, parseGuid, t, edit);
      && created.result.Ok? && shared.result.Ok?
      && refused == Response(shared.db, Err(Unauthorized(TaskController.NoPermissionToChange)))
      && reshared.result.Ok? && updated.result.Ok?
  {
    var created := TaskController.CreateTask(db, owner, parseGuid, fields, now, t);
    TaskSharingController.SameCallerChecks(owner, parseGuid);
    var shared := TaskSharingController.ShareTask(created.db, owner, parseGuid, t, UserPermission(u, Read), g1, now);
    TaskSharingController.ShareTaskEffect(created.db, owner, parseGuid, t, UserPermission(u, Read), g1, now, t, u);
    var refused := TaskController.UpdateTask(shared.db, other, parseGuid, t, edit);
    assert GrantIds(shared.db.grants) <= GrantIds(db.grants) + {g1};
    var reshared := TaskSharingController.ShareTask(refused.db, owner, parseGuid, t, UserPermission(u, ReadWrite), g2, now);
    TaskSharingController.ShareTaskEffect(refused.db, owner, parseGuid, t, UserPermission(u, ReadWrite), g2, now, t, u);
  }

  /** An admin who did not create a task deletes it, whatever grants exist. */
  lemma AdminDeletesAnyTask(db: Db, admin: Claims, parseGuid: string -> UserContext.GuidParse, taskId: Id)
    requires taskId in db.tasks
    requires UserContext.GetUserId(admin, parseGuid).Ok? && UserContext.IsAdmin(admin)
    ensures TaskController.DeleteTask(db, admin, parseGuid, taskId).result.Ok?
  {
  }

  /** A user with no relation to an existing task is refused as
      unauthorized, not told the task is missing. */
  lemma StrangerIsRefusedNotMissing(db: Db, stranger: Claims, parseGuid: string -> UserContext.GuidParse, taskId: Id)
    requires TaskController.StoredUnderKey(db, taskId)
    requires UserContext.GetUserId(stranger, parseGuid).Ok? && !UserContext.IsAdmin(stranger)
    requires UserContext.GetUserId(stranger, parseGuid).value != db.tasks[taskId].reporterId
    requires !HoldsGrant(db.grants, taskId, UserContext.GetUserId(stranger, parseGuid).value)
    ensures TaskController.GetTaskById(db, stranger, parseGuid, taskId) == Err(Unauthorized(TaskController.NoPermission))
  {
  }
}
