/** `TaskSharingController`: sharing a task with one user or with a list of
    users. Only the reporter or an admin may share, and the check runs once,
    before any grant is written. */
module TaskSharingController {

  import opened Outcome
  import opened Models
  import opened Store
  import opened Authorization
  import Text
  import TasksService
  import TaskSharingService
  import TaskSharingRepository
  import UserContext

  const NoPermission := "You don't have permission"

  /** The controller's private `GetUserRole`. */
  function GetUserRole(claims: Claims): string {
    if claims.role.Some? then claims.role.value else "User"
  }

  /** The controller's private `IsAdmin`. */
  predicate IsAdmin(claims: Claims) {
    Text.EqualsIgnoreCase(GetUserRole(claims), "Admin")
  }

  /** The controller's private `GetUserId`. */
  function GetUserId(claims: Claims, parseGuid: string -> UserContext.GuidParse): Result<Id> {
    if claims.nameIdentifier.None? || claims.nameIdentifier.value == "" then Err(Unauthorized(UserContext.IdClaimMissing))
    else if parseGuid(claims.nameIdentifier.value).Malformed? then Err(BadRequest(parseGuid(claims.nameIdentifier.value).message))
    else Ok(parseGuid(claims.nameIdentifier.value).id)
  }

  /** The private copies decide exactly as the user-context service does, so
      a missing role is not an admin and "Admin" counts in any letter case
      here as well. */
  lemma SameCallerChecks(claims: Claims, parseGuid: string -> UserContext.GuidParse)
    ensures GetUserId(claims, parseGuid) == UserContext.GetUserId(claims, parseGuid)
    ensures IsAdmin(claims) <==> UserContext.IsAdmin(claims)
  {
  }

  /** `ShareTask`: the single upsert, for the reporter or an admin only;
      anyone else is refused before any grant is written. */
  function ShareTask(db: Db, claims: Claims, parseGuid: string -> UserContext.GuidParse, taskId: Id,
                     participant: UserPermission, freshId: Id, now: Timestamp): (r: Response<()>)
    requires freshId !in GrantIds(db.grants)
    ensures taskId !in db.tasks ==> r == Response(db, Err(NotFound(TasksService.TaskNotFound)))
    ensures taskId in db.tasks && GetUserId(claims, parseGuid).Err? ==> r == Response(db, Err(GetUserId(claims, parseGuid).error))
    ensures taskId in db.tasks && GetUserId(claims, parseGuid).Ok? ==>
      var allowed := Decide(IsAdmin(claims), GetUserId(claims, parseGuid).value, db.tasks[taskId], db.grants, Share) == Allow;
      && (!allowed ==> r == Response(db, Err(Unauthorized(NoPermission))))
      && (allowed ==> r == TaskSharingService.ShareTaskUser(db, taskId, participant, freshId, now))
    ensures r.result.Err? ==> r.db == db
  {
    match TasksService.GetTaskById(db, taskId)
    case Err(e) => Response(db, Err(e))
    case Ok(task) =>
      match GetUserId(claims, parseGuid)
      case Err(e) => Response(db, Err(e))
      case Ok(userId) =>
        var admin := IsAdmin(claims);
        if task.item.reporterId != userId && !admin then Response(db, Err(Unauthorized(NoPermission)))
        else TaskSharingService.ShareTaskUser(db, taskId, participant, freshId, now)
  }

  /** `ShareTaskMultipleUsers`: the same gate, checked once, then the upserts
      in list order; a refused caller writes no grant at all. */
  function ShareTaskMultipleUsers(db: Db, claims: Claims, parseGuid: string -> UserContext.GuidParse, taskId: Id,
                                  participants: seq<UserPermission>, freshIds: seq<Id>, now: Timestamp): (r: Response<()>)
    requires |freshIds| == |participants| && TaskSharingService.FreshKeys(db.grants, freshIds)
    ensures taskId !in db.tasks ==> r == Response(db, Err(NotFound(TasksService.TaskNotFound)))
    ensures taskId in db.tasks && GetUserId(claims, parseGuid).Err? ==> r == Response(db, Err(GetUserId(claims, parseGuid).error))
    ensures taskId in db.tasks && GetUserId(claims, parseGuid).Ok? ==>
      var allowed := Decide(IsAdmin(claims), GetUserId(claims, parseGuid).value, db.tasks[taskId], db.grants, Share) == Allow;
      && (!allowed ==> r == Response(db, Err(Unauthorized(NoPermission))))
      && (allowed ==> r == TaskSharingService.ShareEach(db, taskId, participants, freshIds, now))
    ensures r.db.tasks == db.tasks && r.db.users == db.users
  {
    match TasksService.GetTaskById(db, taskId)
    case Err(e) => Response(db, Err(e))
    case Ok(task) =>
      match GetUserId(claims, parseGuid)
      case Err(e) => Response(db, Err(e))
      case Ok(userId) =>
        var admin := IsAdmin(claims);
        if task.item.reporterId != userId && !admin then Response(db, Err(Unauthorized(NoPermission)))
        else TaskSharingService.ShareTaskMultipleUsers(db, taskId, participants, freshIds, now)
  }

  /** A participant who is neither reporter nor admin cannot share, even
      with a `ReadWrite` grant, and the grants stay as they were. */
  lemma ParticipantCannotShare(db: Db, claims: Claims, parseGuid: string -> UserContext.GuidParse, taskId: Id,
                               participant: UserPermission, freshId: Id, now: Timestamp)
    requires freshId !in GrantIds(db.grants)
    requires taskId in db.tasks && GetUserId(claims, parseGuid).Ok? && !IsAdmin(claims)
    requires GetUserId(claims, parseGuid).value != db.tasks[taskId].reporterId
    ensures ShareTask(db, claims, parseGuid, taskId, participant, freshId, now) == Response(db, Err(Unauthorized(NoPermission)))
  {
    NonOwnerDecisions(GetUserId(claims, parseGuid).value, db.tasks[taskId], db.grants);
  }

  /** After an allowed share the participant holds exactly the requested
      level, and every other pair keeps the level it had. */
  lemma ShareTaskEffect(db: Db, claims: Claims, parseGuid: string -> UserContext.GuidParse, taskId: Id,
                        participant: UserPermission, freshId: Id, now: Timestamp, t: Id, u: Id)
    requires freshId !in GrantIds(db.grants)
    requires ShareTask(db, claims, parseGuid, taskId, participant, freshId, now).result.Ok?
    ensures var after := ShareTask(db, claims, parseGuid, taskId, participant, freshId, now).db.grants;
      GrantPermission(after, t, u) ==
        if t == taskId && u == participant.userId then Some(participant.permission) else GrantPermission(db.grants, t, u)
  {
    if t == taskId && u == participant.userId {
      TaskSharingRepository.ShareSetsPermission(db, taskId, participant.userId, participant.permission, freshId, now);
    } else {
      TaskSharingRepository.ShareKeepsOtherPairs(db, taskId, participant.userId, participant.permission, freshId, now, t, u);
    }
  }
}
