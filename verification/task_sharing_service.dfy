/** `TaskSharingService`: the grant repository behind not-found guards, and the
    batch share as a sequence of single shares. */
module TaskSharingService {

  import opened Outcome
  import opened Models
  import opened Store
  import TaskSharingRepository
  import TasksRepository

  const TaskNotFound := "Task not found"

  /** The fresh keys handed to a batch: one per entry, all different, none
      already used by a grant. */
  predicate FreshKeys(grants: seq<TaskUser>, freshIds: seq<Id>) {
    && (forall k :: 0 <= k < |freshIds| ==> freshIds[k] !in GrantIds(grants))
    && (forall i, j :: 0 <= i < j < |freshIds| ==> freshIds[i] != freshIds[j])
  }

  /** The keys in a list of fresh keys. */
  function KeySet(ids: seq<Id>): set<Id> {
    set k | 0 <= k < |ids| :: ids[k]
  }

  /** Once the first key is used, the remaining keys are still fresh. */
  lemma FreshKeysTail(before: seq<TaskUser>, after: seq<TaskUser>, freshIds: seq<Id>)
    requires |freshIds| > 0 && FreshKeys(before, freshIds)
    requires GrantIds(after) <= GrantIds(before) + {freshIds[0]}
    ensures FreshKeys(after, freshIds[1..])
  {
    forall k | 0 <= k < |freshIds[1..]| ensures freshIds[1..][k] !in GrantIds(after) {
      assert freshIds[1..][k] == freshIds[k + 1];
      assert freshIds[0] != freshIds[k + 1];
    }
  }

  /** The first `f` keys of a fresh list are fresh. */
  lemma FreshKeysPrefix(grants: seq<TaskUser>, freshIds: seq<Id>, f: nat)
    requires f <= |freshIds| && FreshKeys(grants, freshIds)
    ensures FreshKeys(grants, freshIds[..f])
  {
    assert forall k :: 0 <= k < f ==> freshIds[..f][k] == freshIds[k];
  }

  /** `ShareTaskUserAsync`: `NotFound` for a missing task, with no grant
      written; otherwise the repository's upsert. */
  function ShareTaskUser(db: Db, taskId: Id, participant: UserPermission, freshId: Id, now: Timestamp): (r: Response<()>)
    requires freshId !in GrantIds(db.grants)
    ensures taskId !in db.tasks ==> r == Response(db, Err(NotFound(TaskNotFound)))
    ensures taskId in db.tasks ==> r == TaskSharingRepository.ShareTaskUser(db, taskId, participant.userId, participant.permission, freshId, now)
  {
    if TasksRepository.GetTaskById(db, taskId).Some? then
      TaskSharingRepository.ShareTaskUser(db, taskId, participant.userId, participant.permission, freshId, now)
    else Response(db, Err(NotFound(TaskNotFound)))
  }

  /** The loop of `ShareTaskMultipleUsersAsync`: the upserts in list order,
      entry `k` using fresh key `freshIds[k]`; the first failure stops the
      loop and keeps what earlier entries saved. */
  function ShareEach(db: Db, taskId: Id, participants: seq<UserPermission>, freshIds: seq<Id>, now: Timestamp): (r: Response<()>)
    requires |freshIds| == |participants| && FreshKeys(db.grants, freshIds)
    ensures r.db.tasks == db.tasks && r.db.users == db.users
    ensures GrantIds(r.db.grants) <= GrantIds(db.grants) + KeySet(freshIds)
    decreases |participants|
  {
    if |participants| == 0 then Response(db, Ok(()))
    else
      var step := TaskSharingRepository.ShareTaskUser(db, taskId, participants[0].userId, participants[0].permission, freshIds[0], now);
      if step.result.Err? then step
      else
        FreshKeysTail(db.grants, step.db.grants, freshIds);
        var rest := ShareEach(step.db, taskId, participants[1..], freshIds[1..], now);
        assert KeySet(freshIds[1..]) <= KeySet(freshIds) by {
          forall id | id in KeySet(freshIds[1..])
            ensures id in KeySet(freshIds)
          {
            var k :| 0 <= k < |freshIds[1..]| && freshIds[1..][k] == id;
            assert freshIds[k + 1] == id;
          }
        }
        assert freshIds[0] in KeySet(freshIds);
        rest
  }

  /** `ShareTaskMultipleUsersAsync`: `NotFound` for a missing task before any
      upsert; otherwise the upserts one after another. */
  function ShareTaskMultipleUsers(db: Db, taskId: Id, participants: seq<UserPermission>, freshIds: seq<Id>, now: Timestamp): (r: Response<()>)
    requires |freshIds| == |participants| && FreshKeys(db.grants, freshIds)
    ensures taskId !in db.tasks ==> r == Response(db, Err(NotFound(TaskNotFound)))
    ensures taskId in db.tasks && |participants| == 0 ==> r == Response(db, Ok(()))
    ensures taskId in db.tasks ==> r == ShareEach(db, taskId, participants, freshIds, now)
  {
    if TasksRepository.GetTaskById(db, taskId).Some? then ShareEach(db, taskId, participants, freshIds, now)
    else Response(db, Err(NotFound(TaskNotFound)))
  }

  /** `GetParticipantPermissionEditTaskAsync`: `NotFound` for a missing task;
      otherwise whether the pair's grant is `ReadWrite`. */
  function GetParticipantPermissionEditTask(db: Db, taskId: Id, userId: Id): (r: Result<bool>)
    ensures taskId !in db.tasks <==> r == Err(NotFound(TaskNotFound))
    ensures r.Ok? ==> (r.value <==> GrantPermission(db.grants, taskId, userId) == Some(ReadWrite))
  {
    if TasksRepository.GetTaskById(db, taskId).Some? then Ok(TaskSharingRepository.GetParticipantPermissionEditTask(db.grants, taskId, userId))
    else Err(NotFound(TaskNotFound))
  }

  /** The permission the batch leaves for user `u`: that of the last entry
      naming `u`, or the permission `u` had before when no entry names it. */
  function LastPermission(participants: seq<UserPermission>, u: Id, before: Option<Permission>): Option<Permission>
  {
    if |participants| == 0 then before
    else if participants[|participants| - 1].userId == u then Some(participants[|participants| - 1].permission)
    else LastPermission(participants[..|participants| - 1], u, before)
  }

  /** Folding from the front: the entries after the first decide, and the
      first entry only counts when no later entry names the same user. */
  lemma {:induction false} LastPermissionCons(participants: seq<UserPermission>, u: Id, before: Option<Permission>)
    requires |participants| > 0
    ensures LastPermission(participants, u, before) ==
      LastPermission(participants[1..], u, if participants[0].userId == u then Some(participants[0].permission) else before)
  {
    var n := |participants|;
    if n > 1 {
      var init := participants[..n - 1];
      assert init[1..] == participants[1..][..n - 2];
      assert init[0] == participants[0];
      if participants[n - 1].userId != u {
        LastPermissionCons(init, u, before);
      }
    }
  }

  /** A successful batch leaves every user of the task with the level of the
      last entry naming that user, so a later duplicate wins; users the batch
      does not name, and other tasks, keep the grant they had. */
  lemma {:induction false} ShareEachIsLastWriteWins(db: Db, taskId: Id, participants: seq<UserPermission>, freshIds: seq<Id>, now: Timestamp, t: Id, u: Id)
    requires |freshIds| == |participants| && FreshKeys(db.grants, freshIds)
    requires ShareEach(db, taskId, participants, freshIds, now).result.Ok?
    ensures var after := ShareEach(db, taskId, participants, freshIds, now).db.grants;
      GrantPermission(after, t, u) ==
        if t == taskId then LastPermission(participants, u, GrantPermission(db.grants, t, u))
        else GrantPermission(db.grants, t, u)
    decreases |participants|
  {
    if |participants| > 0 {
      var p := participants[0];
      var step := TaskSharingRepository.ShareTaskUser(db, taskId, p.userId, p.permission, freshIds[0], now);
      FreshKeysTail(db.grants, step.db.grants, freshIds);
      ShareEachIsLastWriteWins(step.db, taskId, participants[1..], freshIds[1..], now, t, u);
      LastPermissionCons(participants, u, GrantPermission(db.grants, t, u));
      if t == taskId && u == p.userId {
        TaskSharingRepository.ShareSetsPermission(db, taskId, p.userId, p.permission, freshIds[0], now);
      } else {
        TaskSharingRepository.ShareKeepsOtherPairs(db, taskId, p.userId, p.permission, freshIds[0], now, t, u);
      }
    }
  }

  /** Every prefix of a batch keeps the store invariant, whether the batch
      completes or stops at a failing entry. */
  lemma {:induction false} ShareEachKeepsValid(db: Db, taskId: Id, participants: seq<UserPermission>, freshIds: seq<Id>, now: Timestamp)
    requires Valid(db)
    requires |freshIds| == |participants| && FreshKeys(db.grants, freshIds)
    ensures Valid(ShareEach(db, taskId, participants, freshIds, now).db)
    decreases |participants|
  {
    if |participants| > 0 {
      var p := participants[0];
      var step := TaskSharingRepository.ShareTaskUser(db, taskId, p.userId, p.permission, freshIds[0], now);
      TaskSharingRepository.ShareKeepsValid(db, taskId, p.userId, p.permission, freshIds[0], now);
      if step.result.Ok? {
        FreshKeysTail(db.grants, step.db.grants, freshIds);
        ShareEachKeepsValid(step.db, taskId, participants[1..], freshIds[1..], now);
      }
    }
  }

  /** The batch stops at entry `f`: the entries before it all go through,
      entry `f` is refused, and the store is left as those earlier entries
      saved it, with no rollback. Entry `f` is refused either because the
      task is missing, and then it is the first entry, or because it would
      add a grant for a user who does not exist, which the database rejects
      with the save error. */
  predicate StopsAt(db: Db, taskId: Id, participants: seq<UserPermission>, freshIds: seq<Id>, now: Timestamp, f: nat)
    requires |freshIds| == |participants| && FreshKeys(db.grants, freshIds) && f < |participants|
  {
    FreshKeysPrefix(db.grants, freshIds, f);
    var before := ShareEach(db, taskId, participants[..f], freshIds[..f], now);
    var failed := if taskId in db.tasks then SaveFailed else TaskSharingRepository.TaskMissing;
    && before.result.Ok?
    && (taskId !in db.tasks ==> f == 0)
    && (taskId in db.tasks ==>
          participants[f].userId !in UserIds(db.users) && GrantPermission(before.db.grants, taskId, participants[f].userId).None?)
    && ShareEach(db, taskId, participants, freshIds, now) == Response(before.db, Err(BadRequest(failed)))
  }

  /** A batch that fails stops at some entry, in the sense of `StopsAt`:
      what the entries before it saved stays saved. */
  lemma {:induction false} ShareEachFailureKeepsPrefix(db: Db, taskId: Id, participants: seq<UserPermission>, freshIds: seq<Id>, now: Timestamp)
    requires |freshIds| == |participants| && FreshKeys(db.grants, freshIds)
    requires ShareEach(db, taskId, participants, freshIds, now).result.Err?
    ensures exists f :: 0 <= f < |participants| && StopsAt(db, taskId, participants, freshIds, now, f)
    decreases |participants|
  {
    var p := participants[0];
    var step := TaskSharingRepository.ShareTaskUser(db, taskId, p.userId, p.permission, freshIds[0], now);
    if step.result.Err? {
      assert participants[..0] == [] && freshIds[..0] == [];
      assert StopsAt(db, taskId, participants, freshIds, now, 0);
    } else {
      FreshKeysTail(db.grants, step.db.grants, freshIds);
      ShareEachFailureKeepsPrefix(step.db, taskId, participants[1..], freshIds[1..], now);
      var g :| 0 <= g < |participants[1..]| && StopsAt(step.db, taskId, participants[1..], freshIds[1..], now, g);
      FreshKeysPrefix(db.grants, freshIds, g + 1);
      assert participants[..g + 1][0] == p && freshIds[..g + 1][0] == freshIds[0];
      assert participants[..g + 1][1..] == participants[1..][..g];
      assert freshIds[..g + 1][1..] == freshIds[1..][..g];
      assert StopsAt(db, taskId, participants, freshIds, now, g + 1);
    }
  }

  /** Conversely, when the entries before `f` go through and entry `f` names
      a user who does not exist and has no grant on the task, the batch stops
      exactly there. */
  lemma {:induction false} ShareEachStopsAtMissingUser(db: Db, taskId: Id, participants: seq<UserPermission>, freshIds: seq<Id>, now: Timestamp, f: nat)
    requires |freshIds| == |participants| && FreshKeys(db.grants, freshIds) && f < |participants|
    requires taskId in db.tasks
    requires ShareEach(db, taskId, participants[..f], freshIds[..f], now).result.Ok?
    requires participants[f].userId !in UserIds(db.users)
    requires GrantPermission(ShareEach(db, taskId, participants[..f], freshIds[..f], now).db.grants, taskId, participants[f].userId).None?
    ensures StopsAt(db, taskId, participants, freshIds, now, f)
    decreases f
  {
    var p := participants[0];
    var step := TaskSharingRepository.ShareTaskUser(db, taskId, p.userId, p.permission, freshIds[0], now);
    if f > 0 {
      FreshKeysPrefix(db.grants, freshIds, f);
      assert participants[..f][0] == p && freshIds[..f][0] == freshIds[0];
      assert participants[..f][1..] == participants[1..][..f - 1];
      assert freshIds[..f][1..] == freshIds[1..][..f - 1];
      FreshKeysTail(db.grants, step.db.grants, freshIds);
      ShareEachStopsAtMissingUser(step.db, taskId, participants[1..], freshIds[1..], now, f - 1);
    }
  }
}
