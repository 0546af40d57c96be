/** `TaskSharingRepository`: the grant upsert and the write-permission lookup. */
module TaskSharingRepository {

  import opened Outcome
  import opened Models
  import opened Store
  import Seqs

  const TaskMissing := "Task not found in db"

  /** `ShareTaskUserAsync`: share task `taskId` with user `userId` at level
      `permission`. A missing task fails. If the pair already has a grant,
      only that grant's level is overwritten; otherwise one new grant row is
      appended under the fresh key `freshId`, stamped `now`, which the
      database refuses when the user does not exist. */
  function ShareTaskUser(db: Db, taskId: Id, userId: Id, permission: Permission, freshId: Id, now: Timestamp): (r: Response<()>)
    requires freshId !in GrantIds(db.grants)
    ensures taskId !in db.tasks ==> r == Response(db, Err(BadRequest(TaskMissing)))
    ensures r.result.Err? ==> r.db == db
    ensures r.db.tasks == db.tasks && r.db.users == db.users
    ensures taskId in db.tasks && FirstGrant(db.grants, taskId, userId).Some? ==>
      var i := FirstGrant(db.grants, taskId, userId).value;
      r.result.Ok? && r.db.grants == db.grants[i := db.grants[i].(permission := permission)]
    ensures taskId in db.tasks && FirstGrant(db.grants, taskId, userId).None? ==>
      (r.result.Ok? <==> userId in UserIds(db.users)) &&
      (r.result.Ok? ==> r.db.grants == db.grants + [TaskUser(freshId, taskId, userId, now, permission)])
    ensures GrantIds(r.db.grants) <= GrantIds(db.grants) + {freshId}
  {
    if taskId !in db.tasks then Response(db, Err(BadRequest(TaskMissing)))
    else
      match FirstGrant(db.grants, taskId, userId)
      case Some(i) =>
        var grants := db.grants[i := db.grants[i].(permission := permission)];
        assert GrantIds(grants) == GrantIds(db.grants) by {
          forall id | id in GrantIds(db.grants) ensures id in GrantIds(grants) {
            var k :| 0 <= k < |db.grants| && db.grants[k].taskUserId == id;
            assert grants[k].taskUserId == id;
          }
        }
        Response(db.(grants := grants), Ok(()))
      case None =>
        if userId !in UserIds(db.users) then Response(db, Err(BadRequest(SaveFailed)))
        else
          var grants := db.grants + [TaskUser(freshId, taskId, userId, now, permission)];
          assert GrantIds(grants) <= GrantIds(db.grants) + {freshId} by {
            forall id | id in GrantIds(grants) ensures id in GrantIds(db.grants) + {freshId} {
              var k :| 0 <= k < |grants| && grants[k].taskUserId == id;
              if k < |db.grants| {
                assert db.grants[k].taskUserId == id;
              }
            }
          }
          Response(db.(grants := grants), Ok(()))
  }

  /** `GetParticipantPermissionEditTaskAsync`: true exactly when the grant the
      lookup finds for the pair is `ReadWrite`; false when there is none. */
  function GetParticipantPermissionEditTask(grants: seq<TaskUser>, taskId: Id, userId: Id): (b: bool)
    ensures FirstGrant(grants, taskId, userId).None? ==> !b
    ensures b <==> GrantPermission(grants, taskId, userId) == Some(ReadWrite)
  {
    match FirstGrant(grants, taskId, userId)
    case None => false
    case Some(i) => grants[i].permission == ReadWrite
  }

  /** With at most one grant per pair, the write-permission lookup holds
      exactly when some grant row gives the pair `ReadWrite`. */
  lemma EditLookupIffReadWriteRow(grants: seq<TaskUser>, taskId: Id, userId: Id)
    requires OneGrantPerPair(grants)
    ensures GetParticipantPermissionEditTask(grants, taskId, userId) <==>
      exists k :: 0 <= k < |grants| && IsPair(grants[k], taskId, userId) && grants[k].permission == ReadWrite
  {
    if k :| 0 <= k < |grants| && IsPair(grants[k], taskId, userId) && grants[k].permission == ReadWrite {
      FirstGrantIsOnly(grants, taskId, userId, k);
    }
  }

  /** After a successful share the pair's grant has the requested level. */
  lemma {:induction false} ShareSetsPermission(db: Db, taskId: Id, userId: Id, permission: Permission, freshId: Id, now: Timestamp)
    requires freshId !in GrantIds(db.grants)
    requires ShareTaskUser(db, taskId, userId, permission, freshId, now).result.Ok?
    ensures GrantPermission(ShareTaskUser(db, taskId, userId, permission, freshId, now).db.grants, taskId, userId) == Some(permission)
  {
    var after := ShareTaskUser(db, taskId, userId, permission, freshId, now).db.grants;
    match FirstGrant(db.grants, taskId, userId)
    case Some(i) =>
      FirstGrantAfterOverwrite(db.grants, i, permission, taskId, userId);
    case None =>
      FirstGrantAfterAppend(db.grants, TaskUser(freshId, taskId, userId, now, permission), taskId, userId);
  }

  /** A share leaves the grant found for every other pair as it was. */
  lemma {:induction false} ShareKeepsOtherPairs(db: Db, taskId: Id, userId: Id, permission: Permission, freshId: Id, now: Timestamp, t: Id, u: Id)
    requires freshId !in GrantIds(db.grants)
    requires t != taskId || u != userId
    ensures GrantPermission(ShareTaskUser(db, taskId, userId, permission, freshId, now).db.grants, t, u) == GrantPermission(db.grants, t, u)
  {
    var r := ShareTaskUser(db, taskId, userId, permission, freshId, now);
    if taskId in db.tasks && r.result.Ok? {
      match FirstGrant(db.grants, taskId, userId)
      case Some(i) =>
        FirstGrantAfterOverwrite(db.grants, i, permission, t, u);
      case None =>
        FirstGrantAfterAppend(db.grants, TaskUser(freshId, taskId, userId, now, permission), t, u);
    }
  }

  /** Overwriting the level of one row moves no lookup. */
  lemma FirstGrantAfterOverwrite(grants: seq<TaskUser>, i: nat, permission: Permission, t: Id, u: Id)
    requires i < |grants|
    ensures FirstGrant(grants[i := grants[i].(permission := permission)], t, u) == FirstGrant(grants, t, u)
  {
    var after := grants[i := grants[i].(permission := permission)];
    assert forall k :: 0 <= k < |grants| ==> (IsPair(after[k], t, u) <==> IsPair(grants[k], t, u));
    FirstGrantSameMatches(grants, after, t, u);
  }

  /** Two row sequences that match the pair at the same positions give the
      same lookup. */
  lemma {:induction false} FirstGrantSameMatches(a: seq<TaskUser>, b: seq<TaskUser>, t: Id, u: Id)
    requires |a| == |b|
    requires forall k :: 0 <= k < |a| ==> (IsPair(a[k], t, u) <==> IsPair(b[k], t, u))
    ensures FirstGrant(a, t, u) == FirstGrant(b, t, u)
  {
    if |a| > 0 && !IsPair(a[0], t, u) {
      FirstGrantSameMatches(a[1..], b[1..], t, u);
    }
  }

  /** Appending a row changes the lookup only for a pair with no row yet. */
  lemma FirstGrantAfterAppend(grants: seq<TaskUser>, g: TaskUser, t: Id, u: Id)
    ensures FirstGrant(grants, t, u).Some? ==> FirstGrant(grants + [g], t, u) == FirstGrant(grants, t, u)
    ensures FirstGrant(grants, t, u).None? && IsPair(g, t, u) ==> FirstGrant(grants + [g], t, u) == Some(|grants|)
    ensures FirstGrant(grants, t, u).None? && !IsPair(g, t, u) ==> FirstGrant(grants + [g], t, u).None?
  {
    var after := grants + [g];
    assert forall k :: 0 <= k < |grants| ==> after[k] == grants[k];
    assert after[|grants|] == g;
    match FirstGrant(grants, t, u)
    case Some(i) =>
      var j := FirstGrant(after, t, u).value;
      assert j <= i;
    case None =>
      if IsPair(g, t, u) {
        var j := FirstGrant(after, t, u).value;
        assert j == |grants|;
      }
  }

  /** Sharing twice with the same level is the same as sharing once. */
  lemma ShareIsIdempotent(db: Db, taskId: Id, userId: Id, permission: Permission, fresh1: Id, fresh2: Id, now1: Timestamp, now2: Timestamp)
    requires fresh1 !in GrantIds(db.grants)
    requires fresh2 !in GrantIds(db.grants) + {fresh1}
    ensures
      var once := ShareTaskUser(db, taskId, userId, permission, fresh1, now1);
      ShareTaskUser(once.db, taskId, userId, permission, fresh2, now2) == once
  {
    var once := ShareTaskUser(db, taskId, userId, permission, fresh1, now1);
    if taskId in db.tasks && once.result.Ok? {
      match FirstGrant(db.grants, taskId, userId)
      case Some(i) =>
        FirstGrantAfterOverwrite(db.grants, i, permission, taskId, userId);
        assert once.db.grants[i := once.db.grants[i].(permission := permission)] == once.db.grants;
      case None =>
        var g := TaskUser(fresh1, taskId, userId, now1, permission);
        FirstGrantAfterAppend(db.grants, g, taskId, userId);
        assert once.db.grants[|db.grants| := g] == once.db.grants;
    }
  }

  /** A share keeps the store invariant: an existing pair is overwritten in
      place and a new row is added only for a pair that had none. */
  lemma ShareKeepsValid(db: Db, taskId: Id, userId: Id, permission: Permission, freshId: Id, now: Timestamp)
    requires Valid(db) && freshId !in GrantIds(db.grants)
    ensures Valid(ShareTaskUser(db, taskId, userId, permission, freshId, now).db)
  {
    var r := ShareTaskUser(db, taskId, userId, permission, freshId, now);
    if taskId in db.tasks && r.result.Ok? {
      match FirstGrant(db.grants, taskId, userId)
      case Some(i) =>
        OverwriteKeepsValid(db, i, permission);
      case None =>
        AppendKeepsValid(db, TaskUser(freshId, taskId, userId, now, permission));
    }
  }

  /** Changing the level of one grant keeps the store invariant. */
  lemma OverwriteKeepsValid(db: Db, i: nat, permission: Permission)
    requires Valid(db) && i < |db.grants|
    ensures Valid(db.(grants := db.grants[i := db.grants[i].(permission := permission)]))
  {
    var after := db.grants[i := db.grants[i].(permission := permission)];
    assert forall k :: 0 <= k < |after| ==>
      after[k].taskUserId == db.grants[k].taskUserId && after[k].taskId == db.grants[k].taskId && after[k].userId == db.grants[k].userId;
  }

  /** Appending a grant with a fresh key, for a pair with no grant, naming an
      existing task and user, keeps the store invariant. */
  lemma AppendKeepsValid(db: Db, g: TaskUser)
    requires Valid(db)
    requires g.taskUserId !in GrantIds(db.grants)
    requires FirstGrant(db.grants, g.taskId, g.userId).None?
    requires g.taskId in db.tasks && g.userId in UserIds(db.users)
    ensures Valid(db.(grants := db.grants + [g]))
  {
    assert forall k :: 0 <= k < |db.grants| ==> db.grants[k].taskUserId in GrantIds(db.grants);
    Seqs.AppendPairwise(db.grants, g, DistinctGrantIds);
    Seqs.AppendPairwise(db.grants, g, DistinctPairs);
  }

  /** However often a pair is shared, it ends with exactly one grant: the
      share that succeeds leaves one row for the pair, and no other. */
  lemma ShareLeavesOneGrant(db: Db, taskId: Id, userId: Id, permission: Permission, freshId: Id, now: Timestamp)
    requires Valid(db) && freshId !in GrantIds(db.grants)
    requires ShareTaskUser(db, taskId, userId, permission, freshId, now).result.Ok?
    ensures var after := ShareTaskUser(db, taskId, userId, permission, freshId, now).db.grants;
      exists k :: 0 <= k < |after| && IsPair(after[k], taskId, userId) && after[k].permission == permission &&
        forall j :: 0 <= j < |after| && IsPair(after[j], taskId, userId) ==> j == k
  {
    var after := ShareTaskUser(db, taskId, userId, permission, freshId, now).db.grants;
    ShareSetsPermission(db, taskId, userId, permission, freshId, now);
    ShareKeepsValid(db, taskId, userId, permission, freshId, now);
    var k := FirstGrant(after, taskId, userId).value;
    forall j | 0 <= j < |after| && IsPair(after[j], taskId, userId) ensures j == k {
      FirstGrantIsOnly(after, taskId, userId, j);
    }
  }
}
