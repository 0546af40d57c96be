/** The permission rule every task operation applies, written once. The
    controllers each spell out their own check; their contracts show that each
    check is this rule for one action. */
module Authorization {

  import opened Models
  import opened Store
  import opened Outcome

  /** What a caller asks to do with a task. */
  datatype Action = View | Edit | Delete | Share

  datatype Decision = Allow | Deny

  /** Whether the caller holds any grant on the task, at either level. */
  predicate HoldsGrant(grants: seq<TaskUser>, taskId: Id, userId: Id) {
    exists k :: 0 <= k < |grants| && IsPair(grants[k], taskId, userId)
  }

  /** The decision for a caller who is or is not an admin, identified by
      `userId`, acting on `task` whose grants are in `grants`. An admin and the
      task's reporter may do everything. Otherwise a grant of either level lets
      the caller view, the grant found for the pair lets the caller edit when
      it is `ReadWrite`, and nothing lets the caller delete or share. */
  function Decide(isAdmin: bool, userId: Id, task: TaskItem, grants: seq<TaskUser>, action: Action): (d: Decision)
    ensures isAdmin || userId == task.reporterId ==> d == Allow
    ensures action.Delete? || action.Share? ==> (d == Allow <==> isAdmin || userId == task.reporterId)
    ensures action.View? ==>
      (d == Allow <==> isAdmin || userId == task.reporterId || HoldsGrant(grants, task.taskId, userId))
    ensures action.Edit? && d == Allow ==>
      isAdmin || userId == task.reporterId || exists k :: 0 <= k < |grants| && IsPair(grants[k], task.taskId, userId) && grants[k].permission == ReadWrite
  {
    if isAdmin then Allow
    else if userId == task.reporterId then Allow
    else
      match action
      case View => if GrantPermission(grants, task.taskId, userId).Some? then Allow else Deny
      case Edit => if GrantPermission(grants, task.taskId, userId) == Some(ReadWrite) then Allow else Deny
      case Delete => Deny
      case Share => Deny
  }

  /** Whoever may edit a task may also view it. */
  lemma EditImpliesView(isAdmin: bool, userId: Id, task: TaskItem, grants: seq<TaskUser>)
    ensures Decide(isAdmin, userId, task, grants, Edit) == Allow ==> Decide(isAdmin, userId, task, grants, View) == Allow
  {
  }

  /** The decisions for a caller who is neither admin nor reporter, by the
      level of the grant found for the pair: a read grant allows viewing only,
      a read-write grant allows viewing and editing, no grant allows nothing,
      and no grant ever allows deleting or sharing. */
  lemma NonOwnerDecisions(userId: Id, task: TaskItem, grants: seq<TaskUser>)
    requires userId != task.reporterId
    ensures Decide(false, userId, task, grants, Delete) == Deny
    ensures Decide(false, userId, task, grants, Share) == Deny
    ensures GrantPermission(grants, task.taskId, userId) == Some(Read) ==>
      Decide(false, userId, task, grants, View) == Allow && Decide(false, userId, task, grants, Edit) == Deny
    ensures GrantPermission(grants, task.taskId, userId) == Some(ReadWrite) ==>
      Decide(false, userId, task, grants, View) == Allow && Decide(false, userId, task, grants, Edit) == Allow
    ensures GrantPermission(grants, task.taskId, userId).None? ==>
      forall a: Action :: Decide(false, userId, task, grants, a) == Deny
  {
  }

  /** With at most one grant per pair, editing is allowed exactly for an admin,
      the reporter, or a holder of a `ReadWrite` grant on the task. */
  lemma EditAllowedIff(isAdmin: bool, userId: Id, task: TaskItem, grants: seq<TaskUser>)
    requires OneGrantPerPair(grants)
    ensures Decide(isAdmin, userId, task, grants, Edit) == Allow <==>
      isAdmin || userId == task.reporterId ||
      exists k :: 0 <= k < |grants| && IsPair(grants[k], task.taskId, userId) && grants[k].permission == ReadWrite
  {
    if !isAdmin && userId != task.reporterId {
      if k :| 0 <= k < |grants| && IsPair(grants[k], task.taskId, userId) && grants[k].permission == ReadWrite {
        FirstGrantIsOnly(grants, task.taskId, userId, k);
      }
    }
  }
}
