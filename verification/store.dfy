/** The database the repositories share: the `Users`, `Tasks` and `TaskUsers`
    tables, the lookups the code performs on them, and the rules of the
    relational model (keys, references, cascades) stated as one invariant. */
module Store {

  import opened Outcome
  import opened Models
  import Seqs

  /** Users and grants are rows in storage order, because the code looks them
      up with `FirstOrDefault` on columns that are not keys. Tasks are only
      reached by their key or by scanning all of them, so they are a map from
      `TaskId`. */
  datatype Db = Db(users: seq<User>, tasks: map<Id, TaskItem>, grants: seq<TaskUser>)

  /** The store after an operation, and what the operation returned. An
      operation that failed part-way keeps what it had already saved. */
  datatype Response<+T> = Response(db: Db, result: Result<T>)

  /** A task read with `Include(t => t.Participants)`. */
  datatype LoadedTask = LoadedTask(item: TaskItem, participants: seq<TaskUser>)

  /** The message of the exception `SaveChangesAsync` raises when the database
      rejects a row whose foreign key names no record. */
  const SaveFailed := "An error occurred while saving the entity changes. See the inner exception for details."

  predicate IsPair(g: TaskUser, taskId: Id, userId: Id) {
    g.taskId == taskId && g.userId == userId
  }

  /** `TaskUsers.FirstOrDefault(tu => tu.TaskId == taskId && tu.UserId == userId)`,
      as the position of the row found. */
  function FirstGrant(grants: seq<TaskUser>, taskId: Id, userId: Id): (r: Option<nat>)
    ensures r.Some? ==> r.value < |grants| && IsPair(grants[r.value], taskId, userId)
    ensures r.Some? ==> forall k :: 0 <= k < r.value ==> !IsPair(grants[k], taskId, userId)
    ensures r.None? <==> forall k :: 0 <= k < |grants| ==> !IsPair(grants[k], taskId, userId)
  {
    if |grants| == 0 then None
    else if IsPair(grants[0], taskId, userId) then Some(0)
    else match FirstGrant(grants[1..], taskId, userId)
      case None => None
      case Some(k) => Some(k + 1)
  }

  /** The level of the grant the code finds for the pair, if there is one. */
  function GrantPermission(grants: seq<TaskUser>, taskId: Id, userId: Id): (p: Option<Permission>)
    ensures p.None? <==> forall k :: 0 <= k < |grants| ==> !IsPair(grants[k], taskId, userId)
    ensures p.Some? ==>
      exists k :: (0 <= k < |grants| && IsPair(grants[k], taskId, userId) && grants[k].permission == p.value &&
                   forall j :: 0 <= j < k ==> !IsPair(grants[j], taskId, userId))
  {
    match FirstGrant(grants, taskId, userId)
    case None => None
    case Some(i) => Some(grants[i].permission)
  }

  /** `Users.FirstOrDefault(u => u.UserId == id)`, as a position. */
  function FirstUserWithId(users: seq<User>, id: Id): (r: Option<nat>)
    ensures r.Some? ==> r.value < |users| && users[r.value].userId == id
    ensures r.Some? ==> forall k :: 0 <= k < r.value ==> users[k].userId != id
    ensures r.None? <==> forall k :: 0 <= k < |users| ==> users[k].userId != id
  {
    if |users| == 0 then None
    else if users[0].userId == id then Some(0)
    else match FirstUserWithId(users[1..], id)
      case None => None
      case Some(k) => Some(k + 1)
  }

  /** `Users.FirstOrDefault(u => u.UserName == name)`, as a position. */
  function FirstUserNamed(users: seq<User>, name: string): (r: Option<nat>)
    ensures r.Some? ==> r.value < |users| && users[r.value].userName == name
    ensures r.Some? ==> forall k :: 0 <= k < r.value ==> users[k].userName != name
    ensures r.None? <==> forall k :: 0 <= k < |users| ==> users[k].userName != name
  {
    if |users| == 0 then None
    else if users[0].userName == name then Some(0)
    else match FirstUserNamed(users[1..], name)
      case None => None
      case Some(k) => Some(k + 1)
  }

  function UserIds(users: seq<User>): set<Id> {
    set k | 0 <= k < |users| :: users[k].userId
  }

  function GrantIds(grants: seq<TaskUser>): set<Id> {
    set k | 0 <= k < |grants| :: grants[k].taskUserId
  }

  /** The `Participants` navigation of a task: its grant rows, in order. */
  function Participants(grants: seq<TaskUser>, taskId: Id): (ps: seq<TaskUser>)
    ensures forall i :: 0 <= i < |ps| ==> ps[i] in grants && ps[i].taskId == taskId
    ensures forall i :: 0 <= i < |grants| && grants[i].taskId == taskId ==> grants[i] in ps
  {
    Seqs.Filter(grants, (g: TaskUser) => g.taskId == taskId)
  }

  /** A task row together with its participants. */
  function Load(db: Db, id: Id): LoadedTask
    requires id in db.tasks
  {
    LoadedTask(db.tasks[id], Participants(db.grants, id))
  }

  /** The grant rows left after the cascade of deleting task `taskId`. */
  function DropTaskGrants(grants: seq<TaskUser>, taskId: Id): seq<TaskUser> {
    Seqs.Filter(grants, (g: TaskUser) => g.taskId != taskId)
  }

  /** The grant rows left after the cascade of deleting user `userId`. */
  function DropUserGrants(grants: seq<TaskUser>, userId: Id): seq<TaskUser> {
    Seqs.Filter(grants, (g: TaskUser) => g.userId != userId)
  }

  /** The user rows left after deleting user `userId`. */
  function DropUser(users: seq<User>, userId: Id): seq<User> {
    Seqs.Filter(users, (u: User) => u.userId != userId)
  }

  predicate DistinctUserIds(a: User, b: User) {
    a.userId != b.userId
  }

  predicate DistinctUserNames(a: User, b: User) {
    a.userName != b.userName
  }

  predicate DistinctGrantIds(a: TaskUser, b: TaskUser) {
    a.taskUserId != b.taskUserId
  }

  predicate DistinctPairs(a: TaskUser, b: TaskUser) {
    a.taskId != b.taskId || a.userId != b.userId
  }

  /** Every row is stored under its own primary key, and no key repeats. */
  predicate KeysHold(db: Db) {
    && (forall id :: id in db.tasks ==> db.tasks[id].taskId == id)
    && Seqs.Pairwise(db.users, DistinctUserIds)
    && Seqs.Pairwise(db.grants, DistinctGrantIds)
  }

  /** Every foreign key names an existing record: a task's reporter, and a
      grant's task and user. */
  predicate ReferencesHold(db: Db) {
    && (forall id :: id in db.tasks ==> db.tasks[id].reporterId in UserIds(db.users))
    && (forall k :: 0 <= k < |db.grants| ==> db.grants[k].taskId in db.tasks)
    && (forall k :: 0 <= k < |db.grants| ==> db.grants[k].userId in UserIds(db.users))
  }

  /** At most one grant per (task, user) pair. The grant table is keyed by
      `TaskUserId`, so the database does not enforce this: the upsert does. */
  predicate OneGrantPerPair(grants: seq<TaskUser>) {
    Seqs.Pairwise(grants, DistinctPairs)
  }

  /** No two users share a user name; registration enforces this. */
  predicate UserNamesUnique(users: seq<User>) {
    Seqs.Pairwise(users, DistinctUserNames)
  }

  /** The store invariant every operation preserves. */
  predicate Valid(db: Db) {
    && KeysHold(db)
    && ReferencesHold(db)
    && OneGrantPerPair(db.grants)
    && UserNamesUnique(db.users)
  }

  /** Under the pair invariant the grant the code finds is the only grant
      for its pair. */
  lemma FirstGrantIsOnly(grants: seq<TaskUser>, taskId: Id, userId: Id, k: nat)
    requires OneGrantPerPair(grants)
    requires k < |grants| && IsPair(grants[k], taskId, userId)
    ensures FirstGrant(grants, taskId, userId) == Some(k)
  {
    var i := FirstGrant(grants, taskId, userId).value;
    if i < k {
      assert false;
    }
  }

  /** Under the name invariant the user found by name is the only user with
      that name. */
  lemma FirstUserNamedIsOnly(users: seq<User>, name: string, k: nat)
    requires UserNamesUnique(users)
    requires k < |users| && users[k].userName == name
    ensures FirstUserNamed(users, name) == Some(k)
  {
    var i := FirstUserNamed(users, name).value;
    if i < k {
      assert false;
    }
  }
}
