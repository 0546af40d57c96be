/** `UsersService` over `UsersRepository`: lookup, registration and deletion
    of users. The repository is a thin adapter over the `Users` table and is
    folded in here. */
module UsersService {

  import opened Outcome
  import opened Models
  import opened Store
  import Seqs

  const UserNotFound := "User not found"
  const UserNameTaken := "Username already exists"

  /** Some user is called `name`. */
  predicate NameTaken(users: seq<User>, name: string) {
    exists k :: 0 <= k < |users| && users[k].userName == name
  }

  /** `GetUserByIdAsync`: the user with the id, or `NotFound`. */
  function GetUserById(db: Db, userId: Id): (r: Result<User>)
    ensures r.Err? <==> userId !in UserIds(db.users)
    ensures r.Err? ==> r.error == NotFound(UserNotFound)
    ensures r.Ok? ==> r.value.userId == userId && r.value in db.users
  {
    match FirstUserWithId(db.users, userId)
    case None => Err(NotFound(UserNotFound))
    case Some(i) => Ok(db.users[i])
  }

  /** The row a registration adds: the fresh id, the name, the hash of the
      password and the role `User`, whatever the request. */
  function NewUser(freshId: Id, userName: string, password: string, hash: string -> string): User {
    User(freshId, userName, hash(password), UserRole)
  }

  /** `RegisterUserAsync`: a name already in use is refused and nothing is
      added; otherwise one user with role `User` and the hashed password is
      appended under the fresh id. `hash` stands for `PasswordHasher`. */
  function RegisterUser(db: Db, userName: string, password: string, freshId: Id, hash: string -> string): (r: Response<User>)
    requires freshId !in UserIds(db.users)
    ensures r.result.Err? <==> NameTaken(db.users, userName)
    ensures r.result.Err? ==> r == Response(db, Err(BadRequest(UserNameTaken)))
    ensures r.result.Ok? ==> r.result.value.userId == freshId && r.result.value.userName == userName
    ensures r.result.Ok? ==> r.result.value.role == UserRole && r.result.value.password == hash(password)
    ensures r.result.Ok? ==> r.db == db.(users := db.users + [r.result.value])
  {
    if FirstUserNamed(db.users, userName).Some? then Response(db, Err(BadRequest(UserNameTaken)))
    else
      var user := NewUser(freshId, userName, password, hash);
      Response(db.(users := db.users + [user]), Ok(user))
  }

  /** Some task has `userId` as its reporter. */
  predicate ReportsTasks(db: Db, userId: Id) {
    exists id :: id in db.tasks && db.tasks[id].reporterId == userId
  }

  /** `DeleteUserAsync`: `NotFound` for an unknown user. The database refuses
      to delete a user who reports a task (the reporter key restricts
      deletion), and the store stays as it was. Otherwise the user and, by
      cascade, every grant naming the user are removed, and the result is
      `true`. */
  function DeleteUser(db: Db, userId: Id): (r: Response<bool>)
    ensures userId !in UserIds(db.users) ==> r == Response(db, Err(NotFound(UserNotFound)))
    ensures userId in UserIds(db.users) && ReportsTasks(db, userId) ==> r == Response(db, Err(BadRequest(SaveFailed)))
    ensures r.result.Ok? <==> userId in UserIds(db.users) && !ReportsTasks(db, userId)
    ensures r.result.Ok? ==> r.result.value && r.db.tasks == db.tasks
    ensures r.result.Ok? ==> UserIds(r.db.users) == UserIds(db.users) - {userId}
    ensures r.result.Ok? ==> forall k :: 0 <= k < |db.users| && db.users[k].userId != userId ==> db.users[k] in r.db.users
    ensures r.result.Ok? ==> forall k :: 0 <= k < |r.db.users| ==> r.db.users[k] in db.users && r.db.users[k].userId != userId
    ensures r.result.Ok? ==> forall k :: 0 <= k < |r.db.grants| ==> r.db.grants[k] in db.grants && r.db.grants[k].userId != userId
    ensures r.result.Ok? ==> forall k :: 0 <= k < |db.grants| && db.grants[k].userId != userId ==> db.grants[k] in r.db.grants
  {
    if GetUserById(db, userId).Err? then Response(db, Err(NotFound(UserNotFound)))
    else if ReportsTasks(db, userId) then Response(db, Err(BadRequest(SaveFailed)))
    else
      DropUserIds(db.users, userId);
      Response(Db(DropUser(db.users, userId), db.tasks, DropUserGrants(db.grants, userId)), Ok(true))
  }

  /** Deleting a user removes exactly that user's id. */
  lemma DropUserIds(users: seq<User>, userId: Id)
    ensures UserIds(DropUser(users, userId)) == UserIds(users) - {userId}
  {
    var after := DropUser(users, userId);
    forall id | id in UserIds(users) - {userId} ensures id in UserIds(after) {
      var k :| 0 <= k < |users| && users[k].userId == id;
      var j :| 0 <= j < |after| && after[j] == users[k];
    }
    forall id | id in UserIds(after) ensures id in UserIds(users) - {userId} {
      var k :| 0 <= k < |after| && after[k].userId == id;
      var j :| 0 <= j < |users| && users[j] == after[k];
    }
  }

  /** A registration that succeeds keeps the store invariant; in particular
      user names stay unique. */
  lemma RegisterKeepsValid(db: Db, userName: string, password: string, freshId: Id, hash: string -> string)
    requires Valid(db) && freshId !in UserIds(db.users)
    ensures Valid(RegisterUser(db, userName, password, freshId, hash).db)
  {
    var r := RegisterUser(db, userName, password, freshId, hash);
    if r.result.Ok? {
      var user := r.result.value;
      assert forall k :: 0 <= k < |db.users| ==> db.users[k].userId in UserIds(db.users);
      Seqs.AppendPairwise(db.users, user, DistinctUserIds);
      Seqs.AppendPairwise(db.users, user, DistinctUserNames);
      assert UserIds(db.users) <= UserIds(r.db.users) by {
        forall id | id in UserIds(db.users) ensures id in UserIds(r.db.users) {
          var k :| 0 <= k < |db.users| && db.users[k].userId == id;
          assert r.db.users[k] == db.users[k];
        }
      }
    }
  }

  /** A deletion keeps the store invariant: no task loses its reporter, and
      the cascade leaves no grant naming the deleted user. */
  lemma DeleteUserKeepsValid(db: Db, userId: Id)
    requires Valid(db)
    ensures Valid(DeleteUser(db, userId).db)
  {
    var r := DeleteUser(db, userId);
    if r.result.Ok? {
      var keepUser := (u: User) => u.userId != userId;
      var keepGrant := (g: TaskUser) => g.userId != userId;
      Seqs.FilterPairwise(db.users, keepUser, DistinctUserIds);
      Seqs.FilterPairwise(db.users, keepUser, DistinctUserNames);
      Seqs.FilterPairwise(db.grants, keepGrant, DistinctGrantIds);
      Seqs.FilterPairwise(db.grants, keepGrant, DistinctPairs);
      forall id | id in r.db.tasks ensures r.db.tasks[id].reporterId in UserIds(r.db.users) {
        assert db.tasks[id].reporterId != userId;
      }
      forall k | 0 <= k < |r.db.grants|
        ensures r.db.grants[k].taskId in r.db.tasks && r.db.grants[k].userId in UserIds(r.db.users)
      {
        var j :| 0 <= j < |db.grants| && db.grants[j] == r.db.grants[k];
      }
    }
  }
}
