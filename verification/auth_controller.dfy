/** `AuthController`: registration and login against the `Users` table. */
module AuthController {

  import opened Outcome
  import opened Models
  import opened Store
  import Text
  import UsersService

  const InvalidRequest := "Invalid request data"
  const UserNameTaken := "Username already exists"
  const BadCredentials := "Invalid username or password"

  /** `RegisterRequestDTO`; `None` stands for a field the body left null. */
  datatype RegisterRequest = RegisterRequest(userName: Option<string>, password: Option<string>)

  /** `LoginRequestDTO`, once the model binder has accepted it. */
  datatype LoginRequest = LoginRequest(userName: string, password: string)

  /** `LoginResponseDTO`. */
  datatype LoginResponse = LoginResponse(userId: Id, userName: string, role: string)

  /** The model state of a registration: both fields are `[Required]`, which
      refuses null, empty and blank strings alike. */
  predicate RequestValid(req: RegisterRequest) {
    !Text.IsNullOrWhiteSpace(req.userName) && !Text.IsNullOrWhiteSpace(req.password)
  }

  /** `Register`: an invalid request, then a name already in use, are refused
      with nothing added. Otherwise a user with the fresh id, the request's
      name, the hashed password and role `User` is appended, and the new id
      is returned. */
  function Register(db: Db, req: RegisterRequest, freshId: Id, hash: string -> string): (r: Response<Id>)
    requires freshId !in UserIds(db.users)
    ensures !RequestValid(req) ==> r == Response(db, Err(BadRequest(InvalidRequest)))
    ensures RequestValid(req) && UsersService.NameTaken(db.users, req.userName.value) ==>
      r == Response(db, Err(BadRequest(UserNameTaken)))
    ensures r.result.Ok? <==> RequestValid(req) && !UsersService.NameTaken(db.users, req.userName.value)
    ensures r.result.Ok? ==> r.result.value == freshId
    ensures r.result.Ok? ==> r.db == db.(users := db.users + [User(freshId, req.userName.value, hash(req.password.value), UserRole)])
  {
    if !RequestValid(req) then Response(db, Err(BadRequest(InvalidRequest)))
    else if UsersService.NameTaken(db.users, req.userName.value) then Response(db, Err(BadRequest(UserNameTaken)))
    else
      var user := UsersService.NewUser(freshId, req.userName.value, req.password.value, hash);
      Response(db.(users := db.users + [user]), Ok(user.userId))
  }

  /** `Login`: the first user with the name, whose stored hash `verify`
      (standing for `VerifyHashedPassword`) must accept with exactly
      `Success`. An unknown name and a wrong password get the same answer.
      On success the response carries the stored id and role and the name
      as the request spelled it. */
  function Login(db: Db, req: LoginRequest, verify: (string, string) -> PasswordVerification): (r: Result<LoginResponse>)
    ensures FirstUserNamed(db.users, req.userName).None? ==> r == Err(Unauthorized(BadCredentials))
    ensures r.Err? ==> r == Err(Unauthorized(BadCredentials))
    ensures r.Ok? <==> (FirstUserNamed(db.users, req.userName).Some? &&
      verify(db.users[FirstUserNamed(db.users, req.userName).value].password, req.password) == Success)
    ensures r.Ok? ==>
      var user := db.users[FirstUserNamed(db.users, req.userName).value];
      r.value == LoginResponse(user.userId, req.userName, RoleName(user.role))
  {
    match FirstUserNamed(db.users, req.userName)
    case None => Err(Unauthorized(BadCredentials))
    case Some(i) =>
      var user := db.users[i];
      if verify(user.password, req.password) != Success then Err(Unauthorized(BadCredentials))
      else Ok(LoginResponse(user.userId, req.userName, RoleName(user.role)))
  }

  /** A user appended under a name nobody had is the one found by name. */
  lemma FirstUserNamedAfterAppend(users: seq<User>, user: User)
    requires FirstUserNamed(users, user.userName).None?
    ensures FirstUserNamed(users + [user], user.userName) == Some(|users|)
  {
    var after := users + [user];
    assert after[|users|] == user;
    assert forall k :: 0 <= k < |users| ==> after[k] == users[k];
  }

  /** Registering and then logging in with the same name and password
      succeeds, as a plain user under the new id, provided the hasher
      verifies its own hash of that password as `Success`. */
  lemma RegisterThenLogin(db: Db, name: string, password: string, freshId: Id,
                          hash: string -> string, verify: (string, string) -> PasswordVerification)
    requires freshId !in UserIds(db.users)
    requires Register(db, RegisterRequest(Some(name), Some(password)), freshId, hash).result.Ok?
    requires verify(hash(password), password) == Success
    ensures Login(Register(db, RegisterRequest(Some(name), Some(password)), freshId, hash).db,
                  LoginRequest(name, password), verify)
            == Ok(LoginResponse(freshId, name, "User"))
  {
    FirstUserNamedAfterAppend(db.users, User(freshId, name, hash(password), UserRole));
  }

  /** The controller's registration and the service's agree on every valid
      request: the same outcome and the same store. */
  lemma RegisterMatchesService(db: Db, req: RegisterRequest, freshId: Id, hash: string -> string)
    requires freshId !in UserIds(db.users) && RequestValid(req)
    ensures var c := Register(db, req, freshId, hash);
      var s := UsersService.RegisterUser(db, req.userName.value, req.password.value, freshId, hash);
      c.db == s.db && (c.result.Ok? <==> s.result.Ok?) && (s.result.Ok? ==> c.result.value == s.result.value.userId)
  {
  }
}
