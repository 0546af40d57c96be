# Task sharing and authorization in the TaskManagement backend

This project models the core of an ASP.NET task-management backend in Dafny:
- tasks owned by a reporter;
- grants (`TaskUser` rows) that share a task with another user at level `Read` or `ReadWrite`;
- the users who sign in with HTTP Basic authentication.

Every endpoint is a pure function from a store (`Store.Db`: the `Users`,
`Tasks` and `TaskUsers` tables) and the request's inputs to a `Response`. A
response holds the new store and either a value or one of the three error
classes the exception middleware turns into 404, 401 and 400.

The permission checks the controllers write out one by one are gathered
into a single rule, `Authorization.Decide(isAdmin, userId, task, grants,
action)`. The contract of each controller endpoint states that its own check
gives the same answer as `Decide` for its action.

The rules of the relational model are one invariant, `Store.Valid`:
- keys are unique;
- every foreign key names an existing row;
- there is at most one grant per (task, user) pair;
- user names are unique.

Every endpoint that writes is proved to keep this invariant.

Modules follow the source layout:
- `Outcome`: result and error types.
- `Text`: ordinal string operations.
- `Seqs`: filtering and pairwise relations.
- `Models`: the entities and the field mapping.
- `Store`: the tables, the lookups, and the invariant.
- `Authorization`: the `Decide` rule.
- `TasksRepository` and `TaskSharingRepository`.
- `TasksService`, `TaskSharingService` and `UsersService`.
- `UserContext`: the caller's claims.
- `BasicAuthentication`.
- `AuthController`, `TaskController` and `TaskSharingController`.
- `EndpointInvariants`: the invariant, proved endpoint by endpoint.
- `Scenarios`: request sequences across the controllers.

Inputs the code gets from outside are parameters:
- `Guid.NewGuid` is a fresh id argument, with a precondition that it is unused.
- `DateTime.UtcNow` is a timestamp argument.
- `Guid.Parse` and `Guid.ToString` are functions `parseGuid` and `formatGuid`; `parseGuid` yields either the id or the message of the format error, which depends on the malformed text and is not fixed here.
- `PasswordHasher` is a function `hash` and a function `verify`. `verify` returns `Failed`, `Success` or `SuccessRehashNeeded`.
- Base64 plus UTF-8 decoding is a function `decode`. It returns `None` where `Convert.FromBase64String` throws.
- The claims of the authenticated request are a `Claims` value.

## Model

| member | source | states |
|---|---|---|
| Outcome.StatusCode | TaskManagement/Middleware/ExceptionMiddleware.cs:17-28 | A missing record is 404, a refused caller is 401 (never 403), and every other failure is 400. |
| Text.EqualsIgnoreCaseIsCaseVariant | TaskManagement/Services/UserContextService.cs:37 | For a word of letters, the ordinal case-insensitive comparison accepts exactly the spellings of the word in mixed case. |
| Text.JoinSplit | TaskManagement/Authentication/BasicAuthentication.cs:51 | Splitting on a separator loses nothing: joining the pieces gives back the original text. |
| Text.SplitPair | TaskManagement/Authentication/BasicAuthentication.cs:51-59 | Two separator-free strings joined by one separator split back into exactly those two strings. |
| Text.CountAppend | TaskManagement/Authentication/BasicAuthentication.cs:51-56 | Colon counts add up over concatenation; this is what makes a colon in the password fail. |
| Models.NewTaskFrom | TaskManagement/Utilities/MappingProfile.cs:13-15 | A new task carries the request's five editable fields; its key and reporter are still unset, and its creation date is the construction instant. |
| Models.ApplyFields | TaskManagement/Utilities/MappingProfile.cs:13-15 | Mapping a request onto a stored task replaces the five editable fields and keeps the key, the reporter and the creation date. |
| Models.ApplyFieldsIsDetermined | TaskManagement/Utilities/MappingProfile.cs:13-15 | Those two facts fix the mapped task completely: any task with the request's editable fields and the stored task's fixed fields is the mapped task. |
| Store.FirstGrant | TaskManagement/Repositories/TaskSharingRepository.cs:29 | The grant lookup finds the first row for the (task, user) pair. It finds nothing exactly when no row matches. |
| Store.GrantPermission | TaskManagement/Repositories/TaskSharingRepository.cs:59-66 | None exactly when no grant row matches the pair; otherwise the level of a matching row with no matching row before it, as `FirstOrDefault` finds it. |
| Store.FirstUserWithId | TaskManagement/Repositories/UsersRepository.cs:16-19 | The user lookup by id finds the first row with the id, or nothing exactly when no row has it. |
| Store.FirstUserNamed | TaskManagement/Repositories/UsersRepository.cs:38-41 | The user lookup by name finds the first row with the name, or nothing exactly when no row has it. |
| Store.Participants | TaskManagement/Data/ApplicationDbContext.cs:29-32 | A task's participants are exactly the grant rows whose task key names it. |
| Store.FirstGrantIsOnly | TaskManagement/Data/ApplicationDbContext.cs:24 | Grants are keyed by their own id, so pair uniqueness is an invariant of the store. Under it, any row for the pair is the one the lookup finds. |
| Store.FirstUserNamedIsOnly | TaskManagement/Services/UsersService.cs:48-53 | Under the unique-name invariant, any user with the name is the one the lookup finds. |
| Authorization.Decide | TaskManagement/Controllers/TaskController.cs:48 | Admins and the reporter may do everything. View is allowed exactly with a grant of either level. Delete and share are allowed exactly for admin or reporter. Edit needs admin, reporter, or a `ReadWrite` grant. |
| Authorization.EditImpliesView | TaskManagement/Controllers/TaskController.cs:111-113 | Whoever may edit a task may also view it. |
| Authorization.NonOwnerDecisions | TaskManagement/Controllers/TaskController.cs:146 | For a caller who is neither admin nor reporter: a read grant allows only viewing; a read-write grant allows viewing and editing; no grant allows nothing; no grant level ever allows delete or share. |
| Authorization.EditAllowedIff | TaskManagement/Controllers/TaskController.cs:111-119 | With one grant per pair, editing is allowed exactly for admin, reporter, or the holder of a `ReadWrite` grant. A `Read` grant is refused. |
| TasksRepository.GetTaskById | TaskManagement/Repositories/TasksRepository.cs:19-23 | The lookup returns nothing exactly when the id is absent. Otherwise it returns the stored task with exactly its grant rows. |
| TasksRepository.GetTasksUser | TaskManagement/Repositories/TasksRepository.cs:26-30 | The listing holds exactly the tasks whose reporter is the user. |
| TasksRepository.CreateTask | TaskManagement/Repositories/TasksRepository.cs:33-45 | The task is stored under the fresh key, which overrides any key it carried; its other fields are unchanged and other tasks are untouched. An unknown reporter is refused by the database with the store unchanged. |
| TasksRepository.UpdateTask | TaskManagement/Repositories/TasksRepository.cs:48-70 | An absent id fails with the store unchanged. Otherwise exactly title, description, status, priority and due date are copied, and key, reporter and creation date stay. |
| TasksRepository.DeleteTask | TaskManagement/Repositories/TasksRepository.cs:74-89 | An absent id fails with the store unchanged. Otherwise the task is removed, the result is true, other tasks and users stay, and exactly the grants on other tasks remain. |
| TasksRepository.CreateTaskKeepsValid | TaskManagement/Data/ApplicationDbContext.cs:42-45 | Creating a task keeps every key unique and every reference resolved. |
| TasksRepository.UpdateTaskKeepsValid | TaskManagement/Repositories/TasksRepository.cs:60-64 | Updating a task keeps the store invariant. |
| TasksRepository.DeleteTaskKeepsValid | TaskManagement/Data/ApplicationDbContext.cs:29-32 | The cascade leaves no grant naming the deleted task, so the invariant holds afterwards. |
| TasksRepository.DeleteLeavesNoGrant | TaskManagement/Data/ApplicationDbContext.cs:29-32 | After a delete, no user has a grant on the deleted task. |
| TaskSharingRepository.ShareTaskUser | TaskManagement/Repositories/TaskSharingRepository.cs:17-52 | A missing task fails and writes nothing. An existing pair has only its level overwritten. Otherwise exactly one row with the task, user and level is added, which the database refuses for an unknown user. No key other than the fresh one appears. |
| TaskSharingRepository.GetParticipantPermissionEditTask | TaskManagement/Repositories/TaskSharingRepository.cs:56-67 | True exactly when the pair's grant is `ReadWrite`; false when the pair has no grant. |
| TaskSharingRepository.EditLookupIffReadWriteRow | TaskManagement/Repositories/TaskSharingRepository.cs:56-67 | With at most one grant per pair, the lookup is true exactly when some grant row gives the pair `ReadWrite`. |
| TaskSharingRepository.ShareSetsPermission | TaskManagement/Repositories/TaskSharingRepository.cs:29-48 | After a successful share, the pair's grant has the requested level. |
| TaskSharingRepository.ShareKeepsOtherPairs | TaskManagement/Repositories/TaskSharingRepository.cs:29-51 | A share leaves the grant of every other (task, user) pair as it was. |
| TaskSharingRepository.ShareIsIdempotent | TaskManagement/Repositories/TaskSharingRepository.cs:31-34 | Sharing a second time with the same level gives the same store and result as sharing once. |
| TaskSharingRepository.ShareKeepsValid | TaskManagement/Repositories/TaskSharingRepository.cs:29-49 | The upsert keeps at most one grant per pair, and every other part of the store invariant. |
| TaskSharingRepository.OverwriteKeepsValid | TaskManagement/Repositories/TaskSharingRepository.cs:31-34 | Changing the level of an existing grant keeps the store invariant. |
| TaskSharingRepository.AppendKeepsValid | TaskManagement/Repositories/TaskSharingRepository.cs:35-48 | Adding a grant with a fresh key, for a pair with no grant, on an existing task and user, keeps the store invariant. |
| TaskSharingRepository.ShareLeavesOneGrant | TaskManagement/Repositories/TaskSharingRepository.cs:29-49 | After a successful share, the pair has exactly one grant row, at the requested level. |
| TasksService.GetTaskById | TaskManagement/Services/TasksService.cs:21-31 | An absent task is `NotFound`; otherwise the result is the stored task with its participants. |
| TasksService.GetTasksUser | TaskManagement/Services/TasksService.cs:36-39 | The listing is exactly the reporter filter. |
| TasksService.CreateTask | TaskManagement/Services/TasksService.cs:43-46 | The task reaches the store unchanged except for its fresh key. |
| TasksService.UpdateTask | TaskManagement/Services/TasksService.cs:50-60 | An absent task is `NotFound` with the store unchanged, and the repository's own failure is never reached. Otherwise the five fields are updated. |
| TasksService.DeleteTask | TaskManagement/Services/TasksService.cs:65-76 | An absent task is `NotFound` with the store unchanged. Otherwise the result is true, and the task and its grants are gone. |
| TaskSharingService.ShareTaskUser | TaskManagement/Services/TaskSharingService.cs:20-30 | An absent task is `NotFound` and no grant is written; otherwise the result is the repository's upsert. |
| TaskSharingService.ShareEach | TaskManagement/Services/TaskSharingService.cs:44-47 | The batch loop never touches tasks or users and uses no key beyond the fresh ones. |
| TaskSharingService.ShareEachFailureKeepsPrefix | TaskManagement/Services/TaskSharingService.cs:44-47 | A failing batch stops at some entry: the entries before it all succeed and stay saved, the store is what they left, and the error is the save error for a user who does not exist and has no grant (or the missing-task error at the first entry). |
| TaskSharingService.ShareEachStopsAtMissingUser | TaskManagement/Services/TaskSharingService.cs:44-47 | Conversely, when the entries before `f` succeed and entry `f` names a user who does not exist and has no grant, the batch stops at `f` with the earlier upserts kept. |
| TaskSharingService.ShareTaskMultipleUsers | TaskManagement/Services/TaskSharingService.cs:34-48 | An absent task is `NotFound` before any upsert. An empty list on an existing task changes nothing. Otherwise the upserts run in list order. |
| TaskSharingService.GetParticipantPermissionEditTask | TaskManagement/Services/TaskSharingService.cs:52-62 | An absent task is `NotFound`; otherwise the answer is whether the pair's grant is `ReadWrite`. |
| TaskSharingService.ShareEachIsLastWriteWins | TaskManagement/Services/TaskSharingService.cs:44-47 | After a successful batch, each named user has the level of the last entry naming them, so a later duplicate wins. Other users and other tasks keep their grants. |
| TaskSharingService.ShareEachKeepsValid | TaskManagement/Services/TaskSharingService.cs:44-47 | The store invariant holds after a batch, whether it completes or stops at a failing entry. |
| UserContext.GetUserId | TaskManagement/Services/UserContextService.cs:16-27 | A missing or empty id claim is `Unauthorized`. A claim that does not parse is a bad request carrying the parser's own message, whichever way the claim is malformed. Otherwise the result is the parsed id. |
| UserContext.IsAdmin | TaskManagement/Services/UserContextService.cs:31-38 | The caller is admin exactly when the role claim spells "Admin" in any letter case. A missing role counts as "User" and is never admin. |
| UserContext.IsAdminOfRoleName | TaskManagement/Services/UserContextService.cs:35-37 | A role claim written from a stored role is admin exactly for the `Admin` role. |
| UsersService.GetUserById | TaskManagement/Services/UsersService.cs:23-34 | An absent user is `NotFound`; otherwise the result is a stored user with that id. |
| UsersService.RegisterUser | TaskManagement/Services/UsersService.cs:45-70 | A name in use fails and adds no user. Otherwise exactly one user is appended: fresh id, the given name, the hash of the password, role `User`. |
| UsersService.DeleteUser | TaskManagement/Services/UsersService.cs:73-85 | An absent user is `NotFound`. A user who reports a task cannot be deleted and the store stays. Otherwise the result is true, tasks stay, exactly the other users remain with their rows unchanged, and exactly the grants naming other users remain. |
| UsersService.RegisterKeepsValid | TaskManagement/Services/UsersService.cs:48-67 | Registration keeps user names unique and the rest of the store invariant. |
| UsersService.DeleteUserKeepsValid | TaskManagement/Data/ApplicationDbContext.cs:35-45 | Deleting a user keeps the store invariant: no task loses its reporter, and the cascade leaves no grant naming the user. |
| AuthController.Register | TaskManagement/Controllers/AuthController.cs:30-69 | A null or blank name or password is a bad request. A name in use is a bad request. Both add no user. Otherwise one user with a fresh id and role `User` is appended, and its id is returned. |
| AuthController.Login | TaskManagement/Controllers/AuthController.cs:73-105 | An unknown name and a password that does not verify as exactly `Success` get the same `Unauthorized` answer. Success returns the stored user's id and role. |
| AuthController.RegisterThenLogin | TaskManagement/Controllers/AuthController.cs:49-99 | After a successful registration, logging in with the same name and password returns the new id and role "User", given that the hasher verifies its own hash. |
| AuthController.RegisterMatchesService | TaskManagement/Controllers/AuthController.cs:40-63 | On a valid request, the controller's registration and the users service's registration give the same store and outcome. |
| BasicAuthentication.Token | TaskManagement/Authentication/BasicAuthentication.cs:45 | The token is the header with its first six characters removed. |
| BasicAuthentication.Credentials | TaskManagement/Authentication/BasicAuthentication.cs:51-59 | The decoded text splits into exactly two pieces exactly when it holds one colon. Then it is the name, a colon and the password. |
| BasicAuthentication.HandleAuthenticate | TaskManagement/Authentication/BasicAuthentication.cs:27-97 | Refused with "Unauthorized": a missing header; an empty header, or one not starting with "Basic " in any case; credentials that are not exactly two pieces. A token that is not Base64 escapes as a fault. Success needs a stored name and a password that verifies as exactly `Success`, and carries that user's claims. |
| BasicAuthentication.CredentialsOfPair | TaskManagement/Authentication/BasicAuthentication.cs:51-59 | A colon-free name and password are recovered from their joined form. |
| BasicAuthentication.ColonInPasswordFails | TaskManagement/Authentication/BasicAuthentication.cs:51-56 | A password containing a colon never yields credentials. |
| BasicAuthentication.AuthenticatesStoredUser | TaskManagement/Authentication/BasicAuthentication.cs:39-92 | A stored user is authenticated with their own claims when: the header has the scheme in any case; the token decodes to their name, a colon and a verifying password; names are unique. |
| BasicAuthentication.ClaimsRoundTrip | TaskManagement/Authentication/BasicAuthentication.cs:80-85 | The issued claims read back through the user context as the user's id, and as admin exactly for the `Admin` role. |
| TaskController.ParticipantIffGrant | TaskManagement/Controllers/TaskController.cs:48 | A user is among a task's loaded participants exactly when they hold a grant on it. |
| TaskController.GetTaskById | TaskManagement/Controllers/TaskController.cs:37-59 | A missing task is `NotFound` before the caller is even read. Then a bad caller claim fails. Then the task is shown exactly when `Decide` allows `View`; otherwise "You don't have permission". |
| TaskController.GetUserTasks | TaskManagement/Controllers/TaskController.cs:64-75 | The caller gets exactly the tasks they report, never a task merely shared with them. |
| TaskController.CreateTask | TaskManagement/Controllers/TaskController.cs:80-96 | The new task's reporter is the caller, whatever the request. It has the request's fields, the fresh key and the creation instant. A failure leaves the store unchanged. |
| TaskController.UpdateTask | TaskManagement/Controllers/TaskController.cs:101-131 | A missing task is `NotFound` before any permission check. The update succeeds exactly when `Decide` allows `Edit`. A refusal leaves the store unchanged. Success changes exactly the five fields. |
| TaskController.DeleteTask | TaskManagement/Controllers/TaskController.cs:136-157 | A missing task is `NotFound` before any permission check. The delete succeeds exactly when `Decide` allows `Delete`, that is, for reporter or admin. A refusal leaves the store unchanged. |
| TaskController.UpdateAllowedImpliesGetAllowed | TaskManagement/Controllers/TaskController.cs:48-113 | A caller whose update succeeds may also read the task. |
| TaskController.ParticipantCannotDelete | TaskManagement/Controllers/TaskController.cs:146-149 | A participant who is neither reporter nor admin is refused a delete, at either grant level, with the store unchanged. |
| TaskSharingController.SameCallerChecks | TaskManagement/Controllers/TaskSharingController.cs:84-111 | The controller's private id and admin checks agree with the user-context service on every claim set. |
| TaskSharingController.ShareTask | TaskManagement/Controllers/TaskSharingController.cs:33-56 | A missing task is `NotFound` before the permission check. When `Decide` denies `Share`, the result is "You don't have permission" with all grants unchanged. When it allows, the service's upsert runs. |
| TaskSharingController.ShareTaskMultipleUsers | TaskManagement/Controllers/TaskSharingController.cs:60-80 | The same gate, checked once before any grant is written. A refused caller writes nothing. Tasks and users are never changed. |
| TaskSharingController.ParticipantCannotShare | TaskManagement/Controllers/TaskSharingController.cs:44-47 | A participant who is neither reporter nor admin cannot share, even with `ReadWrite`, and the store stays as it was. |
| TaskSharingController.ShareTaskEffect | TaskManagement/Controllers/TaskSharingController.cs:44-49 | After an allowed share, the participant holds exactly the requested level and every other pair keeps its level. |
| EndpointInvariants.CreateTaskKeepsValid | TaskManagement/Controllers/TaskController.cs:80-96 | Creating a task through the controller keeps the store invariant. |
| EndpointInvariants.UpdateTaskKeepsValid | TaskManagement/Controllers/TaskController.cs:101-131 | Updating a task through the controller keeps the store invariant. |
| EndpointInvariants.DeleteTaskKeepsValid | TaskManagement/Controllers/TaskController.cs:136-157 | Deleting a task through the controller keeps the store invariant. |
| EndpointInvariants.ShareTaskKeepsValid | TaskManagement/Controllers/TaskSharingController.cs:33-56 | Sharing through the controller keeps the store invariant. |
| EndpointInvariants.ShareTaskMultipleUsersKeepsValid | TaskManagement/Controllers/TaskSharingController.cs:60-80 | Batch sharing through the controller keeps the store invariant, even when it stops part-way. |
| EndpointInvariants.RegisterKeepsValid | TaskManagement/Controllers/AuthController.cs:30-69 | Registration through the controller keeps user names unique and the rest of the invariant. |
| EndpointInvariants.DeleteUserKeepsValid | TaskManagement/Services/UsersService.cs:73-85 | Deleting a user keeps the store invariant. |
| Scenarios.ReadGrantThenReadWriteGrant | TaskManagement/Controllers/TaskController.cs:111-119 | An owner creates a task and shares it `Read` with another user, whose update is refused with the store unchanged. After a `ReadWrite` re-share, the same update succeeds. |
| Scenarios.AdminDeletesAnyTask | TaskManagement/Controllers/TaskController.cs:146 | An admin deletes any existing task, whoever created it and whatever grants exist. |
| Scenarios.StrangerIsRefusedNotMissing | TaskManagement/Controllers/TaskController.cs:41-50 | A user with no relation to an existing task is refused as unauthorized, not told the task is missing. |

## Left out

- Routing, response shaping (`ApiResponse`), `Program.cs` and `UsersController.cs` are plumbing.
  - The model assumes the intended pipeline: the Basic scheme authenticates, then `ExceptionMiddleware` maps exceptions to status codes.
  - `Program.cs` as written registers neither, nor any of the services.
- Asynchrony, EF change tracking, `SaveChangesAsync` and `Include` are not modelled. Each write is atomic on the store value. Concurrent requests and their races are out of scope.
- Database foreign-key refusals are explicit checks that fail with the message of EF's save exception, leaving the store unchanged. The code has no such check of its own. They cover:
  - a task whose reporter is not a user;
  - a new grant for a user who does not exist;
  - deleting a user who reports a task.
- Case-insensitive comparison maps ASCII letters only. This is exact for the literals the code compares with ("Admin", "Basic "), but not for other Unicode case pairs.
- `Text.Split` is `string.Split(char)` on strings as sequences of Unicode scalar values; lone surrogates are not modelled. Decoding is one abstract `decode` function, so invalid UTF-8 replacement is not modelled.
- The `Authorization` header is a single optional string. Multiple header values, which `ToString()` joins with commas, are not modelled.
- `PasswordHasher` salting is not modelled: `hash` is an arbitrary function, and only `verify`'s answer matters.
- `AuthController.Login` takes a request the framework has already accepted. The automatic `[Required]` validation of `LoginRequestDTO`, which answers 400 before the action runs, is not modelled.
- `AuthController.Register` uses the action's own "Invalid request data" message for a blank field. The framework's automatic validation would answer first with its own body.
- `UserDTO` and the AutoMapper maps to it are not modelled. The services return the stored `User`.
- `GetAllUsersAsync` is outside the core.
- A null `Title` in `CreateUpdateTaskDTO` is not modelled, since titles are plain strings. The database would refuse it like any other failed save.
- `TaskManagement/Enums` is not part of this model. `Priority` and `Status` are only stored and copied, so their value names do not matter.
- A batch share stamps every new grant with one timestamp, where the code reads the clock once per grant.
- `SeedData.cs`, the migrations and the unit tests are not modelled. `ITasksRepository` and `ITasksService` declare members the classes do not implement, and those are ignored.
- `TaskController.GetTaskById` and `TaskController.UpdateTask` state their equivalence with `Decide` for a task stored under its own key, which `Store.Valid` guarantees. `Decide` reads the task's `taskId` field, while the controllers use the route's id.
