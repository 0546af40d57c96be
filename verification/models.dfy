/** The entities of the task backend: tasks, the users who report them, the
    grants (`TaskUser` rows) that share a task with another user, and the
    request shapes that carry their fields. */
module Models {

  import opened Outcome

  /** A `Guid`. Values are compared, never inspected. */
  type Id = nat

  /** `Guid.Empty`, the value of a key nobody has set yet. */
  const EmptyId: Id := 0

  /** A `DateTime`, abstracted to an instant that is only stored and copied. */
  type Timestamp = nat

  /** The level of a grant: read-only, or read and write. */
  datatype Permission = Read | ReadWrite

  /** The global role of a user. */
  datatype Role = UserRole | AdminRole

  datatype Priority = Low | Medium | High

  datatype Status = ToDo | InProgress | Done

  /** `TaskItem`. The participants are not a field here: they are the grant
      rows whose `taskId` names the task, loaded alongside it. */
  datatype TaskItem = TaskItem(
    taskId: Id,
    title: string,
    description: Option<string>,
    priority: Priority,
    status: Status,
    createdDate: Timestamp,
    dueDate: Option<Timestamp>,
    reporterId: Id)

  /** `TaskUser`: the grant row sharing task `taskId` with user `userId` at
      level `permission`; its primary key is `taskUserId`. */
  datatype TaskUser = TaskUser(
    taskUserId: Id,
    taskId: Id,
    userId: Id,
    sharedAt: Timestamp,
    permission: Permission)

  /** `User`; `password` holds the hash, never the password itself. */
  datatype User = User(userId: Id, userName: string, password: string, role: Role)

  /** `UserPermissionDTO`: one entry of a share request. */
  datatype UserPermission = UserPermission(userId: Id, permission: Permission)

  /** `CreateUpdateTaskDTO`: the fields a caller may set on a task. */
  datatype TaskFields = TaskFields(
    title: string,
    description: Option<string>,
    priority: Priority,
    status: Status,
    dueDate: Timestamp)

  /** The claims of an authenticated request: name identifier, name and role,
      each possibly absent. */
  datatype Claims = Claims(nameIdentifier: Option<string>, name: Option<string>, role: Option<string>)

  /** `PasswordVerificationResult`: only `Success` lets a caller in; a hash
      that verifies but asks to be rehashed does not. */
  datatype PasswordVerification = Failed | Success | SuccessRehashNeeded

  /** `Role.ToString()`. */
  function RoleName(r: Role): string {
    match r
    case UserRole => "User"
    case AdminRole => "Admin"
  }

  /** The five fields an update may change. */
  datatype Editable = Editable(
    title: string,
    description: Option<string>,
    priority: Priority,
    status: Status,
    dueDate: Option<Timestamp>)

  /** The three fields an update never changes. */
  datatype Fixed = Fixed(taskId: Id, reporterId: Id, createdDate: Timestamp)

  function EditableOf(t: TaskItem): Editable {
    Editable(t.title, t.description, t.priority, t.status, t.dueDate)
  }

  function FixedOf(t: TaskItem): Fixed {
    Fixed(t.taskId, t.reporterId, t.createdDate)
  }

  /** The editable fields a request sets. */
  function EditableFrom(fields: TaskFields): Editable {
    Editable(fields.title, fields.description, fields.priority, fields.status, Some(fields.dueDate))
  }

  /** A task is determined by its fixed and its editable fields. */
  lemma TaskIsFixedPlusEditable(a: TaskItem, b: TaskItem)
    requires FixedOf(a) == FixedOf(b) && EditableOf(a) == EditableOf(b)
    ensures a == b
  {
  }

  /** The mapping profile applied to a new task: the request's fields on a
      `TaskItem` whose key and reporter are still unset and whose creation
      date is the construction instant `now`. */
  function NewTaskFrom(fields: TaskFields, now: Timestamp): (t: TaskItem)
    ensures EditableOf(t) == EditableFrom(fields)
    ensures FixedOf(t) == Fixed(EmptyId, EmptyId, now)
  {
    TaskItem(EmptyId, fields.title, fields.description, fields.priority, fields.status, now, Some(fields.dueDate), EmptyId)
  }

  /** The mapping profile applied onto an existing task: the request's fields
      replace the editable ones; `TaskId`, `ReporterId` and `CreatedDate` are
      kept. */
  function ApplyFields(fields: TaskFields, t: TaskItem): (u: TaskItem)
    ensures EditableOf(u) == EditableFrom(fields)
    ensures FixedOf(u) == FixedOf(t)
  {
    t.(title := fields.title, description := fields.description, priority := fields.priority,
       status := fields.status, dueDate := Some(fields.dueDate))
  }

  /** The update's two ensures pin the result down completely: any task with
      the request's editable fields and the stored task's fixed fields is the
      mapped task. */
  lemma ApplyFieldsIsDetermined(fields: TaskFields, t: TaskItem, u: TaskItem)
    requires EditableOf(u) == EditableFrom(fields) && FixedOf(u) == FixedOf(t)
    ensures u == ApplyFields(fields, t)
  {
    TaskIsFixedPlusEditable(u, ApplyFields(fields, t));
  }
}
