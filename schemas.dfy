/** Request and response bodies and their field constraints. A body that
    breaks a constraint is answered 422 before any handler runs; the
    validators below return the list of offending fields in declaration order. */
module Schemas {
  import opened Wrappers
  import Models

  // ------------------------------------------------------------------- tasks

  /** Priority levels; the stored value is the level's integer. */
  datatype TaskPriority = Low | Medium | High {
    function Value(): int
    {
      match this
      case Low => 0
      case Medium => 1
      case High => 2
    }
  }

  function PriorityOf(p: int): (r: Option<TaskPriority>)
    ensures r.Some? ==> r.value.Value() == p
  {
    if p == 0 then Some(Low) else if p == 1 then Some(Medium) else if p == 2 then Some(High) else None
  }

  /** The integers accepted as a priority are exactly the levels' values. */
  lemma PriorityLevels(p: int, level: TaskPriority)
    ensures PriorityOf(p).Some? <==> ValidPriority(p)
    ensures PriorityOf(level.Value()) == Some(level)
  {
  }

  predicate ValidTitle(title: string)
  {
    1 <= |title| <= 200
  }

  predicate ValidDescription(description: Option<string>)
  {
    description.None? || |description.value| <= 2000
  }

  predicate ValidPriority(priority: int)
  {
    0 <= priority <= 2
  }

  /** A validated `TaskCreate` body; defaults already filled in. */
  datatype TaskCreate = TaskCreate(title: string, description: Option<string>, completed: bool, priority: int)

  predicate ValidTaskCreate(body: TaskCreate)
  {
    ValidTitle(body.title) && ValidDescription(body.description) && ValidPriority(body.priority)
  }

  /** A `TaskCreate` body as sent: every field may be absent. */
  datatype TaskCreateInput = TaskCreateInput(
    title: Option<string>, description: Option<string>, completed: Option<bool>, priority: Option<int>)

  function Check(field: string, ok: bool): seq<string>
  {
    if ok then [] else [field]
  }

  /** The fields of a `TaskCreate` body that break their constraint: `title` is
      required with 1..200 characters, `description` has at most 2000,
      `priority` lies in 0..2; `completed` defaults to false, `priority` to 0. */
  function ValidateTaskCreate(input: TaskCreateInput): (r: Result<TaskCreate, seq<string>>)
    ensures r.Success? <==>
      input.title.Some? && ValidTitle(input.title.value) && ValidDescription(input.description)
      && (input.priority.None? || ValidPriority(input.priority.value))
    ensures r.Success? ==> ValidTaskCreate(r.value)
    ensures r.Success? ==> r.value.title == input.title.value && r.value.description == input.description
    ensures r.Success? ==> r.value.completed == (input.completed == Some(true))
    ensures r.Success? ==> r.value.priority == input.priority.GetOr(0)
    ensures r.Failure? ==> r.error != []
    ensures r.Failure? ==> ("title" in r.error <==> input.title.None? || !ValidTitle(input.title.value))
    ensures r.Failure? ==> ("description" in r.error <==> !ValidDescription(input.description))
    ensures r.Failure? ==> ("priority" in r.error <==> input.priority.Some? && !ValidPriority(input.priority.value))
  {
    var errors :=
      Check("title", input.title.Some? && ValidTitle(input.title.value))
      + Check("description", ValidDescription(input.description))
      + Check("priority", input.priority.None? || ValidPriority(input.priority.value));
    if errors == [] then
      Success(TaskCreate(input.title.value, input.description, input.completed.GetOr(false), input.priority.GetOr(0)))
    else
      Failure(errors)
  }

  /** A `TaskUpdate` body: a field is `Some` exactly when the client sent it.
      `description` may be sent as null, which clears it. */
  datatype TaskUpdate = TaskUpdate(
    title: Option<string>, description: Option<Option<string>>, completed: Option<bool>, priority: Option<int>)

  /** The fields of a `TaskUpdate` body that break their constraint; every
      field is optional and carries the same bound as in `TaskCreate` when sent. */
  function TaskUpdateErrors(u: TaskUpdate): (errors: seq<string>)
    ensures "title" in errors <==> u.title.Some? && !ValidTitle(u.title.value)
    ensures "description" in errors <==> u.description.Some? && !ValidDescription(u.description.value)
    ensures "priority" in errors <==> u.priority.Some? && !ValidPriority(u.priority.value)
    ensures errors == [] <==> ValidTaskUpdate(u)
  {
    Check("title", u.title.None? || ValidTitle(u.title.value))
    + Check("description", u.description.None? || ValidDescription(u.description.value))
    + Check("priority", u.priority.None? || ValidPriority(u.priority.value))
  }

  predicate ValidTaskUpdate(u: TaskUpdate)
  {
    (u.title.None? || ValidTitle(u.title.value))
    && (u.description.None? || ValidDescription(u.description.value))
    && (u.priority.None? || ValidPriority(u.priority.value))
  }

  /** Every field constraint a stored task satisfies once it came through validation. */
  predicate WellFormedTask(t: Models.Task)
  {
    ValidTitle(t.title) && ValidDescription(t.description) && ValidPriority(t.priority)
  }

  // ------------------------------------------------------------------- users

  predicate ValidUsername(username: string)
  {
    3 <= |username| <= 50
  }

  predicate ValidPassword(password: string)
  {
    |password| >= 8
  }

  /** A `UserCreate` body. */
  datatype UserCreate = UserCreate(email: string, username: string, password: string)

  /** The email validator is the parameter `normalizeEmail`, which this model
      does not define: `None` rejects the address, `Some(e)` accepts it and
      gives the normalized address `e` that the parsed body carries. */
  predicate ValidEmail(email: string, normalizeEmail: string -> Option<string>)
  {
    normalizeEmail(email).Some?
  }

  /** The fields of a `UserCreate` body that break their constraint. */
  function UserCreateErrors(body: UserCreate, normalizeEmail: string -> Option<string>): (errors: seq<string>)
    ensures "email" in errors <==> !ValidEmail(body.email, normalizeEmail)
    ensures "username" in errors <==> !ValidUsername(body.username)
    ensures "password" in errors <==> !ValidPassword(body.password)
    ensures errors == [] <==> ValidUserCreate(body, normalizeEmail)
  {
    Check("email", ValidEmail(body.email, normalizeEmail))
    + Check("username", ValidUsername(body.username))
    + Check("password", ValidPassword(body.password))
  }

  predicate ValidUserCreate(body: UserCreate, normalizeEmail: string -> Option<string>)
  {
    ValidEmail(body.email, normalizeEmail) && ValidUsername(body.username) && ValidPassword(body.password)
  }

  /** Parsing a `UserCreate` body: the parsed body carries the normalized
      address and the username and password as sent; a rejected body reports
      every offending field. */
  function ValidateUserCreate(raw: UserCreate, normalizeEmail: string -> Option<string>): (r: Result<UserCreate, seq<string>>)
    ensures r.Success? <==> ValidUserCreate(raw, normalizeEmail)
    ensures r.Success? ==> Some(r.value.email) == normalizeEmail(raw.email)
    ensures r.Success? ==> r.value.username == raw.username && r.value.password == raw.password
    ensures r.Failure? ==> r.error != [] && r.error == UserCreateErrors(raw, normalizeEmail)
  {
    var errors := UserCreateErrors(raw, normalizeEmail);
    if errors == [] then Success(raw.(email := normalizeEmail(raw.email).value))
    else Failure(errors)
  }

  /** A `UserUpdate` body: every field optional. */
  datatype UserUpdate = UserUpdate(email: Option<string>, username: Option<string>, password: Option<string>)

  /** The fields of a `UserUpdate` body that break their constraint: the same
      bounds as in `UserCreate`, checked only on the fields sent. */
  function UserUpdateErrors(body: UserUpdate, normalizeEmail: string -> Option<string>): (errors: seq<string>)
    ensures "email" in errors <==> body.email.Some? && !ValidEmail(body.email.value, normalizeEmail)
    ensures "username" in errors <==> body.username.Some? && !ValidUsername(body.username.value)
    ensures "password" in errors <==> body.password.Some? && !ValidPassword(body.password.value)
    ensures errors == [] <==> ValidUserUpdate(body, normalizeEmail)
  {
    Check("email", body.email.None? || ValidEmail(body.email.value, normalizeEmail))
    + Check("username", body.username.None? || ValidUsername(body.username.value))
    + Check("password", body.password.None? || ValidPassword(body.password.value))
  }

  predicate ValidUserUpdate(body: UserUpdate, normalizeEmail: string -> Option<string>)
  {
    (body.email.None? || ValidEmail(body.email.value, normalizeEmail))
    && (body.username.None? || ValidUsername(body.username.value))
    && (body.password.None? || ValidPassword(body.password.value))
  }

  /** The user shape sent to clients: no password and no hash. */
  datatype UserResponse = UserResponse(id: string, email: string, username: string, isActive: bool, createdAt: Models.Time)

  function ToResponse(u: Models.User): (r: UserResponse)
    ensures r.id == u.id && r.email == u.email && r.username == u.username
    ensures r.isActive == u.isActive && r.createdAt == u.createdAt
  {
    UserResponse(u.id, u.email, u.username, u.isActive, u.createdAt)
  }

  /** The response reveals nothing about the password: users that differ only
      in their stored hash are answered identically. */
  lemma ResponseHidesPassword(u: Models.User, v: Models.User)
    requires u.(hashedPassword := v.hashedPassword) == v
    ensures ToResponse(u) == ToResponse(v)
  {
  }
}
