/**
 * The entities and input contracts of the task server (server/src/schema.ts).
 *
 * Each input schema is modelled as a function from the raw request (every
 * field possibly missing) to `Option` of the normalised input: `None` when
 * the schema rejects the request, otherwise the input with its defaults
 * filled in. Timestamps are epoch milliseconds; JavaScript numbers that a
 * schema checks for integrality (`limit`, `offset`) are `real`s.
 */
module Schema {
  import opened Wrappers

  /** A point in time, in milliseconds since the epoch. */
  type Timestamp = int

  /** A field that may be missing, `null`, or hold a value (`.nullable().optional()`). */
  datatype Nullable<+T> = Absent | Null | Present(value: T)

  // ---------------------------------------------------------------- priority

  /** The task priority enum `['low', 'medium', 'high']`. */
  datatype Priority = Low | Medium | High

  /** The wire name of a priority. */
  function PriorityName(p: Priority): (s: string)
  {
    match p
    case Low => "low"
    case Medium => "medium"
    case High => "high"
  }

  /** The enum check: exactly the three names are accepted, each as its own priority. */
  function ParsePriority(s: string): (r: Option<Priority>)
    ensures r.Some? <==> s == "low" || s == "medium" || s == "high"
    ensures r.Some? ==> PriorityName(r.value) == s
  {
    if s == "low" then Some(Low)
    else if s == "medium" then Some(Medium)
    else if s == "high" then Some(High)
    else None
  }

  /** Every priority survives a trip through its wire name. */
  lemma PriorityRoundTrip(p: Priority)
    ensures ParsePriority(PriorityName(p)) == Some(p)
  {
  }

  // ---------------------------------------------------------------- entities

  /** A stored user, including the password verifier. */
  datatype User = User(
    id: int,
    email: string,
    password_hash: string,
    name: string,
    ui_color_theme: string,
    created_at: Timestamp,
    updated_at: Timestamp)

  /** A user as it leaves the server: no `password_hash`. */
  datatype PublicUser = PublicUser(
    id: int,
    email: string,
    name: string,
    ui_color_theme: string,
    created_at: Timestamp,
    updated_at: Timestamp)

  /** The public projection of a user. */
  function ToPublic(u: User): (p: PublicUser)
    ensures p.id == u.id && p.email == u.email && p.name == u.name
    ensures p.ui_color_theme == u.ui_color_theme
    ensures p.created_at == u.created_at && p.updated_at == u.updated_at
  {
    PublicUser(u.id, u.email, u.name, u.ui_color_theme, u.created_at, u.updated_at)
  }

  /**
   * The projection forgets exactly the password hash: two users have the same
   * public view if and only if they agree on every field but `password_hash`.
   */
  lemma PublicForgetsOnlyHash(u: User, v: User)
    ensures ToPublic(u) == ToPublic(v) <==> u.(password_hash := v.password_hash) == v
  {
  }

  /** A task row; `description` and `due_date` may be `null`. */
  datatype Task = Task(
    id: int,
    user_id: int,
    title: string,
    description: Option<string>,
    completed: bool,
    priority: Priority,
    due_date: Option<Timestamp>,
    created_at: Timestamp,
    updated_at: Timestamp)

  // ---------------------------------------------------------------- numbers

  /** A JavaScript number with no fractional part (zod's `.int()`). */
  predicate IsInteger(x: real) {
    x.Floor as real == x
  }

  // ---------------------------------------------------------------- registerUserInputSchema

  const MinPasswordLength: nat := 6
  const DefaultTheme: string := "blue"

  datatype RawRegisterUserInput = RawRegisterUserInput(
    email: Option<string>,
    password: Option<string>,
    name: Option<string>,
    ui_color_theme: Option<string>)

  datatype RegisterUserInput = RegisterUserInput(
    email: string,
    password: string,
    name: string,
    ui_color_theme: string)

  /** What registerUserInputSchema accepts (the e-mail format check is not part of this model). */
  predicate AcceptsRegistration(raw: RawRegisterUserInput) {
    && raw.email.Some?
    && raw.password.Some? && |raw.password.value| >= MinPasswordLength
    && raw.name.Some? && |raw.name.value| >= 1
  }

  function ParseRegisterUserInput(raw: RawRegisterUserInput): (r: Option<RegisterUserInput>)
    ensures r.Some? <==> AcceptsRegistration(raw)
    ensures r.Some? ==> r.value.email == raw.email.value && r.value.name == raw.name.value
    ensures r.Some? ==> r.value.password == raw.password.value && |r.value.password| >= 6
    ensures r.Some? ==> |r.value.name| >= 1
    ensures r.Some? && raw.ui_color_theme.None? ==> r.value.ui_color_theme == "blue"
    ensures r.Some? && raw.ui_color_theme.Some? ==> r.value.ui_color_theme == raw.ui_color_theme.value
  {
    if !AcceptsRegistration(raw) then None
    else
      var theme := if raw.ui_color_theme.Some? then raw.ui_color_theme.value else DefaultTheme;
      Some(RegisterUserInput(raw.email.value, raw.password.value, raw.name.value, theme))
  }

  // ---------------------------------------------------------------- updateUserInputSchema

  datatype RawUpdateUserInput = RawUpdateUserInput(
    id: Option<int>,
    email: Option<string>,
    name: Option<string>,
    ui_color_theme: Option<string>,
    current_password: Option<string>,
    new_password: Option<string>)

  datatype UpdateUserInput = UpdateUserInput(
    id: int,
    email: Option<string>,
    name: Option<string>,
    ui_color_theme: Option<string>,
    current_password: Option<string>,
    new_password: Option<string>)

  /** What updateUserInputSchema accepts: only `id` is required. */
  predicate AcceptsUpdate(raw: RawUpdateUserInput) {
    && raw.id.Some?
    && (raw.name.Some? ==> |raw.name.value| >= 1)
    && (raw.new_password.Some? ==> |raw.new_password.value| >= MinPasswordLength)
  }

  function ParseUpdateUserInput(raw: RawUpdateUserInput): (r: Option<UpdateUserInput>)
    ensures r.Some? <==> AcceptsUpdate(raw)
    ensures r.Some? ==> r.value.id == raw.id.value
    ensures r.Some? ==> r.value.email == raw.email && r.value.name == raw.name
    ensures r.Some? ==> r.value.ui_color_theme == raw.ui_color_theme
    ensures r.Some? ==> r.value.current_password == raw.current_password
    ensures r.Some? ==> r.value.new_password == raw.new_password
    ensures r.Some? && r.value.new_password.Some? ==> |r.value.new_password.value| >= 6
    ensures r.Some? && r.value.name.Some? ==> |r.value.name.value| >= 1
  {
    if !AcceptsUpdate(raw) then None
    else Some(UpdateUserInput(raw.id.value, raw.email, raw.name, raw.ui_color_theme,
                              raw.current_password, raw.new_password))
  }

  // ---------------------------------------------------------------- createTaskInputSchema

  const DefaultPriority: Priority := Medium

  datatype RawCreateTaskInput = RawCreateTaskInput(
    user_id: Option<int>,
    title: Option<string>,
    description: Nullable<string>,
    priority: Option<string>,
    due_date: Nullable<Timestamp>)

  datatype CreateTaskInput = CreateTaskInput(
    user_id: int,
    title: string,
    description: Nullable<string>,
    priority: Priority,
    due_date: Nullable<Timestamp>)

  /** An optional enum field: absent is fine, present must name a priority. */
  predicate OptionalPriorityOk(raw: Option<string>) {
    raw.Some? ==> ParsePriority(raw.value).Some?
  }

  predicate AcceptsCreateTask(raw: RawCreateTaskInput) {
    && raw.user_id.Some?
    && raw.title.Some? && |raw.title.value| >= 1
    && OptionalPriorityOk(raw.priority)
  }

  function ParseCreateTaskInput(raw: RawCreateTaskInput): (r: Option<CreateTaskInput>)
    ensures r.Some? <==> AcceptsCreateTask(raw)
    ensures r.Some? ==> r.value.user_id == raw.user_id.value && r.value.title == raw.title.value
    ensures r.Some? ==> |r.value.title| >= 1
    ensures r.Some? ==> r.value.description == raw.description && r.value.due_date == raw.due_date
    ensures r.Some? && raw.priority.None? ==> r.value.priority == Medium
    ensures r.Some? && raw.priority.Some? ==> PriorityName(r.value.priority) == raw.priority.value
  {
    if !AcceptsCreateTask(raw) then None
    else
      var p := if raw.priority.Some? then ParsePriority(raw.priority.value).value else DefaultPriority;
      Some(CreateTaskInput(raw.user_id.value, raw.title.value, raw.description, p, raw.due_date))
  }

  // ---------------------------------------------------------------- getTasksInputSchema

  const DefaultLimit: nat := 50
  const MaxLimit: nat := 100
  const DefaultOffset: nat := 0

  datatype RawGetTasksInput = RawGetTasksInput(
    user_id: Option<int>,
    completed: Option<bool>,
    priority: Option<string>,
    due_before: Option<Timestamp>,
    limit: Option<real>,
    offset: Option<real>)

  /** The normalised task query: every optional filter, and the page bounds with defaults applied. */
  datatype GetTasksInput = GetTasksInput(
    user_id: int,
    completed: Option<bool>,
    priority: Option<Priority>,
    due_before: Option<Timestamp>,
    limit: nat,
    offset: nat)

  /** The bounds getTasksInputSchema guarantees of every query it lets through. */
  predicate ValidGetTasksInput(q: GetTasksInput) {
    1 <= q.limit <= MaxLimit
  }

  /** `limit`: an integer with 1 <= limit <= 100, or absent. */
  predicate LimitOk(raw: Option<real>) {
    raw.Some? ==> IsInteger(raw.value) && 1.0 <= raw.value <= 100.0
  }

  /** `offset`: an integer >= 0, or absent. */
  predicate OffsetOk(raw: Option<real>) {
    raw.Some? ==> IsInteger(raw.value) && 0.0 <= raw.value
  }

  predicate AcceptsGetTasks(raw: RawGetTasksInput) {
    && raw.user_id.Some?
    && OptionalPriorityOk(raw.priority)
    && LimitOk(raw.limit)
    && OffsetOk(raw.offset)
  }

  function ParseGetTasksInput(raw: RawGetTasksInput): (r: Option<GetTasksInput>)
    ensures r.Some? <==> AcceptsGetTasks(raw)
    ensures r.Some? ==> ValidGetTasksInput(r.value)
    ensures r.Some? ==> r.value.user_id == raw.user_id.value
    ensures r.Some? ==> r.value.completed == raw.completed && r.value.due_before == raw.due_before
    ensures r.Some? ==> (r.value.priority.Some? <==> raw.priority.Some?)
    ensures r.Some? && raw.priority.Some? ==> PriorityName(r.value.priority.value) == raw.priority.value
    ensures r.Some? && raw.limit.None? ==> r.value.limit == 50
    ensures r.Some? && raw.limit.Some? ==> r.value.limit as real == raw.limit.value
    ensures r.Some? && raw.offset.None? ==> r.value.offset == 0
    ensures r.Some? && raw.offset.Some? ==> r.value.offset as real == raw.offset.value
  {
    if !AcceptsGetTasks(raw) then None
    else
      var p := if raw.priority.Some? then Some(ParsePriority(raw.priority.value).value) else None;
      var limit: nat := if raw.limit.Some? then raw.limit.value.Floor else DefaultLimit;
      var offset: nat := if raw.offset.Some? then raw.offset.value.Floor else DefaultOffset;
      Some(GetTasksInput(raw.user_id.value, raw.completed, p, raw.due_before, limit, offset))
  }
}
