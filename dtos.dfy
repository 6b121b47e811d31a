/** Request bodies and their bean-validation constraints, which the controllers
    enforce with `@Valid` before a service is called; and the defaults their
    field initialisers give to fields a request leaves out. */
module Dtos {
  import opened Common
  import opened Strings
  import opened Entities

  // ------------------------------------------------------------ TaskDto

  /** A JSON request field: left out, given as `null`, or given a value. */
  datatype JsonField<+T> = Absent | Null | Given(value: T)

  /** The fields of `TaskDto` that `createTask` and `updateTask` read. A
      `None` priority or status is a `null` the request set explicitly. */
  datatype TaskDto = TaskDto(
    title: string,
    description: Option<string>,
    priority: Option<Priority>,
    status: Option<Status>,
    dueDate: Option<Date>,
    assignedToId: Option<Id>)   // None: no assignee requested

  /** Both enum fields are non-null, so `valueOf(...name())` does not throw. */
  predicate HasEnums(d: TaskDto) {
    d.priority.Some? && d.status.Some?
  }

  /** `@NotBlank @Size(max = 255)` on the title. */
  predicate ValidTaskDto(d: TaskDto) {
    NotBlank(d.title) && |d.title| <= 255
  }

  /** A `TaskDto` as deserialised from a request: an absent priority or status
      keeps the field initialiser, `MEDIUM` and `TODO`; an explicit `null`
      overwrites it. */
  function TaskDtoFromRequest(
    title: string, description: Option<string>, priority: JsonField<Priority>,
    status: JsonField<Status>, dueDate: Option<Date>, assignedToId: Option<Id>): (d: TaskDto)
    ensures priority.Absent? ==> d.priority == Some(MEDIUM)
    ensures status.Absent? ==> d.status == Some(TODO)
    ensures priority.Given? ==> d.priority == Some(priority.value)
    ensures status.Given? ==> d.status == Some(status.value)
    ensures HasEnums(d) <==> !priority.Null? && !status.Null?
    ensures d.title == title && d.description == description
    ensures d.assignedToId == assignedToId && d.dueDate == dueDate
  {
    TaskDto(title, description,
            match priority case Absent => Some(MEDIUM) case Null => None case Given(v) => Some(v),
            match status case Absent => Some(TODO) case Null => None case Given(v) => Some(v),
            dueDate, assignedToId)
  }

  // ------------------------------------------------------------ MilestoneDto

  datatype MilestoneDto = MilestoneDto(
    title: string,
    description: Option<string>,
    targetDate: Option<Date>,
    completed: bool)

  /** `@NotBlank @Size(max = 255)` title, `@Size(max = 1000)` description,
      `@NotNull` target date. */
  predicate ValidMilestoneDto(d: MilestoneDto) {
    && NotBlank(d.title) && |d.title| <= 255
    && (d.description.Some? ==> |d.description.value| <= 1000)
    && d.targetDate.Some?
  }

  /** A `MilestoneDto` as deserialised: an absent `completed` keeps `false`. */
  function MilestoneDtoFromRequest(
    title: string, description: Option<string>, targetDate: Option<Date>,
    completed: Option<bool>): (d: MilestoneDto)
    ensures completed.None? ==> !d.completed
    ensures completed.Some? ==> d.completed == completed.value
    ensures d.title == title && d.description == description && d.targetDate == targetDate
  {
    MilestoneDto(title, description, targetDate, completed == Some(true))
  }

  // ------------------------------------------------------------ ProjectDto

  datatype ProjectDto = ProjectDto(
    name: string,
    description: Option<string>,
    startDate: Option<Date>,
    endDate: Option<Date>,
    visibility: Option<string>)   // an enum name, not checked by validation

  /** `@NotBlank @Size(max = 255)` on the name. */
  predicate ValidProjectDto(d: ProjectDto) {
    NotBlank(d.name) && |d.name| <= 255
  }

  // ------------------------------------------------------------ CommentDto, TimeEntryDto

  /** `@NotBlank @Size(max = 1000)` on the comment text. */
  predicate ValidCommentText(text: string) {
    NotBlank(text) && |text| <= 1000
  }

  /** `@NotNull @Positive` on the hours of a time entry. */
  predicate ValidHours(hours: real) {
    hours > 0.0
  }

  // ------------------------------------------------------------ AuthRequest, AuthResponse

  datatype AuthRequest = AuthRequest(email: string, password: string, name: string)

  /** An `AuthResponse` built by one of its two constructors: the five-field one
      on success, the message one on failure. */
  datatype AuthResponse =
    | Authenticated(token: string, email: string, name: string, role: string, id: Id)
    | Rejected(message: string)
}
