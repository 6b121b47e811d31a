/** The persistent records of the backend (JPA entities) and their enums. Every
    association is held as the referenced row's id; a user is identified by id
    (two `User` values with the same id are the same user). */
module Entities {
  import opened Common
  import opened Strings

  /** `User.Role`: a global authority level. */
  datatype Role = USER | ADMIN

  /** `Project.Visibility`. */
  datatype Visibility = PUBLIC | PRIVATE

  /** `Task.Priority` and `TaskDto.Priority`. */
  datatype Priority = LOW | MEDIUM | HIGH

  /** `Task.Status` and `TaskDto.Status`. */
  datatype Status = TODO | IN_PROGRESS | COMPLETED

  /** `ProjectMember.Role`: the per-project standing of a member. */
  datatype MemberRole = OWNER | ADMIN | MEMBER

  datatype User = User(id: Id, email: string, name: string, password: string, role: Role)

  datatype Project = Project(
    id: Id,
    name: string,
    description: Option<string>,
    startDate: Option<Date>,
    endDate: Option<Date>,
    creatorId: Id,
    visibility: Visibility)

  datatype Task = Task(
    id: Id,
    projectId: Id,
    title: string,
    description: Option<string>,
    priority: Priority,
    status: Status,
    dueDate: Option<Date>,
    assigneeId: Option<Id>)

  datatype Milestone = Milestone(
    id: Id,
    projectId: Id,
    title: string,
    description: Option<string>,
    targetDate: Date,
    completed: bool)

  datatype Comment = Comment(id: Id, taskId: Id, userId: Id, text: string)

  /** A row of `time_entries`: task and user are required, hours are positive. */
  datatype TimeEntry = TimeEntry(id: Id, taskId: Id, userId: Id, hoursSpent: real)

  datatype Notification = Notification(id: Id, userId: Id, message: string, read: bool)

  /** A row of `project_members`: a (project, user) pair with a role. */
  datatype ProjectMember = ProjectMember(id: Id, projectId: Id, userId: Id, role: MemberRole)

  // Primary keys, as function values for the generic table operations.
  function UserKey(u: User): Id { u.id }
  function ProjectKey(p: Project): Id { p.id }
  function TaskKey(t: Task): Id { t.id }
  function MilestoneKey(m: Milestone): Id { m.id }
  function CommentKey(c: Comment): Id { c.id }
  function TimeEntryKey(e: TimeEntry): Id { e.id }
  function NotificationKey(n: Notification): Id { n.id }
  function MemberKey(m: ProjectMember): Id { m.id }

  // ------------------------------------------------------------ TimeEntry

  /** The column constraints of `time_entries`: `hours_spent` is not null and positive. */
  predicate ValidTimeEntry(e: TimeEntry) {
    e.hoursSpent > 0.0
  }

  /** `TimeEntry.equals`: entries are compared by id only. */
  predicate SameTimeEntry(a: TimeEntry, b: TimeEntry) {
    a.id == b.id
  }

  // ------------------------------------------------------------ ProjectMember

  /** The field initialiser `role = Role.MEMBER` used by the no-argument constructor. */
  const DefaultMemberRole: MemberRole := MEMBER

  /** The no-argument constructor followed by setting project and user. */
  function DefaultProjectMember(id: Id, projectId: Id, userId: Id): (m: ProjectMember)
    ensures m.role == MEMBER
    ensures m.projectId == projectId && m.userId == userId
  {
    ProjectMember(id, projectId, userId, DefaultMemberRole)
  }

  // ------------------------------------------------------------ enum names

  function RoleName(r: Role): string {
    match r
    case USER => "USER"
    case ADMIN => "ADMIN"
  }

  function VisibilityName(v: Visibility): string {
    match v
    case PUBLIC => "PUBLIC"
    case PRIVATE => "PRIVATE"
  }

  function StatusName(s: Status): string {
    match s
    case TODO => "TODO"
    case IN_PROGRESS => "IN_PROGRESS"
    case COMPLETED => "COMPLETED"
  }

  function MemberRoleName(r: MemberRole): string {
    match r
    case OWNER => "OWNER"
    case ADMIN => "ADMIN"
    case MEMBER => "MEMBER"
  }

  /** `Project.Visibility.valueOf`: exact, case-sensitive constant names. */
  function ParseVisibility(s: string): (r: Option<Visibility>)
    ensures r.Some? <==> s == "PUBLIC" || s == "PRIVATE"
    ensures r.Some? ==> VisibilityName(r.value) == s
  {
    if s == "PUBLIC" then Some(PUBLIC)
    else if s == "PRIVATE" then Some(PRIVATE)
    else None
  }

  /** `TaskDto.Status.valueOf(s.toUpperCase())`. */
  function ParseStatus(s: string): (r: Option<Status>)
    ensures r.Some? ==> StatusName(r.value) == ToUpper(s)
  {
    var u := ToUpper(s);
    if u == "TODO" then Some(TODO)
    else if u == "IN_PROGRESS" then Some(IN_PROGRESS)
    else if u == "COMPLETED" then Some(COMPLETED)
    else None
  }

  /** `ProjectMember.Role.valueOf(s.toUpperCase())`. */
  function ParseMemberRole(s: string): (r: Option<MemberRole>)
    ensures r.Some? ==> MemberRoleName(r.value) == ToUpper(s)
  {
    var u := ToUpper(s);
    if u == "OWNER" then Some(OWNER)
    else if u == "ADMIN" then Some(MemberRole.ADMIN)
    else if u == "MEMBER" then Some(MEMBER)
    else None
  }

  /** Status parsing is case-insensitive and accepts exactly the three names:
      it succeeds iff the upper-cased input is one of them. */
  lemma ParseStatusExact(s: string, st: Status)
    ensures ParseStatus(s) == Some(st) <==> ToUpper(s) == StatusName(st)
  {
  }

  /** Every status name parses back to that status, written in upper case
      or in lower case. */
  lemma ParseStatusRoundTrip(st: Status)
    ensures ParseStatus(StatusName(st)) == Some(st)
    ensures ParseStatus(ToLower(StatusName(st))) == Some(st)
  {
    UpperOfLower(StatusName(st));
    ToUpperIdempotent(StatusName(st));
    assert ToUpper(StatusName(st)) == StatusName(st);
  }

  /** Member-role parsing is case-insensitive and accepts exactly the three
      names: it succeeds iff the upper-cased input is one of them. */
  lemma ParseMemberRoleExact(s: string, r: MemberRole)
    ensures ParseMemberRole(s) == Some(r) <==> ToUpper(s) == MemberRoleName(r)
  {
  }

  /** Every member-role name parses back to that role, written in upper case
      or in lower case. */
  lemma ParseMemberRoleRoundTrip(r: MemberRole)
    ensures ParseMemberRole(MemberRoleName(r)) == Some(r)
    ensures ParseMemberRole(ToLower(MemberRoleName(r))) == Some(r)
  {
    UpperOfLower(MemberRoleName(r));
    assert ToUpper(MemberRoleName(r)) == MemberRoleName(r);
  }
}
