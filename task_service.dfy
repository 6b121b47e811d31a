/** `TaskService`: task listings gated by project access, task creation with
    assignee resolution, update, status change and delete gated by
    `canModifyTask`, and the role-dependent overdue, due-today and
    high-priority views. */
module TaskService {
  import opened Common
  import opened Seqs
  import opened Entities
  import opened Dtos
  import opened Access
  import opened Store
  import opened TaskRepository
  import TimeEntryRepository

  /** `determineAssignee`: the requested user when it exists and the caller
      may assign to it; otherwise the caller. A request is never rejected. */
  function DetermineAssignee(d: TaskDto, u: User, p: Project, users: seq<User>): (a: User)
    ensures a == u || (a in users && d.assignedToId == Some(a.id) && CanAssignToUser(p, u, a))
  {
    match d.assignedToId
    case None => u
    case Some(aid) =>
      match Find(users, UserKey, aid)
      case Some(x) => if CanAssignToUser(p, u, x) then x else u
      case None => u
  }

  /** The requested user is assigned whenever they exist and the caller may
      assign to them; when no such user exists, the caller is assigned. */
  lemma DetermineAssigneeChoice(d: TaskDto, u: User, p: Project, users: seq<User>, x: User)
    requires IdsIncreasing(users, UserKey)
    ensures x in users && d.assignedToId == Some(x.id) && CanAssignToUser(p, u, x)
            ==> DetermineAssignee(d, u, p, users) == x
    ensures (forall y :: y in users && d.assignedToId == Some(y.id) ==> !CanAssignToUser(p, u, y))
            ==> DetermineAssignee(d, u, p, users) == u
  {
    if x in users {
      FindMember(users, UserKey, x);
    }
  }

  /** On someone else's PRIVATE project, or on their own, a plain USER always
      ends up assigning the task to themselves. */
  lemma PrivateProjectAssignsSelf(d: TaskDto, u: User, p: Project, users: seq<User>)
    requires u.role == Role.USER && p.visibility == PRIVATE
    ensures DetermineAssignee(d, u, p, users).id == u.id
  {
  }

  /** The task `updateTask` saves: the request's fields, and the new assignee
      when one was resolved. */
  function UpdatedTask(t: Task, d: TaskDto, assignee: Option<User>): Task
    requires HasEnums(d)
  {
    t.(title := d.title, description := d.description, priority := d.priority.value,
       status := d.status.value, dueDate := d.dueDate,
       assigneeId := if assignee.Some? then Some(assignee.value.id) else t.assigneeId)
  }

  /** The assignee `updateTask` resolves: only with a requested id, only for a
      caller allowed by `canAssignTask`, and only if that user exists. */
  function UpdateAssignee(d: TaskDto, u: User, p: Project, users: seq<User>): (a: Option<User>)
    ensures a.Some? ==> d.assignedToId == Some(a.value.id) && a.value in users && CanAssignTask(p, u)
    ensures d.assignedToId.None? || !CanAssignTask(p, u) ==> a.None?
  {
    if d.assignedToId.Some? && CanAssignTask(p, u) then Find(users, UserKey, d.assignedToId.value) else None
  }

  /** An update keeps the task's identity and project, takes every field of
      the request, and changes the assignee only to a resolved user. */
  lemma UpdatedTaskFields(t: Task, d: TaskDto, u: User, p: Project, users: seq<User>)
    requires HasEnums(d)
    ensures var r := UpdatedTask(t, d, UpdateAssignee(d, u, p, users));
            && r.id == t.id && r.projectId == t.projectId
            && r.title == d.title && r.description == d.description && Some(r.priority) == d.priority
            && Some(r.status) == d.status && r.dueDate == d.dueDate
            && (r.assigneeId != t.assigneeId ==>
                  CanAssignTask(p, u) && r.assigneeId == d.assignedToId
                  && exists x :: x in users && Some(x.id) == d.assignedToId)
  {
  }

  class TaskService {
    const db: Store

    constructor (db: Store)
      ensures this.db == db
    {
      this.db := db;
    }

    /** A project-scoped listing: the query's rows when the project is
        readable, nothing otherwise. */
    function Gated(pid: Id, u: User, rows: seq<Task>): (r: seq<Task>)
      reads db
      requires db.Valid()
      ensures db.ProjectWith(pid, u, CanAccessProject) ==> r == rows
      ensures !db.ProjectWith(pid, u, CanAccessProject) ==> r == []
    {
      FindMembers(db.projects, ProjectKey);
      match Find(db.projects, ProjectKey, pid)
      case Some(p) => if CanAccessProject(p, u) then rows else []
      case None => []
    }

    /** `getTasksByProjectId`. */
    function GetTasksByProjectId(projectId: Id, u: User): (r: seq<Task>)
      reads db
      requires db.Valid()
      ensures db.ProjectWith(projectId, u, CanAccessProject) ==> r == FindByProjectIdOrderByCreatedAtDesc(db.tasks, projectId)
      ensures !db.ProjectWith(projectId, u, CanAccessProject) ==> r == []
      ensures forall t :: t in r ==> t in db.tasks && t.projectId == projectId
    {
      Gated(projectId, u, FindByProjectIdOrderByCreatedAtDesc(db.tasks, projectId))
    }

    /** `getTaskById`: project access only, so a missing task and an
        unreadable one look the same. */
    function GetTaskById(id: Id, u: User): (r: Option<Task>)
      reads db
      requires db.Valid()
      ensures r.Some? ==> r.value in db.tasks && r.value.id == id
      ensures r.Some? <==> db.TaskWith(id, u, (t: Task, p: Project, u: User) => CanAccessTaskViaProject(p, u))
    {
      FindMembers(db.tasks, TaskKey);
      FindMembers(db.projects, ProjectKey);
      match Find(db.tasks, TaskKey, id)
      case None => None
      case Some(t) =>
        TaskProjectExists(db, t);
        var p := Find(db.projects, ProjectKey, t.projectId).value;
        if CanAccessTaskViaProject(p, u) then Some(t) else None
    }

    /** `createTask`: only for ADMIN or the project's creator; the new task
        belongs to the project and always has an assignee. A null priority or
        status fails in `convertToEntity` and nothing is saved. */
    method CreateTask(projectId: Id, d: TaskDto, u: User) returns (r: Result<Option<Task>>)
      requires db.Valid()
      modifies db`tasks, db`nextTaskId
      ensures db.Valid()
      ensures r.Err? <==> (exists p :: p in db.projects && p.id == projectId && CanModifyProject(p, u)) && !HasEnums(d)
      ensures r.Err? ==> r.error == NullValue
      ensures (r.Ok? && r.value.Some?) <==>
                (exists p :: p in db.projects && p.id == projectId && CanModifyProject(p, u)) && HasEnums(d)
      ensures !(r.Ok? && r.value.Some?) ==> db.tasks == old(db.tasks) && db.nextTaskId == old(db.nextTaskId)
      ensures r.Ok? && r.value.Some? ==>
                var t := r.value.value;
                && db.tasks == old(db.tasks) + [t] && db.nextTaskId == old(db.nextTaskId) + 1
                && t.id == old(db.nextTaskId) && t.projectId == projectId
                && t.title == d.title && t.description == d.description
                && d.priority == Some(t.priority) && d.status == Some(t.status) && t.dueDate == d.dueDate
                && exists p :: p in db.projects && p.id == projectId
                               && t.assigneeId == Some(DetermineAssignee(d, u, p, db.users).id)
    {
      FindMembers(db.projects, ProjectKey);
      match Find(db.projects, ProjectKey, projectId)
      case None =>
        r := Ok(None);
      case Some(p) =>
        if !CanModifyProject(p, u) {
          r := Ok(None);
        } else if !HasEnums(d) {
          r := Err(NullValue);
        } else {
          var a := DetermineAssignee(d, u, p, db.users);
          var t := Task(db.nextTaskId, projectId, d.title, d.description, d.priority.value, d.status.value, d.dueDate, Some(a.id));
          db.SaveTask(t);
          r := Ok(Some(t));
        }
    }

    /** `updateTask`: only for ADMIN, the project's creator or the task's
        assignee; overwrites the request's fields and, when allowed, the assignee.
        A null priority or status fails and the transaction changes nothing. */
    method UpdateTask(id: Id, d: TaskDto, u: User) returns (r: Result<Option<Task>>)
      requires db.Valid()
      modifies db`tasks
      ensures db.Valid()
      ensures r.Err? <==> old(db.TaskWith(id, u, CanModifyTask)) && !HasEnums(d)
      ensures r.Err? ==> r.error == NullValue
      ensures (r.Ok? && r.value.Some?) <==> old(db.TaskWith(id, u, CanModifyTask)) && HasEnums(d)
      ensures !(r.Ok? && r.value.Some?) ==> db.tasks == old(db.tasks)
      ensures r.Ok? && r.value.Some? ==>
                && HasEnums(d)
                && db.tasks == ReplaceById(old(db.tasks), TaskKey, r.value.value)
                && exists t, p :: t in old(db.tasks) && t.id == id && p in db.projects && p.id == t.projectId
                                  && r.value.value == UpdatedTask(t, d, UpdateAssignee(d, u, p, db.users))
    {
      var i := IndexOf(db.tasks, TaskKey, id);
      if i.None? {
        return Ok(None);
      }
      var t := db.tasks[i.value];
      assert t in db.tasks;
      TaskProjectExists(db, t);
      var p := Find(db.projects, ProjectKey, t.projectId).value;
      db.TaskWithAt(i.value, p, u, CanModifyTask);
      if !CanModifyTask(t, p, u) {
        return Ok(None);
      }
      if !HasEnums(d) {
        return Err(NullValue);
      }
      var t' := UpdatedTask(t, d, UpdateAssignee(d, u, p, db.users));
      db.ReplaceTask(i.value, t');
      r := Ok(Some(t'));
    }

    /** `updateTaskStatus`: the same permission as `updateTask`; changes only
        the status, parsed case-insensitively. An unknown name gives empty
        and no change; a missing status fails and the transaction changes nothing. */
    method UpdateTaskStatus(id: Id, statusName: Option<string>, u: User) returns (r: Result<Option<Task>>)
      requires db.Valid()
      modifies db`tasks
      ensures db.Valid()
      ensures r == Ok(None) || r == Err(NullValue) || r.Ok?
      ensures !old(db.TaskWith(id, u, CanModifyTask)) ==> r == Ok(None)
      ensures r.Err? <==> old(db.TaskWith(id, u, CanModifyTask)) && statusName.None?
      ensures (r.Ok? && r.value.Some?) <==>
                old(db.TaskWith(id, u, CanModifyTask)) && statusName.Some? && ParseStatus(statusName.value).Some?
      ensures !(r.Ok? && r.value.Some?) ==> db.tasks == old(db.tasks)
      ensures r.Ok? && r.value.Some? ==>
                && db.tasks == ReplaceById(old(db.tasks), TaskKey, r.value.value)
                && exists t :: t in old(db.tasks) && t.id == id
                               && r.value.value == t.(status := ParseStatus(statusName.value).value)
    {
      var i := IndexOf(db.tasks, TaskKey, id);
      if i.None? {
        return Ok(None);
      }
      var t := db.tasks[i.value];
      assert t in db.tasks;
      TaskProjectExists(db, t);
      var p := Find(db.projects, ProjectKey, t.projectId).value;
      db.TaskWithAt(i.value, p, u, CanModifyTask);
      if !CanModifyTask(t, p, u) {
        return Ok(None);
      }
      if statusName.None? {
        return Err(NullValue);
      }
      var st := ParseStatus(statusName.value);
      if st.None? {
        return Ok(None);
      }
      var t' := t.(status := st.value);
      db.ReplaceTask(i.value, t');
      r := Ok(Some(t'));
    }

    /** `deleteTask`: the same permission as `updateTask` (the assignee may
        delete); the task's comments and time entries go with it. */
    method DeleteTask(id: Id, u: User) returns (ok: bool)
      requires db.Valid()
      modifies db`tasks, db`comments, db`timeEntries
      ensures db.Valid()
      ensures ok <==> old(db.TaskWith(id, u, CanModifyTask))
      ensures !ok ==> db.tasks == old(db.tasks) && db.comments == old(db.comments) && db.timeEntries == old(db.timeEntries)
      ensures ok ==>
                && db.tasks == RemoveById(old(db.tasks), TaskKey, id)
                && db.comments == Detach(old(db.comments), CommentTaskId, id)
                && db.timeEntries == Detach(old(db.timeEntries), EntryTaskId, id)
    {
      var i := IndexOf(db.tasks, TaskKey, id);
      if i.None? {
        return false;
      }
      var t := db.tasks[i.value];
      assert t in db.tasks;
      TaskProjectExists(db, t);
      var p := Find(db.projects, ProjectKey, t.projectId).value;
      db.TaskWithAt(i.value, p, u, CanModifyTask);
      if !CanModifyTask(t, p, u) {
        return false;
      }
      db.DeleteTaskRows(id);
      ok := true;
    }

    /** `getTasksAssignedToMe`: no access check; only the caller's tasks. */
    function GetTasksAssignedToMe(u: User): (r: seq<Task>)
      reads db
      ensures forall t :: t in r <==> t in db.tasks && t.assigneeId == Some(u.id)
    {
      FindByAssignedTo(db.tasks, u.id)
    }

    /** `getTasksByStatus`. */
    function GetTasksByStatus(projectId: Id, s: Status, u: User): (r: seq<Task>)
      reads db
      requires db.Valid()
      ensures db.ProjectWith(projectId, u, CanAccessProject) ==> r == FindByProjectIdAndStatus(db.tasks, projectId, s)
      ensures !db.ProjectWith(projectId, u, CanAccessProject) ==> r == []
    {
      Gated(projectId, u, FindByProjectIdAndStatus(db.tasks, projectId, s))
    }

    /** `getTasksByPriority`. */
    function GetTasksByPriority(projectId: Id, pr: Priority, u: User): (r: seq<Task>)
      reads db
      requires db.Valid()
      ensures db.ProjectWith(projectId, u, CanAccessProject) ==> r == FindByProjectIdAndPriorityOrderByCreatedAtDesc(db.tasks, projectId, pr)
      ensures !db.ProjectWith(projectId, u, CanAccessProject) ==> r == []
    {
      Gated(projectId, u, FindByProjectIdAndPriorityOrderByCreatedAtDesc(db.tasks, projectId, pr))
    }

    /** `getOverdueTasks`: every overdue task for ADMIN, the caller's own otherwise. */
    function GetOverdueTasks(u: User, today: Date): (r: seq<Task>)
      reads db
      ensures forall t :: t in r <==> t in db.tasks && IsOverdue(t, today) && (u.role == Role.ADMIN || t.assigneeId == Some(u.id))
      ensures SortedBy(r, DueKey)
      ensures multiset(r) <= multiset(db.tasks)
    {
      if u.role == Role.ADMIN then FindOverdueTasks(db.tasks, today) else FindOverdueTasksByUser(db.tasks, u.id, today)
    }

    /** `getTasksDueToday`: every task due today for ADMIN, the caller's own otherwise. */
    function GetTasksDueToday(u: User, today: Date): (r: seq<Task>)
      reads db
      ensures forall t :: t in r <==> t in db.tasks && IsDueToday(t, today) && (u.role == Role.ADMIN || t.assigneeId == Some(u.id))
    {
      if u.role == Role.ADMIN then FindTasksDueToday(db.tasks, today) else FindTasksDueTodayByUser(db.tasks, u.id, today)
    }

    /** `getHighPriorityIncompleteTasks`: HIGH and not COMPLETED, newest first;
        for anyone but ADMIN only the caller's own. */
    function GetHighPriorityIncompleteTasks(u: User): (r: seq<Task>)
      reads db
      requires db.Valid()
      ensures forall t :: t in r <==>
                t in db.tasks && t.priority == HIGH && t.status != COMPLETED && (u.role == Role.ADMIN || t.assigneeId == Some(u.id))
      ensures NewestFirst(r, TaskKey)
    {
      if u.role == Role.ADMIN then FindByPriorityAndStatusNotOrderByCreatedAtDesc(db.tasks, HIGH, COMPLETED)
      else FindByPriorityAndStatusNotAndAssignedToOrderByCreatedAtDesc(db.tasks, HIGH, COMPLETED, u.id)
    }

    // ---------------------------------------------------------------- properties

    /** The assignee of a task in someone else's PRIVATE project may update and
        delete it, yet `getTaskById` answers as if it did not exist. */
    lemma AssigneeCannotReadPrivateTask(t: Task, u: User)
      requires db.Valid() && t in db.tasks
      requires u.role == Role.USER && t.assigneeId == Some(u.id)
      requires forall p :: p in db.projects && p.id == t.projectId ==> p.visibility == PRIVATE && p.creatorId != u.id
      ensures db.TaskWith(t.id, u, CanModifyTask)
      ensures GetTaskById(t.id, u).None?
    {
      TaskProjectExists(db, t);
      var p := Find(db.projects, ProjectKey, t.projectId).value;
      assert CanModifyTask(t, p, u);
    }

    /** The non-ADMIN views are the ADMIN views restricted to the caller's tasks. */
    lemma UserViewsRestrictAdminViews(u: User, admin: User, today: Date)
      requires db.Valid()
      requires admin.role == Role.ADMIN && u.role == Role.USER
      ensures forall t :: t in GetOverdueTasks(u, today) <==> t in GetOverdueTasks(admin, today) && t.assigneeId == Some(u.id)
      ensures forall t :: t in GetTasksDueToday(u, today) <==> t in GetTasksDueToday(admin, today) && t.assigneeId == Some(u.id)
      ensures GetHighPriorityIncompleteTasks(u) == Filter(GetHighPriorityIncompleteTasks(admin), AssignedTo(u.id))
    {
      HighPriorityForUserIsRestriction(db.tasks, HIGH, COMPLETED, u.id);
    }
  }
}
