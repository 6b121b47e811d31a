/** The relational database the repositories read and write: one table per
    entity, each kept in insertion order, with its own IDENTITY counter.
    `Store.Valid` collects the constraints every service operation relies on
    and preserves: unique increasing ids, foreign keys (a task, milestone or
    membership names an existing project; a comment or time entry names an
    existing task), one membership row per (project, user), an OWNER row for
    every project's creator, unique e-mail addresses and positive hours. */
module Store {
  import opened Common
  import opened Seqs
  import opened Entities
  import opened TimeEntryRepository

  // Foreign keys, as function values for the generic table lemmas.
  function TaskProjectId(t: Task): Id { t.projectId }
  function MilestoneProjectId(m: Milestone): Id { m.projectId }
  function MemberProjectId(m: ProjectMember): Id { m.projectId }
  function CommentTaskId(c: Comment): Id { c.taskId }
  function EntryTaskId(e: TimeEntry): Id { e.taskId }

  /** Ids increase along the table and stay below its counter. */
  ghost predicate Keyed<T>(s: seq<T>, idOf: T -> Id, next: Id) {
    IdsIncreasing(s, idOf) && IdsBelow(s, idOf, next)
  }

  /** The unique constraint on `users.email`. */
  ghost predicate EmailsUnique(us: seq<User>) {
    forall u, v :: u in us && v in us && u.email == v.email ==> u == v
  }

  /** At most one membership row per (project, user). */
  ghost predicate PairsUnique(ms: seq<ProjectMember>) {
    forall m, n :: m in ms && n in ms && m.projectId == n.projectId && m.userId == n.userId ==> m == n
  }

  /** `m` records the creator of `p` as its OWNER. */
  predicate IsOwnerRow(m: ProjectMember, p: Project) {
    m.projectId == p.id && m.userId == p.creatorId && m.role == OWNER
  }

  /** Every project's creator holds an OWNER membership of it. */
  ghost predicate OwnersPresent(ps: seq<Project>, ms: seq<ProjectMember>) {
    forall p :: p in ps ==> exists m :: m in ms && IsOwnerRow(m, p)
  }

  /** The membership table's constraints against the project table. */
  ghost predicate MembersOk(ms: seq<ProjectMember>, next: Id, ps: seq<Project>) {
    && Keyed(ms, MemberKey, next)
    && RefsIn(ms, MemberProjectId, IdSet(ps, ProjectKey))
    && PairsUnique(ms)
    && OwnersPresent(ps, ms)
  }

  /** The milestone table's constraints against the project table. */
  ghost predicate MilestonesOk(ms: seq<Milestone>, next: Id, ps: seq<Project>) {
    Keyed(ms, MilestoneKey, next) && RefsIn(ms, MilestoneProjectId, IdSet(ps, ProjectKey))
  }

  /** The task table's constraints against the project table. */
  ghost predicate TasksOk(ts: seq<Task>, next: Id, ps: seq<Project>) {
    Keyed(ts, TaskKey, next) && RefsIn(ts, TaskProjectId, IdSet(ps, ProjectKey))
  }

  /** The comment table's constraints against the task table. */
  ghost predicate CommentsOk(cs: seq<Comment>, next: Id, ts: seq<Task>) {
    Keyed(cs, CommentKey, next) && RefsIn(cs, CommentTaskId, IdSet(ts, TaskKey))
  }

  /** The time-entry table's constraints against the task table. */
  ghost predicate TimeEntriesOk(es: seq<TimeEntry>, next: Id, ts: seq<Task>) {
    Keyed(es, TimeEntryKey, next) && RefsIn(es, EntryTaskId, IdSet(ts, TaskKey)) && AllPositive(es)
  }

  /** All tables' constraints together. */
  ghost predicate TablesOk(us: seq<User>, nextU: Id, ps: seq<Project>, nextP: Id,
                           ms: seq<ProjectMember>, nextM: Id, ts: seq<Task>, nextT: Id,
                           mls: seq<Milestone>, nextMl: Id, cs: seq<Comment>, nextC: Id,
                           es: seq<TimeEntry>, nextE: Id, ns: seq<Notification>, nextN: Id) {
    && Keyed(us, UserKey, nextU) && EmailsUnique(us)
    && Keyed(ps, ProjectKey, nextP)
    && MembersOk(ms, nextM, ps)
    && TasksOk(ts, nextT, ps)
    && MilestonesOk(mls, nextMl, ps)
    && CommentsOk(cs, nextC, ts)
    && TimeEntriesOk(es, nextE, ts)
    && Keyed(ns, NotificationKey, nextN)
  }

  class Store {
    var users: seq<User>
    var nextUserId: Id
    var projects: seq<Project>
    var nextProjectId: Id
    var members: seq<ProjectMember>
    var nextMemberId: Id
    var tasks: seq<Task>
    var nextTaskId: Id
    var milestones: seq<Milestone>
    var nextMilestoneId: Id
    var comments: seq<Comment>
    var nextCommentId: Id
    var timeEntries: seq<TimeEntry>
    var nextTimeEntryId: Id
    var notifications: seq<Notification>
    var nextNotificationId: Id

    ghost predicate UsersValid()
      reads this`users, this`nextUserId
    {
      Keyed(users, UserKey, nextUserId) && EmailsUnique(users)
    }

    ghost predicate ProjectsValid()
      reads this`projects, this`nextProjectId
    {
      Keyed(projects, ProjectKey, nextProjectId)
    }

    ghost predicate MembersValid()
      reads this`members, this`nextMemberId, this`projects
    {
      MembersOk(members, nextMemberId, projects)
    }

    ghost predicate TasksValid()
      reads this`tasks, this`nextTaskId, this`projects
    {
      TasksOk(tasks, nextTaskId, projects)
    }

    ghost predicate MilestonesValid()
      reads this`milestones, this`nextMilestoneId, this`projects
    {
      MilestonesOk(milestones, nextMilestoneId, projects)
    }

    ghost predicate CommentsValid()
      reads this`comments, this`nextCommentId, this`tasks
    {
      CommentsOk(comments, nextCommentId, tasks)
    }

    ghost predicate TimeEntriesValid()
      reads this`timeEntries, this`nextTimeEntryId, this`tasks
    {
      TimeEntriesOk(timeEntries, nextTimeEntryId, tasks)
    }

    ghost predicate NotificationsValid()
      reads this`notifications, this`nextNotificationId
    {
      Keyed(notifications, NotificationKey, nextNotificationId)
    }

    ghost predicate Valid()
      reads this
    {
      TablesOk(users, nextUserId, projects, nextProjectId, members, nextMemberId, tasks, nextTaskId,
               milestones, nextMilestoneId, comments, nextCommentId, timeEntries, nextTimeEntryId,
               notifications, nextNotificationId)
    }

    /** `taskRepository.delete` with the cascade to the task's comments and
        time entries. */
    method DeleteTaskRows(id: Id)
      requires Valid()
      modifies this`tasks, this`comments, this`timeEntries
      ensures Valid()
      ensures tasks == RemoveById(old(tasks), TaskKey, id)
      ensures comments == Detach(old(comments), CommentTaskId, id)
      ensures timeEntries == Detach(old(timeEntries), EntryTaskId, id)
    {
      DetachComments(id);
      DetachTimeEntries(id);
      RemoveTaskRow(id);
    }

    /** Deletes the comments on task `id`. */
    method DetachComments(id: Id)
      requires Valid()
      modifies this`comments
      ensures Valid()
      ensures comments == Detach(old(comments), CommentTaskId, id)
    {
      comments := Detach(comments, CommentTaskId, id);
      ValidAfterCommentsFiltered(old(comments), RefIsNot(CommentTaskId, id));
    }

    /** Deletes the time entries on task `id`. */
    method DetachTimeEntries(id: Id)
      requires Valid()
      modifies this`timeEntries
      ensures Valid()
      ensures timeEntries == Detach(old(timeEntries), EntryTaskId, id)
    {
      timeEntries := Detach(timeEntries, EntryTaskId, id);
      ValidAfterTimeEntriesFiltered(old(timeEntries), RefIsNot(EntryTaskId, id));
    }

    /** Deletes task `id`, once nothing refers to it any more. */
    method RemoveTaskRow(id: Id)
      requires Valid()
      requires forall c :: c in comments ==> c.taskId != id
      requires forall e :: e in timeEntries ==> e.taskId != id
      modifies this`tasks
      ensures Valid()
      ensures tasks == RemoveById(old(tasks), TaskKey, id)
    {
      tasks := RemoveById(tasks, TaskKey, id);
      ValidAfterTasksFiltered(old(tasks), IdIsNot(TaskKey, id));
    }

    /** `projectRepository.save` of a new project followed by
        `projectMemberRepository.save` of its creator's OWNER row. */
    method SaveProjectWithOwner(p: Project) returns (m: ProjectMember)
      requires Valid() && p.id == nextProjectId
      modifies this`projects, this`nextProjectId, this`members, this`nextMemberId
      ensures Valid()
      ensures m == ProjectMember(old(nextMemberId), p.id, p.creatorId, OWNER)
      ensures projects == old(projects) + [p] && nextProjectId == old(nextProjectId) + 1
      ensures members == old(members) + [m] && nextMemberId == old(nextMemberId) + 1
    {
      m := ProjectMember(nextMemberId, p.id, p.creatorId, OWNER);
      projects, nextProjectId := projects + [p], nextProjectId + 1;
      members, nextMemberId := members + [m], nextMemberId + 1;
      ValidAfterProjectSaved(old(projects), old(nextProjectId), old(members), old(nextMemberId), p, m);
    }

    /** `projectMemberRepository.save` of a row for a pair not yet present. */
    method SaveMember(m: ProjectMember)
      requires Valid() && m.id == nextMemberId
      requires exists p :: p in projects && p.id == m.projectId
      requires forall n :: n in members ==> !(n.projectId == m.projectId && n.userId == m.userId)
      modifies this`members, this`nextMemberId
      ensures Valid()
      ensures members == old(members) + [m] && nextMemberId == old(nextMemberId) + 1
    {
      members, nextMemberId := members + [m], nextMemberId + 1;
      ValidAfterMemberSaved(old(members), old(nextMemberId), m);
    }

    /** `projectRepository.deleteById` with the cascade to the project's
        memberships, milestones and tasks, and to those tasks' comments and
        time entries. */
    method DeleteProjectRows(pid: Id)
      requires Valid()
      modifies this`projects, this`members, this`tasks, this`milestones, this`comments, this`timeEntries
      ensures Valid()
      ensures projects == RemoveById(old(projects), ProjectKey, pid)
      ensures members == Detach(old(members), MemberProjectId, pid)
      ensures milestones == Detach(old(milestones), MilestoneProjectId, pid)
      ensures tasks == Detach(old(tasks), TaskProjectId, pid)
      ensures comments == KeepRefsIn(old(comments), CommentTaskId, IdSet(tasks, TaskKey))
      ensures timeEntries == KeepRefsIn(old(timeEntries), EntryTaskId, IdSet(tasks, TaskKey))
    {
      DeleteProjectTasks(pid);
      DetachMilestones(pid);
      RemoveProjectRow(pid);
    }

    /** Deletes the tasks of project `pid` together with their comments and
        time entries. */
    method DeleteProjectTasks(pid: Id)
      requires Valid()
      modifies this`tasks, this`comments, this`timeEntries
      ensures Valid()
      ensures tasks == Detach(old(tasks), TaskProjectId, pid)
      ensures comments == KeepRefsIn(old(comments), CommentTaskId, IdSet(tasks, TaskKey))
      ensures timeEntries == KeepRefsIn(old(timeEntries), EntryTaskId, IdSet(tasks, TaskKey))
    {
      var kept := IdSet(Detach(tasks, TaskProjectId, pid), TaskKey);
      KeepComments(kept);
      KeepTimeEntries(kept);
      DetachTasks(pid);
    }

    /** Keeps only the comments on the tasks `kept`. */
    method KeepComments(kept: set<Id>)
      requires Valid()
      modifies this`comments
      ensures Valid()
      ensures comments == KeepRefsIn(old(comments), CommentTaskId, kept)
    {
      comments := KeepRefsIn(comments, CommentTaskId, kept);
      ValidAfterCommentsFiltered(old(comments), RefIsIn(CommentTaskId, kept));
    }

    /** Keeps only the time entries on the tasks `kept`. */
    method KeepTimeEntries(kept: set<Id>)
      requires Valid()
      modifies this`timeEntries
      ensures Valid()
      ensures timeEntries == KeepRefsIn(old(timeEntries), EntryTaskId, kept)
    {
      timeEntries := KeepRefsIn(timeEntries, EntryTaskId, kept);
      ValidAfterTimeEntriesFiltered(old(timeEntries), RefIsIn(EntryTaskId, kept));
    }

    /** Deletes the tasks of project `pid`, once no comment or time entry is on them. */
    method DetachTasks(pid: Id)
      requires Valid()
      requires RefsIn(comments, CommentTaskId, IdSet(Detach(tasks, TaskProjectId, pid), TaskKey))
      requires RefsIn(timeEntries, EntryTaskId, IdSet(Detach(tasks, TaskProjectId, pid), TaskKey))
      modifies this`tasks
      ensures Valid()
      ensures tasks == Detach(old(tasks), TaskProjectId, pid)
    {
      tasks := Detach(tasks, TaskProjectId, pid);
      ValidAfterTasksFiltered(old(tasks), RefIsNot(TaskProjectId, pid));
    }

    /** Deletes the milestones of project `pid`. */
    method DetachMilestones(pid: Id)
      requires Valid()
      modifies this`milestones
      ensures Valid()
      ensures milestones == Detach(old(milestones), MilestoneProjectId, pid)
    {
      milestones := Detach(milestones, MilestoneProjectId, pid);
      ValidAfterMilestonesFiltered(old(milestones), RefIsNot(MilestoneProjectId, pid));
    }

    /** The tables as `RemoveProjectRow` leaves them, from tables `ps0` and
        `ms0` that kept the constraints, keep them. */
    lemma ValidAfterRemoval(pid: Id, ps0: seq<Project>, ms0: seq<ProjectMember>)
      requires TablesOk(users, nextUserId, ps0, nextProjectId, ms0, nextMemberId, tasks, nextTaskId,
                        milestones, nextMilestoneId, comments, nextCommentId, timeEntries, nextTimeEntryId,
                        notifications, nextNotificationId)
      requires forall t :: t in tasks ==> t.projectId != pid
      requires forall m :: m in milestones ==> m.projectId != pid
      requires projects == RemoveById(ps0, ProjectKey, pid) && members == Detach(ms0, MemberProjectId, pid)
      ensures Valid()
    {
      ProjectRemoved(ps0, nextProjectId, ms0, nextMemberId, tasks, nextTaskId, milestones, nextMilestoneId, pid);
    }

    /** Deletes project `pid` and its memberships, once no task or milestone
        belongs to it. */
    method RemoveProjectRow(pid: Id)
      requires Valid()
      requires forall t :: t in tasks ==> t.projectId != pid
      requires forall m :: m in milestones ==> m.projectId != pid
      modifies this`projects, this`members
      ensures Valid()
      ensures projects == RemoveById(old(projects), ProjectKey, pid)
      ensures members == Detach(old(members), MemberProjectId, pid)
    {
      projects, members := RemoveById(projects, ProjectKey, pid), Detach(members, MemberProjectId, pid);
      ValidAfterRemoval(pid, old(projects), old(members));
    }

    // ------------------------------------------------------------ repository writes
    // Each write assigns the new table first; a lemma about the state it
    // leaves then shows, from the old table, that the store stays valid.

    /** `userRepository.save` of a new user whose e-mail nobody has. */
    method SaveUser(v: User)
      requires Valid() && v.id == nextUserId
      requires forall w :: w in users ==> w.email != v.email
      modifies this`users, this`nextUserId
      ensures Valid()
      ensures users == old(users) + [v] && nextUserId == old(nextUserId) + 1
    {
      users, nextUserId := users + [v], nextUserId + 1;
      ValidAfterUserSaved(old(users), old(nextUserId), v);
    }

    /** The store is valid again once the user is saved, given the tables as before. */
    lemma ValidAfterUserSaved(us0: seq<User>, next0: Id, v: User)
      requires TablesOk(us0, next0, projects, nextProjectId, members, nextMemberId, tasks, nextTaskId,
                        milestones, nextMilestoneId, comments, nextCommentId, timeEntries, nextTimeEntryId,
                        notifications, nextNotificationId)
      requires v.id == next0 && forall w :: w in us0 ==> w.email != v.email
      requires users == us0 + [v] && nextUserId == next0 + 1
      ensures Valid()
    {
      KeyedAppend(us0, UserKey, next0, v);
    }

    /** `projectRepository.save` of the loaded project at `i`, changed in
        place with its id and creator kept. */
    method ReplaceProject(i: nat, p: Project)
      requires Valid() && i < |projects|
      requires p.id == projects[i].id && p.creatorId == projects[i].creatorId
      modifies this`projects
      ensures Valid()
      ensures projects == ReplaceById(old(projects), ProjectKey, p)
    {
      projects := projects[i := p];
      ValidAfterProjectReplaced(old(projects), i, p);
    }

    /** The store is valid again once the project is replaced, given the tables as before. */
    lemma ValidAfterProjectReplaced(ps0: seq<Project>, i: nat, p: Project)
      requires TablesOk(users, nextUserId, ps0, nextProjectId, members, nextMemberId, tasks, nextTaskId,
                        milestones, nextMilestoneId, comments, nextCommentId, timeEntries, nextTimeEntryId,
                        notifications, nextNotificationId)
      requires i < |ps0| && p.id == ps0[i].id && p.creatorId == ps0[i].creatorId
      requires projects == ps0[i := p]
      ensures Valid()
      ensures projects == ReplaceById(ps0, ProjectKey, p)
    {
      KeyedReplace(ps0, ProjectKey, nextProjectId, i, p);
      OwnersAfterProjectUpdate(ps0, members, i, p);
    }

    /** `projectMemberRepository.delete` of row `r`, which is not its
        project creator's. */
    method RemoveMember(r: ProjectMember)
      requires Valid() && r in members
      requires forall p :: p in projects && p.id == r.projectId ==> p.creatorId != r.userId
      modifies this`members
      ensures Valid()
      ensures members == RemoveById(old(members), MemberKey, r.id)
    {
      members := RemoveById(members, MemberKey, r.id);
      ValidAfterMemberRemoved(old(members), r);
    }

    /** The store is valid again once the member is removed, given the tables as before. */
    lemma ValidAfterMemberRemoved(ms0: seq<ProjectMember>, r: ProjectMember)
      requires TablesOk(users, nextUserId, projects, nextProjectId, ms0, nextMemberId, tasks, nextTaskId,
                        milestones, nextMilestoneId, comments, nextCommentId, timeEntries, nextTimeEntryId,
                        notifications, nextNotificationId)
      requires r in ms0 && forall p :: p in projects && p.id == r.projectId ==> p.creatorId != r.userId
      requires members == RemoveById(ms0, MemberKey, r.id)
      ensures Valid()
    {
      KeyedRemove(ms0, MemberKey, nextMemberId, r.id);
      MemberRemoved(projects, ms0, nextMemberId, r);
      RefsFilter(ms0, MemberProjectId, IdSet(projects, ProjectKey), IdIsNot(MemberKey, r.id));
    }

    /** `taskRepository.save` of a new task of an existing project. */
    method SaveTask(t: Task)
      requires Valid() && t.id == nextTaskId
      requires exists p :: p in projects && p.id == t.projectId
      modifies this`tasks, this`nextTaskId
      ensures Valid()
      ensures tasks == old(tasks) + [t] && nextTaskId == old(nextTaskId) + 1
    {
      tasks, nextTaskId := tasks + [t], nextTaskId + 1;
      ValidAfterTaskSaved(old(tasks), old(nextTaskId), t);
    }

    /** The store is valid again once the task is saved, given the tables as before. */
    lemma ValidAfterTaskSaved(ts0: seq<Task>, next0: Id, t: Task)
      requires TablesOk(users, nextUserId, projects, nextProjectId, members, nextMemberId, ts0, next0,
                        milestones, nextMilestoneId, comments, nextCommentId, timeEntries, nextTimeEntryId,
                        notifications, nextNotificationId)
      requires t.id == next0 && exists p :: p in projects && p.id == t.projectId
      requires tasks == ts0 + [t] && nextTaskId == next0 + 1
      ensures Valid()
    {
      KeyedAppend(ts0, TaskKey, next0, t);
      assert TaskProjectId(t) in IdSet(projects, ProjectKey);
      RefsGrow(comments, CommentTaskId, IdSet(ts0, TaskKey), IdSet(tasks, TaskKey));
      RefsGrow(timeEntries, EntryTaskId, IdSet(ts0, TaskKey), IdSet(tasks, TaskKey));
    }

    /** `taskRepository.save` of the loaded task at `i`, changed in place
        with its id and project kept. */
    method ReplaceTask(i: nat, t: Task)
      requires Valid() && i < |tasks|
      requires t.id == tasks[i].id && t.projectId == tasks[i].projectId
      modifies this`tasks
      ensures Valid()
      ensures tasks == ReplaceById(old(tasks), TaskKey, t)
    {
      tasks := tasks[i := t];
      ValidAfterTaskReplaced(old(tasks), i, t);
    }

    /** The store is valid again once the task is replaced, given the tables as before. */
    lemma ValidAfterTaskReplaced(ts0: seq<Task>, i: nat, t: Task)
      requires TablesOk(users, nextUserId, projects, nextProjectId, members, nextMemberId, ts0, nextTaskId,
                        milestones, nextMilestoneId, comments, nextCommentId, timeEntries, nextTimeEntryId,
                        notifications, nextNotificationId)
      requires i < |ts0| && t.id == ts0[i].id && t.projectId == ts0[i].projectId
      requires tasks == ts0[i := t]
      ensures Valid()
      ensures tasks == ReplaceById(ts0, TaskKey, t)
    {
      KeyedReplace(ts0, TaskKey, nextTaskId, i, t);
      assert ts0[i] in ts0;
      assert TaskProjectId(t) in IdSet(projects, ProjectKey);
    }

    /** `milestoneRepository.save` of a new milestone of an existing project. */
    method SaveMilestone(m: Milestone)
      requires Valid() && m.id == nextMilestoneId
      requires exists p :: p in projects && p.id == m.projectId
      modifies this`milestones, this`nextMilestoneId
      ensures Valid()
      ensures milestones == old(milestones) + [m] && nextMilestoneId == old(nextMilestoneId) + 1
    {
      milestones, nextMilestoneId := milestones + [m], nextMilestoneId + 1;
      ValidAfterMilestoneSaved(old(milestones), old(nextMilestoneId), m);
    }

    /** The store is valid again once the milestone is saved, given the tables as before. */
    lemma ValidAfterMilestoneSaved(ms0: seq<Milestone>, next0: Id, m: Milestone)
      requires TablesOk(users, nextUserId, projects, nextProjectId, members, nextMemberId, tasks, nextTaskId,
                        ms0, next0, comments, nextCommentId, timeEntries, nextTimeEntryId,
                        notifications, nextNotificationId)
      requires m.id == next0 && exists p :: p in projects && p.id == m.projectId
      requires milestones == ms0 + [m] && nextMilestoneId == next0 + 1
      ensures Valid()
    {
      KeyedAppend(ms0, MilestoneKey, next0, m);
      assert MilestoneProjectId(m) in IdSet(projects, ProjectKey);
    }

    /** `milestoneRepository.save` of the loaded milestone at `i`, changed in
        place with its id and project kept. */
    method ReplaceMilestone(i: nat, m: Milestone)
      requires Valid() && i < |milestones|
      requires m.id == milestones[i].id && m.projectId == milestones[i].projectId
      modifies this`milestones
      ensures Valid()
      ensures milestones == ReplaceById(old(milestones), MilestoneKey, m)
    {
      milestones := milestones[i := m];
      ValidAfterMilestoneReplaced(old(milestones), i, m);
    }

    /** The store is valid again once the milestone is replaced, given the tables as before. */
    lemma ValidAfterMilestoneReplaced(ms0: seq<Milestone>, i: nat, m: Milestone)
      requires TablesOk(users, nextUserId, projects, nextProjectId, members, nextMemberId, tasks, nextTaskId,
                        ms0, nextMilestoneId, comments, nextCommentId, timeEntries, nextTimeEntryId,
                        notifications, nextNotificationId)
      requires i < |ms0| && m.id == ms0[i].id && m.projectId == ms0[i].projectId
      requires milestones == ms0[i := m]
      ensures Valid()
      ensures milestones == ReplaceById(ms0, MilestoneKey, m)
    {
      KeyedReplace(ms0, MilestoneKey, nextMilestoneId, i, m);
      assert ms0[i] in ms0;
      assert MilestoneProjectId(m) in IdSet(projects, ProjectKey);
    }

    /** `milestoneRepository.delete` of the milestone with id `id`. */
    method RemoveMilestone(id: Id)
      requires Valid()
      modifies this`milestones
      ensures Valid()
      ensures milestones == RemoveById(old(milestones), MilestoneKey, id)
    {
      milestones := RemoveById(milestones, MilestoneKey, id);
      ValidAfterMilestonesFiltered(old(milestones), IdIsNot(MilestoneKey, id));
    }

    /** The store is valid again once the milestones are filtered, given the tables as before. */
    lemma ValidAfterMilestonesFiltered(ms0: seq<Milestone>, f: Milestone -> bool)
      requires TablesOk(users, nextUserId, projects, nextProjectId, members, nextMemberId, tasks, nextTaskId,
                        ms0, nextMilestoneId, comments, nextCommentId, timeEntries, nextTimeEntryId,
                        notifications, nextNotificationId)
      requires milestones == Filter(ms0, f)
      ensures Valid()
    {
      KeyedFilter(ms0, MilestoneKey, nextMilestoneId, f);
      RefsFilter(ms0, MilestoneProjectId, IdSet(projects, ProjectKey), f);
    }

    /** `commentRepository.save` of a new comment on an existing task. */
    method SaveComment(c: Comment)
      requires Valid() && c.id == nextCommentId
      requires exists t :: t in tasks && t.id == c.taskId
      modifies this`comments, this`nextCommentId
      ensures Valid()
      ensures comments == old(comments) + [c] && nextCommentId == old(nextCommentId) + 1
    {
      comments, nextCommentId := comments + [c], nextCommentId + 1;
      ValidAfterCommentSaved(old(comments), old(nextCommentId), c);
    }

    /** The store is valid again once the comment is saved, given the tables as before. */
    lemma ValidAfterCommentSaved(cs0: seq<Comment>, next0: Id, c: Comment)
      requires TablesOk(users, nextUserId, projects, nextProjectId, members, nextMemberId, tasks, nextTaskId,
                        milestones, nextMilestoneId, cs0, next0, timeEntries, nextTimeEntryId,
                        notifications, nextNotificationId)
      requires c.id == next0 && exists t :: t in tasks && t.id == c.taskId
      requires comments == cs0 + [c] && nextCommentId == next0 + 1
      ensures Valid()
    {
      KeyedAppend(cs0, CommentKey, next0, c);
      assert CommentTaskId(c) in IdSet(tasks, TaskKey);
    }

    /** `commentRepository.save` of the loaded comment at `i`, changed in
        place with its id and task kept. */
    method ReplaceComment(i: nat, c: Comment)
      requires Valid() && i < |comments|
      requires c.id == comments[i].id && c.taskId == comments[i].taskId
      modifies this`comments
      ensures Valid()
      ensures comments == ReplaceById(old(comments), CommentKey, c)
    {
      comments := comments[i := c];
      ValidAfterCommentReplaced(old(comments), i, c);
    }

    /** The store is valid again once the comment is replaced, given the tables as before. */
    lemma ValidAfterCommentReplaced(cs0: seq<Comment>, i: nat, c: Comment)
      requires TablesOk(users, nextUserId, projects, nextProjectId, members, nextMemberId, tasks, nextTaskId,
                        milestones, nextMilestoneId, cs0, nextCommentId, timeEntries, nextTimeEntryId,
                        notifications, nextNotificationId)
      requires i < |cs0| && c.id == cs0[i].id && c.taskId == cs0[i].taskId
      requires comments == cs0[i := c]
      ensures Valid()
      ensures comments == ReplaceById(cs0, CommentKey, c)
    {
      KeyedReplace(cs0, CommentKey, nextCommentId, i, c);
      assert cs0[i] in cs0;
      assert CommentTaskId(c) in IdSet(tasks, TaskKey);
    }

    /** `commentRepository.delete` of the comment with id `id`. */
    method RemoveComment(id: Id)
      requires Valid()
      modifies this`comments
      ensures Valid()
      ensures comments == RemoveById(old(comments), CommentKey, id)
    {
      comments := RemoveById(comments, CommentKey, id);
      ValidAfterCommentsFiltered(old(comments), IdIsNot(CommentKey, id));
    }

    /** The store is valid again once the comments are filtered, given the tables as before. */
    lemma ValidAfterCommentsFiltered(cs0: seq<Comment>, f: Comment -> bool)
      requires TablesOk(users, nextUserId, projects, nextProjectId, members, nextMemberId, tasks, nextTaskId,
                        milestones, nextMilestoneId, cs0, nextCommentId, timeEntries, nextTimeEntryId,
                        notifications, nextNotificationId)
      requires comments == Filter(cs0, f)
      ensures Valid()
    {
      KeyedFilter(cs0, CommentKey, nextCommentId, f);
      RefsFilter(cs0, CommentTaskId, IdSet(tasks, TaskKey), f);
    }

    /** `timeEntryRepository.save` of a new, positive entry on an existing task. */
    method SaveTimeEntry(e: TimeEntry)
      requires Valid() && e.id == nextTimeEntryId && ValidTimeEntry(e)
      requires exists t :: t in tasks && t.id == e.taskId
      modifies this`timeEntries, this`nextTimeEntryId
      ensures Valid()
      ensures timeEntries == old(timeEntries) + [e] && nextTimeEntryId == old(nextTimeEntryId) + 1
    {
      timeEntries, nextTimeEntryId := timeEntries + [e], nextTimeEntryId + 1;
      ValidAfterTimeEntrySaved(old(timeEntries), old(nextTimeEntryId), e);
    }

    /** The store is valid again once the time entry is saved, given the tables as before. */
    lemma ValidAfterTimeEntrySaved(es0: seq<TimeEntry>, next0: Id, e: TimeEntry)
      requires TablesOk(users, nextUserId, projects, nextProjectId, members, nextMemberId, tasks, nextTaskId,
                        milestones, nextMilestoneId, comments, nextCommentId, es0, next0,
                        notifications, nextNotificationId)
      requires e.id == next0 && ValidTimeEntry(e) && exists t :: t in tasks && t.id == e.taskId
      requires timeEntries == es0 + [e] && nextTimeEntryId == next0 + 1
      ensures Valid()
    {
      KeyedAppend(es0, TimeEntryKey, next0, e);
      assert EntryTaskId(e) in IdSet(tasks, TaskKey);
      assert AllPositive(es0 + [e]);
    }

    /** `notificationRepository.save` of a new notification. */
    method SaveNotification(n: Notification)
      requires Valid() && n.id == nextNotificationId
      modifies this`notifications, this`nextNotificationId
      ensures Valid()
      ensures notifications == old(notifications) + [n] && nextNotificationId == old(nextNotificationId) + 1
    {
      notifications, nextNotificationId := notifications + [n], nextNotificationId + 1;
      ValidAfterNotificationSaved(old(notifications), old(nextNotificationId), n);
    }

    /** The store is valid again once the notification is saved, given the tables as before. */
    lemma ValidAfterNotificationSaved(ns0: seq<Notification>, next0: Id, n: Notification)
      requires TablesOk(users, nextUserId, projects, nextProjectId, members, nextMemberId, tasks, nextTaskId,
                        milestones, nextMilestoneId, comments, nextCommentId, timeEntries, nextTimeEntryId,
                        ns0, next0)
      requires n.id == next0
      requires notifications == ns0 + [n] && nextNotificationId == next0 + 1
      ensures Valid()
    {
      KeyedAppend(ns0, NotificationKey, next0, n);
    }

    /** The store is valid again once the time entries are filtered, given the tables as before. */
    lemma ValidAfterTimeEntriesFiltered(es0: seq<TimeEntry>, f: TimeEntry -> bool)
      requires TablesOk(users, nextUserId, projects, nextProjectId, members, nextMemberId, tasks, nextTaskId,
                        milestones, nextMilestoneId, comments, nextCommentId, es0, nextTimeEntryId,
                        notifications, nextNotificationId)
      requires timeEntries == Filter(es0, f)
      ensures Valid()
    {
      KeyedFilter(es0, TimeEntryKey, nextTimeEntryId, f);
      RefsFilter(es0, EntryTaskId, IdSet(tasks, TaskKey), f);
    }

    /** The store is valid again once the tasks are filtered, given the tables as before. */
    lemma ValidAfterTasksFiltered(ts0: seq<Task>, f: Task -> bool)
      requires TablesOk(users, nextUserId, projects, nextProjectId, members, nextMemberId, ts0, nextTaskId,
                        milestones, nextMilestoneId, comments, nextCommentId, timeEntries, nextTimeEntryId,
                        notifications, nextNotificationId)
      requires tasks == Filter(ts0, f)
      requires RefsIn(comments, CommentTaskId, IdSet(tasks, TaskKey))
      requires RefsIn(timeEntries, EntryTaskId, IdSet(tasks, TaskKey))
      ensures Valid()
    {
      KeyedFilter(ts0, TaskKey, nextTaskId, f);
      RefsFilter(ts0, TaskProjectId, IdSet(projects, ProjectKey), f);
    }

    /** The store is valid again once the project is saved, given the tables as before. */
    lemma ValidAfterProjectSaved(ps0: seq<Project>, nextP0: Id, ms0: seq<ProjectMember>, nextM0: Id,
                                 p: Project, m: ProjectMember)
      requires TablesOk(users, nextUserId, ps0, nextP0, ms0, nextM0, tasks, nextTaskId,
                        milestones, nextMilestoneId, comments, nextCommentId, timeEntries, nextTimeEntryId,
                        notifications, nextNotificationId)
      requires p.id == nextP0 && m == ProjectMember(nextM0, p.id, p.creatorId, OWNER)
      requires projects == ps0 + [p] && nextProjectId == nextP0 + 1
      requires members == ms0 + [m] && nextMemberId == nextM0 + 1
      ensures Valid()
    {
      ProjectAdded(ps0, nextP0, ms0, nextM0, tasks, nextTaskId, milestones, nextMilestoneId, p, m);
    }

    /** The store is valid again once the member is saved, given the tables as before. */
    lemma ValidAfterMemberSaved(ms0: seq<ProjectMember>, next0: Id, m: ProjectMember)
      requires TablesOk(users, nextUserId, projects, nextProjectId, ms0, next0, tasks, nextTaskId,
                        milestones, nextMilestoneId, comments, nextCommentId, timeEntries, nextTimeEntryId,
                        notifications, nextNotificationId)
      requires m.id == next0 && exists p :: p in projects && p.id == m.projectId
      requires forall n :: n in ms0 ==> !(n.projectId == m.projectId && n.userId == m.userId)
      requires members == ms0 + [m] && nextMemberId == next0 + 1
      ensures Valid()
    {
      MemberSaved(ms0, next0, projects, m);
    }

    // ------------------------------------------------------------ gates

    /** The project with id `pid` exists and `ok` holds of it. */
    ghost predicate ProjectWith(pid: Id, u: User, ok: (Project, User) -> bool)
      reads this
    {
      exists p :: p in projects && p.id == pid && ok(p, u)
    }

    /** The task with id `id` exists and `ok` holds of it and its project. */
    ghost predicate TaskWith(id: Id, u: User, ok: (Task, Project, User) -> bool)
      reads this
    {
      exists t, p :: t in tasks && t.id == id && p in projects && p.id == t.projectId && ok(t, p, u)
    }

    /** The milestone with id `id` exists and `ok` holds of its project. */
    ghost predicate MilestoneWith(id: Id, u: User, ok: (Project, User) -> bool)
      reads this
    {
      exists m, p :: m in milestones && m.id == id && p in projects && p.id == m.projectId && ok(p, u)
    }

    /** The user table has a row with id `uid`. */
    ghost predicate UserExists(uid: Id)
      reads this`users
    {
      exists v :: v in users && v.id == uid
    }

    /** The position of the task with id `tid` when `ok` holds of it and its
        project (`taskRepository.findById` followed by a check). */
    function TaskIndexWith(tid: Id, u: User, ok: (Task, Project, User) -> bool): (r: Option<nat>)
      reads this
      requires Valid()
      ensures r.Some? ==> r.value < |tasks| && tasks[r.value].id == tid
      ensures r.Some? <==> TaskWith(tid, u, ok)
    {
      match IndexOf(tasks, TaskKey, tid)
      case None => None
      case Some(i) =>
        assert tasks[i] in tasks;
        assert TaskProjectId(tasks[i]) in IdSet(projects, ProjectKey);
        var p := Find(projects, ProjectKey, tasks[i].projectId).value;
        TaskWithAt(i, p, u, ok);
        if ok(tasks[i], p, u) then Some(i) else None
    }

    /** With unique ids, `ProjectWith` is decided by the project at `i`. */
    lemma ProjectWithAt(i: nat, u: User, ok: (Project, User) -> bool)
      requires Valid() && i < |projects|
      ensures ProjectWith(projects[i].id, u, ok) <==> ok(projects[i], u)
    {
      if ProjectWith(projects[i].id, u, ok) {
        var p :| p in projects && p.id == projects[i].id && ok(p, u);
        IdsUnique(projects, ProjectKey, p, projects[i]);
      }
    }

    /** With unique ids, `TaskWith` is decided by the task at `i` and its project. */
    lemma TaskWithAt(i: nat, p: Project, u: User, ok: (Task, Project, User) -> bool)
      requires Valid() && i < |tasks| && p in projects && p.id == tasks[i].projectId
      ensures TaskWith(tasks[i].id, u, ok) <==> ok(tasks[i], p, u)
    {
      if TaskWith(tasks[i].id, u, ok) {
        var t, q :| t in tasks && t.id == tasks[i].id && q in projects && q.id == t.projectId && ok(t, q, u);
        IdsUnique(tasks, TaskKey, t, tasks[i]);
        IdsUnique(projects, ProjectKey, p, q);
      }
    }

    /** With unique ids, `MilestoneWith` is decided by the milestone at `i`
        and its project. */
    lemma MilestoneWithAt(i: nat, p: Project, u: User, ok: (Project, User) -> bool)
      requires Valid() && i < |milestones| && p in projects && p.id == milestones[i].projectId
      ensures MilestoneWith(milestones[i].id, u, ok) <==> ok(p, u)
    {
      if MilestoneWith(milestones[i].id, u, ok) {
        var m, q :| m in milestones && m.id == milestones[i].id && q in projects && q.id == m.projectId && ok(q, u);
        IdsUnique(milestones, MilestoneKey, m, milestones[i]);
        IdsUnique(projects, ProjectKey, p, q);
      }
    }

    /** An empty database; IDENTITY columns start at 1. */
    constructor ()
      ensures Valid()
      ensures users == [] && projects == [] && members == [] && tasks == []
      ensures milestones == [] && comments == [] && timeEntries == [] && notifications == []
    {
      users, projects, members, tasks := [], [], [], [];
      milestones, comments, timeEntries, notifications := [], [], [], [];
      nextUserId, nextProjectId, nextMemberId, nextTaskId := 1, 1, 1, 1;
      nextMilestoneId, nextCommentId, nextTimeEntryId, nextNotificationId := 1, 1, 1, 1;
    }
  }

  // ---------------------------------------------------------------- table lemmas

  /** A row appended with the counter as id keeps the table keyed. */
  lemma KeyedAppend<T>(s: seq<T>, idOf: T -> Id, next: Id, x: T)
    requires Keyed(s, idOf, next) && idOf(x) == next
    ensures Keyed(s + [x], idOf, next + 1)
    ensures IdSet(s + [x], idOf) == IdSet(s, idOf) + {next}
    ensures next !in IdSet(s, idOf)
  {
    AppendFresh(s, idOf, x, next);
  }

  /** A row replaced in place by one with the same id keeps the table keyed. */
  lemma KeyedReplace<T>(s: seq<T>, idOf: T -> Id, next: Id, i: nat, x: T)
    requires Keyed(s, idOf, next) && i < |s| && idOf(x) == idOf(s[i])
    ensures Keyed(s[i := x], idOf, next)
    ensures s[i := x] == ReplaceById(s, idOf, x)
    ensures IdSet(s[i := x], idOf) == IdSet(s, idOf)
  {
    ReplaceAt(s, idOf, i, x);
  }

  /** Any filter keeps the table keyed. */
  lemma KeyedFilter<T(!new)>(s: seq<T>, idOf: T -> Id, next: Id, p: T -> bool)
    requires Keyed(s, idOf, next)
    ensures Keyed(Filter(s, p), idOf, next)
  {
    FilterIds(s, idOf, p, next);
  }

  /** Removing a row by id keeps the table keyed and drops just that id. */
  lemma KeyedRemove<T(!new)>(s: seq<T>, idOf: T -> Id, next: Id, id: Id)
    requires Keyed(s, idOf, next)
    ensures Keyed(RemoveById(s, idOf, id), idOf, next)
    ensures IdSet(RemoveById(s, idOf, id), idOf) == IdSet(s, idOf) - {id}
  {
    RemoveByIdIds(s, idOf, id, next);
  }

  /** References into a parent table survive the parent table growing. */
  lemma RefsGrow<T>(s: seq<T>, ref: T -> Id, ids: set<Id>, more: set<Id>)
    requires RefsIn(s, ref, ids) && ids <= more
    ensures RefsIn(s, ref, more)
  {
  }

  /** Children detached from a deleted parent reference only the remaining parents. */
  lemma RefsDetach<T(!new)>(s: seq<T>, ref: T -> Id, ids: set<Id>, parent: Id)
    requires RefsIn(s, ref, ids)
    ensures RefsIn(Detach(s, ref, parent), ref, ids - {parent})
  {
  }

  /** A filtered child table still references existing parents. */
  lemma RefsFilter<T(!new)>(s: seq<T>, ref: T -> Id, ids: set<Id>, p: T -> bool)
    requires RefsIn(s, ref, ids)
    ensures RefsIn(Filter(s, p), ref, ids)
  {
  }

  /** A row with the counter as id for a pair not yet present, in an
      existing project, keeps the membership constraints. */
  lemma MemberSaved(ms: seq<ProjectMember>, next: Id, ps: seq<Project>, m: ProjectMember)
    requires MembersOk(ms, next, ps) && m.id == next
    requires exists p :: p in ps && p.id == m.projectId
    requires forall n :: n in ms ==> !(n.projectId == m.projectId && n.userId == m.userId)
    ensures MembersOk(ms + [m], next + 1, ps)
  {
    KeyedAppend(ms, MemberKey, next, m);
    MemberAdded(ps, ms, m);
    var p :| p in ps && p.id == m.projectId;
    assert MemberProjectId(m) in IdSet(ps, ProjectKey);
  }

  /** A new project with a fresh id and its creator's OWNER row keep the
      constraints of every table that refers to projects. */
  lemma ProjectAdded(ps: seq<Project>, nextP: Id, ms: seq<ProjectMember>, nextM: Id,
                     ts: seq<Task>, nextT: Id, mls: seq<Milestone>, nextMl: Id, p: Project, m: ProjectMember)
    requires Keyed(ps, ProjectKey, nextP) && MembersOk(ms, nextM, ps)
    requires TasksOk(ts, nextT, ps) && MilestonesOk(mls, nextMl, ps)
    requires p.id == nextP && m == ProjectMember(nextM, p.id, p.creatorId, OWNER)
    ensures Keyed(ps + [p], ProjectKey, nextP + 1)
    ensures MembersOk(ms + [m], nextM + 1, ps + [p])
    ensures TasksOk(ts, nextT, ps + [p])
    ensures MilestonesOk(mls, nextMl, ps + [p])
  {
    KeyedAppend(ps, ProjectKey, nextP, p);
    KeyedAppend(ms, MemberKey, nextM, m);
    OwnerAdded(ps, ms, p, m);
  }

  /** Deleting a project with its memberships, when no task or milestone
      belongs to it, keeps the constraints of every table that refers to projects. */
  lemma ProjectRemoved(ps: seq<Project>, nextP: Id, ms: seq<ProjectMember>, nextM: Id,
                       ts: seq<Task>, nextT: Id, mls: seq<Milestone>, nextMl: Id, pid: Id)
    requires Keyed(ps, ProjectKey, nextP) && MembersOk(ms, nextM, ps)
    requires TasksOk(ts, nextT, ps) && MilestonesOk(mls, nextMl, ps)
    requires forall t :: t in ts ==> t.projectId != pid
    requires forall m :: m in mls ==> m.projectId != pid
    ensures Keyed(RemoveById(ps, ProjectKey, pid), ProjectKey, nextP)
    ensures MembersOk(Detach(ms, MemberProjectId, pid), nextM, RemoveById(ps, ProjectKey, pid))
    ensures TasksOk(ts, nextT, RemoveById(ps, ProjectKey, pid))
    ensures MilestonesOk(mls, nextMl, RemoveById(ps, ProjectKey, pid))
  {
    var ids := IdSet(ps, ProjectKey);
    KeyedRemove(ps, ProjectKey, nextP, pid);
    KeyedFilter(ms, MemberKey, nextM, RefIsNot(MemberProjectId, pid));
    RefsDetach(ms, MemberProjectId, ids, pid);
    OwnersAfterProjectDelete(ps, ms, pid);
  }

  // ---------------------------------------------------------------- membership lemmas

  /** A new project with a fresh id and its creator's OWNER row keep the
      membership constraints. */
  lemma OwnerAdded(ps: seq<Project>, ms: seq<ProjectMember>, p: Project, m: ProjectMember)
    requires RefsIn(ms, MemberProjectId, IdSet(ps, ProjectKey)) && p.id !in IdSet(ps, ProjectKey)
    requires PairsUnique(ms) && OwnersPresent(ps, ms) && IsOwnerRow(m, p)
    ensures PairsUnique(ms + [m]) && OwnersPresent(ps + [p], ms + [m])
  {
    forall n | n in ms ensures n.projectId != m.projectId {
      assert MemberProjectId(n) in IdSet(ps, ProjectKey);
    }
    forall q | q in ps + [p] ensures exists n :: n in ms + [m] && IsOwnerRow(n, q) {
      if q == p {
        assert m in ms + [m];
      } else {
        var n :| n in ms && IsOwnerRow(n, q);
        assert n in ms + [m];
      }
    }
  }

  /** A membership row for a pair not yet present keeps the membership constraints. */
  lemma MemberAdded(ps: seq<Project>, ms: seq<ProjectMember>, m: ProjectMember)
    requires PairsUnique(ms) && OwnersPresent(ps, ms)
    requires forall n :: n in ms ==> !(n.projectId == m.projectId && n.userId == m.userId)
    ensures PairsUnique(ms + [m]) && OwnersPresent(ps, ms + [m])
  {
    forall q | q in ps ensures exists n :: n in ms + [m] && IsOwnerRow(n, q) {
      var n :| n in ms && IsOwnerRow(n, q);
      assert n in ms + [m];
    }
  }

  /** Removing a membership row that is not its project creator's keeps an
      OWNER row for every creator. */
  lemma MemberRemoved(ps: seq<Project>, ms: seq<ProjectMember>, next: Id, r: ProjectMember)
    requires Keyed(ms, MemberKey, next) && PairsUnique(ms) && OwnersPresent(ps, ms) && r in ms
    requires forall p :: p in ps && p.id == r.projectId ==> p.creatorId != r.userId
    ensures PairsUnique(RemoveById(ms, MemberKey, r.id))
    ensures OwnersPresent(ps, RemoveById(ms, MemberKey, r.id))
  {
    var ms' := RemoveById(ms, MemberKey, r.id);
    forall q | q in ps ensures exists n :: n in ms' && IsOwnerRow(n, q) {
      var n :| n in ms && IsOwnerRow(n, q);
      if n.id == r.id {
        IdsUnique(ms, MemberKey, n, r);
        assert false;
      }
      assert n in ms';
    }
  }

  /** Replacing a project by one with the same id and creator keeps an OWNER
      row for every creator. */
  lemma OwnersAfterProjectUpdate(ps: seq<Project>, ms: seq<ProjectMember>, i: nat, p: Project)
    requires OwnersPresent(ps, ms) && i < |ps|
    requires p.id == ps[i].id && p.creatorId == ps[i].creatorId
    ensures OwnersPresent(ps[i := p], ms)
  {
    var ps' := ps[i := p];
    forall q | q in ps' ensures exists n :: n in ms && IsOwnerRow(n, q) {
      var k :| 0 <= k < |ps'| && ps'[k] == q;
      if k == i {
        assert ps[i] in ps;
        var n :| n in ms && IsOwnerRow(n, ps[i]);
        assert IsOwnerRow(n, q);
      } else {
        assert ps[k] in ps;
      }
    }
  }

  /** Deleting a project together with its membership rows keeps the
      membership constraints of the remaining projects. */
  lemma OwnersAfterProjectDelete(ps: seq<Project>, ms: seq<ProjectMember>, pid: Id)
    requires PairsUnique(ms) && OwnersPresent(ps, ms)
    ensures PairsUnique(Detach(ms, MemberProjectId, pid))
    ensures OwnersPresent(RemoveById(ps, ProjectKey, pid), Detach(ms, MemberProjectId, pid))
  {
    var ms' := Detach(ms, MemberProjectId, pid);
    forall q | q in RemoveById(ps, ProjectKey, pid) ensures exists n :: n in ms' && IsOwnerRow(n, q) {
      var n :| n in ms && IsOwnerRow(n, q);
      assert n in ms';
    }
  }

  /** Under `Valid`, every task's project is found. */
  lemma TaskProjectExists(db: Store, t: Task)
    requires db.Valid() && t in db.tasks
    ensures Find(db.projects, ProjectKey, t.projectId).Some?
  {
    assert TaskProjectId(t) in IdSet(db.projects, ProjectKey);
  }

  /** Under `Valid`, every milestone's project is found. */
  lemma MilestoneProjectExists(db: Store, m: Milestone)
    requires db.Valid() && m in db.milestones
    ensures Find(db.projects, ProjectKey, m.projectId).Some?
  {
    assert MilestoneProjectId(m) in IdSet(db.projects, ProjectKey);
  }

  /** Under `Valid`, every comment's task is found. */
  lemma CommentTaskExists(db: Store, c: Comment)
    requires db.Valid() && c in db.comments
    ensures Find(db.tasks, TaskKey, c.taskId).Some?
  {
    assert CommentTaskId(c) in IdSet(db.tasks, TaskKey);
  }
}
