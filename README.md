# Project management backend: authorization and domain rules

This project models, in Dafny, the service and repository layer of a project
management backend (package `com.pms`). Users create projects and add members
to them. Projects hold tasks and milestones. Users comment on tasks and log
time against them, and they receive notifications. Every service operation has
the same shape: load a row by id, test a fixed permission predicate over the
caller's role, the project's creator and visibility and the task's assignee,
then either answer "nothing" with no change or perform one mutation.

The model has these parts:

- **The database.** `Store.Store` is a class with one `seq` per table, kept in
  insertion order, and one IDENTITY counter per table. `Valid()` states the
  constraints the services rely on:
  - ids increase and lie below their counter;
  - every task, milestone and membership names an existing project, and
    every comment and time entry names an existing task (references to
    users are not constrained; see "Left out");
  - a (project, user) membership occurs at most once;
  - e-mails are unique;
  - hours are positive;
  - every project's creator holds an OWNER membership. This one is not a
    schema constraint: `ProjectService` keeps it, by saving the OWNER row
    with the project and refusing to remove the creator's membership.

  Every mutating method preserves `Valid()`. Because ids increase with
  insertion, `ORDER BY createdAt DESC` is the reverse of the filtered table
  (`Seqs.Latest`, with the predicate `NewestFirst`).
- **The repositories.** Each one is a module of pure functions over those
  sequences: filters, sorts by date, counts and `COALESCE(SUM(..), 0.0)` sums.
  The two bulk `UPDATE` queries of the notification repository are methods
  with loops, proved against the functions `AllRead` and `OneRead`.
- **The permission predicates.** They live in `Access` and are total
  functions of (task, project, user).
- **The services.** Each is a class holding the store, as the Java beans hold
  their repositories.
  - A read-only operation is a function that `reads db`.
  - A mutating operation is a method that `modifies` exactly the table fields
    it writes. Its `ensures` states the gate as an if-and-only-if and the
    whole new content of those tables.
- **Inputs to the model.** The current user is an explicit parameter. "Today"
  is an integer day number passed as a parameter. Hours and percentages are
  `real`.

Where the code and its comments or controller documentation disagree, the
model follows the code:

- `TaskService.canAccessTask` has no assignee path
  (`service/TaskService.java:258-260`). The comment and time-entry services'
  versions have one. So the assignee of a PRIVATE project's task may update,
  re-status and delete the task (`canModifyTask`) but cannot read it through
  `getTaskById`. See `TaskService.TaskService.AssigneeCannotReadPrivateTask`.
- An unknown status string in `updateTaskStatus` yields "nothing", which is
  the same answer as a refused caller. The model returns `Ok(None)` for it. A
  null status string reaches `toUpperCase` and throws; the model returns
  `Err(NullValue)`.
- `deleteTask` is allowed to the task's assignee, as well as to ADMIN and the
  project creator.
- `TaskService` has no notification dependency. So no notification is created
  on task assignment: `NotificationService.NotificationService.NotifyTaskAssignment`
  is modelled, but nothing calls it.
- The non-admin project search pastes the term into a JPQL `LIKE` pattern
  without escaping it, so `_` and `%` in the term act as wildcards. The admin
  search is a derived `Containing` query, which matches the term literally.
  The model keeps both as written. `ProjectRepository.UnderscoreTermDiverges`
  shows the two searches disagree on the term `a_c`.
  `ProjectRepository.NameLikeIsContains` proves they agree whenever the term
  holds no wildcard character.

Assumptions, needed because the entity files that would settle them are not
part of this model:

- **Cascading deletes.**
  - Deleting a project removes its tasks, milestones and memberships, and the
    comments and time entries of those tasks.
  - Deleting a task removes its comments and time entries.
- **The default project visibility.** It is a parameter of the
  `ProjectService` constructor (`defaultVisibility`).
- **Users.** Two users are equal when their ids are equal.
- **Notifications.** A new notification is unread.

## Model

| member | source | states |
|---|---|---|
| Access.ProjectPermissions | backend/src/main/java/com/pms/service/ProjectService.java:223-248 | `canManageProject` equals `canModifyProject`, which implies access. On a PRIVATE project, access and modification coincide. |
| Access.TaskAccessWidened | backend/src/main/java/com/pms/service/CommentService.java:124-131 | The comment and time-entry task access holds iff the task service's project access holds or the caller is the task's assignee. Modify rights on the task or the project imply it. |
| Access.AssigneeCanModifyButNotRead | backend/src/main/java/com/pms/service/TaskService.java:258-271 | A plain USER assigned a task in someone else's PRIVATE project may modify it and passes the comment-side access, but fails the task service's read check. |
| Access.AssignPermissions | backend/src/main/java/com/pms/service/TaskService.java:276-292 | `canAssignTask` holds iff the caller may access the project, so modify rights imply it. Assigning oneself is always allowed. On a PUBLIC project anyone may assign anyone. |
| Access.CommentPermissions | backend/src/main/java/com/pms/service/CommentService.java:136-145 | Whoever may edit a comment may delete it, and an ADMIN may delete any comment. |
| Entities.DefaultProjectMember | backend/src/main/java/com/pms/entity/ProjectMember.java:25-27 | A membership built without a role gets MEMBER, with exactly the given project and user. |
| Entities.ParseStatusExact | backend/src/main/java/com/pms/service/TaskService.java:109 | `Status.valueOf(s.toUpperCase())` yields a status iff the upper-cased string is that status's name. |
| Entities.ParseStatusRoundTrip | backend/src/main/java/com/pms/dto/TaskDto.java:55-58 | Every status name parses back to its status, in upper or lower case. |
| Entities.ParseMemberRoleExact | backend/src/main/java/com/pms/service/ProjectService.java:190 | `ProjectMember.Role.valueOf(role.toUpperCase())` yields a role iff the upper-cased string is that role's name. |
| Entities.ParseMemberRoleRoundTrip | backend/src/main/java/com/pms/entity/ProjectMember.java:34-36 | Every membership role (OWNER, ADMIN, MEMBER) parses back from its name, in upper or lower case. |
| Entities.ParseVisibility | backend/src/main/java/com/pms/service/ProjectService.java:103 | `Visibility.valueOf` accepts exactly "PUBLIC" and "PRIVATE", case-sensitively, and gives back the named constant. |
| Dtos.TaskDtoFromRequest | backend/src/main/java/com/pms/dto/TaskDto.java:29-32 | An omitted priority becomes MEDIUM and an omitted status becomes TODO; an explicit null stays null, and the enums are both present iff neither was null. Supplied values are kept, and the title, description, due date and requested assignee are copied. |
| Dtos.MilestoneDtoFromRequest | backend/src/main/java/com/pms/dto/MilestoneDto.java:30-31 | An omitted `completed` becomes false. A supplied value and the other fields are kept. |
| TimeEntryRepository.SameTimeEntryInTable | backend/src/main/java/com/pms/entity/TimeEntry.java:88-98 | Two stored entries are equal under the entity's id-based `equals` iff they are the same entry. |
| TimeEntryRepository.SumHoursSign | backend/src/main/java/com/pms/entity/TimeEntry.java:29-32 | With strictly positive hours, a sum of entries is never negative, and it is 0.0 iff there are no entries. |
| TaskRepository.FindByProjectIdOrderByCreatedAtDesc | backend/src/main/java/com/pms/repository/TaskRepository.java:18 | Exactly the project's tasks, newest first. |
| TaskRepository.FindByProjectIdAndStatus | backend/src/main/java/com/pms/repository/TaskRepository.java:23 | Exactly the project's tasks with that status. |
| TaskRepository.FindByProjectIdAndPriorityOrderByCreatedAtDesc | backend/src/main/java/com/pms/repository/TaskRepository.java:28 | Exactly the project's tasks with that priority, newest first. |
| TaskRepository.CountByProjectIdAndStatus | backend/src/main/java/com/pms/repository/TaskRepository.java:33 | 0 iff no task of the project has that status, 0 on the empty table, and the length of the `findByProjectIdAndStatus` listing. |
| TaskRepository.CountByProjectId | backend/src/main/java/com/pms/repository/TaskRepository.java:38 | 0 iff the project has no task, 0 on the empty table, and the length of the project's task listing. |
| TaskRepository.CountsAfterAppend | backend/src/main/java/com/pms/repository/TaskRepository.java:33-38 | Appending a task adds one to each count it matches and leaves the other counts unchanged. With 0 on the empty table, this fixes every count. |
| TaskRepository.FindOverdueTasks | backend/src/main/java/com/pms/repository/TaskRepository.java:43-44 | Exactly the tasks due before today and not COMPLETED, sorted by due date ascending. |
| TaskRepository.FindTasksDueToday | backend/src/main/java/com/pms/repository/TaskRepository.java:49-50 | Exactly the tasks due today, COMPLETED ones included. |
| TaskRepository.FindByPriorityAndStatusNotOrderByCreatedAtDesc | backend/src/main/java/com/pms/repository/TaskRepository.java:55 | Exactly the tasks with that priority and another status, newest first. |
| TaskRepository.FindByAssignedTo | backend/src/main/java/com/pms/repository/TaskRepository.java:60 | Exactly the tasks assigned to the user. |
| TaskRepository.FindOverdueTasksByUser | backend/src/main/java/com/pms/repository/TaskRepository.java:65-66 | Exactly the user's overdue tasks, sorted by due date ascending. |
| TaskRepository.FindTasksDueTodayByUser | backend/src/main/java/com/pms/repository/TaskRepository.java:71-72 | Exactly the user's tasks due today. |
| TaskRepository.FindByPriorityAndStatusNotAndAssignedToOrderByCreatedAtDesc | backend/src/main/java/com/pms/repository/TaskRepository.java:77 | Exactly the user's tasks with that priority and another status, newest first. |
| TaskRepository.CountByStatusAtMostTotal | backend/src/main/java/com/pms/repository/TaskRepository.java:33-38 | The count of a project's tasks with one status is at most the count of all its tasks. |
| TaskRepository.StatusCountsSum | backend/src/main/java/com/pms/repository/TaskRepository.java:33-38 | The counts for TODO, IN_PROGRESS and COMPLETED add up to the project's task count. |
| TaskRepository.NoDueDateNeverListed | backend/src/main/java/com/pms/repository/TaskRepository.java:43-72 | A task without a due date is in neither the overdue nor the due-today result, globally or per user. |
| TaskRepository.OverdueAndDueToday | backend/src/main/java/com/pms/repository/TaskRepository.java:43-50 | A task due today is listed as due today and is never overdue. A COMPLETED task is never overdue. |
| TaskRepository.PerUserQueriesRestrictGlobal | backend/src/main/java/com/pms/repository/TaskRepository.java:43-72 | The per-user overdue and due-today results are the global ones restricted to the user's tasks, in both directions. |
| TaskRepository.HighPriorityForUserIsRestriction | backend/src/main/java/com/pms/repository/TaskRepository.java:55-77 | The per-user high-priority query is the global one filtered by assignee, order included. |
| MilestoneRepository.FindByProjectIdWithProjectDetails | backend/src/main/java/com/pms/repository/MilestoneRepository.java:62-63 | Exactly the project's milestones, sorted by target date ascending, drawn from the table. |
| MilestoneRepository.FindOverdueMilestones | backend/src/main/java/com/pms/repository/MilestoneRepository.java:34-35 | Exactly the project's milestones with target before today and not completed, sorted by target date. |
| MilestoneRepository.FindUpcomingMilestones | backend/src/main/java/com/pms/repository/MilestoneRepository.java:40-41 | Exactly the project's milestones with today <= target <= the window's end, completed or not, sorted by target date. |
| MilestoneRepository.CountByProjectIdAndCompletedTrue | backend/src/main/java/com/pms/repository/MilestoneRepository.java:46 | 0 iff the project has no completed milestone, and 0 on the empty table. |
| MilestoneRepository.CountByProjectId | backend/src/main/java/com/pms/repository/MilestoneRepository.java:51 | 0 iff the project has no milestone, 0 on the empty table, and the length of the project's milestone listing. |
| MilestoneRepository.CountsAfterAppend | backend/src/main/java/com/pms/repository/MilestoneRepository.java:46-51 | Appending a milestone adds one to each count it matches and leaves the other counts unchanged. With 0 on the empty table, this fixes every count. |
| MilestoneRepository.CompletedAtMostTotal | backend/src/main/java/com/pms/repository/MilestoneRepository.java:46-51 | The completed count is at most the total count of the same project. |
| MilestoneRepository.OverdueUpcomingDisjoint | backend/src/main/java/com/pms/repository/MilestoneRepository.java:34-41 | For one `today`, no milestone is both overdue and upcoming. |
| MilestoneRepository.ViewsWithinListing | backend/src/main/java/com/pms/repository/MilestoneRepository.java:34-63 | Overdue and upcoming milestones are all in the project's listing. |
| ProjectRepository.FindByNameContainingIgnoreCase | backend/src/main/java/com/pms/repository/ProjectRepository.java:18 | Exactly the projects whose name contains the term, ignoring case. |
| ProjectRepository.FindByIdWithTasks | backend/src/main/java/com/pms/repository/ProjectRepository.java:23-24 | The project with that id, or nothing iff there is none. |
| ProjectRepository.FindAllWithTasks | backend/src/main/java/com/pms/repository/ProjectRepository.java:29-30 | Every project, newest first. |
| ProjectRepository.FindByCreatorOrVisibility | backend/src/main/java/com/pms/repository/ProjectRepository.java:42-43 | Exactly the projects created by the user or with the given visibility, newest first. |
| ProjectRepository.SearchByNameForCreatorOrVisibility | backend/src/main/java/com/pms/repository/ProjectRepository.java:48-55 | Exactly the projects created by the user or with the visibility whose lower-cased name matches the `LIKE` pattern `%term%`, newest first. |
| ProjectRepository.SearchNarrowsListing | backend/src/main/java/com/pms/repository/ProjectRepository.java:42-55 | The non-admin search is the non-admin listing filtered by the name pattern. |
| ProjectRepository.NameLikeIsContains | backend/src/main/java/com/pms/repository/ProjectRepository.java:48-50 | For a term with no `%` or `_`, the `LIKE` pattern matches iff the name contains the term, ignoring case. |
| ProjectRepository.SearchAgreesWithContains | backend/src/main/java/com/pms/repository/ProjectRepository.java:18-55 | For a wildcard-free term, a visible project is in the non-admin search iff its name contains the term, ignoring case. |
| ProjectRepository.UnderscoreTermDiverges | backend/src/main/java/com/pms/repository/ProjectRepository.java:18-55 | A PUBLIC project named "abc" is found by the non-admin search for "a_c" but not by the admin search. |
| SqlLike.LikeContains | backend/src/main/java/com/pms/repository/ProjectRepository.java:50 | For a wildcard-free term, `LIKE '%term%'` holds iff the term occurs in the string. |
| SqlLike.UnderscoreMatchesAnyChar | backend/src/main/java/com/pms/repository/ProjectRepository.java:50 | An unescaped `_` in the term matches any character: "abc" is like "%a_c%" without containing "a_c". |
| NotificationRepository.FindByUserIdOrderByCreatedAtDesc | backend/src/main/java/com/pms/repository/NotificationRepository.java:18 | Exactly the user's notifications, newest first. |
| NotificationRepository.FindByUserIdAndReadFalseOrderByCreatedAtDesc | backend/src/main/java/com/pms/repository/NotificationRepository.java:23 | Exactly the user's unread notifications, newest first. |
| NotificationRepository.CountByUserIdAndReadFalse | backend/src/main/java/com/pms/repository/NotificationRepository.java:28 | 0 iff the user has no unread notification. |
| NotificationRepository.NotificationRepository.MarkAllAsReadByUserId | backend/src/main/java/com/pms/repository/NotificationRepository.java:33-35 | The table becomes `AllRead` of the old table: the user's rows are read, and every other field and row is kept. |
| NotificationRepository.NotificationRepository.MarkAsReadByIdAndUserId | backend/src/main/java/com/pms/repository/NotificationRepository.java:40-42 | The table becomes `OneRead` of the old table: only a row matching both id and user is set read. |
| NotificationRepository.NotificationRepository.SetReadWhere | backend/src/main/java/com/pms/repository/NotificationRepository.java:33-42 | The `UPDATE ... SET read = true WHERE` loop: each row keeps its fields and is read iff it was read or the condition holds. |
| NotificationRepository.MarkAllClearsUnread | backend/src/main/java/com/pms/repository/NotificationRepository.java:33-35 | After mark-all, the user's unread count is 0 and the unread listing is empty. |
| NotificationRepository.MarkAllTouchesOnlyTheUser | backend/src/main/java/com/pms/repository/NotificationRepository.java:33-35 | Mark-all keeps the number of the user's notifications, and leaves another user's listing and unread count unchanged. |
| NotificationRepository.MarkAllIdempotent | backend/src/main/java/com/pms/repository/NotificationRepository.java:33-35 | Marking all twice equals marking all once. |
| NotificationRepository.MarkOneEffect | backend/src/main/java/com/pms/repository/NotificationRepository.java:40-42 | Mark-one on a row the user does not own changes nothing. On an unread owned row, the unread count drops by exactly one. |
| NotificationRepository.MarkOneIdempotent | backend/src/main/java/com/pms/repository/NotificationRepository.java:40-42 | Marking one twice equals marking it once. |
| NotificationRepository.CountIsUnreadListingLength | backend/src/main/java/com/pms/repository/NotificationRepository.java:23-28 | The unread count equals the length of the unread listing. |
| NotificationRepository.MarkOneWithinMarkAll | backend/src/main/java/com/pms/repository/NotificationRepository.java:33-42 | Marking one and then all equals marking all. |
| TimeEntryRepository.FindByTaskIdOrderByCreatedAtDesc | backend/src/main/java/com/pms/repository/TimeEntryRepository.java:18 | Exactly the task's entries, newest first. |
| TimeEntryRepository.FindByUserIdOrderByCreatedAtDesc | backend/src/main/java/com/pms/repository/TimeEntryRepository.java:23 | Exactly the user's entries, newest first. |
| TimeEntryRepository.FindByTaskIdAndUserIdOrderByCreatedAtDesc | backend/src/main/java/com/pms/repository/TimeEntryRepository.java:28 | Exactly the user's entries on the task, newest first. |
| TimeEntryRepository.FindByIdWithTaskAndUser | backend/src/main/java/com/pms/repository/TimeEntryRepository.java:33-34 | The entry with that id, or nothing iff there is none. |
| TimeEntryRepository.GetTotalHoursByTaskId | backend/src/main/java/com/pms/repository/TimeEntryRepository.java:51-52 | The task's total is non-negative, and 0.0 iff the task has no entry. |
| TimeEntryRepository.GetTotalHoursByTaskIdAndUserId | backend/src/main/java/com/pms/repository/TimeEntryRepository.java:57-58 | The user's total on the task is non-negative, and 0.0 iff the user has no entry on it. |
| TimeEntryRepository.GetTotalHoursByUserId | backend/src/main/java/com/pms/repository/TimeEntryRepository.java:63-64 | The user's total is non-negative, and 0.0 iff the user has no entry. |
| TimeEntryRepository.TotalIsSumOfListing | backend/src/main/java/com/pms/repository/TimeEntryRepository.java:39-52 | The task total is the sum of the hours of the task's newest-first listing. |
| TimeEntryRepository.UserTaskTotalBounded | backend/src/main/java/com/pms/repository/TimeEntryRepository.java:51-64 | The user's hours on a task are at most the task's total and at most the user's total. |
| TimeEntryRepository.TotalsAfterAppend | backend/src/main/java/com/pms/repository/TimeEntryRepository.java:51-64 | Saving an entry raises each of the three totals it falls under by its hours and leaves the others unchanged. |
| Progress.PercentBounds | backend/src/main/java/com/pms/service/ProjectService.java:133-139 | `completed * 100 / total` lies in [0, 100] (0 for no tasks). It is 0 iff nothing is completed and 100 iff everything is. |
| Progress.PercentMonotone | backend/src/main/java/com/pms/service/ProjectService.java:133-139 | More completed items never give a lower percentage. |
| Store.Store.SaveProjectWithOwner | backend/src/main/java/com/pms/service/ProjectService.java:76-82 | Saves the project and exactly one OWNER membership for its creator, and keeps the store valid. |
| Store.Store.SaveMember | backend/src/main/java/com/pms/service/ProjectService.java:191-193 | Appends one membership for an existing project and user not yet paired, and keeps the store valid. |
| Store.Store.DeleteTaskRows | backend/src/main/java/com/pms/service/TaskService.java:128 | Removes the task with its comments and time entries (assumed cascade). Every other table is unchanged. |
| Store.Store.DeleteProjectRows | backend/src/main/java/com/pms/service/ProjectService.java:118 | Removes the project with its tasks, milestones and memberships, and those tasks' comments and entries (assumed cascade). |
| Store.Store.SaveUser | backend/src/main/java/com/pms/service/AuthService.java:41 | Appends one user whose e-mail nobody has, takes the next id, and keeps e-mails unique and the store valid. |
| Store.Store.ReplaceProject | backend/src/main/java/com/pms/service/ProjectService.java:106 | Replaces the project with the same id, keeping its creator; every other row and table is unchanged. |
| Store.Store.RemoveMember | backend/src/main/java/com/pms/service/ProjectService.java:213 | Removes one membership that is not its project creator's, so every project keeps its OWNER row. |
| Store.Store.SaveTask | backend/src/main/java/com/pms/service/TaskService.java:71 | Appends one task of an existing project under the next id and keeps the store valid. |
| Store.Store.ReplaceTask | backend/src/main/java/com/pms/service/TaskService.java:96 | Replaces the task with the same id, keeping its project; other rows are unchanged. |
| Store.Store.SaveMilestone | backend/src/main/java/com/pms/service/MilestoneService.java:65 | Appends one milestone of an existing project under the next id and keeps the store valid. |
| Store.Store.ReplaceMilestone | backend/src/main/java/com/pms/service/MilestoneService.java:83 | Replaces the milestone with the same id, keeping its project; other rows are unchanged. |
| Store.Store.RemoveMilestone | backend/src/main/java/com/pms/service/MilestoneService.java:95 | Removes exactly the rows with that id from the milestones and keeps the store valid. |
| Store.Store.SaveComment | backend/src/main/java/com/pms/service/CommentService.java:46 | Appends one comment on an existing task under the next id and keeps the store valid. |
| Store.Store.ReplaceComment | backend/src/main/java/com/pms/service/CommentService.java:82 | Replaces the comment with the same id, keeping its task; other rows are unchanged. |
| Store.Store.RemoveComment | backend/src/main/java/com/pms/service/CommentService.java:94 | Removes exactly the rows with that id from the comments and keeps the store valid. |
| Store.Store.SaveTimeEntry | backend/src/main/java/com/pms/service/TimeEntryService.java:45 | Appends one positive entry on an existing task under the next id and keeps the store valid. |
| Store.Store.SaveNotification | backend/src/main/java/com/pms/service/NotificationService.java:36 | Appends one notification under the next id and keeps the store valid. |
| TaskService.DetermineAssignee | backend/src/main/java/com/pms/service/TaskService.java:222-233 | The assignee is either the caller or the existing requested user whom the caller may assign. |
| TaskService.DetermineAssigneeChoice | backend/src/main/java/com/pms/service/TaskService.java:222-233 | The requested user is chosen iff they exist and the caller may assign them. Otherwise the caller is chosen; the request is never refused. |
| TaskService.PrivateProjectAssignsSelf | backend/src/main/java/com/pms/service/TaskService.java:286-292 | On a PRIVATE project, a plain USER always ends up assigning themself. |
| TaskService.UpdateAssignee | backend/src/main/java/com/pms/service/TaskService.java:90-94 | The assignee changes only to an existing requested user, and only when the caller may assign on the project. |
| TaskService.UpdatedTaskFields | backend/src/main/java/com/pms/service/TaskService.java:84-96 | An update overwrites title, description, priority, status and due date, keeps id and project, and keeps the assignee unless it is reassigned. |
| TaskService.TaskService.GetTasksByProjectId | backend/src/main/java/com/pms/service/TaskService.java:36-45 | With project access, the project's tasks newest first. Otherwise nothing. |
| TaskService.TaskService.GetTaskById | backend/src/main/java/com/pms/service/TaskService.java:50-56 | The task iff it exists and its project passes the project-only access check. |
| TaskService.TaskService.CreateTask | backend/src/main/java/com/pms/service/TaskService.java:61-75 | Succeeds iff the project exists, the caller may modify it and priority and status are non-null. Then it appends one task of that project with the resolved non-null assignee, and nothing else changes. A null priority or status past the gate is a `NullValue` error with no change. |
| TaskService.TaskService.UpdateTask | backend/src/main/java/com/pms/service/TaskService.java:80-100 | Succeeds iff the task exists, the caller may modify it and priority and status are non-null. Then only that row changes, to the updated fields. A null priority or status past the gate is a `NullValue` error, rolled back. |
| TaskService.TaskService.UpdateTaskStatus | backend/src/main/java/com/pms/service/TaskService.java:105-120 | The gate fails: nothing. A null status: error. An unknown name: nothing. Otherwise only the status of that row changes, parsed case-insensitively. |
| TaskService.TaskService.DeleteTask | backend/src/main/java/com/pms/service/TaskService.java:125-132 | Succeeds iff the task exists and the caller may modify it (ADMIN, creator or assignee). Then the task and its dependent rows go. |
| TaskService.TaskService.GetTasksAssignedToMe | backend/src/main/java/com/pms/service/TaskService.java:137-142 | Exactly the tasks assigned to the caller. |
| TaskService.TaskService.GetTasksByStatus | backend/src/main/java/com/pms/service/TaskService.java:147-156 | With project access, the project's tasks with that status. Otherwise nothing. |
| TaskService.TaskService.GetTasksByPriority | backend/src/main/java/com/pms/service/TaskService.java:161-170 | With project access, the project's tasks with that priority, newest first. Otherwise nothing. |
| TaskService.TaskService.GetOverdueTasks | backend/src/main/java/com/pms/service/TaskService.java:175-185 | An ADMIN gets all overdue tasks; anyone else only their own. Sorted by due date, with no row repeated beyond its occurrences in the table. |
| TaskService.TaskService.GetTasksDueToday | backend/src/main/java/com/pms/service/TaskService.java:190-200 | An ADMIN gets all tasks due today; anyone else only their own. |
| TaskService.TaskService.GetHighPriorityIncompleteTasks | backend/src/main/java/com/pms/service/TaskService.java:205-217 | HIGH and not COMPLETED, newest first: all of them for an ADMIN, only the caller's own otherwise. |
| TaskService.TaskService.AssigneeCannotReadPrivateTask | backend/src/main/java/com/pms/service/TaskService.java:50-56 | The assignee of a task in a PRIVATE project they did not create may modify the task, yet `getTaskById` gives them nothing. |
| TaskService.TaskService.UserViewsRestrictAdminViews | backend/src/main/java/com/pms/service/TaskService.java:175-217 | A USER's overdue, due-today and high-priority views are the ADMIN's views restricted to the user's own tasks. |
| ProjectService.RequestedVisibility | backend/src/main/java/com/pms/service/ProjectService.java:279-289 | An omitted visibility gives the default. "PUBLIC" and "PRIVATE" give that constant. Any other string is an `IllegalArgument` error. |
| ProjectService.FindMembership | backend/src/main/java/com/pms/service/ProjectService.java:211 | The membership of that project and user, or nothing iff there is none. |
| ProjectService.ProjectService.GetAllProjects | backend/src/main/java/com/pms/service/ProjectService.java:45-59 | Exactly the projects the caller may access (all of them for an ADMIN; otherwise their own and PUBLIC ones), newest first. |
| ProjectService.ProjectService.GetProjectById | backend/src/main/java/com/pms/service/ProjectService.java:64-70 | The project iff it exists and the caller may access it. |
| ProjectService.ProjectService.CreateProject | backend/src/main/java/com/pms/service/ProjectService.java:75-85 | A bad visibility string is an error with no change. Otherwise it appends one project created by the caller and exactly one OWNER membership for them. |
| ProjectService.ProjectService.UpdateProject | backend/src/main/java/com/pms/service/ProjectService.java:90-110 | Without modify rights: nothing and no change. A null or unknown visibility: an error. Otherwise only that row changes, to the new name, description, dates and visibility. |
| ProjectService.ProjectService.DeleteProject | backend/src/main/java/com/pms/service/ProjectService.java:115-122 | Succeeds iff the project exists and the caller may modify it. Then the project and its dependent rows go; otherwise nothing changes. |
| ProjectService.ProjectService.GetProjectProgress | backend/src/main/java/com/pms/service/ProjectService.java:127-144 | With access, the percentage of the project's tasks that are COMPLETED, in [0, 100] and 0 with no tasks. Without access, nothing. |
| ProjectService.ProjectService.SearchProjects | backend/src/main/java/com/pms/service/ProjectService.java:149-162 | ADMIN: every project whose name contains the term, ignoring case. Others: the visibility-filtered `LIKE` search. |
| ProjectService.ProjectService.GetProjectMembers | backend/src/main/java/com/pms/service/ProjectService.java:167-176 | With project access, exactly the project's memberships. Otherwise nothing. |
| ProjectService.ProjectService.AddProjectMember | backend/src/main/java/com/pms/service/ProjectService.java:181-197 | False with no change when the project or user is missing, the caller cannot manage, or the user is already a member. A null or unknown role is an error. Otherwise exactly one row with the upper-cased role is added. True iff all those checks pass and the role parses. |
| ProjectService.ProjectService.RemoveProjectMember | backend/src/main/java/com/pms/service/ProjectService.java:202-218 | Succeeds iff the caller can manage, the membership exists and the user is not the creator. Then only that row is removed. |
| ProjectService.ProjectService.SearchWithinListing | backend/src/main/java/com/pms/service/ProjectService.java:149-162 | A non-admin's search is their listing filtered by the name pattern. For a wildcard-free term it is exactly the listed projects whose name contains it. |
| ProjectService.ProjectService.AdminListsEverything | backend/src/main/java/com/pms/service/ProjectService.java:45-59 | An ADMIN lists every project. A USER who created nothing sees nothing when every project is PRIVATE. |
| ProjectService.ProjectService.CreatorListsOwnProjects | backend/src/main/java/com/pms/service/ProjectService.java:45-70 | A creator always lists and can fetch their own project, even when it is PRIVATE. |
| MilestoneService.Toggled | backend/src/main/java/com/pms/service/MilestoneService.java:108 | A toggle flips `completed` and changes nothing else. |
| MilestoneService.ToggleTwiceRestores | backend/src/main/java/com/pms/service/MilestoneService.java:104-114 | Saving the toggled milestone and then toggling it again restores the table. |
| MilestoneService.UpdateKeepsIdentity | backend/src/main/java/com/pms/service/MilestoneService.java:78-81 | An update keeps the id and the project. Writing back a milestone's own values changes nothing. |
| MilestoneService.MilestoneService.GetMilestonesByProjectId | backend/src/main/java/com/pms/service/MilestoneService.java:34-43 | With project access, the project's milestones by target date. Otherwise nothing. |
| MilestoneService.MilestoneService.GetMilestoneById | backend/src/main/java/com/pms/service/MilestoneService.java:48-54 | The milestone iff it exists and the caller may access its project. |
| MilestoneService.MilestoneService.CreateMilestone | backend/src/main/java/com/pms/service/MilestoneService.java:59-69 | Succeeds iff the project exists and the caller may modify it. Then it appends one milestone of that project with the request's values. |
| MilestoneService.MilestoneService.UpdateMilestone | backend/src/main/java/com/pms/service/MilestoneService.java:74-87 | Succeeds iff the milestone exists and the caller may modify its project. Then only that row changes: title, description, target date and completed. |
| MilestoneService.MilestoneService.DeleteMilestone | backend/src/main/java/com/pms/service/MilestoneService.java:92-99 | Succeeds iff the milestone exists and the caller may modify its project. Then only that row is removed. |
| MilestoneService.MilestoneService.ToggleMilestoneCompletion | backend/src/main/java/com/pms/service/MilestoneService.java:104-114 | Succeeds iff the milestone exists and the caller may modify its project. Then only that row's `completed` flips. |
| MilestoneService.MilestoneService.GetOverdueMilestones | backend/src/main/java/com/pms/service/MilestoneService.java:119-128 | With project access, the overdue milestones for today. Otherwise nothing. |
| MilestoneService.MilestoneService.GetUpcomingMilestones | backend/src/main/java/com/pms/service/MilestoneService.java:133-144 | With project access, exactly the project's milestones with today <= target <= today + 30, sorted by target date, with no row repeated beyond its occurrences in the table. Otherwise nothing. |
| MilestoneService.MilestoneService.GetMilestoneProgress | backend/src/main/java/com/pms/service/MilestoneService.java:149-161 | In [0, 100]. 0.0 without access. With access, the percentage of completed milestones (0.0 when there are none). |
| MilestoneService.MilestoneService.OverdueAndUpcomingViews | backend/src/main/java/com/pms/service/MilestoneService.java:119-144 | No milestone is both overdue and upcoming, and both views lie within the project listing. |
| MilestoneService.MilestoneService.FullProgressMeansAllCompleted | backend/src/main/java/com/pms/service/MilestoneService.java:149-161 | Progress is 100 iff the caller has access, the project has milestones and all of them are completed. |
| CommentService.FindByTaskIdWithUserDetails | backend/src/main/java/com/pms/repository/CommentRepository.java:34-35 | Exactly the task's comments, newest first. |
| CommentService.FindByUserIdWithTaskDetails | backend/src/main/java/com/pms/repository/CommentRepository.java:40-41 | Exactly the user's comments, newest first. |
| CommentService.CommentService.CreateComment | backend/src/main/java/com/pms/service/CommentService.java:38-57 | Succeeds iff the task exists and the caller has task access (assignee path included). Then it appends one comment by the caller with the text. It adds one notification to the assignee, under the next notification id, iff there is one and it is not the caller; otherwise none. |
| CommentService.CommentService.NotifyAssignee | backend/src/main/java/com/pms/service/CommentService.java:48-52 | One "commented on task" notification to the task's assignee iff the assignee exists and differs from the commenter. |
| CommentService.CommentService.GetCommentsByTaskId | backend/src/main/java/com/pms/service/CommentService.java:62-71 | With task access, the task's comments newest first. Otherwise nothing. |
| CommentService.CommentService.UpdateComment | backend/src/main/java/com/pms/service/CommentService.java:76-86 | Succeeds iff the comment exists and the caller is its author. Then only its text changes; an ADMIN who is not the author gets nothing. |
| CommentService.CommentService.DeleteComment | backend/src/main/java/com/pms/service/CommentService.java:91-98 | Succeeds iff the comment exists and the caller is its author or an ADMIN. Then only that row is removed. |
| CommentService.CommentService.GetCommentById | backend/src/main/java/com/pms/service/CommentService.java:103-109 | The comment iff it exists and the caller has access to its task. |
| CommentService.CommentService.GetCommentsByCurrentUser | backend/src/main/java/com/pms/service/CommentService.java:114-119 | Exactly the caller's own comments, newest first, with no access check. |
| CommentService.CommentService.AssigneeReachesTask | backend/src/main/java/com/pms/service/CommentService.java:124-131 | A task's assignee always has comment-side access to it. |
| CommentService.CommentService.EditImpliesDelete | backend/src/main/java/com/pms/service/CommentService.java:136-145 | Whoever may edit a comment may delete it. An ADMIN may delete exactly the existing comments. |
| CommentService.CommentService.ReadableCommentListed | backend/src/main/java/com/pms/service/CommentService.java:62-109 | A comment that `getCommentById` returns is in its task's comment listing for the same caller. |
| TimeEntryService.TimeEntryService.CreateTimeEntry | backend/src/main/java/com/pms/service/TimeEntryService.java:37-49 | Succeeds iff the task exists and the caller has task access. Then it appends one entry by the caller with the hours, which raises the task's, the caller's and the caller's task totals by those hours. |
| TimeEntryService.TimeEntryService.GetTimeEntriesByTaskId | backend/src/main/java/com/pms/service/TimeEntryService.java:54-63 | With task access, the task's entries newest first. Otherwise nothing. |
| TimeEntryService.TimeEntryService.GetTimeSummaryByTaskId | backend/src/main/java/com/pms/service/TimeEntryService.java:68-74 | With task access, the task's total. Otherwise 0.0. Never negative. |
| TimeEntryService.TimeEntryService.GetTimeEntriesByCurrentUser | backend/src/main/java/com/pms/service/TimeEntryService.java:79-84 | Exactly the caller's own entries, newest first, with no access check. |
| TimeEntryService.TimeEntryService.GetTimeEntriesByTaskIdAndCurrentUser | backend/src/main/java/com/pms/service/TimeEntryService.java:89-98 | With task access, the caller's own entries on the task. Otherwise nothing. |
| TimeEntryService.TimeEntryService.GetTotalHoursByTaskIdAndCurrentUser | backend/src/main/java/com/pms/service/TimeEntryService.java:103-109 | With task access, the caller's hours on the task. Otherwise 0.0. Never negative. |
| TimeEntryService.TimeEntryService.GetTotalHoursByCurrentUser | backend/src/main/java/com/pms/service/TimeEntryService.java:114-116 | The repository's total for the caller, never negative, and 0.0 iff the caller has logged nothing. |
| TimeEntryService.TimeEntryService.OwnHoursBounded | backend/src/main/java/com/pms/service/TimeEntryService.java:103-116 | The caller's hours on a task never exceed the task summary, nor the caller's total. |
| TimeEntryService.TimeEntryService.SummaryIsSumOfListing | backend/src/main/java/com/pms/service/TimeEntryService.java:54-74 | The task summary is the sum of the hours in the task's listing. |
| NotificationService.NewCommentMessage | backend/src/main/java/com/pms/service/NotificationService.java:106 | The message begins with the commenter's name and ends with the quoted task title. |
| NotificationService.TaskAssignmentMessage | backend/src/main/java/com/pms/service/NotificationService.java:97 | The message holds the task title after the fixed 32-character prefix and ends with the quoted project name. |
| NotificationService.NewCommentMessageInjective | backend/src/main/java/com/pms/service/NotificationService.java:106 | For one commenter, the message determines the task title. |
| NotificationService.TaskAssignmentMessageInjective | backend/src/main/java/com/pms/service/NotificationService.java:97 | For titles of equal length, the message determines the title and the project name. |
| NotificationService.NewNotificationSeen | backend/src/main/java/com/pms/service/NotificationService.java:32-40 | A new notification heads its user's listing and adds one to their unread count. Other users see no change. |
| NotificationService.NotificationService.CreateNotification | backend/src/main/java/com/pms/service/NotificationService.java:32-40 | Nothing and no change for a missing user. Otherwise exactly one unread notification for that user with the message is appended. |
| NotificationService.NotificationService.GetNotificationsByCurrentUser | backend/src/main/java/com/pms/service/NotificationService.java:45-50 | Exactly the caller's own notifications, newest first, for an ADMIN too. |
| NotificationService.NotificationService.GetUnreadNotificationsByCurrentUser | backend/src/main/java/com/pms/service/NotificationService.java:55-60 | Exactly the caller's own unread notifications, newest first. |
| NotificationService.NotificationService.GetUnreadNotificationCount | backend/src/main/java/com/pms/service/NotificationService.java:89-91 | The length of the caller's unread listing. |
| NotificationService.NotificationService.MarkNotificationAsRead | backend/src/main/java/com/pms/service/NotificationService.java:65-72 | Reports true even when no row matches. Only the caller's row with that id becomes read. |
| NotificationService.NotificationService.MarkAllNotificationsAsRead | backend/src/main/java/com/pms/service/NotificationService.java:77-84 | Reports true. The caller's rows all become read and the unread count is 0. |
| NotificationService.NotificationService.NotifyTaskAssignment | backend/src/main/java/com/pms/service/NotificationService.java:96-99 | One notification with the assignment message for the assignee, when the assignee exists. |
| NotificationService.NotificationService.NotifyNewComment | backend/src/main/java/com/pms/service/NotificationService.java:104-109 | Nothing for a null assignee. Otherwise one notification with the comment message, when the assignee exists. |
| AuthService.ExistsByEmail | backend/src/main/java/com/pms/service/AuthService.java:31 | True iff some user has that e-mail. |
| AuthService.FindByEmail | backend/src/main/java/com/pms/service/AuthService.java:53-54 | The user with that e-mail (the only one, while e-mails are unique), or nothing iff there is none. |
| AuthService.Granted | backend/src/main/java/com/pms/service/AuthService.java:56-57 | A success response carries the token issued for the user's role, and the user's e-mail, name, role name and id. |
| AuthService.AuthService.Register | backend/src/main/java/com/pms/service/AuthService.java:30-45 | "Email already registered" with no change iff the e-mail exists. Otherwise one USER is appended with the encoded password, and the response is granted for them. A fresh e-mail always succeeds. |
| AuthService.AuthService.Login | backend/src/main/java/com/pms/service/AuthService.java:47-61 | "Invalid email or password" iff authentication fails or the e-mail is unknown. Otherwise the response is granted for the stored user. |
| AuthService.RegisteredIsFound | backend/src/main/java/com/pms/service/AuthService.java:30-45 | Registering a fresh e-mail keeps e-mails unique, and the new user is then the one found by it. |
| AuthService.EmailTakenAfterRegister | backend/src/main/java/com/pms/service/AuthService.java:31-33 | Once a user is saved with an e-mail, a second registration with it is refused. |

## Left out

- Controllers, HTTP status mapping, the JWT filter and OpenAPI configuration are not part of this model. The current user is an explicit parameter instead of the security context.
- Password encoding, JWT issuance and `authenticationManager.authenticate` are foreign code. They are opaque functions given to the `AuthService` constructor. A thrown authentication exception is the function answering false.
- E-mail format validation (`@Email`) is a foreign validator and is not modelled.
- DTO/entity conversion (`convertToDto`, `UserDto`) is field copying. Operations return the stored entity.
- Timestamps (`createdAt`, `updatedAt`, `joinedAt`) are not modelled. Creation order is the id order, which the IDENTITY counters give. So the `TimeEntry` property "`createdAt` is never updated" has nothing to state.
- `LocalDate.now()` and `CURRENT_DATE` are the parameter `today`. Dates are day numbers.
- IEEE `double` rounding in percentages and hour sums is not modelled: they are exact `real`s.
- `@Transactional` atomicity, fetch joins (and the duplicate rows a collection fetch join can produce) and lazy loading are not modelled.
- The comment and membership repositories are derived lookups. They are modelled inline in `CommentService` and `ProjectService`. Their unused counts and listings are left out.
- Repository queries the services do not call are left out: milestones by completion state, `findByIdWithProject` (the model loads the milestone and then its project), projects created between two dates, and the time-entry fetch-join listings (the same contents and order as the modelled per-task and per-user listings).
- Case mapping covers ASCII letters only. Java's `toUpperCase`/`toLowerCase` also map other alphabets.
- TaskRepository.FindByProjectIdAndStatus: states contents only. `ORDER BY priority DESC` depends on how the Task entity stores its enum, which is not part of this model.
- TaskRepository.FindTasksDueToday: states contents only, because of the same priority ordering.
- TaskRepository.FindTasksDueTodayByUser: states contents only, because of the same priority ordering.
- TaskRepository.FindByAssignedTo: states contents only. The `dueDate` ascending order with null due dates depends on the database's null ordering.
- TaskService.TaskService.GetTasksByStatus: states contents only, as its repository query does.
- TaskService.TaskService.GetTasksDueToday: states contents only, as its repository query does.
- TaskService.TaskService.GetTasksAssignedToMe: states contents only, as its repository query does.
- ProjectService.ProjectService.GetProjectMembers: returns the membership rows. It does not model the `UserDto` projection or the join order.
- NotificationService.NotificationService.MarkNotificationAsRead: does not model the exception path that makes the source return false.
- NotificationService.NotificationService.MarkAllNotificationsAsRead: does not model the exception path that makes the source return false.
- Store.Store.DeleteTaskRows: the cascade onto comments and time entries is an assumption, because the Task entity's mappings are not part of this model.
- Store.Store.DeleteProjectRows: the cascade onto tasks, milestones and memberships is an assumption, for the same reason.
- Store.Store.Valid: references to users (a project's creator, a task's creator and assignee, a comment's author, a time entry's owner, a membership's user, a notification's recipient) are not required to name a row of `users`. The current user is a parameter, not a loaded row, so the services cannot establish such a constraint in this model. Only the membership and notification paths check that the user row exists, as the source does.
- `@Size` counts UTF-16 code units, while `|s|` counts characters. So a title of 200 characters outside the Basic Multilingual Plane (400 code units) passes the model's `<= 255` check but fails `@Size`.
- SqlLike.Like: models `LIKE` with no escape character. The JPQL search declares no `ESCAPE` clause, and MySQL, PostgreSQL and H2 then escape with a backslash, so on those databases a term containing `\` does not match as `Like` says.
