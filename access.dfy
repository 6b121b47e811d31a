/** The authorization predicates of the service layer. Each service declares
    its own private copies; the ones that coincide are defined once here. A
    user is compared with a project's creator or a task's assignee by id. */
module Access {
  import opened Common
  import opened Entities

  /** `canAccessProject` (identical in the project, task and milestone services):
      read access to a project and everything under it. */
  predicate CanAccessProject(p: Project, u: User) {
    u.role == Role.ADMIN || p.creatorId == u.id || p.visibility == PUBLIC
  }

  /** `canModifyProject` (identical in the project, task and milestone services). */
  predicate CanModifyProject(p: Project, u: User) {
    u.role == Role.ADMIN || p.creatorId == u.id
  }

  /** `ProjectService.canManageProject`: who may add and remove members. */
  predicate CanManageProject(p: Project, u: User) {
    u.role == Role.ADMIN || p.creatorId == u.id
  }

  /** `TaskService.canAccessTask`: project access only, with no assignee path. */
  predicate CanAccessTaskViaProject(p: Project, u: User) {
    CanAccessProject(p, u)
  }

  /** `canAccessTask` of the comment and time-entry services: project access,
      or being the task's assignee. `p` is the task's project. */
  predicate CanAccessTask(t: Task, p: Project, u: User) {
    || u.role == Role.ADMIN
    || p.creatorId == u.id
    || p.visibility == PUBLIC
    || t.assigneeId == Some(u.id)
  }

  /** `TaskService.canModifyTask`: update, status change and delete of a task. */
  predicate CanModifyTask(t: Task, p: Project, u: User) {
    u.role == Role.ADMIN || p.creatorId == u.id || t.assigneeId == Some(u.id)
  }

  /** `TaskService.canAssignTask`: who may change an existing task's assignee. */
  predicate CanAssignTask(p: Project, u: User) {
    u.role == Role.ADMIN || p.creatorId == u.id || p.visibility == PUBLIC
  }

  /** `TaskService.canAssignToUser`: who may name `assignee` on a new task. */
  predicate CanAssignToUser(p: Project, u: User, assignee: User) {
    u.role == Role.ADMIN || assignee.id == u.id || p.visibility == PUBLIC
  }

  /** `CommentService.canModifyComment`: only the author edits. */
  predicate CanModifyComment(c: Comment, u: User) {
    c.userId == u.id
  }

  /** `CommentService.canDeleteComment`: the author or an ADMIN deletes. */
  predicate CanDeleteComment(c: Comment, u: User) {
    c.userId == u.id || u.role == Role.ADMIN
  }

  // ---------------------------------------------------------------- relations

  /** Modification drops the PUBLIC case of access, so it implies access;
      managing members is modification. */
  lemma ProjectPermissions(p: Project, u: User)
    ensures CanModifyProject(p, u) ==> CanAccessProject(p, u)
    ensures CanManageProject(p, u) == CanModifyProject(p, u)
    ensures p.visibility == PRIVATE ==> (CanAccessProject(p, u) <==> CanModifyProject(p, u))
  {
  }

  /** The comment/time-entry task access is the task service's, widened by
      exactly the assignee path. */
  lemma TaskAccessWidened(t: Task, p: Project, u: User)
    ensures CanAccessTask(t, p, u) <==> CanAccessTaskViaProject(p, u) || t.assigneeId == Some(u.id)
    ensures CanModifyTask(t, p, u) ==> CanAccessTask(t, p, u)
    ensures CanModifyProject(p, u) ==> CanModifyTask(t, p, u)
  {
  }

  /** In the task service, the assignee of a task in someone else's PRIVATE
      project may update or delete it but cannot read it. */
  lemma AssigneeCanModifyButNotRead(t: Task, p: Project, u: User)
    requires u.role == Role.USER && p.creatorId != u.id && p.visibility == PRIVATE
    requires t.assigneeId == Some(u.id)
    ensures CanModifyTask(t, p, u) && !CanAccessTaskViaProject(p, u)
    ensures CanAccessTask(t, p, u)
  {
  }

  /** Whoever may modify the project may also reassign its tasks; on a PUBLIC
      project anybody may. */
  lemma AssignPermissions(p: Project, u: User, a: User)
    ensures CanModifyProject(p, u) ==> CanAssignTask(p, u)
    ensures CanAssignTask(p, u) <==> CanAccessProject(p, u)
    ensures a.id == u.id ==> CanAssignToUser(p, u, a)
    ensures p.visibility == PUBLIC ==> CanAssignTask(p, u) && CanAssignToUser(p, u, a)
  {
  }

  /** Whoever may edit a comment may delete it, and an ADMIN may delete any
      comment. */
  lemma CommentPermissions(c: Comment, u: User)
    ensures CanModifyComment(c, u) ==> CanDeleteComment(c, u)
    ensures u.role == Role.ADMIN ==> CanDeleteComment(c, u)
  {
  }
}
