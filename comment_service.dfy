/** `CommentService`: comments on tasks. Reading and writing a task's comments
    is gated by the comment service's `canAccessTask`, which, unlike the task
    service's, also admits the task's assignee. Only the author edits a
    comment; the author or an ADMIN deletes it. A new comment notifies the
    task's assignee unless the assignee wrote it. */
module CommentService {
  import opened Common
  import opened Seqs
  import opened Entities
  import opened Dtos
  import opened Access
  import opened Store
  import opened NotificationService

  function OfTask(tid: Id): Comment -> bool { (c: Comment) => c.taskId == tid }
  function ByUser(uid: Id): Comment -> bool { (c: Comment) => c.userId == uid }

  /** `findByTaskIdWithUserDetails`: a task's comments, newest first. */
  function FindByTaskIdWithUserDetails(cs: seq<Comment>, tid: Id): (r: seq<Comment>)
    ensures forall c :: c in r <==> c in cs && c.taskId == tid
    ensures IdsIncreasing(cs, CommentKey) ==> NewestFirst(r, CommentKey)
  {
    Latest(cs, CommentKey, OfTask(tid))
  }

  /** `findByUserIdWithTaskDetails`: a user's comments, newest first. */
  function FindByUserIdWithTaskDetails(cs: seq<Comment>, uid: Id): (r: seq<Comment>)
    ensures forall c :: c in r <==> c in cs && c.userId == uid
    ensures IdsIncreasing(cs, CommentKey) ==> NewestFirst(r, CommentKey)
  {
    Latest(cs, CommentKey, ByUser(uid))
  }

  class CommentService {
    const db: Store
    const notifications: NotificationService

    constructor (db: Store, notifications: NotificationService)
      requires notifications.db == db
      ensures this.db == db && this.notifications == notifications
    {
      this.db := db;
      this.notifications := notifications;
    }

    /** The comment with id `id` exists and `ok` holds of it. */
    ghost predicate CommentWith(id: Id, u: User, ok: (Comment, User) -> bool)
      reads db
    {
      exists c :: c in db.comments && c.id == id && ok(c, u)
    }

    /** The comment with id `id` exists and the caller may read its task. */
    ghost predicate CommentReadable(id: Id, u: User)
      reads db
    {
      exists c :: c in db.comments && c.id == id && db.TaskWith(c.taskId, u, CanAccessTask)
    }

    /** Creating a comment on task `tid` notifies its assignee: there is one,
        it is not the commenter, and its user row exists. */
    ghost predicate NotifiesAssignee(tid: Id, u: User)
      reads db`tasks, db`users
    {
      exists t :: t in db.tasks && t.id == tid && AssigneeToNotify(t, u)
    }

    /** `createComment`: with task access, saves a comment by the caller with
        the request's text and, when the task's assignee is someone else,
        sends that assignee one notification; without access, changes
        nothing. */
    method CreateComment(tid: Id, text: string, u: User) returns (r: Option<Comment>)
      requires db.Valid() && ValidCommentText(text) && notifications.db == db
      modifies db`comments, db`nextCommentId, db`notifications, db`nextNotificationId
      ensures db.Valid()
      ensures r.Some? <==> old(db.TaskWith(tid, u, CanAccessTask))
      ensures r.None? ==> db.comments == old(db.comments) && db.nextCommentId == old(db.nextCommentId)
      ensures r.Some? ==>
                && r.value == Comment(old(db.nextCommentId), tid, u.id, text)
                && db.comments == old(db.comments) + [r.value]
                && db.nextCommentId == old(db.nextCommentId) + 1
      ensures r.Some? && old(NotifiesAssignee(tid, u)) ==>
                exists t :: t in db.tasks && t.id == tid && t.assigneeId.Some?
                            && db.notifications == old(db.notifications) + [NewNotification(old(db.nextNotificationId), t.assigneeId.value, NewCommentMessage(u.name, t.title))]
                            && db.nextNotificationId == old(db.nextNotificationId) + 1
      ensures !(r.Some? && old(NotifiesAssignee(tid, u))) ==>
                db.notifications == old(db.notifications) && db.nextNotificationId == old(db.nextNotificationId)
    {
      var found := db.TaskIndexWith(tid, u, CanAccessTask);
      if found.None? {
        return None;
      }
      var t := db.tasks[found.value];
      NotifiesAssigneeAt(found.value, u);
      var c := Comment(db.nextCommentId, tid, u.id, text);
      assert t in db.tasks;
      db.SaveComment(c);
      r := Some(c);
      NotifyAssignee(t, u);
      assert t in db.tasks;
    }

    /** Whether a comment by `u` on `t` notifies the assignee, decided by the
        task row itself. */
    lemma NotifiesAssigneeAt(i: nat, u: User)
      requires db.Valid() && i < |db.tasks|
      ensures NotifiesAssignee(db.tasks[i].id, u) <==> AssigneeToNotify(db.tasks[i], u)
    {
      if NotifiesAssignee(db.tasks[i].id, u) {
        var t :| t in db.tasks && t.id == db.tasks[i].id && AssigneeToNotify(t, u);
        IdsUnique(db.tasks, TaskKey, t, db.tasks[i]);
      }
    }

    /** The task's assignee is another user whose row exists. */
    ghost predicate AssigneeToNotify(t: Task, u: User)
      reads db`users
    {
      t.assigneeId.Some? && t.assigneeId.value != u.id && db.UserExists(t.assigneeId.value)
    }

    /** The notification step of `createComment`: `notifyNewComment` for an
        assignee other than the commenter. */
    method NotifyAssignee(t: Task, u: User)
      requires db.Valid() && notifications.db == db
      modifies db`notifications, db`nextNotificationId
      ensures db.Valid()
      ensures AssigneeToNotify(t, u) ==>
                && db.notifications == old(db.notifications) + [NewNotification(old(db.nextNotificationId), t.assigneeId.value, NewCommentMessage(u.name, t.title))]
                && db.nextNotificationId == old(db.nextNotificationId) + 1
      ensures !AssigneeToNotify(t, u) ==>
                db.notifications == old(db.notifications) && db.nextNotificationId == old(db.nextNotificationId)
    {
      if t.assigneeId.Some? && t.assigneeId.value != u.id {
        FindMembers(db.users, UserKey);
        var _ := notifications.NotifyNewComment(Find(db.users, UserKey, t.assigneeId.value), u.name, t.title);
      }
    }

    /** `getCommentsByTaskId`: the task's comments, newest first, with task
        access; nothing otherwise. */
    function GetCommentsByTaskId(tid: Id, u: User): (r: seq<Comment>)
      reads db
      requires db.Valid()
      ensures db.TaskWith(tid, u, CanAccessTask) ==> r == FindByTaskIdWithUserDetails(db.comments, tid)
      ensures !db.TaskWith(tid, u, CanAccessTask) ==> r == []
    {
      if db.TaskIndexWith(tid, u, CanAccessTask).Some? then FindByTaskIdWithUserDetails(db.comments, tid) else []
    }

    /** `updateComment`: only the author, ADMIN included, may change the
        text; nothing else about the comment changes. */
    method UpdateComment(id: Id, text: string, u: User) returns (r: Option<Comment>)
      requires db.Valid() && ValidCommentText(text)
      modifies db`comments
      ensures db.Valid()
      ensures r.Some? <==> old(CommentWith(id, u, CanModifyComment))
      ensures r.None? ==> db.comments == old(db.comments)
      ensures r.Some? ==>
                && db.comments == ReplaceById(old(db.comments), CommentKey, r.value)
                && exists c :: c in old(db.comments) && c.id == id && r.value == c.(text := text)
    {
      var i := IndexOf(db.comments, CommentKey, id);
      if i.None? {
        return None;
      }
      var c := db.comments[i.value];
      assert c in db.comments;
      assert CommentWith(id, u, CanModifyComment) <==> CanModifyComment(c, u) by {
        forall c' | c' in db.comments && c'.id == id ensures c' == c {
          IdsUnique(db.comments, CommentKey, c', c);
        }
      }
      if !CanModifyComment(c, u) {
        return None;
      }
      var c' := c.(text := text);
      db.ReplaceComment(i.value, c');
      r := Some(c');
    }

    /** `deleteComment`: by the author or an ADMIN. */
    method DeleteComment(id: Id, u: User) returns (ok: bool)
      requires db.Valid()
      modifies db`comments
      ensures db.Valid()
      ensures ok <==> old(CommentWith(id, u, CanDeleteComment))
      ensures !ok ==> db.comments == old(db.comments)
      ensures ok ==> db.comments == RemoveById(old(db.comments), CommentKey, id)
    {
      var i := IndexOf(db.comments, CommentKey, id);
      if i.None? {
        return false;
      }
      var c := db.comments[i.value];
      assert c in db.comments;
      assert CommentWith(id, u, CanDeleteComment) <==> CanDeleteComment(c, u) by {
        forall c' | c' in db.comments && c'.id == id ensures c' == c {
          IdsUnique(db.comments, CommentKey, c', c);
        }
      }
      if !CanDeleteComment(c, u) {
        return false;
      }
      db.RemoveComment(id);
      ok := true;
    }

    /** `getCommentById`: gated by access to the comment's task. */
    function GetCommentById(id: Id, u: User): (r: Option<Comment>)
      reads db
      requires db.Valid()
      ensures r.Some? ==> r.value in db.comments && r.value.id == id
      ensures r.Some? <==> CommentReadable(id, u)
    {
      match IndexOf(db.comments, CommentKey, id)
      case None => None
      case Some(i) =>
        var c := db.comments[i];
        assert c in db.comments;
        assert CommentReadable(id, u) <==> db.TaskWith(c.taskId, u, CanAccessTask) by {
          forall c' | c' in db.comments && c'.id == id ensures c' == c {
            IdsUnique(db.comments, CommentKey, c', c);
          }
        }
        if db.TaskIndexWith(c.taskId, u, CanAccessTask).Some? then Some(c) else None
    }

    /** `getCommentsByCurrentUser`: no access check, only the caller's own
        comments, newest first. */
    function GetCommentsByCurrentUser(u: User): (r: seq<Comment>)
      reads db
      requires db.Valid()
      ensures forall c :: c in r <==> c in db.comments && c.userId == u.id
      ensures NewestFirst(r, CommentKey)
    {
      FindByUserIdWithTaskDetails(db.comments, u.id)
    }

    // ---------------------------------------------------------------- properties

    /** The assignee of a task may read and comment on it even in someone
        else's PRIVATE project, where the task service refuses them. */
    lemma AssigneeReachesTask(t: Task, u: User)
      requires db.Valid() && t in db.tasks && t.assigneeId == Some(u.id)
      ensures db.TaskWith(t.id, u, CanAccessTask)
    {
      TaskProjectExists(db, t);
      var p := Find(db.projects, ProjectKey, t.projectId).value;
      assert CanAccessTask(t, p, u);
    }

    /** Whoever may edit a comment may delete it; an ADMIN may delete every
        comment but edits only their own. */
    lemma EditImpliesDelete(id: Id, u: User)
      ensures CommentWith(id, u, CanModifyComment) ==> CommentWith(id, u, CanDeleteComment)
      ensures u.role == Role.ADMIN ==> (CommentWith(id, u, CanDeleteComment) <==> exists c :: c in db.comments && c.id == id)
    {
      if CommentWith(id, u, CanModifyComment) {
        var c :| c in db.comments && c.id == id && CanModifyComment(c, u);
        assert CanDeleteComment(c, u);
      }
      if u.role == Role.ADMIN && exists c :: c in db.comments && c.id == id {
        var c :| c in db.comments && c.id == id;
        assert CanDeleteComment(c, u);
      }
    }

    /** A comment that can be read by id is listed among its task's comments. */
    lemma ReadableCommentListed(id: Id, u: User)
      requires db.Valid()
      ensures GetCommentById(id, u).Some? ==> GetCommentById(id, u).value in GetCommentsByTaskId(GetCommentById(id, u).value.taskId, u)
    {
    }
  }
}
