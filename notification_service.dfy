/** `NotificationService`: notifications are created for an existing user as a
    side effect of other services; listings, the unread count and the two
    mark-as-read operations are scoped to the caller's own id. */
module NotificationService {
  import opened Common
  import opened Seqs
  import opened Entities
  import opened Store
  import opened NotificationRepository

  /** `String.format("%s commented on task '%s'", commenterName, taskTitle)`. */
  function NewCommentMessage(commenterName: string, taskTitle: string): (r: string)
    ensures |r| == |commenterName| + |taskTitle| + 21
    ensures r[..|commenterName|] == commenterName
    ensures r[|r| - |taskTitle| - 1..|r| - 1] == taskTitle
  {
    commenterName + " commented on task '" + taskTitle + "'"
  }

  /** `String.format("You have been assigned to task '%s' in project '%s'", taskTitle, projectName)`. */
  function TaskAssignmentMessage(taskTitle: string, projectName: string): (r: string)
    ensures |r| == |taskTitle| + |projectName| + 47
    ensures r[32..32 + |taskTitle|] == taskTitle
    ensures r[|r| - |projectName| - 1..|r| - 1] == projectName
  {
    "You have been assigned to task '" + taskTitle + "' in project '" + projectName + "'"
  }

  /** The notification `new Notification(user, message)` saves: unread. */
  function NewNotification(id: Id, uid: Id, message: string): (n: Notification)
    ensures n.userId == uid && n.message == message && !n.read
  {
    Notification(id, uid, message, false)
  }

  class NotificationService {
    const db: Store
    const repository: NotificationRepository

    constructor (db: Store)
      ensures this.db == db && repository.db == db
    {
      this.db := db;
      repository := new NotificationRepository(db);
    }

    /** `createNotification`: nothing for a missing user (the source returns
        null); otherwise exactly one new unread notification for that user,
        with the given message, at the head of the user's listing. */
    method CreateNotification(uid: Id, message: string) returns (r: Option<Notification>)
      requires db.Valid()
      modifies db`notifications, db`nextNotificationId
      ensures db.Valid()
      ensures r.Some? <==> db.UserExists(uid)
      ensures r.None? ==> db.notifications == old(db.notifications) && db.nextNotificationId == old(db.nextNotificationId)
      ensures r.Some? ==>
                && r.value == NewNotification(old(db.nextNotificationId), uid, message)
                && db.notifications == old(db.notifications) + [r.value]
                && db.nextNotificationId == old(db.nextNotificationId) + 1
    {
      FindMembers(db.users, UserKey);
      if Find(db.users, UserKey, uid).None? {
        return None;
      }
      var n := NewNotification(db.nextNotificationId, uid, message);
      db.SaveNotification(n);
      r := Some(n);
    }

    /** `getNotificationsByCurrentUser`: the caller's own, newest first. */
    function GetNotificationsByCurrentUser(u: User): (r: seq<Notification>)
      reads db
      requires db.Valid()
      ensures forall n :: n in r <==> n in db.notifications && n.userId == u.id
      ensures NewestFirst(r, NotificationKey)
    {
      FindByUserIdOrderByCreatedAtDesc(db.notifications, u.id)
    }

    /** `getUnreadNotificationsByCurrentUser`. */
    function GetUnreadNotificationsByCurrentUser(u: User): (r: seq<Notification>)
      reads db
      requires db.Valid()
      ensures forall n :: n in r <==> n in db.notifications && n.userId == u.id && !n.read
      ensures NewestFirst(r, NotificationKey)
    {
      FindByUserIdAndReadFalseOrderByCreatedAtDesc(db.notifications, u.id)
    }

    /** `getUnreadNotificationCount`: the length of the unread listing. */
    function GetUnreadNotificationCount(u: User): (r: nat)
      reads db
      requires db.Valid()
      ensures r == |GetUnreadNotificationsByCurrentUser(u)|
    {
      CountIsUnreadListingLength(db.notifications, u.id);
      CountByUserIdAndReadFalse(db.notifications, u.id)
    }

    /** `markNotificationAsRead`: reports success whether or not the id names
        one of the caller's notifications; only that one row can change. */
    method MarkNotificationAsRead(id: Id, u: User) returns (ok: bool)
      requires db.Valid() && repository.db == db
      modifies db`notifications
      ensures db.Valid()
      ensures ok
      ensures db.notifications == OneRead(old(db.notifications), id, u.id)
    {
      repository.MarkAsReadByIdAndUserId(id, u.id);
      ok := true;
    }

    /** `markAllNotificationsAsRead`: reports success, and afterwards the
        caller has nothing unread. */
    method MarkAllNotificationsAsRead(u: User) returns (ok: bool)
      requires db.Valid() && repository.db == db
      modifies db`notifications
      ensures db.Valid()
      ensures ok
      ensures db.notifications == AllRead(old(db.notifications), u.id)
      ensures GetUnreadNotificationCount(u) == 0
    {
      repository.MarkAllAsReadByUserId(u.id);
      MarkAllClearsUnread(old(db.notifications), u.id);
      ok := true;
    }

    /** `notifyTaskAssignment`: one notification for the assignee, when the
        assignee's row exists. */
    method NotifyTaskAssignment(assignee: User, taskTitle: string, projectName: string) returns (r: Option<Notification>)
      requires db.Valid()
      modifies db`notifications, db`nextNotificationId
      ensures db.Valid()
      ensures r.Some? <==> db.UserExists(assignee.id)
      ensures r.None? ==> db.notifications == old(db.notifications) && db.nextNotificationId == old(db.nextNotificationId)
      ensures r.Some? ==>
                && r.value == NewNotification(old(db.nextNotificationId), assignee.id, TaskAssignmentMessage(taskTitle, projectName))
                && db.notifications == old(db.notifications) + [r.value]
                && db.nextNotificationId == old(db.nextNotificationId) + 1
    {
      r := CreateNotification(assignee.id, TaskAssignmentMessage(taskTitle, projectName));
    }

    /** `notifyNewComment`: nothing for a null assignee; otherwise one
        notification for the assignee, when the assignee's row exists. */
    method NotifyNewComment(assignee: Option<User>, commenterName: string, taskTitle: string) returns (r: Option<Notification>)
      requires db.Valid()
      modifies db`notifications, db`nextNotificationId
      ensures db.Valid()
      ensures r.Some? <==> assignee.Some? && db.UserExists(assignee.value.id)
      ensures r.None? ==> db.notifications == old(db.notifications) && db.nextNotificationId == old(db.nextNotificationId)
      ensures r.Some? ==>
                && r.value == NewNotification(old(db.nextNotificationId), assignee.value.id, NewCommentMessage(commenterName, taskTitle))
                && db.notifications == old(db.notifications) + [r.value]
                && db.nextNotificationId == old(db.nextNotificationId) + 1
    {
      if assignee.None? {
        return None;
      }
      r := CreateNotification(assignee.value.id, NewCommentMessage(commenterName, taskTitle));
    }
  }

  // ---------------------------------------------------------------- properties

  /** A new notification heads its user's listing and, being unread, adds one
      to the user's unread count; other users see no change. */
  lemma NewNotificationSeen(ns: seq<Notification>, n: Notification, uid: Id)
    requires !n.read
    ensures n.userId == uid ==> FindByUserIdOrderByCreatedAtDesc(ns + [n], uid) == [n] + FindByUserIdOrderByCreatedAtDesc(ns, uid)
    ensures n.userId == uid ==> CountByUserIdAndReadFalse(ns + [n], uid) == CountByUserIdAndReadFalse(ns, uid) + 1
    ensures n.userId != uid ==> FindByUserIdOrderByCreatedAtDesc(ns + [n], uid) == FindByUserIdOrderByCreatedAtDesc(ns, uid)
    ensures n.userId != uid ==> CountByUserIdAndReadFalse(ns + [n], uid) == CountByUserIdAndReadFalse(ns, uid)
  {
    FilterAppend(ns, n, ForUser(uid));
    FilterAppend(ns, n, UnreadFor(uid));
    if n.userId == uid {
      ReverseAppend(Filter(ns, ForUser(uid)), n);
    } else {
      assert Filter(ns + [n], ForUser(uid)) == Filter(ns, ForUser(uid));
      assert Filter(ns + [n], UnreadFor(uid)) == Filter(ns, UnreadFor(uid));
    }
  }

  /** For one commenter, the comment message determines the task title. */
  lemma NewCommentMessageInjective(commenterName: string, t1: string, t2: string)
    requires NewCommentMessage(commenterName, t1) == NewCommentMessage(commenterName, t2)
    ensures t1 == t2
  {
    var m := NewCommentMessage(commenterName, t1);
    assert t1 == m[|m| - |t1| - 1..|m| - 1];
  }

  /** Messages whose task titles have the same length determine both the
      title and the project name. */
  lemma TaskAssignmentMessageInjective(t1: string, p1: string, t2: string, p2: string)
    requires |t1| == |t2|
    requires TaskAssignmentMessage(t1, p1) == TaskAssignmentMessage(t2, p2)
    ensures t1 == t2 && p1 == p2
  {
    var m := TaskAssignmentMessage(t1, p1);
    assert t1 == m[32..32 + |t1|];
    assert p1 == m[|m| - |p1| - 1..|m| - 1];
  }
}
