/** `NotificationRepository`: a user's notifications, newest first, the unread
    count, and the two bulk `UPDATE ... SET n.read = true` statements. The
    updates are methods that walk the notification table and set the flag in
    place; `AllRead` and `OneRead` give the table they leave behind. */
module NotificationRepository {
  import opened Common
  import opened Seqs
  import opened Entities
  import opened Store

  function ForUser(uid: Id): Notification -> bool { (n: Notification) => n.userId == uid }
  function UnreadFor(uid: Id): Notification -> bool { (n: Notification) => n.userId == uid && !n.read }
  function Owned(id: Id, uid: Id): Notification -> bool { (n: Notification) => n.id == id && n.userId == uid }

  /** `findByUserIdOrderByCreatedAtDesc`. */
  function FindByUserIdOrderByCreatedAtDesc(ns: seq<Notification>, uid: Id): (r: seq<Notification>)
    ensures forall n :: n in r <==> n in ns && n.userId == uid
    ensures IdsIncreasing(ns, NotificationKey) ==> NewestFirst(r, NotificationKey)
  {
    Latest(ns, NotificationKey, ForUser(uid))
  }

  /** `findByUserIdAndReadFalseOrderByCreatedAtDesc`. */
  function FindByUserIdAndReadFalseOrderByCreatedAtDesc(ns: seq<Notification>, uid: Id): (r: seq<Notification>)
    ensures forall n :: n in r <==> n in ns && n.userId == uid && !n.read
    ensures IdsIncreasing(ns, NotificationKey) ==> NewestFirst(r, NotificationKey)
  {
    Latest(ns, NotificationKey, UnreadFor(uid))
  }

  /** `countByUserIdAndReadFalse`. */
  function CountByUserIdAndReadFalse(ns: seq<Notification>, uid: Id): (r: nat)
    ensures r <= |ns|
    ensures r == 0 <==> forall n :: n in ns ==> !(n.userId == uid && !n.read)
  {
    var f := Filter(ns, UnreadFor(uid));
    assert f != [] ==> f[0] in f;
    |f|
  }

  /** The table after setting `read` on every row `sel` picks. */
  function SetRead(ns: seq<Notification>, sel: Notification -> bool): (r: seq<Notification>)
    ensures |r| == |ns|
    ensures forall i :: 0 <= i < |ns| ==>
              r[i].id == ns[i].id && r[i].userId == ns[i].userId && r[i].message == ns[i].message
    ensures forall i :: 0 <= i < |ns| ==> r[i].read == (ns[i].read || sel(ns[i]))
  {
    seq(|ns|, i requires 0 <= i < |ns| => if sel(ns[i]) then ns[i].(read := true) else ns[i])
  }

  /** The table after `markAllAsReadByUserId`: `WHERE n.user.id = :userId`. */
  function AllRead(ns: seq<Notification>, uid: Id): (r: seq<Notification>)
    ensures |r| == |ns|
  {
    SetRead(ns, ForUser(uid))
  }

  /** The table after `markAsReadByIdAndUserId`: `WHERE n.id = :id AND n.user.id = :userId`. */
  function OneRead(ns: seq<Notification>, id: Id, uid: Id): (r: seq<Notification>)
    ensures |r| == |ns|
  {
    SetRead(ns, Owned(id, uid))
  }

  /** The repository bean: the two `@Modifying` updates over the shared store. */
  class NotificationRepository {
    const db: Store

    constructor (db: Store)
      ensures this.db == db
    {
      this.db := db;
    }

    /** `markAllAsReadByUserId`. */
    method MarkAllAsReadByUserId(uid: Id)
      requires db.Valid()
      modifies db`notifications
      ensures db.Valid()
      ensures db.notifications == AllRead(old(db.notifications), uid)
    {
      SetReadWhere(ForUser(uid));
    }

    /** `markAsReadByIdAndUserId`. */
    method MarkAsReadByIdAndUserId(id: Id, uid: Id)
      requires db.Valid()
      modifies db`notifications
      ensures db.Valid()
      ensures db.notifications == OneRead(old(db.notifications), id, uid)
    {
      SetReadWhere(Owned(id, uid));
    }

    /** Visits every row and sets `read` on those `sel` picks. */
    method SetReadWhere(sel: Notification -> bool)
      requires db.Valid()
      modifies db`notifications
      ensures db.Valid()
      ensures db.notifications == SetRead(old(db.notifications), sel)
    {
      ghost var ns := db.notifications;
      var i := 0;
      while i < |db.notifications|
        invariant |db.notifications| == |ns|
        invariant 0 <= i <= |ns|
        invariant forall k :: 0 <= k < i ==> db.notifications[k] == SetRead(ns, sel)[k]
        invariant db.notifications[i..] == ns[i..]
      {
        var n := db.notifications[i];
        assert n == ns[i] by {
          assert db.notifications[i..][0] == ns[i..][0];
        }
        if sel(n) {
          db.notifications := db.notifications[i := n.(read := true)];
        }
        i := i + 1;
      }
      assert db.notifications == SetRead(ns, sel);
      SetReadKeyed(ns, sel, db.nextNotificationId);
    }
  }

  // ---------------------------------------------------------------- properties

  /** Either update keeps every row's id, so the table stays keyed. */
  lemma SetReadKeyed(ns: seq<Notification>, sel: Notification -> bool, next: Id)
    requires IdsIncreasing(ns, NotificationKey) && IdsBelow(ns, NotificationKey, next)
    ensures IdsIncreasing(SetRead(ns, sel), NotificationKey) && IdsBelow(SetRead(ns, sel), NotificationKey, next)
  {
    var r := SetRead(ns, sel);
    assert forall i :: 0 <= i < |ns| ==> NotificationKey(r[i]) == NotificationKey(ns[i]);
  }

  /** After marking all read, the user has no unread notification and the
      unread listing is empty. */
  lemma MarkAllClearsUnread(ns: seq<Notification>, uid: Id)
    ensures CountByUserIdAndReadFalse(AllRead(ns, uid), uid) == 0
    ensures FindByUserIdAndReadFalseOrderByCreatedAtDesc(AllRead(ns, uid), uid) == []
  {
    var r := AllRead(ns, uid);
    forall n | n in r ensures !(n.userId == uid && !n.read) {
      var i :| 0 <= i < |r| && r[i] == n;
    }
  }

  /** Marking all read keeps the user's notifications (only their flag
      changes) and leaves every other user's listing and count as they were. */
  lemma MarkAllTouchesOnlyTheUser(ns: seq<Notification>, uid: Id, other: Id)
    requires other != uid
    ensures |FindByUserIdOrderByCreatedAtDesc(AllRead(ns, uid), uid)|
            == |FindByUserIdOrderByCreatedAtDesc(ns, uid)|
    ensures FindByUserIdOrderByCreatedAtDesc(AllRead(ns, uid), other)
            == FindByUserIdOrderByCreatedAtDesc(ns, other)
    ensures CountByUserIdAndReadFalse(AllRead(ns, uid), other)
            == CountByUserIdAndReadFalse(ns, other)
  {
    var r := AllRead(ns, uid);
    FilterLengthPointwise(ns, r, ForUser(uid));
    FilterPointwise(ns, r, ForUser(other));
    FilterPointwise(ns, r, UnreadFor(other));
  }

  /** Marking all read twice is marking once. */
  lemma MarkAllIdempotent(ns: seq<Notification>, uid: Id)
    ensures AllRead(AllRead(ns, uid), uid) == AllRead(ns, uid)
  {
  }

  /** Marking one notification read: a notification of another user (or a
      missing id) leaves the table unchanged; the caller's own unread
      notification drops the unread count by exactly one. */
  lemma MarkOneEffect(ns: seq<Notification>, id: Id, uid: Id)
    requires IdsIncreasing(ns, NotificationKey)
    ensures (forall n :: n in ns && n.id == id ==> n.userId != uid) ==> OneRead(ns, id, uid) == ns
    ensures (exists n :: n in ns && n.id == id && n.userId == uid && !n.read)
            ==> CountByUserIdAndReadFalse(OneRead(ns, id, uid), uid) + 1 == CountByUserIdAndReadFalse(ns, uid)
    ensures (forall n :: n in ns && n.id == id ==> n.userId != uid || n.read)
            ==> CountByUserIdAndReadFalse(OneRead(ns, id, uid), uid) == CountByUserIdAndReadFalse(ns, uid)
  {
    if forall n :: n in ns && n.id == id ==> n.userId != uid {
      MarkOneNoMatch(ns, id, uid);
    }
    if n :| n in ns && n.id == id && n.userId == uid && !n.read {
      MarkOneUnread(ns, id, uid, n);
    }
    if forall n :: n in ns && n.id == id ==> n.userId != uid || n.read {
      MarkOneNothingUnread(ns, id, uid);
    }
  }

  /** No notification of the user's with that id: nothing changes. */
  lemma MarkOneNoMatch(ns: seq<Notification>, id: Id, uid: Id)
    requires forall n :: n in ns && n.id == id ==> n.userId != uid
    ensures OneRead(ns, id, uid) == ns
  {
    var r := OneRead(ns, id, uid);
    forall i | 0 <= i < |ns| ensures r[i] == ns[i] {
      assert ns[i] in ns;
    }
  }

  /** The user's unread notification `n` with that id: one fewer unread. */
  lemma MarkOneUnread(ns: seq<Notification>, id: Id, uid: Id, n: Notification)
    requires IdsIncreasing(ns, NotificationKey)
    requires n in ns && n.id == id && n.userId == uid && !n.read
    ensures CountByUserIdAndReadFalse(OneRead(ns, id, uid), uid) + 1 == CountByUserIdAndReadFalse(ns, uid)
  {
    var r := OneRead(ns, id, uid);
    var k :| 0 <= k < |ns| && ns[k] == n;
    forall i | 0 <= i < |ns| && i != k ensures UnreadFor(uid)(r[i]) == UnreadFor(uid)(ns[i]) {
      if i < k { assert ns[i].id < ns[k].id; }
      if k < i { assert ns[k].id < ns[i].id; }
    }
    FilterOneFewer(ns, r, UnreadFor(uid), k);
  }

  /** No unread notification of the user's with that id: the count stays. */
  lemma MarkOneNothingUnread(ns: seq<Notification>, id: Id, uid: Id)
    requires forall n :: n in ns && n.id == id ==> n.userId != uid || n.read
    ensures CountByUserIdAndReadFalse(OneRead(ns, id, uid), uid) == CountByUserIdAndReadFalse(ns, uid)
  {
    var r := OneRead(ns, id, uid);
    forall i | 0 <= i < |ns| ensures UnreadFor(uid)(r[i]) == UnreadFor(uid)(ns[i]) {
      assert ns[i] in ns;
    }
    FilterLengthPointwise(ns, r, UnreadFor(uid));
  }

  /** Marking the same notification read twice is marking it once. */
  lemma MarkOneIdempotent(ns: seq<Notification>, id: Id, uid: Id)
    ensures OneRead(OneRead(ns, id, uid), id, uid) == OneRead(ns, id, uid)
  {
  }

  /** The unread count is the length of the unread listing. */
  lemma CountIsUnreadListingLength(ns: seq<Notification>, uid: Id)
    ensures CountByUserIdAndReadFalse(ns, uid) == |FindByUserIdAndReadFalseOrderByCreatedAtDesc(ns, uid)|
  {

  }

  /** Marking one notification read is at most marking all of the user's. */
  lemma MarkOneWithinMarkAll(ns: seq<Notification>, id: Id, uid: Id)
    ensures AllRead(OneRead(ns, id, uid), uid) == AllRead(ns, uid)
  {
  }
}
