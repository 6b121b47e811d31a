/** `TimeEntryService`: time logged against tasks. Logging and the task-scoped
    reads are gated by the time-entry service's `canAccessTask` (with the
    assignee path); the caller's own entries and total need no check. Totals
    are `0.0` when nothing is logged and when access is refused. */
module TimeEntryService {
  import opened Common
  import opened Seqs
  import opened Entities
  import opened Dtos
  import opened Access
  import opened Store
  import opened TimeEntryRepository

  class TimeEntryService {
    const db: Store

    constructor (db: Store)
      ensures this.db == db
    {
      this.db := db;
    }

    /** `createTimeEntry`: with task access, saves an entry by the caller
        with the requested hours, which adds those hours to the task's total,
        to the caller's total and to the caller's total on the task. */
    method CreateTimeEntry(tid: Id, hours: real, u: User) returns (r: Option<TimeEntry>)
      requires db.Valid() && ValidHours(hours)
      modifies db`timeEntries, db`nextTimeEntryId
      ensures db.Valid()
      ensures r.Some? <==> old(db.TaskWith(tid, u, CanAccessTask))
      ensures r.None? ==> db.timeEntries == old(db.timeEntries) && db.nextTimeEntryId == old(db.nextTimeEntryId)
      ensures r.Some? ==>
                && r.value == TimeEntry(old(db.nextTimeEntryId), tid, u.id, hours)
                && db.timeEntries == old(db.timeEntries) + [r.value]
                && db.nextTimeEntryId == old(db.nextTimeEntryId) + 1
      ensures r.Some? ==>
                && GetTotalHoursByTaskId(db.timeEntries, tid) == old(GetTotalHoursByTaskId(db.timeEntries, tid)) + hours
                && GetTotalHoursByUserId(db.timeEntries, u.id) == old(GetTotalHoursByUserId(db.timeEntries, u.id)) + hours
                && GetTotalHoursByTaskIdAndUserId(db.timeEntries, tid, u.id)
                   == old(GetTotalHoursByTaskIdAndUserId(db.timeEntries, tid, u.id)) + hours
    {
      var found := db.TaskIndexWith(tid, u, CanAccessTask);
      if found.None? {
        return None;
      }
      assert db.tasks[found.value] in db.tasks;
      var e := TimeEntry(db.nextTimeEntryId, tid, u.id, hours);
      TotalsAfterAppend(db.timeEntries, e, tid, u.id);
      db.SaveTimeEntry(e);
      r := Some(e);
    }

    /** `getTimeEntriesByTaskId`: the task's entries, newest first, with task
        access; nothing otherwise. */
    function GetTimeEntriesByTaskId(tid: Id, u: User): (r: seq<TimeEntry>)
      reads db
      requires db.Valid()
      ensures db.TaskWith(tid, u, CanAccessTask) ==> r == FindByTaskIdOrderByCreatedAtDesc(db.timeEntries, tid)
      ensures !db.TaskWith(tid, u, CanAccessTask) ==> r == []
    {
      if db.TaskIndexWith(tid, u, CanAccessTask).Some? then FindByTaskIdOrderByCreatedAtDesc(db.timeEntries, tid) else []
    }

    /** `getTimeSummaryByTaskId`: the task's total hours with task access,
        `0.0` otherwise; never negative. */
    function GetTimeSummaryByTaskId(tid: Id, u: User): (r: real)
      reads db
      requires db.Valid()
      ensures r >= 0.0
      ensures db.TaskWith(tid, u, CanAccessTask) ==> r == GetTotalHoursByTaskId(db.timeEntries, tid)
      ensures !db.TaskWith(tid, u, CanAccessTask) ==> r == 0.0
    {
      if db.TaskIndexWith(tid, u, CanAccessTask).Some? then GetTotalHoursByTaskId(db.timeEntries, tid) else 0.0
    }

    /** `getTimeEntriesByCurrentUser`: no access check, only the caller's own
        entries, newest first. */
    function GetTimeEntriesByCurrentUser(u: User): (r: seq<TimeEntry>)
      reads db
      requires db.Valid()
      ensures forall e :: e in r <==> e in db.timeEntries && e.userId == u.id
      ensures NewestFirst(r, TimeEntryKey)
    {
      FindByUserIdOrderByCreatedAtDesc(db.timeEntries, u.id)
    }

    /** `getTimeEntriesByTaskIdAndCurrentUser`: the caller's own entries on the
        task, with task access; nothing otherwise. */
    function GetTimeEntriesByTaskIdAndCurrentUser(tid: Id, u: User): (r: seq<TimeEntry>)
      reads db
      requires db.Valid()
      ensures db.TaskWith(tid, u, CanAccessTask) ==> r == FindByTaskIdAndUserIdOrderByCreatedAtDesc(db.timeEntries, tid, u.id)
      ensures !db.TaskWith(tid, u, CanAccessTask) ==> r == []
    {
      if db.TaskIndexWith(tid, u, CanAccessTask).Some? then FindByTaskIdAndUserIdOrderByCreatedAtDesc(db.timeEntries, tid, u.id) else []
    }

    /** `getTotalHoursByTaskIdAndCurrentUser`: the caller's hours on the task
        with task access, `0.0` otherwise. */
    function GetTotalHoursByTaskIdAndCurrentUser(tid: Id, u: User): (r: real)
      reads db
      requires db.Valid()
      ensures r >= 0.0
      ensures db.TaskWith(tid, u, CanAccessTask) ==> r == GetTotalHoursByTaskIdAndUserId(db.timeEntries, tid, u.id)
      ensures !db.TaskWith(tid, u, CanAccessTask) ==> r == 0.0
    {
      if db.TaskIndexWith(tid, u, CanAccessTask).Some? then GetTotalHoursByTaskIdAndUserId(db.timeEntries, tid, u.id) else 0.0
    }

    /** `getTotalHoursByCurrentUser`: no access check; `0.0` exactly when the
        caller has logged nothing. */
    function GetTotalHoursByCurrentUser(u: User): (r: real)
      reads db
      requires db.Valid()
      ensures r == GetTotalHoursByUserId(db.timeEntries, u.id)
      ensures r >= 0.0
      ensures r == 0.0 <==> GetTimeEntriesByCurrentUser(u) == []
    {
      var r := GetTotalHoursByUserId(db.timeEntries, u.id);
      var l := GetTimeEntriesByCurrentUser(u);
      assert l != [] ==> l[0] in l;
      r
    }

    // ---------------------------------------------------------------- properties

    /** The caller's hours on a task never exceed the task's summary, nor the
        caller's overall total. */
    lemma OwnHoursBounded(tid: Id, u: User)
      requires db.Valid()
      ensures GetTotalHoursByTaskIdAndCurrentUser(tid, u) <= GetTimeSummaryByTaskId(tid, u)
      ensures GetTotalHoursByTaskIdAndCurrentUser(tid, u) <= GetTotalHoursByCurrentUser(u)
    {
      UserTaskTotalBounded(db.timeEntries, tid, u.id);
    }

    /** The summary is the sum of the hours the task's listing shows. */
    lemma SummaryIsSumOfListing(tid: Id, u: User)
      requires db.Valid()
      ensures GetTimeSummaryByTaskId(tid, u) == SumHours(GetTimeEntriesByTaskId(tid, u))
    {
      TotalIsSumOfListing(db.timeEntries, tid);
    }
  }
}
