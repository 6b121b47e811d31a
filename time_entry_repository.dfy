/** `TimeEntryRepository`: listings of time entries, newest first, and the
    `COALESCE(SUM(te.hoursSpent), 0.0)` totals. The listings that also fetch
    the task or the user select the same rows as their derived twins. */
module TimeEntryRepository {
  import opened Common
  import opened Seqs
  import opened Entities

  function OfTask(tid: Id): TimeEntry -> bool { (e: TimeEntry) => e.taskId == tid }
  function OfUser(uid: Id): TimeEntry -> bool { (e: TimeEntry) => e.userId == uid }
  function OfTaskAndUser(tid: Id, uid: Id): TimeEntry -> bool { (e: TimeEntry) => e.taskId == tid && e.userId == uid }

  /** The hours of the entries; `0.0` for none, as `COALESCE` gives. */
  function SumHours(es: seq<TimeEntry>): real
    decreases |es|
  {
    if es == [] then 0.0 else SumHours(es[..|es| - 1]) + es[|es| - 1].hoursSpent
  }

  /** Every entry has a positive number of hours (`@Positive` on the request). */
  predicate AllPositive(es: seq<TimeEntry>) {
    forall e :: e in es ==> ValidTimeEntry(e)
  }

  /** The sum of positive hours is positive exactly when some entry is present. */
  lemma {:induction false} SumHoursSign(es: seq<TimeEntry>)
    requires AllPositive(es)
    ensures SumHours(es) >= 0.0
    ensures SumHours(es) == 0.0 <==> es == []
    decreases |es|
  {
    if es != [] {
      var init := es[..|es| - 1];
      assert es[|es| - 1] in es;
      assert AllPositive(init) by {
        forall e | e in init ensures ValidTimeEntry(e) {
          assert e in es;
        }
      }
      SumHoursSign(init);
    }
  }

  /** Summing the entries back to front gives the same total. */
  lemma {:induction false} SumHoursReverse(es: seq<TimeEntry>)
    ensures SumHours(Reverse(es)) == SumHours(es)
    decreases |es|
  {
    if es != [] {
      var init, last := es[..|es| - 1], es[|es| - 1];
      SumHoursReverse(init);
      SumHoursPrepend(last, Reverse(init));
      assert Reverse(es) == [last] + Reverse(init) by {
        assert |Reverse(es)| == |es|;
        forall i | 0 <= i < |es| ensures Reverse(es)[i] == ([last] + Reverse(init))[i] {
        }
      }
    }
  }

  /** An entry placed in front adds its hours. */
  lemma {:induction false} SumHoursPrepend(e: TimeEntry, es: seq<TimeEntry>)
    ensures SumHours([e] + es) == e.hoursSpent + SumHours(es)
    decreases |es|
  {
    if es != [] {
      var init, last := es[..|es| - 1], es[|es| - 1];
      assert ([e] + es)[..|[e] + es| - 1] == [e] + init;
      SumHoursPrepend(e, init);
    }
  }

  /** Appending an entry adds its hours. */
  lemma SumHoursAppend(es: seq<TimeEntry>, e: TimeEntry)
    ensures SumHours(es + [e]) == SumHours(es) + e.hoursSpent
  {
    assert (es + [e])[..|es + [e]| - 1] == es;
  }

  /** A filter over a table with one more entry sums to the old filter's
      hours plus that entry's hours when it is selected. */
  lemma SumHoursFilterAppend(es: seq<TimeEntry>, e: TimeEntry, p: TimeEntry -> bool)
    ensures SumHours(Filter(es + [e], p)) == SumHours(Filter(es, p)) + (if p(e) then e.hoursSpent else 0.0)
  {
    FilterAppend(es, e, p);
    if p(e) {
      SumHoursAppend(Filter(es, p), e);
    } else {
      assert Filter(es + [e], p) == Filter(es, p);
    }
  }

  /** The selected hours of positive entries are non-negative, and zero
      exactly when no entry is selected. */
  lemma SumHoursFilterSign(es: seq<TimeEntry>, p: TimeEntry -> bool)
    requires AllPositive(es)
    ensures SumHours(Filter(es, p)) >= 0.0
    ensures SumHours(Filter(es, p)) == 0.0 <==> forall e :: e in es ==> !p(e)
  {
    var f := Filter(es, p);
    SumHoursSign(f);
    assert f != [] ==> f[0] in f;
  }

  /** A stronger selection never sums to more hours, when hours are positive. */
  lemma {:induction false} SumHoursFilterMonotone(es: seq<TimeEntry>, p: TimeEntry -> bool, q: TimeEntry -> bool)
    requires AllPositive(es)
    requires forall e :: p(e) ==> q(e)
    ensures SumHours(Filter(es, p)) <= SumHours(Filter(es, q))
    decreases |es|
  {
    if es != [] {
      var init, last := es[..|es| - 1], es[|es| - 1];
      assert es == init + [last];
      assert last in es;
      assert AllPositive(init) by {
        forall e | e in init ensures ValidTimeEntry(e) {
          assert e in es;
        }
      }
      SumHoursFilterMonotone(init, p, q);
      SumHoursFilterAppend(init, last, p);
      SumHoursFilterAppend(init, last, q);
    }
  }

  /** Within one table, where ids are unique, `TimeEntry.equals` (same id)
      holds exactly between an entry and itself. */
  lemma SameTimeEntryInTable(es: seq<TimeEntry>, a: TimeEntry, b: TimeEntry)
    requires IdsIncreasing(es, TimeEntryKey) && a in es && b in es
    ensures SameTimeEntry(a, b) <==> a == b
  {
    if SameTimeEntry(a, b) {
      IdsUnique(es, TimeEntryKey, a, b);
    }
  }

  // ---------------------------------------------------------------- queries

  /** `findByTaskIdOrderByCreatedAtDesc` and `findByTaskIdWithUserDetails`. */
  function FindByTaskIdOrderByCreatedAtDesc(es: seq<TimeEntry>, tid: Id): (r: seq<TimeEntry>)
    ensures forall e :: e in r <==> e in es && e.taskId == tid
    ensures IdsIncreasing(es, TimeEntryKey) ==> NewestFirst(r, TimeEntryKey)
  {
    Latest(es, TimeEntryKey, OfTask(tid))
  }

  /** `findByUserIdOrderByCreatedAtDesc` and `findByUserIdWithTaskDetails`. */
  function FindByUserIdOrderByCreatedAtDesc(es: seq<TimeEntry>, uid: Id): (r: seq<TimeEntry>)
    ensures forall e :: e in r <==> e in es && e.userId == uid
    ensures IdsIncreasing(es, TimeEntryKey) ==> NewestFirst(r, TimeEntryKey)
  {
    Latest(es, TimeEntryKey, OfUser(uid))
  }

  /** `findByTaskIdAndUserIdOrderByCreatedAtDesc`. */
  function FindByTaskIdAndUserIdOrderByCreatedAtDesc(es: seq<TimeEntry>, tid: Id, uid: Id): (r: seq<TimeEntry>)
    ensures forall e :: e in r <==> e in es && e.taskId == tid && e.userId == uid
    ensures IdsIncreasing(es, TimeEntryKey) ==> NewestFirst(r, TimeEntryKey)
  {
    Latest(es, TimeEntryKey, OfTaskAndUser(tid, uid))
  }

  /** `findByIdWithTaskAndUser`. */
  function FindByIdWithTaskAndUser(es: seq<TimeEntry>, id: Id): (r: Option<TimeEntry>)
    ensures r.Some? ==> r.value in es && r.value.id == id
    ensures r.None? <==> forall e :: e in es ==> e.id != id
  {
    Find(es, TimeEntryKey, id)
  }

  /** `getTotalHoursByTaskId`. */
  function GetTotalHoursByTaskId(es: seq<TimeEntry>, tid: Id): (r: real)
    ensures AllPositive(es) ==> r >= 0.0
    ensures AllPositive(es) ==> (r == 0.0 <==> forall e :: e in es ==> e.taskId != tid)
  {
    var f := Filter(es, OfTask(tid));
    assert AllPositive(es) ==> SumHours(f) >= 0.0 && (SumHours(f) == 0.0 <==> forall e :: e in es ==> !OfTask(tid)(e)) by {
      if AllPositive(es) { SumHoursFilterSign(es, OfTask(tid)); }
    }
    SumHours(f)
  }

  /** `getTotalHoursByTaskIdAndUserId`. */
  function GetTotalHoursByTaskIdAndUserId(es: seq<TimeEntry>, tid: Id, uid: Id): (r: real)
    ensures AllPositive(es) ==> r >= 0.0
    ensures AllPositive(es) ==> (r == 0.0 <==> forall e :: e in es ==> !(e.taskId == tid && e.userId == uid))
  {
    var f := Filter(es, OfTaskAndUser(tid, uid));
    assert AllPositive(es) ==> SumHours(f) >= 0.0 && (SumHours(f) == 0.0 <==> forall e :: e in es ==> !OfTaskAndUser(tid, uid)(e)) by {
      if AllPositive(es) { SumHoursFilterSign(es, OfTaskAndUser(tid, uid)); }
    }
    SumHours(f)
  }

  /** `getTotalHoursByUserId`. */
  function GetTotalHoursByUserId(es: seq<TimeEntry>, uid: Id): (r: real)
    ensures AllPositive(es) ==> r >= 0.0
    ensures AllPositive(es) ==> (r == 0.0 <==> forall e :: e in es ==> e.userId != uid)
  {
    var f := Filter(es, OfUser(uid));
    assert AllPositive(es) ==> SumHours(f) >= 0.0 && (SumHours(f) == 0.0 <==> forall e :: e in es ==> !OfUser(uid)(e)) by {
      if AllPositive(es) { SumHoursFilterSign(es, OfUser(uid)); }
    }
    SumHours(f)
  }

  // ---------------------------------------------------------------- properties

  /** A task's total is the sum of the hours its listing shows. */
  lemma TotalIsSumOfListing(es: seq<TimeEntry>, tid: Id)
    ensures GetTotalHoursByTaskId(es, tid) == SumHours(FindByTaskIdOrderByCreatedAtDesc(es, tid))
  {
    SumHoursReverse(Filter(es, OfTask(tid)));
  }

  /** A user's hours on a task are at most the task's hours and at most the
      user's hours overall. */
  lemma UserTaskTotalBounded(es: seq<TimeEntry>, tid: Id, uid: Id)
    requires AllPositive(es)
    ensures GetTotalHoursByTaskIdAndUserId(es, tid, uid) <= GetTotalHoursByTaskId(es, tid)
    ensures GetTotalHoursByTaskIdAndUserId(es, tid, uid) <= GetTotalHoursByUserId(es, uid)
  {
    SumHoursFilterMonotone(es, OfTaskAndUser(tid, uid), OfTask(tid));
    SumHoursFilterMonotone(es, OfTaskAndUser(tid, uid), OfUser(uid));
  }

  /** Saving a new entry adds its hours to the totals it belongs to and
      leaves the others unchanged. */
  lemma TotalsAfterAppend(es: seq<TimeEntry>, e: TimeEntry, tid: Id, uid: Id)
    ensures GetTotalHoursByTaskId(es + [e], tid)
            == GetTotalHoursByTaskId(es, tid) + (if e.taskId == tid then e.hoursSpent else 0.0)
    ensures GetTotalHoursByUserId(es + [e], uid)
            == GetTotalHoursByUserId(es, uid) + (if e.userId == uid then e.hoursSpent else 0.0)
    ensures GetTotalHoursByTaskIdAndUserId(es + [e], tid, uid)
            == GetTotalHoursByTaskIdAndUserId(es, tid, uid) + (if e.taskId == tid && e.userId == uid then e.hoursSpent else 0.0)
  {
    assert GetTotalHoursByTaskId(es + [e], tid)
           == GetTotalHoursByTaskId(es, tid) + (if e.taskId == tid then e.hoursSpent else 0.0) by {
      SumHoursFilterAppend(es, e, OfTask(tid));
    }
    assert GetTotalHoursByUserId(es + [e], uid)
           == GetTotalHoursByUserId(es, uid) + (if e.userId == uid then e.hoursSpent else 0.0) by {
      SumHoursFilterAppend(es, e, OfUser(uid));
    }
    SumHoursFilterAppend(es, e, OfTaskAndUser(tid, uid));
  }
}
