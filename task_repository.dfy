/** `TaskRepository`: the task queries, as functions over the task table (kept
    in insertion order, so creation order is id order). `today` stands for
    `CURRENT_DATE`. Queries ordered by priority or by a nullable due date
    return their rows in table order; only their contents are stated. */
module TaskRepository {
  import opened Common
  import opened Seqs
  import opened Entities

  // ---------------------------------------------------------------- row conditions

  /** `t.dueDate < CURRENT_DATE AND t.status != 'COMPLETED'`; a null due date
      makes the comparison unknown, so the row is not selected. */
  predicate IsOverdue(t: Task, today: Date) {
    t.dueDate.Some? && t.dueDate.value < today && t.status != COMPLETED
  }

  /** `t.dueDate = CURRENT_DATE`, whatever the status. */
  predicate IsDueToday(t: Task, today: Date) {
    t.dueDate == Some(today)
  }

  /** The sort key of `ORDER BY t.dueDate ASC` on rows whose due date is set. */
  function DueKey(t: Task): int {
    if t.dueDate.Some? then t.dueDate.value else 0
  }

  // Row selectors, one function value per query.
  function OfProject(pid: Id): Task -> bool { (t: Task) => t.projectId == pid }
  function OfProjectWithStatus(pid: Id, s: Status): Task -> bool { (t: Task) => t.projectId == pid && t.status == s }
  function OfProjectWithPriority(pid: Id, pr: Priority): Task -> bool { (t: Task) => t.projectId == pid && t.priority == pr }
  function AssignedTo(uid: Id): Task -> bool { (t: Task) => t.assigneeId == Some(uid) }
  function Overdue(today: Date): Task -> bool { (t: Task) => IsOverdue(t, today) }
  function OverdueFor(uid: Id, today: Date): Task -> bool { (t: Task) => t.assigneeId == Some(uid) && IsOverdue(t, today) }
  function DueToday(today: Date): Task -> bool { (t: Task) => IsDueToday(t, today) }
  function DueTodayFor(uid: Id, today: Date): Task -> bool { (t: Task) => t.assigneeId == Some(uid) && IsDueToday(t, today) }
  function WithPriorityNotStatus(pr: Priority, s: Status): Task -> bool { (t: Task) => t.priority == pr && t.status != s }
  function WithPriorityNotStatusFor(pr: Priority, s: Status, uid: Id): Task -> bool {
    (t: Task) => t.priority == pr && t.status != s && t.assigneeId == Some(uid)
  }

  // ---------------------------------------------------------------- queries

  /** `findByProjectIdOrderByCreatedAtDesc`. */
  function FindByProjectIdOrderByCreatedAtDesc(ts: seq<Task>, pid: Id): (r: seq<Task>)
    ensures forall t :: t in r <==> t in ts && t.projectId == pid
    ensures IdsIncreasing(ts, TaskKey) ==> NewestFirst(r, TaskKey)
  {
    Latest(ts, TaskKey, OfProject(pid))
  }

  /** `findByProjectIdAndStatusOrderByPriorityDesc` (contents only). */
  function FindByProjectIdAndStatus(ts: seq<Task>, pid: Id, s: Status): (r: seq<Task>)
    ensures forall t :: t in r <==> t in ts && t.projectId == pid && t.status == s
    ensures multiset(r) <= multiset(ts)
  {
    Filter(ts, OfProjectWithStatus(pid, s))
  }

  /** `findByProjectIdAndPriorityOrderByCreatedAtDesc`. */
  function FindByProjectIdAndPriorityOrderByCreatedAtDesc(ts: seq<Task>, pid: Id, pr: Priority): (r: seq<Task>)
    ensures forall t :: t in r <==> t in ts && t.projectId == pid && t.priority == pr
    ensures IdsIncreasing(ts, TaskKey) ==> NewestFirst(r, TaskKey)
  {
    Latest(ts, TaskKey, OfProjectWithPriority(pid, pr))
  }

  /** `countByProjectIdAndStatus`. */
  function CountByProjectIdAndStatus(ts: seq<Task>, pid: Id, s: Status): (r: nat)
    ensures r <= |ts| && (ts == [] ==> r == 0)
    ensures r == 0 <==> forall t :: t in ts ==> !(t.projectId == pid && t.status == s)
    ensures r == |FindByProjectIdAndStatus(ts, pid, s)|
  {
    var f := Filter(ts, OfProjectWithStatus(pid, s));
    assert f != [] ==> f[0] in f;
    |f|
  }

  /** `countByProjectId`. */
  function CountByProjectId(ts: seq<Task>, pid: Id): (r: nat)
    ensures r <= |ts| && (ts == [] ==> r == 0)
    ensures r == 0 <==> forall t :: t in ts ==> t.projectId != pid
    ensures r == |FindByProjectIdOrderByCreatedAtDesc(ts, pid)|
  {
    var f := Filter(ts, OfProject(pid));
    assert f != [] ==> f[0] in f;
    |f|
  }

  /** `findOverdueTasks`. */
  function FindOverdueTasks(ts: seq<Task>, today: Date): (r: seq<Task>)
    ensures forall t :: t in r <==> t in ts && IsOverdue(t, today)
    ensures SortedBy(r, DueKey)
    ensures multiset(r) <= multiset(ts)
  {
    var f := Filter(ts, Overdue(today));
    SortByMembers(f, DueKey);
    SortBy(f, DueKey)
  }

  /** `findTasksDueToday` (contents only). */
  function FindTasksDueToday(ts: seq<Task>, today: Date): (r: seq<Task>)
    ensures forall t :: t in r <==> t in ts && IsDueToday(t, today)
    ensures multiset(r) <= multiset(ts)
  {
    Filter(ts, DueToday(today))
  }

  /** `findByPriorityAndStatusNotOrderByCreatedAtDesc`. */
  function FindByPriorityAndStatusNotOrderByCreatedAtDesc(ts: seq<Task>, pr: Priority, s: Status): (r: seq<Task>)
    ensures forall t :: t in r <==> t in ts && t.priority == pr && t.status != s
    ensures IdsIncreasing(ts, TaskKey) ==> NewestFirst(r, TaskKey)
  {
    Latest(ts, TaskKey, WithPriorityNotStatus(pr, s))
  }

  /** `findByAssignedToOrderByDueDateAsc` (contents only). */
  function FindByAssignedTo(ts: seq<Task>, uid: Id): (r: seq<Task>)
    ensures forall t :: t in r <==> t in ts && t.assigneeId == Some(uid)
    ensures multiset(r) <= multiset(ts)
  {
    Filter(ts, AssignedTo(uid))
  }

  /** `findOverdueTasksByUser`. */
  function FindOverdueTasksByUser(ts: seq<Task>, uid: Id, today: Date): (r: seq<Task>)
    ensures forall t :: t in r <==> t in ts && t.assigneeId == Some(uid) && IsOverdue(t, today)
    ensures SortedBy(r, DueKey)
    ensures multiset(r) <= multiset(ts)
  {
    var f := Filter(ts, OverdueFor(uid, today));
    SortByMembers(f, DueKey);
    SortBy(f, DueKey)
  }

  /** `findTasksDueTodayByUser` (contents only). */
  function FindTasksDueTodayByUser(ts: seq<Task>, uid: Id, today: Date): (r: seq<Task>)
    ensures forall t :: t in r <==> t in ts && t.assigneeId == Some(uid) && IsDueToday(t, today)
    ensures multiset(r) <= multiset(ts)
  {
    Filter(ts, DueTodayFor(uid, today))
  }

  /** `findByPriorityAndStatusNotAndAssignedToOrderByCreatedAtDesc`. */
  function FindByPriorityAndStatusNotAndAssignedToOrderByCreatedAtDesc(
    ts: seq<Task>, pr: Priority, s: Status, uid: Id): (r: seq<Task>)
    ensures forall t :: t in r <==> t in ts && t.priority == pr && t.status != s && t.assigneeId == Some(uid)
    ensures IdsIncreasing(ts, TaskKey) ==> NewestFirst(r, TaskKey)
  {
    Latest(ts, TaskKey, WithPriorityNotStatusFor(pr, s, uid))
  }

  // ---------------------------------------------------------------- properties

  /** Saving a task adds one to each count it matches and leaves the others
      unchanged; with the empty table's zero this fixes every count. */
  lemma CountsAfterAppend(ts: seq<Task>, t: Task, pid: Id, s: Status)
    ensures CountByProjectId(ts + [t], pid) == CountByProjectId(ts, pid) + (if t.projectId == pid then 1 else 0)
    ensures CountByProjectIdAndStatus(ts + [t], pid, s)
            == CountByProjectIdAndStatus(ts, pid, s) + (if t.projectId == pid && t.status == s then 1 else 0)
  {
    FilterAppend(ts, t, OfProject(pid));
    FilterAppend(ts, t, OfProjectWithStatus(pid, s));
  }

  /** A project never has more tasks in one status than tasks overall. */
  lemma CountByStatusAtMostTotal(ts: seq<Task>, pid: Id, s: Status)
    ensures CountByProjectIdAndStatus(ts, pid, s) <= CountByProjectId(ts, pid)
  {
    FilterLengthMonotone(ts, OfProjectWithStatus(pid, s), OfProject(pid));
  }

  /** The status counts of a project add up to its task count. */
  lemma StatusCountsSum(ts: seq<Task>, pid: Id)
    ensures CountByProjectIdAndStatus(ts, pid, TODO) + CountByProjectIdAndStatus(ts, pid, IN_PROGRESS)
            + CountByProjectIdAndStatus(ts, pid, COMPLETED) == CountByProjectId(ts, pid)
  {
    FilterPartition3(ts, OfProject(pid), OfProjectWithStatus(pid, TODO),
                     OfProjectWithStatus(pid, IN_PROGRESS), OfProjectWithStatus(pid, COMPLETED));
  }

  /** A task without a due date is neither overdue nor due today. */
  lemma NoDueDateNeverListed(ts: seq<Task>, t: Task, uid: Id, today: Date)
    requires t.dueDate.None?
    ensures t !in FindOverdueTasks(ts, today) && t !in FindTasksDueToday(ts, today)
    ensures t !in FindOverdueTasksByUser(ts, uid, today) && t !in FindTasksDueTodayByUser(ts, uid, today)
  {
  }

  /** Due-today includes completed tasks, overdue excludes them, and no task is both. */
  lemma OverdueAndDueToday(ts: seq<Task>, t: Task, today: Date)
    requires t in ts
    ensures t.dueDate == Some(today) ==> t in FindTasksDueToday(ts, today)
    ensures t.status == COMPLETED ==> t !in FindOverdueTasks(ts, today)
    ensures !(t in FindOverdueTasks(ts, today) && t in FindTasksDueToday(ts, today))
  {
  }

  /** The per-user overdue and due-today queries select the global rows
      assigned to the user. */
  lemma PerUserQueriesRestrictGlobal(ts: seq<Task>, uid: Id, today: Date, t: Task)
    ensures t in FindOverdueTasksByUser(ts, uid, today) <==> t in FindOverdueTasks(ts, today) && t.assigneeId == Some(uid)
    ensures t in FindTasksDueTodayByUser(ts, uid, today) <==> t in FindTasksDueToday(ts, today) && t.assigneeId == Some(uid)
  {
  }

  /** The per-user high-priority query is the global result restricted to the
      user's tasks, in the same order. */
  lemma HighPriorityForUserIsRestriction(ts: seq<Task>, pr: Priority, s: Status, uid: Id)
    ensures FindByPriorityAndStatusNotAndAssignedToOrderByCreatedAtDesc(ts, pr, s, uid)
            == Filter(FindByPriorityAndStatusNotOrderByCreatedAtDesc(ts, pr, s), AssignedTo(uid))
  {
    LatestRestrict(ts, TaskKey, WithPriorityNotStatus(pr, s), AssignedTo(uid), WithPriorityNotStatusFor(pr, s, uid));
  }
}
