/** `MilestoneRepository`: the milestone queries over the milestone table, with
    `today` and the window end passed in as `LocalDate` parameters. */
module MilestoneRepository {
  import opened Common
  import opened Seqs
  import opened Entities

  /** `m.targetDate < :today AND m.completed = false`. */
  predicate IsOverdue(m: Milestone, today: Date) {
    m.targetDate < today && !m.completed
  }

  /** `m.targetDate BETWEEN :today AND :until`, both ends inclusive, any completion. */
  predicate IsUpcoming(m: Milestone, today: Date, until: Date) {
    today <= m.targetDate <= until
  }

  /** The sort key of `ORDER BY m.targetDate ASC`. */
  function TargetKey(m: Milestone): int {
    m.targetDate
  }

  function OfProject(pid: Id): Milestone -> bool { (m: Milestone) => m.projectId == pid }
  function CompletedOfProject(pid: Id): Milestone -> bool { (m: Milestone) => m.projectId == pid && m.completed }
  function OverdueOfProject(pid: Id, today: Date): Milestone -> bool {
    (m: Milestone) => m.projectId == pid && IsOverdue(m, today)
  }
  function UpcomingOfProject(pid: Id, today: Date, until: Date): Milestone -> bool {
    (m: Milestone) => m.projectId == pid && IsUpcoming(m, today, until)
  }

  /** `findByProjectIdWithProjectDetails`: a project's milestones by target date. */
  function FindByProjectIdWithProjectDetails(ms: seq<Milestone>, pid: Id): (r: seq<Milestone>)
    ensures forall m :: m in r <==> m in ms && m.projectId == pid
    ensures SortedBy(r, TargetKey)
    ensures multiset(r) <= multiset(ms)
  {
    var f := Filter(ms, OfProject(pid));
    SortByMembers(f, TargetKey);
    SortBy(f, TargetKey)
  }

  /** `findOverdueMilestones`. */
  function FindOverdueMilestones(ms: seq<Milestone>, pid: Id, today: Date): (r: seq<Milestone>)
    ensures forall m :: m in r <==> m in ms && m.projectId == pid && IsOverdue(m, today)
    ensures SortedBy(r, TargetKey)
    ensures multiset(r) <= multiset(ms)
  {
    var f := Filter(ms, OverdueOfProject(pid, today));
    SortByMembers(f, TargetKey);
    SortBy(f, TargetKey)
  }

  /** `findUpcomingMilestones`. */
  function FindUpcomingMilestones(ms: seq<Milestone>, pid: Id, today: Date, until: Date): (r: seq<Milestone>)
    ensures forall m :: m in r <==> m in ms && m.projectId == pid && IsUpcoming(m, today, until)
    ensures SortedBy(r, TargetKey)
    ensures multiset(r) <= multiset(ms)
  {
    var f := Filter(ms, UpcomingOfProject(pid, today, until));
    SortByMembers(f, TargetKey);
    SortBy(f, TargetKey)
  }

  /** `countByProjectIdAndCompletedTrue`. */
  function CountByProjectIdAndCompletedTrue(ms: seq<Milestone>, pid: Id): (r: nat)
    ensures r <= |ms| && (ms == [] ==> r == 0)
    ensures r == 0 <==> forall m :: m in ms ==> !(m.projectId == pid && m.completed)
  {
    var f := Filter(ms, CompletedOfProject(pid));
    assert f != [] ==> f[0] in f;
    |f|
  }

  /** `countByProjectId`. */
  function CountByProjectId(ms: seq<Milestone>, pid: Id): (r: nat)
    ensures r <= |ms| && (ms == [] ==> r == 0)
    ensures r == 0 <==> forall m :: m in ms ==> m.projectId != pid
    ensures r == |FindByProjectIdWithProjectDetails(ms, pid)|
  {
    var f := Filter(ms, OfProject(pid));
    assert f != [] ==> f[0] in f;
    |f|
  }

  /** Saving a milestone adds one to each count it matches and leaves the
      others unchanged; with the empty table's zero this fixes every count. */
  lemma CountsAfterAppend(ms: seq<Milestone>, m: Milestone, pid: Id)
    ensures CountByProjectId(ms + [m], pid) == CountByProjectId(ms, pid) + (if m.projectId == pid then 1 else 0)
    ensures CountByProjectIdAndCompletedTrue(ms + [m], pid)
            == CountByProjectIdAndCompletedTrue(ms, pid) + (if m.projectId == pid && m.completed then 1 else 0)
  {
    FilterAppend(ms, m, OfProject(pid));
    FilterAppend(ms, m, CompletedOfProject(pid));
  }

  /** A project never has more completed milestones than milestones. */
  lemma CompletedAtMostTotal(ms: seq<Milestone>, pid: Id)
    ensures CountByProjectIdAndCompletedTrue(ms, pid) <= CountByProjectId(ms, pid)
  {
    FilterLengthMonotone(ms, CompletedOfProject(pid), OfProject(pid));
  }

  /** For one `today`, no milestone is both overdue and upcoming, and upcoming
      milestones may be completed ones. */
  lemma OverdueUpcomingDisjoint(ms: seq<Milestone>, pid: Id, today: Date, until: Date, m: Milestone)
    ensures !(m in FindOverdueMilestones(ms, pid, today) && m in FindUpcomingMilestones(ms, pid, today, until))
    ensures m in ms && m.projectId == pid && m.completed && today <= m.targetDate <= until
            ==> m in FindUpcomingMilestones(ms, pid, today, until)
  {
  }

  /** The overdue and upcoming milestones of a project are among its listing. */
  lemma ViewsWithinListing(ms: seq<Milestone>, pid: Id, today: Date, until: Date, m: Milestone)
    ensures m in FindOverdueMilestones(ms, pid, today) ==> m in FindByProjectIdWithProjectDetails(ms, pid)
    ensures m in FindUpcomingMilestones(ms, pid, today, until) ==> m in FindByProjectIdWithProjectDetails(ms, pid)
  {
  }
}
