/** `MilestoneService`: milestone reads gated by access to the parent project,
    create, update, delete and completion toggle gated by `canModifyProject`,
    the overdue and 30-day upcoming views, and completion progress. */
module MilestoneService {
  import opened Common
  import opened Seqs
  import opened Entities
  import opened Dtos
  import opened Access
  import opened Store
  import opened Progress
  import opened MilestoneRepository

  /** The length of the upcoming window: `today.plusDays(30)`. */
  const UpcomingDays: int := 30

  /** The milestone `toggleMilestoneCompletion` saves. */
  function Toggled(m: Milestone): (r: Milestone)
    ensures r.completed != m.completed
    ensures r.(completed := m.completed) == m
  {
    m.(completed := !m.completed)
  }

  /** The milestone `updateMilestone` saves: the request's four fields on the
      loaded row. */
  function Updated(m: Milestone, d: MilestoneDto): Milestone
    requires d.targetDate.Some?
  {
    m.(title := d.title, description := d.description, targetDate := d.targetDate.value, completed := d.completed)
  }

  class MilestoneService {
    const db: Store

    constructor (db: Store)
      ensures this.db == db
    {
      this.db := db;
    }

    /** Whether the project exists and the caller may read it. */
    function Readable(pid: Id, u: User): (b: bool)
      reads db
      requires db.Valid()
      ensures b <==> db.ProjectWith(pid, u, CanAccessProject)
    {
      FindMembers(db.projects, ProjectKey);
      match Find(db.projects, ProjectKey, pid)
      case Some(p) => CanAccessProject(p, u)
      case None => false
    }

    /** The project the milestone at `i` belongs to (`milestone.getProject()`). */
    function ProjectOf(i: nat): (p: Project)
      reads db
      requires db.Valid() && i < |db.milestones|
      ensures p in db.projects && p.id == db.milestones[i].projectId
    {
      assert db.milestones[i] in db.milestones;
      MilestoneProjectExists(db, db.milestones[i]);
      Find(db.projects, ProjectKey, db.milestones[i].projectId).value
    }

    /** `getMilestonesByProjectId`: the project's milestones by target date
        when it is readable, nothing otherwise. */
    function GetMilestonesByProjectId(pid: Id, u: User): (r: seq<Milestone>)
      reads db
      requires db.Valid()
      ensures db.ProjectWith(pid, u, CanAccessProject) ==> r == FindByProjectIdWithProjectDetails(db.milestones, pid)
      ensures !db.ProjectWith(pid, u, CanAccessProject) ==> r == []
    {
      if Readable(pid, u) then FindByProjectIdWithProjectDetails(db.milestones, pid) else []
    }

    /** `getMilestoneById`: empty for a missing milestone and for one whose
        project the caller may not read. */
    function GetMilestoneById(id: Id, u: User): (r: Option<Milestone>)
      reads db
      requires db.Valid()
      ensures r.Some? ==> r.value in db.milestones && r.value.id == id
      ensures r.Some? <==> db.MilestoneWith(id, u, CanAccessProject)
    {
      match IndexOf(db.milestones, MilestoneKey, id)
      case None => None
      case Some(i) =>
        var p := ProjectOf(i);
        db.MilestoneWithAt(i, p, u, CanAccessProject);
        if CanAccessProject(p, u) then Some(db.milestones[i]) else None
    }

    /** `createMilestone`: only for ADMIN or the project's creator; the new
        milestone carries the request's fields and belongs to the project. */
    method CreateMilestone(pid: Id, d: MilestoneDto, u: User) returns (r: Option<Milestone>)
      requires db.Valid() && ValidMilestoneDto(d)
      modifies db`milestones, db`nextMilestoneId
      ensures db.Valid()
      ensures r.Some? <==> old(db.ProjectWith(pid, u, CanModifyProject))
      ensures r.None? ==> db.milestones == old(db.milestones) && db.nextMilestoneId == old(db.nextMilestoneId)
      ensures r.Some? ==>
                && r.value == Milestone(old(db.nextMilestoneId), pid, d.title, d.description, d.targetDate.value, d.completed)
                && db.milestones == old(db.milestones) + [r.value]
                && db.nextMilestoneId == old(db.nextMilestoneId) + 1
    {
      FindMembers(db.projects, ProjectKey);
      var p := Find(db.projects, ProjectKey, pid);
      if p.None? || !CanModifyProject(p.value, u) {
        return None;
      }
      var m := Milestone(db.nextMilestoneId, pid, d.title, d.description, d.targetDate.value, d.completed);
      db.SaveMilestone(m);
      r := Some(m);
    }

    /** `updateMilestone`: only when the caller may modify the milestone's
        project; overwrites title, description, target date and completion. */
    method UpdateMilestone(id: Id, d: MilestoneDto, u: User) returns (r: Option<Milestone>)
      requires db.Valid() && ValidMilestoneDto(d)
      modifies db`milestones
      ensures db.Valid()
      ensures r.Some? <==> old(db.MilestoneWith(id, u, CanModifyProject))
      ensures r.None? ==> db.milestones == old(db.milestones)
      ensures r.Some? ==>
                && db.milestones == ReplaceById(old(db.milestones), MilestoneKey, r.value)
                && exists m :: m in old(db.milestones) && m.id == id && r.value == Updated(m, d)
    {
      var i := IndexOf(db.milestones, MilestoneKey, id);
      if i.None? {
        return None;
      }
      var p := ProjectOf(i.value);
      db.MilestoneWithAt(i.value, p, u, CanModifyProject);
      if !CanModifyProject(p, u) {
        return None;
      }
      var m := db.milestones[i.value];
      assert m in db.milestones;
      r := Some(Updated(m, d));
      db.ReplaceMilestone(i.value, r.value);
    }

    /** `deleteMilestone`: only when the caller may modify its project. */
    method DeleteMilestone(id: Id, u: User) returns (ok: bool)
      requires db.Valid()
      modifies db`milestones
      ensures db.Valid()
      ensures ok <==> old(db.MilestoneWith(id, u, CanModifyProject))
      ensures !ok ==> db.milestones == old(db.milestones)
      ensures ok ==> db.milestones == RemoveById(old(db.milestones), MilestoneKey, id)
    {
      var i := IndexOf(db.milestones, MilestoneKey, id);
      if i.None? {
        return false;
      }
      var p := ProjectOf(i.value);
      db.MilestoneWithAt(i.value, p, u, CanModifyProject);
      if !CanModifyProject(p, u) {
        return false;
      }
      db.RemoveMilestone(id);
      ok := true;
    }

    /** `toggleMilestoneCompletion`: only when the caller may modify its
        project; flips `completed` and nothing else. */
    method ToggleMilestoneCompletion(id: Id, u: User) returns (r: Option<Milestone>)
      requires db.Valid()
      modifies db`milestones
      ensures db.Valid()
      ensures r.Some? <==> old(db.MilestoneWith(id, u, CanModifyProject))
      ensures r.None? ==> db.milestones == old(db.milestones)
      ensures r.Some? ==>
                && db.milestones == ReplaceById(old(db.milestones), MilestoneKey, r.value)
                && exists m :: m in old(db.milestones) && m.id == id && r.value == Toggled(m)
    {
      var i := IndexOf(db.milestones, MilestoneKey, id);
      if i.None? {
        return None;
      }
      var p := ProjectOf(i.value);
      db.MilestoneWithAt(i.value, p, u, CanModifyProject);
      if !CanModifyProject(p, u) {
        return None;
      }
      var m := db.milestones[i.value];
      assert m in db.milestones;
      r := Some(Toggled(m));
      db.ReplaceMilestone(i.value, r.value);
    }

    /** `getOverdueMilestones`: past their target and not completed, when the
        project is readable. */
    function GetOverdueMilestones(pid: Id, u: User, today: Date): (r: seq<Milestone>)
      reads db
      requires db.Valid()
      ensures db.ProjectWith(pid, u, CanAccessProject) ==> r == FindOverdueMilestones(db.milestones, pid, today)
      ensures !db.ProjectWith(pid, u, CanAccessProject) ==> r == []
    {
      if Readable(pid, u) then FindOverdueMilestones(db.milestones, pid, today) else []
    }

    /** `getUpcomingMilestones`: target dates from today to 30 days ahead,
        both ends included, when the project is readable. */
    function GetUpcomingMilestones(pid: Id, u: User, today: Date): (r: seq<Milestone>)
      reads db
      requires db.Valid()
      ensures db.ProjectWith(pid, u, CanAccessProject) ==>
                forall m :: m in r <==> m in db.milestones && m.projectId == pid && today <= m.targetDate <= today + UpcomingDays
      ensures db.ProjectWith(pid, u, CanAccessProject) ==> SortedBy(r, TargetKey)
      ensures multiset(r) <= multiset(db.milestones)
      ensures !db.ProjectWith(pid, u, CanAccessProject) ==> r == []
    {
      if Readable(pid, u) then FindUpcomingMilestones(db.milestones, pid, today, today + UpcomingDays) else []
    }

    /** `getMilestoneProgress`: the percentage of the project's milestones
        that are completed; 0 with none, and 0 when the project is missing
        or unreadable. */
    function GetMilestoneProgress(pid: Id, u: User): (r: real)
      reads db
      requires db.Valid()
      ensures 0.0 <= r <= 100.0
      ensures !db.ProjectWith(pid, u, CanAccessProject) ==> r == 0.0
      ensures db.ProjectWith(pid, u, CanAccessProject) ==>
                r == Percent(CountByProjectIdAndCompletedTrue(db.milestones, pid), CountByProjectId(db.milestones, pid))
    {
      if Readable(pid, u) then
        var total := CountByProjectId(db.milestones, pid);
        var completed := CountByProjectIdAndCompletedTrue(db.milestones, pid);
        CompletedAtMostTotal(db.milestones, pid);
        PercentBounds(completed, total);
        Percent(completed, total)
      else 0.0
    }

    // ---------------------------------------------------------------- properties

    /** For one readable project and one `today`, no milestone is both overdue
        and upcoming, and both views only show milestones of the listing. */
    lemma OverdueAndUpcomingViews(pid: Id, u: User, today: Date, m: Milestone)
      requires db.Valid()
      ensures !(m in GetOverdueMilestones(pid, u, today) && m in GetUpcomingMilestones(pid, u, today))
      ensures m in GetOverdueMilestones(pid, u, today) ==> m in GetMilestonesByProjectId(pid, u)
      ensures m in GetUpcomingMilestones(pid, u, today) ==> m in GetMilestonesByProjectId(pid, u)
    {
    }

    /** Full progress means every milestone of the project is completed. */
    lemma FullProgressMeansAllCompleted(pid: Id, u: User)
      requires db.Valid() && db.ProjectWith(pid, u, CanAccessProject)
      requires CountByProjectId(db.milestones, pid) > 0
      ensures GetMilestoneProgress(pid, u) == 100.0 <==>
                CountByProjectIdAndCompletedTrue(db.milestones, pid) == CountByProjectId(db.milestones, pid)
    {
      CompletedAtMostTotal(db.milestones, pid);
      PercentBounds(CountByProjectIdAndCompletedTrue(db.milestones, pid), CountByProjectId(db.milestones, pid));
    }
  }

  // ---------------------------------------------------------------- properties

  /** Toggling the same milestone twice puts the table back as it was. */
  lemma ToggleTwiceRestores(ms: seq<Milestone>, m: Milestone)
    requires IdsIncreasing(ms, MilestoneKey) && m in ms
    ensures ReplaceById(ReplaceById(ms, MilestoneKey, Toggled(m)), MilestoneKey, Toggled(Toggled(m))) == ms
  {
    var once := ReplaceById(ms, MilestoneKey, Toggled(m));
    var twice := ReplaceById(once, MilestoneKey, Toggled(Toggled(m)));
    forall i | 0 <= i < |ms| ensures twice[i] == ms[i] {
      if ms[i].id == m.id {
        assert ms[i] in ms;
        IdsUnique(ms, MilestoneKey, ms[i], m);
      }
    }
  }

  /** Updating with a request that repeats the milestone's own fields leaves
      it as it was; an update never changes its id or its project. */
  lemma UpdateKeepsIdentity(m: Milestone, d: MilestoneDto)
    requires d.targetDate.Some?
    ensures Updated(m, d).id == m.id && Updated(m, d).projectId == m.projectId
    ensures d == MilestoneDto(m.title, m.description, Some(m.targetDate), m.completed) ==> Updated(m, d) == m
  {
  }
}
