/** `ProjectService`: the role-dependent project listing and search, reads
    gated by `canAccessProject`, creation (with the creator's OWNER
    membership), update and delete gated by `canModifyProject`, task-completion
    progress, and membership management gated by `canManageProject`. */
module ProjectService {
  import opened Common
  import opened Seqs
  import opened Strings
  import opened SqlLike
  import opened Entities
  import opened Dtos
  import opened Access
  import opened Store
  import opened Progress
  import opened ProjectRepository
  import TaskRepository

  function MemberOf(pid: Id): ProjectMember -> bool { (m: ProjectMember) => m.projectId == pid }
  function MembershipOf(pid: Id, uid: Id): ProjectMember -> bool {
    (m: ProjectMember) => m.projectId == pid && m.userId == uid
  }

  /** `findByProjectIdAndUserId` (and `existsByProjectIdAndUserId`): the
      membership row of `uid` in `pid`, if any. */
  function FindMembership(ms: seq<ProjectMember>, pid: Id, uid: Id): (r: Option<ProjectMember>)
    ensures r.Some? ==> r.value in ms && r.value.projectId == pid && r.value.userId == uid
    ensures r.None? <==> forall m :: m in ms ==> !(m.projectId == pid && m.userId == uid)
  {
    var f := Filter(ms, MembershipOf(pid, uid));
    if f == [] then None else assert f[0] in f; Some(f[0])
  }

  /** The project `convertToEntity` builds from a request and `createProject`
      completes with the creator. */
  function NewProject(id: Id, d: ProjectDto, creatorId: Id, v: Visibility): Project {
    Project(id, d.name, d.description, d.startDate, d.endDate, creatorId, v)
  }

  /** The request's visibility as `convertToEntity` reads it: absent keeps
      the entity's default, a name that is not a constant throws. */
  function RequestedVisibility(d: ProjectDto, default: Visibility): (r: Result<Visibility>)
    ensures r.Err? <==> d.visibility.Some? && d.visibility.value != "PUBLIC" && d.visibility.value != "PRIVATE"
    ensures r.Err? ==> r.error == IllegalArgument
    ensures d.visibility.None? ==> r == Ok(default)
    ensures r.Ok? && d.visibility.Some? ==> VisibilityName(r.value) == d.visibility.value
  {
    if d.visibility.None? then Ok(default)
    else match ParseVisibility(d.visibility.value)
      case Some(v) => Ok(v)
      case None => Err(IllegalArgument)
  }

  class ProjectService {
    const db: Store
    /** The visibility a new `Project` has before any is set; the entity's
        field initialiser is not part of this model. */
    const defaultVisibility: Visibility

    constructor (db: Store, defaultVisibility: Visibility)
      ensures this.db == db && this.defaultVisibility == defaultVisibility
    {
      this.db := db;
      this.defaultVisibility := defaultVisibility;
    }

    /** The readable project with that id. */
    function Readable(id: Id, u: User): (r: Option<Project>)
      reads db
      requires db.Valid()
      ensures r.Some? ==> r.value in db.projects && r.value.id == id && CanAccessProject(r.value, u)
      ensures r.Some? <==> db.ProjectWith(id, u, CanAccessProject)
    {
      FindMembers(db.projects, ProjectKey);
      match Find(db.projects, ProjectKey, id)
      case Some(p) => if CanAccessProject(p, u) then Some(p) else None
      case None => None
    }

    /** `getAllProjects`: every project for ADMIN, otherwise the caller's own
        and the PUBLIC ones; newest first either way. */
    function GetAllProjects(u: User): (r: seq<Project>)
      reads db
      requires db.Valid()
      ensures forall p :: p in r <==> p in db.projects && CanAccessProject(p, u)
      ensures NewestFirst(r, ProjectKey)
    {
      if u.role == Role.ADMIN then FindAllWithTasks(db.projects)
      else FindByCreatorOrVisibility(db.projects, u.id, PUBLIC)
    }

    /** `getProjectById`: empty for a missing project and for one the caller
        may not read. */
    function GetProjectById(id: Id, u: User): (r: Option<Project>)
      reads db
      requires db.Valid()
      ensures r.Some? ==> r.value in db.projects && r.value.id == id && CanAccessProject(r.value, u)
      ensures r.Some? <==> db.ProjectWith(id, u, CanAccessProject)
    {
      Readable(id, u)
    }

    /** `createProject`: always for a valid request, except that a visibility
        name that is not a constant throws before anything is saved; the
        caller becomes the creator and the only OWNER member. */
    method CreateProject(d: ProjectDto, u: User) returns (r: Result<Project>)
      requires db.Valid() && ValidProjectDto(d)
      modifies db`projects, db`nextProjectId, db`members, db`nextMemberId
      ensures db.Valid()
      ensures r.Err? <==> RequestedVisibility(d, defaultVisibility).Err?
      ensures r.Err? ==> r.error == IllegalArgument
      ensures r.Err? ==>
                && db.projects == old(db.projects) && db.nextProjectId == old(db.nextProjectId)
                && db.members == old(db.members) && db.nextMemberId == old(db.nextMemberId)
      ensures r.Ok? ==>
                && r.value == NewProject(old(db.nextProjectId), d, u.id, RequestedVisibility(d, defaultVisibility).value)
                && db.projects == old(db.projects) + [r.value] && db.nextProjectId == old(db.nextProjectId) + 1
                && db.members == old(db.members) + [ProjectMember(old(db.nextMemberId), r.value.id, u.id, OWNER)]
                && db.nextMemberId == old(db.nextMemberId) + 1
    {
      var v := RequestedVisibility(d, defaultVisibility);
      if v.Err? {
        return Err(v.error);
      }
      var p := NewProject(db.nextProjectId, d, u.id, v.value);
      var _ := db.SaveProjectWithOwner(p);
      r := Ok(p);
    }

    /** `updateProject`: empty and no change unless the project exists and the
        caller may modify it; then every request field is written, and a
        missing or unknown visibility name throws, rolling the update back. */
    method UpdateProject(id: Id, d: ProjectDto, u: User) returns (r: Result<Option<Project>>)
      requires db.Valid() && ValidProjectDto(d)
      modifies db`projects
      ensures db.Valid()
      ensures !old(db.ProjectWith(id, u, CanModifyProject)) ==> r == Ok(None)
      ensures r.Err? <==> old(db.ProjectWith(id, u, CanModifyProject)) && (d.visibility.None? || ParseVisibility(d.visibility.value).None?)
      ensures r.Err? ==> r.error == (if d.visibility.None? then NullValue else IllegalArgument)
      ensures (r.Ok? && r.value.Some?) <==> old(db.ProjectWith(id, u, CanModifyProject)) && d.visibility.Some? && ParseVisibility(d.visibility.value).Some?
      ensures !(r.Ok? && r.value.Some?) ==> db.projects == old(db.projects)
      ensures r.Ok? && r.value.Some? ==>
                && db.projects == ReplaceById(old(db.projects), ProjectKey, r.value.value)
                && exists p :: p in old(db.projects) && p.id == id
                               && r.value.value == NewProject(id, d, p.creatorId, ParseVisibility(d.visibility.value).value)
    {
      var i := IndexOf(db.projects, ProjectKey, id);
      if i.None? {
        return Ok(None);
      }
      var p := db.projects[i.value];
      db.ProjectWithAt(i.value, u, CanModifyProject);
      if !CanModifyProject(p, u) {
        return Ok(None);
      }
      if d.visibility.None? {
        return Err(NullValue);
      }
      var v := ParseVisibility(d.visibility.value);
      if v.None? {
        return Err(IllegalArgument);
      }
      var p' := NewProject(id, d, p.creatorId, v.value);
      db.ReplaceProject(i.value, p');
      r := Ok(Some(p'));
    }

    /** `deleteProject`: only when the project exists and the caller may
        modify it; its memberships, milestones and tasks, and those tasks'
        comments and time entries, go with it. */
    method DeleteProject(id: Id, u: User) returns (ok: bool)
      requires db.Valid()
      modifies db`projects, db`members, db`tasks, db`milestones, db`comments, db`timeEntries
      ensures db.Valid()
      ensures ok <==> old(db.ProjectWith(id, u, CanModifyProject))
      ensures !ok ==>
                && db.projects == old(db.projects) && db.members == old(db.members)
                && db.tasks == old(db.tasks) && db.milestones == old(db.milestones)
                && db.comments == old(db.comments) && db.timeEntries == old(db.timeEntries)
      ensures ok ==>
                && db.projects == RemoveById(old(db.projects), ProjectKey, id)
                && db.members == Detach(old(db.members), MemberProjectId, id)
                && db.milestones == Detach(old(db.milestones), MilestoneProjectId, id)
                && db.tasks == Detach(old(db.tasks), TaskProjectId, id)
                && db.comments == KeepRefsIn(old(db.comments), CommentTaskId, IdSet(db.tasks, TaskKey))
                && db.timeEntries == KeepRefsIn(old(db.timeEntries), EntryTaskId, IdSet(db.tasks, TaskKey))
    {
      var i := IndexOf(db.projects, ProjectKey, id);
      if i.None? {
        return false;
      }
      db.ProjectWithAt(i.value, u, CanModifyProject);
      if !CanModifyProject(db.projects[i.value], u) {
        return false;
      }
      db.DeleteProjectRows(id);
      ok := true;
    }

    /** `getProjectProgress`: for a readable project, the percentage of its
        tasks that are COMPLETED (0 with no tasks); empty otherwise. */
    function GetProjectProgress(id: Id, u: User): (r: Option<real>)
      reads db
      requires db.Valid()
      ensures r.Some? <==> db.ProjectWith(id, u, CanAccessProject)
      ensures r.Some? ==> 0.0 <= r.value <= 100.0
      ensures r.Some? ==>
                r.value == Percent(TaskRepository.CountByProjectIdAndStatus(db.tasks, id, COMPLETED),
                                   TaskRepository.CountByProjectId(db.tasks, id))
    {
      match Readable(id, u)
      case None => None
      case Some(_) =>
        var total := TaskRepository.CountByProjectId(db.tasks, id);
        var completed := TaskRepository.CountByProjectIdAndStatus(db.tasks, id, COMPLETED);
        TaskRepository.CountByStatusAtMostTotal(db.tasks, id, COMPLETED);
        PercentBounds(completed, total);
        Some(Percent(completed, total))
    }

    /** `searchProjects`: the derived contains-ignoring-case query for ADMIN;
        for anyone else the `LIKE` search over their own and PUBLIC projects. */
    function SearchProjects(name: string, u: User): (r: seq<Project>)
      reads db
      ensures u.role == Role.ADMIN ==> forall p :: p in r <==> p in db.projects && ContainsIgnoreCase(p.name, name)
      ensures u.role != Role.ADMIN ==>
                forall p :: p in r <==> p in db.projects && CanAccessProject(p, u) && Like(ToLower(p.name), ToLower(Surround(name)))
    {
      if u.role == Role.ADMIN then FindByNameContainingIgnoreCase(db.projects, name)
      else SearchByNameForCreatorOrVisibility(db.projects, name, u.id, PUBLIC)
    }

    /** `getProjectMembers`: the project's membership rows when it is
        readable, nothing otherwise. */
    function GetProjectMembers(pid: Id, u: User): (r: seq<ProjectMember>)
      reads db
      requires db.Valid()
      ensures db.ProjectWith(pid, u, CanAccessProject) ==> forall m :: m in r <==> m in db.members && m.projectId == pid
      ensures !db.ProjectWith(pid, u, CanAccessProject) ==> r == []
    {
      if Readable(pid, u).Some? then Filter(db.members, MemberOf(pid)) else []
    }

    /** `addProjectMember`: false and no change when the project or the user
        is missing, the caller may not manage the project, or the user is
        already a member; otherwise the role name, upper-cased, must be a
        constant (null and unknown names throw) and exactly one row is added. */
    method AddProjectMember(pid: Id, uid: Id, role: Option<string>, u: User) returns (r: Result<bool>)
      requires db.Valid()
      modifies db`members, db`nextMemberId
      ensures db.Valid()
      ensures old(!db.ProjectWith(pid, u, CanManageProject)) ==> r == Ok(false)
      ensures old(forall x :: x in db.users ==> x.id != uid) ==> r == Ok(false)
      ensures old(FindMembership(db.members, pid, uid)).Some? ==> r == Ok(false)
      ensures r.Err? <==>
                && old(db.ProjectWith(pid, u, CanManageProject) && (exists x :: x in db.users && x.id == uid))
                && old(FindMembership(db.members, pid, uid)).None?
                && (role.None? || ParseMemberRole(role.value).None?)
      ensures r == Ok(true) <==>
                && old(db.ProjectWith(pid, u, CanManageProject) && (exists x :: x in db.users && x.id == uid))
                && old(FindMembership(db.members, pid, uid)).None?
                && role.Some? && ParseMemberRole(role.value).Some?
      ensures r.Err? ==> r.error == (if role.None? then NullValue else IllegalArgument)
      ensures r != Ok(true) ==> db.members == old(db.members) && db.nextMemberId == old(db.nextMemberId)
      ensures r == Ok(true) ==>
                && role.Some? && ParseMemberRole(role.value).Some?
                && db.members == old(db.members) + [ProjectMember(old(db.nextMemberId), pid, uid, ParseMemberRole(role.value).value)]
                && db.nextMemberId == old(db.nextMemberId) + 1
    {
      var i := IndexOf(db.projects, ProjectKey, pid);
      var x := Find(db.users, UserKey, uid);
      if i.None? || x.None? {
        return Ok(false);
      }
      db.ProjectWithAt(i.value, u, CanManageProject);
      if !CanManageProject(db.projects[i.value], u) {
        return Ok(false);
      }
      if FindMembership(db.members, pid, uid).Some? {
        return Ok(false);
      }
      if role.None? {
        return Err(NullValue);
      }
      var mr := ParseMemberRole(role.value);
      if mr.None? {
        return Err(IllegalArgument);
      }
      assert db.projects[i.value] in db.projects;
      db.SaveMember(ProjectMember(db.nextMemberId, pid, uid, mr.value));
      r := Ok(true);
    }

    /** `removeProjectMember`: never the project's creator, whoever asks;
        otherwise true exactly when the caller may manage the project and the
        membership exists, and then only that row goes. */
    method RemoveProjectMember(pid: Id, uid: Id, u: User) returns (ok: bool)
      requires db.Valid()
      modifies db`members
      ensures db.Valid()
      ensures ok <==>
                && old(db.ProjectWith(pid, u, (p: Project, u: User) => CanManageProject(p, u) && p.creatorId != uid))
                && old(FindMembership(db.members, pid, uid)).Some?
      ensures !ok ==> db.members == old(db.members)
      ensures ok ==> db.members == RemoveById(old(db.members), MemberKey, old(FindMembership(db.members, pid, uid)).value.id)
    {
      var i := IndexOf(db.projects, ProjectKey, pid);
      if i.None? {
        return false;
      }
      var p := db.projects[i.value];
      db.ProjectWithAt(i.value, u, (p: Project, u: User) => CanManageProject(p, u) && p.creatorId != uid);
      if !CanManageProject(p, u) || p.creatorId == uid {
        return false;
      }
      var m := FindMembership(db.members, pid, uid);
      if m.None? {
        return false;
      }
      forall q | q in db.projects && q.id == m.value.projectId ensures q.creatorId != m.value.userId {
        IdsUnique(db.projects, ProjectKey, p, q);
      }
      db.RemoveMember(m.value);
      ok := true;
    }

    // ---------------------------------------------------------------- properties

    /** A non-ADMIN search is the caller's listing narrowed by the name
        pattern, in the same order; with a term free of `%` and `_` it is
        exactly the listing's projects whose name contains the term. */
    lemma SearchWithinListing(name: string, u: User)
      requires db.Valid() && u.role != Role.ADMIN
      ensures SearchProjects(name, u) == Filter(GetAllProjects(u), NameLike(name))
      ensures NoWildcards(name) ==>
                forall p :: p in SearchProjects(name, u) <==> p in GetAllProjects(u) && ContainsIgnoreCase(p.name, name)
    {
      SearchNarrowsListing(db.projects, name, u.id, PUBLIC);
      if NoWildcards(name) {
        forall p | p in db.projects {
          NameLikeIsContains(p.name, name);
        }
      }
    }

    /** ADMIN lists every project; a plain user who created none and sees no
        PUBLIC project lists nothing. */
    lemma AdminListsEverything(admin: User, u: User)
      requires db.Valid() && admin.role == Role.ADMIN && u.role == Role.USER
      ensures forall p :: p in GetAllProjects(admin) <==> p in db.projects
      ensures (forall p :: p in db.projects ==> p.creatorId != u.id && p.visibility == PRIVATE) ==> GetAllProjects(u) == []
    {
      var r := GetAllProjects(u);
      assert r != [] ==> r[0] in r;
    }

    /** Whoever may modify a project may read it, so the creator's own
        projects are always in their listing. */
    lemma CreatorListsOwnProjects(u: User, p: Project)
      requires db.Valid() && p in db.projects && p.creatorId == u.id
      ensures p in GetAllProjects(u)
      ensures GetProjectById(p.id, u) == Some(p)
    {
      FindMember(db.projects, ProjectKey, p);
    }
  }
}
