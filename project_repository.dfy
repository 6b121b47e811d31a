/** `ProjectRepository`: the project queries over the project table (kept in
    insertion order, so `ORDER BY p.createdAt DESC` is newest id first). The
    `LEFT JOIN FETCH p.tasks` of several queries only loads each project's
    tasks eagerly; it selects the same projects. */
module ProjectRepository {
  import opened Common
  import opened Seqs
  import opened Strings
  import opened SqlLike
  import opened Entities

  function Everything(): Project -> bool { (p: Project) => true }
  function ByCreatorOrVisibility(creatorId: Id, v: Visibility): Project -> bool {
    (p: Project) => p.creatorId == creatorId || p.visibility == v
  }
  function NameContainsIgnoreCase(name: string): Project -> bool {
    (p: Project) => ContainsIgnoreCase(p.name, name)
  }
  /** `LOWER(p.name) LIKE LOWER(CONCAT('%', :name, '%'))`. */
  function NameLike(name: string): Project -> bool {
    (p: Project) => Like(ToLower(p.name), ToLower(Surround(name)))
  }
  function ByCreatorOrVisibilityAndNameLike(name: string, creatorId: Id, v: Visibility): Project -> bool {
    (p: Project) => (p.creatorId == creatorId || p.visibility == v) && Like(ToLower(p.name), ToLower(Surround(name)))
  }

  /** `findByNameContainingIgnoreCase`: a derived query, which escapes `%`
      and `_` in the term, so the term is matched literally (contents only). */
  function FindByNameContainingIgnoreCase(ps: seq<Project>, name: string): (r: seq<Project>)
    ensures forall p :: p in r <==> p in ps && ContainsIgnoreCase(p.name, name)
    ensures multiset(r) <= multiset(ps)
  {
    Filter(ps, NameContainsIgnoreCase(name))
  }

  /** `findByIdWithTasks`: the project with that id, or null. */
  function FindByIdWithTasks(ps: seq<Project>, id: Id): (r: Option<Project>)
    ensures r.Some? ==> r.value in ps && r.value.id == id
    ensures r.None? <==> forall p :: p in ps ==> p.id != id
  {
    Find(ps, ProjectKey, id)
  }

  /** `findAllWithTasks`: every project, newest first. */
  function FindAllWithTasks(ps: seq<Project>): (r: seq<Project>)
    ensures forall p :: p in r <==> p in ps
    ensures IdsIncreasing(ps, ProjectKey) ==> NewestFirst(r, ProjectKey)
  {
    Latest(ps, ProjectKey, Everything())
  }

  /** `findByCreatorOrVisibility`: the creator's projects and those with the
      given visibility, newest first. */
  function FindByCreatorOrVisibility(ps: seq<Project>, creatorId: Id, v: Visibility): (r: seq<Project>)
    ensures forall p :: p in r <==> p in ps && (p.creatorId == creatorId || p.visibility == v)
    ensures IdsIncreasing(ps, ProjectKey) ==> NewestFirst(r, ProjectKey)
  {
    Latest(ps, ProjectKey, ByCreatorOrVisibility(creatorId, v))
  }

  /** `findByNameContainingIgnoreCaseAndCreatorOrNameContainingIgnoreCaseAndVisibility`:
      the same rows as `findByCreatorOrVisibility` whose lower-cased name
      matches the unescaped pattern `%name%`, newest first. */
  function SearchByNameForCreatorOrVisibility(ps: seq<Project>, name: string, creatorId: Id, v: Visibility): (r: seq<Project>)
    ensures forall p :: p in r <==>
              p in ps && (p.creatorId == creatorId || p.visibility == v) && Like(ToLower(p.name), ToLower(Surround(name)))
    ensures IdsIncreasing(ps, ProjectKey) ==> NewestFirst(r, ProjectKey)
  {
    Latest(ps, ProjectKey, ByCreatorOrVisibilityAndNameLike(name, creatorId, v))
  }

  // ---------------------------------------------------------------- properties

  /** The name search for a creator is their listing narrowed by the name
      pattern, in the same order. */
  lemma SearchNarrowsListing(ps: seq<Project>, name: string, creatorId: Id, v: Visibility)
    ensures SearchByNameForCreatorOrVisibility(ps, name, creatorId, v)
            == Filter(FindByCreatorOrVisibility(ps, creatorId, v), NameLike(name))
  {
    FilterReverse(Filter(ps, ByCreatorOrVisibility(creatorId, v)), NameLike(name));
    FilterFilter(ps, ByCreatorOrVisibility(creatorId, v), NameLike(name),
                 ByCreatorOrVisibilityAndNameLike(name, creatorId, v));
  }

  /** A term without `%` and `_` is matched literally, ignoring case. */
  lemma NameLikeIsContains(s: string, name: string)
    requires NoWildcards(name)
    ensures Like(ToLower(s), ToLower(Surround(name))) <==> ContainsIgnoreCase(s, name)
  {
    LowerSurround(name);
    LikeContains(ToLower(s), ToLower(name));
  }

  /** With such a term, the pattern search selects the rows of the derived
      query that the creator may list. */
  lemma SearchAgreesWithContains(ps: seq<Project>, name: string, creatorId: Id, v: Visibility, p: Project)
    requires NoWildcards(name)
    ensures p in SearchByNameForCreatorOrVisibility(ps, name, creatorId, v)
            <==> p in FindByNameContainingIgnoreCase(ps, name) && (p.creatorId == creatorId || p.visibility == v)
  {
    NameLikeIsContains(p.name, name);
  }

  /** A public project named "abc" is found by the pattern search for "a_c"
      but not by the derived query. */
  lemma UnderscoreTermDiverges(p: Project, creatorId: Id)
    requires p.name == "abc" && p.visibility == PUBLIC
    ensures p in SearchByNameForCreatorOrVisibility([p], "a_c", creatorId, PUBLIC)
    ensures p !in FindByNameContainingIgnoreCase([p], "a_c")
  {
    UnderscoreMatchesAnyChar();
    assert ToLower("abc") == "abc";
    assert ToLower(Surround("a_c")) == Surround("a_c");
    assert ToLower("a_c") == "a_c";
  }
}
