/**
 * `ProjectUtils.getProject`: a project is looked up in a cache keyed by POM
 * path, then among the projects of the running session, and only then built.
 * The static `projectCache` is the field of a `ProjectCache` object; the
 * project builder is a function from a POM path to the project it builds,
 * `None` when building throws.
 */
module ProjectUtils {
  import opened Wrappers
  import opened Maven

  const PomFile: string := "pom.xml"

  /**
   * The path of `new File(basedir, "pom.xml")` for a basedir that is already a
   * normalized file path: the child is appended after one `/`, and an empty
   * parent stands for the file-system root.
   */
  function PomOf(basedir: string): string {
    if basedir == "" || basedir == "/" then "/" + PomFile else basedir + "/" + PomFile
  }

  /** No project of the session has `pom` as its POM. */
  ghost predicate NotInSession(session: seq<Project>, pom: string) {
    forall i :: 0 <= i < |session| ==> PomOf(session[i].basedir) != pom
  }

  /** `project` is the last project of the session whose POM is `pom`. */
  ghost predicate LastInSession(session: seq<Project>, pom: string, project: Project) {
    exists i :: 0 <= i < |session| && session[i] == project && PomOf(project.basedir) == pom
      && NotInSession(session[i + 1..], pom)
  }

  /** `getProjectFromSession`: the scan keeps overwriting its answer, so the last match wins. */
  method ProjectFromSession(session: seq<Project>, pom: string) returns (found: Option<Project>)
    ensures found.None? <==> NotInSession(session, pom)
    ensures found.Some? ==> LastInSession(session, pom, found.value)
  {
    found := None;
    ghost var at := -1;
    for i := 0 to |session|
      invariant found.None? <==> forall j :: 0 <= j < i ==> PomOf(session[j].basedir) != pom
      invariant found.Some? ==> 0 <= at < i && session[at] == found.value && PomOf(found.value.basedir) == pom
      invariant found.Some? ==> forall j :: at < j < i ==> PomOf(session[j].basedir) != pom
    {
      if PomOf(session[i].basedir) == pom {
        found := Some(session[i]);
        at := i;
      }
    }
    if found.Some? {
      assert NotInSession(session[at + 1..], pom) by {
        var rest := session[at + 1..];
        forall k | 0 <= k < |rest| ensures PomOf(rest[k].basedir) != pom {
          assert rest[k] == session[at + 1 + k];
        }
      }
    }
  }

  class ProjectCache {
    /** `projectCache`: POM path to built project. */
    var cache: map<string, Project>

    constructor ()
      ensures cache == map[]
    {
      cache := map[];
    }

    /**
     * `getProject(projectBuilder, session, pom, logger)`. Only a project that
     * had to be built is cached; one found in the session is not; a failed
     * build is swallowed and gives `None`.
     */
    method GetProject(build: string -> Option<Project>, session: seq<Project>, pom: string)
      returns (project: Option<Project>)
      modifies this
      ensures pom in old(cache) ==> project == Some(old(cache)[pom]) && cache == old(cache)
      ensures pom !in old(cache) && !NotInSession(session, pom) ==>
        project.Some? && LastInSession(session, pom, project.value) && cache == old(cache)
      ensures pom !in old(cache) && NotInSession(session, pom) ==> project == build(pom)
      ensures pom !in old(cache) && NotInSession(session, pom) && build(pom).Some? ==>
        cache == old(cache)[pom := build(pom).value]
      ensures build(pom).None? ==> cache == old(cache)
      ensures old(cache).Keys <= cache.Keys
      ensures forall p :: p in old(cache) ==> cache[p] == old(cache)[p]
    {
      if pom in cache {
        project := Some(cache[pom]);
      } else {
        project := ProjectFromSession(session, pom);
        if project.None? {
          project := build(pom);
          if project.Some? {
            cache := cache[pom := project.value];
          }
        }
      }
    }
  }
}
