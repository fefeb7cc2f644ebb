/**
 * The artifact half of `ClasspathWriter.write`: the direct dependencies of
 * all projects merged into one insertion-ordered `LinkedHashSet<Artifact>`
 * (a sequence with no two artifacts of equal coordinates here), the
 * projects' own artifacts removed, the exclusions applied, and the remaining
 * artifacts of an allowed type mapped to their file paths.
 */
module Dependencies {
  import opened Wrappers
  import opened Strings
  import opened PathNormalizer
  import opened Maven

  // ---------------------------------------------------------------- the artifact set

  /** An artifact equal to `a` is in the set. */
  predicate Contains(s: seq<Artifact>, a: Artifact) {
    exists b :: b in s && CoordinatesOf(b) == CoordinatesOf(a)
  }

  /** No two artifacts of the set are equal. */
  ghost predicate Distinct(s: seq<Artifact>) {
    forall i, j :: 0 <= i < j < |s| ==> CoordinatesOf(s[i]) != CoordinatesOf(s[j])
  }

  /** `LinkedHashSet.add`: the first of equal artifacts stays, at its place. */
  function AddArtifact(s: seq<Artifact>, a: Artifact): seq<Artifact> {
    if Contains(s, a) then s else s + [a]
  }

  /** The set keeps its distinctness, holds `a` afterwards, and gains `a` only when no equal artifact was there. */
  lemma AddArtifactCorrect(s: seq<Artifact>, a: Artifact)
    ensures Distinct(s) ==> Distinct(AddArtifact(s, a))
    ensures Contains(AddArtifact(s, a), a)
    ensures forall b :: b in AddArtifact(s, a) <==> b in s || (b == a && !Contains(s, a))
  {
    if !Contains(s, a) {
      var r := s + [a];
      assert r[|s|] == a && a in r;
    }
  }

  /** An artifact the set holds stays held. */
  lemma AddArtifactKeeps(s: seq<Artifact>, a: Artifact, x: Artifact)
    requires Contains(s, x)
    ensures Contains(AddArtifact(s, a), x)
  {
    var b :| b in s && CoordinatesOf(b) == CoordinatesOf(x);
    assert b in AddArtifact(s, a);
  }

  /** `LinkedHashSet.addAll`, and the copy constructor when `s` is empty. */
  function AddArtifacts(s: seq<Artifact>, xs: seq<Artifact>): seq<Artifact>
    decreases |xs|
  {
    if xs == [] then s else AddArtifact(AddArtifacts(s, xs[..|xs| - 1]), xs[|xs| - 1])
  }

  /** The set stays distinct, gains only artifacts of `xs`, and holds one equal to each of them. */
  lemma {:induction false} AddArtifactsCorrect(s: seq<Artifact>, xs: seq<Artifact>)
    ensures Distinct(s) ==> Distinct(AddArtifacts(s, xs))
    ensures forall b :: b in AddArtifacts(s, xs) ==> b in s || b in xs
    ensures forall x :: x in xs ==> Contains(AddArtifacts(s, xs), x)
    decreases |xs|
  {
    if xs != [] {
      var init, last := xs[..|xs| - 1], xs[|xs| - 1];
      var before := AddArtifacts(s, init);
      AddArtifactsCorrect(s, init);
      AddArtifactCorrect(before, last);
      assert forall x :: x in init ==> x in xs;
      assert forall x :: x in xs ==> x in init || x == last;
      forall x | x in init ensures Contains(AddArtifact(before, last), x) {
        AddArtifactKeeps(before, last, x);
      }
    }
  }

  // ---------------------------------------------------------------- the projects' ids

  /** `artifactFactory.createArtifact(groupId, artifactId, version, null, packaging)`. */
  function ProjectArtifact(project: Project): Artifact {
    Artifact(project.groupId, project.artifactId, project.version, project.packaging, None, None, None)
  }

  /** The ids of the projects' artifacts. */
  function ProjectArtifactIds(projects: seq<Project>, idOf: Artifact -> string): set<string> {
    set i | 0 <= i < |projects| :: idOf(ProjectArtifact(projects[i]))
  }

  /** The first loop of `write`: every project contributes the id of its artifact, and nothing else is added. */
  method CollectProjectArtifactIds(projects: seq<Project>, idOf: Artifact -> string) returns (ids: set<string>)
    ensures forall id :: id in ids <==> exists i :: 0 <= i < |projects| && id == idOf(ProjectArtifact(projects[i]))
    ensures ids == ProjectArtifactIds(projects, idOf)
  {
    ids := {};
    for i := 0 to |projects|
      invariant forall id :: id in ids <==> exists k :: 0 <= k < i && id == idOf(ProjectArtifact(projects[k]))
    {
      ids := ids + {idOf(ProjectArtifact(projects[i]))};
    }
  }

  // ---------------------------------------------------------------- merging direct dependencies

  /**
   * A dependency of `project` as it enters the set: resolved first unless it
   * is one of the projects (by id) or shares the project's groupId.
   */
  function Prepared(project: Project, a: Artifact, ids: set<string>, env: Environment): (r: Artifact)
    ensures CoordinatesOf(r) == CoordinatesOf(a)
    ensures env.idOf(a) in ids || project.groupId == a.groupId ==> r == a
  {
    if env.idOf(a) !in ids && project.groupId != a.groupId then a.(file := env.resolve(a)) else a
  }

  /** The inner loop over one project's dependencies. */
  function AddDependencies(s: seq<Artifact>, project: Project, deps: seq<Artifact>, ids: set<string>,
                           env: Environment): seq<Artifact>
    decreases |deps|
  {
    if deps == [] then s
    else AddArtifact(AddDependencies(s, project, deps[..|deps| - 1], ids, env),
                     Prepared(project, deps[|deps| - 1], ids, env))
  }

  /** The outer loop over the projects. */
  function MergeProjects(s: seq<Artifact>, projects: seq<Project>, ids: set<string>, env: Environment): seq<Artifact>
    decreases |projects|
  {
    if projects == [] then s
    else
      var project := projects[|projects| - 1];
      AddDependencies(MergeProjects(s, projects[..|projects| - 1], ids, env), project, project.dependencies, ids, env)
  }

  /** The root project's direct dependencies, followed by those of every project. */
  function DirectDependencies(root: Project, projects: seq<Project>, ids: set<string>, env: Environment): seq<Artifact> {
    MergeProjects(AddArtifacts([], root.dependencies), projects, ids, env)
  }

  /** Some project of `projects` lists `x` (as prepared) among its dependencies. */
  ghost predicate FromSomeProject(x: Artifact, projects: seq<Project>, ids: set<string>, env: Environment) {
    exists i, j :: 0 <= i < |projects| && 0 <= j < |projects[i].dependencies|
      && x == Prepared(projects[i], projects[i].dependencies[j], ids, env)
  }

  lemma {:induction false} AddDependenciesCorrect(s: seq<Artifact>, project: Project, deps: seq<Artifact>,
                                                  ids: set<string>, env: Environment)
    ensures Distinct(s) ==> Distinct(AddDependencies(s, project, deps, ids, env))
    ensures forall x :: x in AddDependencies(s, project, deps, ids, env) ==>
      x in s || exists j :: 0 <= j < |deps| && x == Prepared(project, deps[j], ids, env)
    ensures forall j :: 0 <= j < |deps| ==> Contains(AddDependencies(s, project, deps, ids, env), deps[j])
    decreases |deps|
  {
    if deps != [] {
      var init := deps[..|deps| - 1];
      var before := AddDependencies(s, project, init, ids, env);
      AddDependenciesCorrect(s, project, init, ids, env);
      var last := Prepared(project, deps[|deps| - 1], ids, env);
      AddArtifactCorrect(before, last);
      assert forall j :: 0 <= j < |init| ==> init[j] == deps[j];
      forall j | 0 <= j < |init| ensures Contains(AddArtifact(before, last), deps[j]) {
        AddArtifactKeeps(before, last, deps[j]);
      }
    }
  }

  lemma {:induction false} MergeProjectsCorrect(s: seq<Artifact>, projects: seq<Project>, ids: set<string>,
                                                env: Environment)
    ensures Distinct(s) ==> Distinct(MergeProjects(s, projects, ids, env))
    ensures forall x :: x in MergeProjects(s, projects, ids, env) ==> x in s || FromSomeProject(x, projects, ids, env)
    ensures forall i, j :: 0 <= i < |projects| && 0 <= j < |projects[i].dependencies| ==>
      Contains(MergeProjects(s, projects, ids, env), projects[i].dependencies[j])
  {
    MergeProjectsFrom(s, projects, ids, env);
    MergeProjectsContains(s, projects, ids, env);
  }

  lemma {:induction false} MergeProjectsFrom(s: seq<Artifact>, projects: seq<Project>, ids: set<string>,
                                             env: Environment)
    ensures Distinct(s) ==> Distinct(MergeProjects(s, projects, ids, env))
    ensures forall x :: x in MergeProjects(s, projects, ids, env) ==> x in s || FromSomeProject(x, projects, ids, env)
    decreases |projects|
  {
    if projects != [] {
      var init := projects[..|projects| - 1];
      var project := projects[|projects| - 1];
      var before := MergeProjects(s, init, ids, env);
      MergeProjectsFrom(s, init, ids, env);
      AddDependenciesCorrect(before, project, project.dependencies, ids, env);
      forall x | FromSomeProject(x, init, ids, env) ensures FromSomeProject(x, projects, ids, env) {
        var i, j :| 0 <= i < |init| && 0 <= j < |init[i].dependencies| && x == Prepared(init[i], init[i].dependencies[j], ids, env);
        assert projects[i] == init[i];
      }
      forall x | x in MergeProjects(s, projects, ids, env) && x !in before
        ensures FromSomeProject(x, projects, ids, env)
      {
        var j :| 0 <= j < |project.dependencies| && x == Prepared(project, project.dependencies[j], ids, env);
        assert projects[|projects| - 1] == project;
      }
    }
  }

  lemma {:induction false} MergeProjectsContains(s: seq<Artifact>, projects: seq<Project>, ids: set<string>,
                                                 env: Environment)
    ensures forall i, j :: 0 <= i < |projects| && 0 <= j < |projects[i].dependencies| ==>
      Contains(MergeProjects(s, projects, ids, env), projects[i].dependencies[j])
    decreases |projects|
  {
    if projects != [] {
      var init := projects[..|projects| - 1];
      var project := projects[|projects| - 1];
      var before := MergeProjects(s, init, ids, env);
      MergeProjectsContains(s, init, ids, env);
      AddDependenciesCorrect(before, project, project.dependencies, ids, env);
      forall i, j | 0 <= i < |projects| && 0 <= j < |projects[i].dependencies|
        ensures Contains(MergeProjects(s, projects, ids, env), projects[i].dependencies[j])
      {
        if i < |init| {
          assert init[i] == projects[i];
          AddDependenciesKeeps(before, project, project.dependencies, ids, env, projects[i].dependencies[j]);
        }
      }
    }
  }

  lemma {:induction false} AddDependenciesKeeps(s: seq<Artifact>, project: Project, deps: seq<Artifact>,
                                                ids: set<string>, env: Environment, x: Artifact)
    requires Contains(s, x)
    ensures Contains(AddDependencies(s, project, deps, ids, env), x)
    decreases |deps|
  {
    if deps != [] {
      var before := AddDependencies(s, project, deps[..|deps| - 1], ids, env);
      AddDependenciesKeeps(s, project, deps[..|deps| - 1], ids, env, x);
      AddArtifactKeeps(before, Prepared(project, deps[|deps| - 1], ids, env), x);
    }
  }

  /**
   * The merged set has no two equal artifacts; it holds an artifact equal to
   * every direct dependency of the root and of every project; and each member
   * is a root dependency or a project's dependency, resolved unless it is one
   * of the projects or shares its project's groupId.
   */
  lemma DirectDependenciesCorrect(root: Project, projects: seq<Project>, ids: set<string>, env: Environment)
    ensures Distinct(DirectDependencies(root, projects, ids, env))
    ensures forall x :: x in DirectDependencies(root, projects, ids, env) ==>
      x in root.dependencies || FromSomeProject(x, projects, ids, env)
    ensures forall d :: d in root.dependencies ==> Contains(DirectDependencies(root, projects, ids, env), d)
    ensures forall i, j :: 0 <= i < |projects| && 0 <= j < |projects[i].dependencies| ==>
      Contains(DirectDependencies(root, projects, ids, env), projects[i].dependencies[j])
  {
    var base := AddArtifacts([], root.dependencies);
    AddArtifactsCorrect([], root.dependencies);
    MergeProjectsCorrect(base, projects, ids, env);
    forall d | d in root.dependencies ensures Contains(DirectDependencies(root, projects, ids, env), d) {
      MergeProjectsKeeps(base, projects, ids, env, d);
    }
  }

  lemma {:induction false} MergeProjectsKeeps(s: seq<Artifact>, projects: seq<Project>, ids: set<string>,
                                              env: Environment, x: Artifact)
    requires Contains(s, x)
    ensures Contains(MergeProjects(s, projects, ids, env), x)
    decreases |projects|
  {
    if projects != [] {
      var project := projects[|projects| - 1];
      MergeProjectsKeeps(s, projects[..|projects| - 1], ids, env, x);
      AddDependenciesKeeps(MergeProjects(s, projects[..|projects| - 1], ids, env), project,
                           project.dependencies, ids, env, x);
    }
  }

  /** The inner dependency loop of `write` for one project. */
  method AddProjectDependencies(allArtifacts: seq<Artifact>, project: Project, ids: set<string>, env: Environment)
    returns (merged: seq<Artifact>)
    ensures merged == AddDependencies(allArtifacts, project, project.dependencies, ids, env)
  {
    merged := allArtifacts;
    for j := 0 to |project.dependencies|
      invariant merged == AddDependencies(allArtifacts, project, project.dependencies[..j], ids, env)
    {
      assert project.dependencies[..j + 1][..j] == project.dependencies[..j];
      var artifact := project.dependencies[j];
      if env.idOf(artifact) !in ids && project.groupId != artifact.groupId {
        artifact := artifact.(file := env.resolve(artifact));
      }
      merged := AddArtifact(merged, artifact);
    }
    assert project.dependencies[..|project.dependencies|] == project.dependencies;
  }

  // ---------------------------------------------------------------- removing the projects' own artifacts

  /** The artifact has the artifactId and groupId of the artifact of one of the projects. */
  predicate IsProjectArtifact(a: Artifact, projects: seq<Project>) {
    exists i :: 0 <= i < |projects| && projects[i].artifact.Some?
      && projects[i].artifact.value.artifactId == a.artifactId
      && projects[i].artifact.value.groupId == a.groupId
  }

  /** The inner removal loop for one project artifact. */
  function WithoutArtifactOf(s: seq<Artifact>, projectArtifact: Artifact): seq<Artifact>
    decreases |s|
  {
    if s == [] then []
    else
      var last := s[|s| - 1];
      var before := WithoutArtifactOf(s[..|s| - 1], projectArtifact);
      if last.artifactId == projectArtifact.artifactId && last.groupId == projectArtifact.groupId
      then before else before + [last]
  }

  /** Exactly the artifacts without the project artifact's groupId and artifactId are kept. */
  lemma {:induction false} WithoutArtifactOfCorrect(s: seq<Artifact>, projectArtifact: Artifact)
    ensures forall a :: a in WithoutArtifactOf(s, projectArtifact) <==>
      (a in s && !(a.artifactId == projectArtifact.artifactId && a.groupId == projectArtifact.groupId))
    decreases |s|
  {
    if s != [] {
      WithoutArtifactOfCorrect(s[..|s| - 1], projectArtifact);
      assert forall a :: a in s <==> a in s[..|s| - 1] || a == s[|s| - 1];
    }
  }

  /** The projects' own artifacts removed, one project after another. */
  function WithoutProjectArtifacts(s: seq<Artifact>, projects: seq<Project>): seq<Artifact>
    decreases |projects|
  {
    if projects == [] then s
    else
      var before := WithoutProjectArtifacts(s, projects[..|projects| - 1]);
      var project := projects[|projects| - 1];
      if project.artifact.Some? then WithoutArtifactOf(before, project.artifact.value) else before
  }

  /** Exactly the artifacts that are not a project's own artifact are kept. */
  lemma {:induction false} WithoutProjectArtifactsCorrect(s: seq<Artifact>, projects: seq<Project>)
    ensures forall a :: a in WithoutProjectArtifacts(s, projects) <==> a in s && !IsProjectArtifact(a, projects)
    decreases |projects|
  {
    if projects != [] {
      var init := projects[..|projects| - 1];
      var project := projects[|projects| - 1];
      WithoutProjectArtifactsCorrect(s, init);
      if project.artifact.Some? {
        WithoutArtifactOfCorrect(WithoutProjectArtifacts(s, init), project.artifact.value);
      }
      assert forall i :: 0 <= i < |init| ==> init[i] == projects[i];
    }
  }

  /** The loop "remove the project artifacts" of `write`. */
  method RemoveProjectArtifacts(allArtifacts: seq<Artifact>, projects: seq<Project>)
    returns (remaining: seq<Artifact>)
    ensures remaining == WithoutProjectArtifacts(allArtifacts, projects)
  {
    remaining := allArtifacts;
    for i := 0 to |projects|
      invariant remaining == WithoutProjectArtifacts(allArtifacts, projects[..i])
    {
      assert projects[..i + 1][..i] == projects[..i];
      var projectArtifact := projects[i].artifact;
      if projectArtifact.Some? {
        var before := remaining;
        remaining := [];
        for j := 0 to |before|
          invariant remaining == WithoutArtifactOf(before[..j], projectArtifact.value)
        {
          assert before[..j + 1][..j] == before[..j];
          var artifact := before[j];
          if !(artifact.artifactId == projectArtifact.value.artifactId
               && artifact.groupId == projectArtifact.value.groupId) {
            remaining := remaining + [artifact];
          }
        }
        assert before[..|before|] == before;
      }
    }
    assert projects[..|projects|] == projects;
  }

  // ---------------------------------------------------------------- exclusions

  /** The groupId, `groupId:artifactId` or `groupId:artifactId:version` of `a` is excluded. */
  predicate Excluded(a: Artifact, classpathExcludes: set<string>) {
    a.groupId in classpathExcludes
    || a.groupId + ":" + a.artifactId in classpathExcludes
    || a.groupId + ":" + a.artifactId + ":" + a.version in classpathExcludes
  }

  /** The set after the exclusion loop; a null exclusion set removes nothing. */
  function WithoutExcluded(s: seq<Artifact>, classpathExcludes: Option<set<string>>): seq<Artifact>
    decreases |s|
  {
    if s == [] then []
    else
      var last := s[|s| - 1];
      var before := WithoutExcluded(s[..|s| - 1], classpathExcludes);
      if classpathExcludes.Some? && Excluded(last, classpathExcludes.value) then before else before + [last]
  }

  /** Without an exclusion set the artifacts are unchanged; with one, exactly the non-excluded ones are kept. */
  lemma {:induction false} WithoutExcludedCorrect(s: seq<Artifact>, classpathExcludes: Option<set<string>>)
    ensures classpathExcludes.None? ==> WithoutExcluded(s, classpathExcludes) == s
    ensures classpathExcludes.Some? ==>
      forall a :: a in WithoutExcluded(s, classpathExcludes) <==> a in s && !Excluded(a, classpathExcludes.value)
    decreases |s|
  {
    if s != [] {
      var last := s[|s| - 1];
      WithoutExcludedCorrect(s[..|s| - 1], classpathExcludes);
      assert forall a :: a in s <==> a in s[..|s| - 1] || a == last;
      assert s == s[..|s| - 1] + [last];
    }
  }

  /** The loop "remove excluded ones" of `write`. */
  method RemoveExcluded(allArtifacts: seq<Artifact>, classpathExcludes: Option<set<string>>)
    returns (remaining: seq<Artifact>)
    ensures remaining == WithoutExcluded(allArtifacts, classpathExcludes)
  {
    remaining := [];
    for i := 0 to |allArtifacts|
      invariant remaining == WithoutExcluded(allArtifacts[..i], classpathExcludes)
    {
      assert allArtifacts[..i + 1][..i] == allArtifacts[..i];
      var artifact := allArtifacts[i];
      var excluded := false;
      if classpathExcludes.Some? {
        if artifact.groupId in classpathExcludes.value {
          excluded := true;
        } else if artifact.groupId + ":" + artifact.artifactId in classpathExcludes.value {
          excluded := true;
        } else if artifact.groupId + ":" + artifact.artifactId + ":" + artifact.version in classpathExcludes.value {
          excluded := true;
        }
      }
      if !excluded {
        remaining := remaining + [artifact];
      }
    }
    assert allArtifacts[..|allArtifacts|] == allArtifacts;
  }

  // ---------------------------------------------------------------- types, files and paths

  /** The artifact's file, after one resolve attempt when it had none. */
  function LocatedFile(a: Artifact, env: Environment): Option<string> {
    if a.file.Some? then a.file else env.resolve(a)
  }

  /** The artifact is of an allowed type and has a file. */
  predicate OnClasspath(a: Artifact, settings: Settings, env: Environment) {
    a.artifactType in settings.classpathArtifactTypes && LocatedFile(a, env).Some?
  }

  /**
   * The path written for a file: normalized, with the normalized local
   * repository directory replaced by the repository variable.
   */
  function LibraryPath(file: string, settings: Settings): string {
    Replace(Normalize(file), Normalize(settings.localRepositoryBasedir), settings.repositoryVariableName)
  }

  /** A file under the local repository gets a path that starts with the repository variable. */
  lemma RepositoryFileStartsWithVariable(file: string, settings: Settings)
    requires |Normalize(settings.localRepositoryBasedir)| > 0
    requires StartsWith(Normalize(file), Normalize(settings.localRepositoryBasedir))
    ensures StartsWith(LibraryPath(file, settings), settings.repositoryVariableName)
  {
    ReplaceLeading(Normalize(file), Normalize(settings.localRepositoryBasedir), settings.repositoryVariableName);
  }

  /** The paths list after the type and file filter, in the set's order. */
  function LibraryPaths(s: seq<Artifact>, settings: Settings, env: Environment): seq<string>
    decreases |s|
  {
    if s == [] then []
    else
      var last := s[|s| - 1];
      var before := LibraryPaths(s[..|s| - 1], settings, env);
      if OnClasspath(last, settings, env)
      then before + [LibraryPath(LocatedFile(last, env).value, settings)]
      else before
  }

  /** The positions of `s` that hold an artifact of an allowed type with a file. */
  ghost function ClasspathIndices(s: seq<Artifact>, settings: Settings, env: Environment): set<int> {
    set i | 0 <= i < |s| && OnClasspath(s[i], settings, env)
  }

  /**
   * Exactly one path per artifact of an allowed type with a file; every path
   * is the path of such an artifact; and every such artifact contributes its
   * path.
   */
  lemma {:induction false} LibraryPathsCorrect(s: seq<Artifact>, settings: Settings, env: Environment)
    ensures |LibraryPaths(s, settings, env)| == |ClasspathIndices(s, settings, env)| <= |s|
    ensures forall k :: 0 <= k < |LibraryPaths(s, settings, env)| ==>
      exists a :: a in s && OnClasspath(a, settings, env)
        && LibraryPaths(s, settings, env)[k] == LibraryPath(LocatedFile(a, env).value, settings)
    ensures forall a :: a in s && OnClasspath(a, settings, env) ==>
      LibraryPath(LocatedFile(a, env).value, settings) in LibraryPaths(s, settings, env)
    decreases |s|
  {
    LibraryPathsCount(s, settings, env);
    if s != [] {
      var init, last := s[..|s| - 1], s[|s| - 1];
      LibraryPathsCorrect(init, settings, env);
      assert forall a :: a in s <==> a in init || a == last;
      forall k | 0 <= k < |LibraryPaths(s, settings, env)|
        ensures exists a :: (a in s && OnClasspath(a, settings, env)
                             && LibraryPaths(s, settings, env)[k] == LibraryPath(LocatedFile(a, env).value, settings))
      {
        if k < |LibraryPaths(init, settings, env)| {
          assert LibraryPaths(s, settings, env)[k] == LibraryPaths(init, settings, env)[k];
          var a :| a in init && OnClasspath(a, settings, env)
            && LibraryPaths(init, settings, env)[k] == LibraryPath(LocatedFile(a, env).value, settings);
          assert a in s;
        } else {
          assert last in s;
        }
      }
    }
  }

  /** The number of paths is the number of positions holding a located artifact of an allowed type. */
  lemma {:induction false} LibraryPathsCount(s: seq<Artifact>, settings: Settings, env: Environment)
    ensures |LibraryPaths(s, settings, env)| == |ClasspathIndices(s, settings, env)| <= |s|
    decreases |s|
  {
    if s == [] {
      assert ClasspathIndices(s, settings, env) == {};
    } else {
      var init := s[..|s| - 1];
      LibraryPathsCount(init, settings, env);
      ClasspathIndicesLast(s, settings, env);
      assert |s| - 1 !in ClasspathIndices(init, settings, env);
    }
  }

  lemma ClasspathIndicesLast(s: seq<Artifact>, settings: Settings, env: Environment)
    requires s != []
    ensures ClasspathIndices(s, settings, env) ==
      ClasspathIndices(s[..|s| - 1], settings, env) + (if OnClasspath(s[|s| - 1], settings, env) then {|s| - 1} else {})
  {
    var init := s[..|s| - 1];
    forall i | 0 <= i < |init| ensures s[i] == init[i] { }
  }

  /** The `ListIterator` loop of `write` that replaces artifacts by paths or drops them. */
  method ArtifactPaths(allArtifacts: seq<Artifact>, settings: Settings, env: Environment)
    returns (allArtifactPaths: seq<string>)
    ensures allArtifactPaths == LibraryPaths(allArtifacts, settings, env)
  {
    allArtifactPaths := [];
    for i := 0 to |allArtifacts|
      invariant allArtifactPaths == LibraryPaths(allArtifacts[..i], settings, env)
    {
      assert allArtifacts[..i + 1][..i] == allArtifacts[..i];
      var artifact := allArtifacts[i];
      if artifact.artifactType in settings.classpathArtifactTypes {
        var artifactFile := artifact.file;
        if artifactFile.None? {
          artifactFile := env.resolve(artifact);
        }
        if artifactFile.Some? {
          var path := Replace(Normalize(artifactFile.value), Normalize(settings.localRepositoryBasedir),
                              settings.repositoryVariableName);
          allArtifactPaths := allArtifactPaths + [path];
        }
      }
    }
    assert allArtifacts[..|allArtifacts|] == allArtifacts;
  }
}
